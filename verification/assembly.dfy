/** Context assembly: `" ".join(passages)`, used by `update_context` in
    src/utils.py and by `predict` in src/main.py. */
module Assembly {

  /** Python's `" ".join(passages)`: the context starts with the first
      passage, followed by a separating space when there are more. */
  function Join(passages: seq<string>): (context: string)
    ensures |passages| == 0 ==> context == ""
    ensures |passages| >= 1 ==> passages[0] <= context
    ensures |passages| >= 2 ==> |context| > |passages[0]| && context[|passages[0]|] == ' '
  {
    if |passages| == 0 then ""
    else if |passages| == 1 then passages[0]
    else passages[0] + " " + Join(passages[1..])
  }

  /** Python's `s.split(" ")`: the pieces between single spaces, empty pieces
      included, so there is always at least one. */
  function Split(s: string): (parts: seq<string>)
    ensures |parts| >= 1
  {
    if |s| == 0 then [""]
    else
      var rest := Split(s[1..]);
      if s[0] == ' ' then [""] + rest
      else [[s[0]] + rest[0]] + rest[1..]
  }

  /** Total number of characters in a list of passages. */
  function TotalLength(passages: seq<string>): nat
  {
    if |passages| == 0 then 0 else |passages[0]| + TotalLength(passages[1..])
  }

  /** A piece without spaces in front of `t` glues onto the first piece of `t`. */
  lemma {:induction false} SplitSpaceFree(p: string, t: string)
    requires ' ' !in p
    ensures Split(p + t) == [p + Split(t)[0]] + Split(t)[1..]
  {
    if |p| == 0 {
      var parts := Split(t);
      assert p + t == t && p + parts[0] == parts[0];
      assert parts == [parts[0]] + parts[1..];
    } else {
      assert (p + t)[1..] == p[1..] + t;
      SplitSpaceFree(p[1..], t);
      assert [p[0]] + (p[1..] + Split(t)[0]) == p + Split(t)[0];
    }
  }

  /** Round trip: splitting the joined context on single spaces gives back the
      passages, in retrieval order, when no passage contains a space. */
  lemma {:induction false} SplitJoin(passages: seq<string>)
    requires |passages| >= 1
    requires forall i :: 0 <= i < |passages| ==> ' ' !in passages[i]
    ensures Split(Join(passages)) == passages
  {
    if |passages| == 1 {
      SplitSpaceFree(passages[0], "");
      assert passages[0] + "" == passages[0];
    } else {
      var rest := passages[1..];
      SplitJoin(rest);
      var tail := " " + Join(rest);
      assert tail[1..] == Join(rest);
      assert Split(tail) == [""] + rest;
      assert Join(passages) == passages[0] + tail;
      SplitSpaceFree(passages[0], tail);
      assert passages[0] + "" == passages[0];
      assert passages == [passages[0]] + rest;
    }
  }

  /** Appending a passage appends a space and that passage to the context. */
  lemma {:induction false} JoinAppend(passages: seq<string>, p: string)
    requires |passages| >= 1
    ensures Join(passages + [p]) == Join(passages) + " " + p
  {
    if |passages| == 1 {
      assert passages + [p] == [passages[0], p];
    } else {
      assert (passages + [p])[1..] == passages[1..] + [p];
      JoinAppend(passages[1..], p);
    }
  }

  /** The context holds every passage character plus one separator between
      each pair of neighbouring passages. */
  lemma {:induction false} JoinLength(passages: seq<string>)
    ensures |Join(passages)| == TotalLength(passages) + (if |passages| == 0 then 0 else |passages| - 1)
  {
    if |passages| > 1 {
      JoinLength(passages[1..]);
    }
  }

  /** The context is empty exactly when nothing was retrieved or the single
      retrieved passage is itself empty. */
  lemma JoinEmpty(passages: seq<string>)
    ensures Join(passages) == "" <==> |passages| == 0 || (|passages| == 1 && passages[0] == "")
  {
    if |passages| > 1 {
      assert |Join(passages)| >= 1;
    }
  }
}
