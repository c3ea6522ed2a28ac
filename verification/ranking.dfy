/** Reciprocal-rank scoring: the expression in `calculate_element_mrr`
    (src/utils.py), built on Python's `in` and `list.index`. */
module Ranking {

  /** `1 / k` for a 1-based rank `k`. */
  function Reciprocal(k: nat): real
    requires k >= 1
  {
    1.0 / k as real
  }

  /** Python's `retrieved.index(gold)`: the first position holding exactly
      `gold`. */
  function FirstIndex(gold: string, retrieved: seq<string>): (i: nat)
    requires gold in retrieved
    ensures i < |retrieved| && retrieved[i] == gold
    ensures forall j :: 0 <= j < i ==> retrieved[j] != gold
  {
    if retrieved[0] == gold then 0 else 1 + FirstIndex(gold, retrieved[1..])
  }

  /** `1 / (retrieved.index(gold) + 1) if gold in retrieved else 0`. */
  function ReciprocalRank(gold: string, retrieved: seq<string>): (rr: real)
    ensures rr == 0.0 <==> gold !in retrieved
    ensures forall i :: 0 <= i < |retrieved| && retrieved[i] == gold &&
                        (forall j :: 0 <= j < i ==> retrieved[j] != gold) ==>
                        rr == Reciprocal(i + 1)
  {
    if gold in retrieved then Reciprocal(FirstIndex(gold, retrieved) + 1) else 0.0
  }

  /** The score is 0 or `1/k` for a rank `k` within the retrieved list, and
      so lies between 0 and 1. */
  lemma ReciprocalRankRange(gold: string, retrieved: seq<string>)
    ensures var rr := ReciprocalRank(gold, retrieved);
      0.0 <= rr <= 1.0 &&
      (rr == 0.0 || exists k :: 1 <= k <= |retrieved| && rr == Reciprocal(k))
  {
    if gold in retrieved {
      var k := FirstIndex(gold, retrieved) + 1;
      assert ReciprocalRank(gold, retrieved) == Reciprocal(k);
    }
  }

  /** A full score of 1 means the gold passage was retrieved first. */
  lemma ReciprocalRankIsOne(gold: string, retrieved: seq<string>)
    ensures ReciprocalRank(gold, retrieved) == 1.0 <==> |retrieved| > 0 && retrieved[0] == gold
  {
    if gold in retrieved {
      var i := FirstIndex(gold, retrieved);
      if i > 0 {
        assert (i + 1) as real * Reciprocal(i + 1) == 1.0;
        assert Reciprocal(i + 1) < 1.0;
      }
    }
  }

  /** Only the first occurrence counts: passages after it, duplicates of the
      gold passage included, do not change the score. */
  lemma ReciprocalRankFirstOccurrence(gold: string, retrieved: seq<string>, later: seq<string>)
    requires gold in retrieved
    ensures ReciprocalRank(gold, retrieved + later) == ReciprocalRank(gold, retrieved)
  {
    var i := FirstIndex(gold, retrieved);
    assert (retrieved + later)[i] == gold;
  }

  /** With at most one retrieved passage the score is a hit (1) or a miss (0). */
  lemma ReciprocalRankSingle(gold: string, retrieved: seq<string>)
    requires |retrieved| <= 1
    ensures ReciprocalRank(gold, retrieved) == 0.0 || ReciprocalRank(gold, retrieved) == 1.0
  {
    ReciprocalRankIsOne(gold, retrieved);
  }

  /** The unit-test scenarios: a hit in second place, a duplicated hit in
      first place, a miss, and passages that merely contain the gold text. */
  lemma ReciprocalRankScenarios()
    ensures ReciprocalRank("answer", ["dummy", "answer"]) == 0.5
    ensures ReciprocalRank("answer", ["answer", "answer"]) == 1.0
    ensures ReciprocalRank("answer", ["dummy", "dummy"]) == 0.0
    ensures ReciprocalRank("answer", ["answers", "the answer"]) == 0.0
  {
    assert ["dummy", "answer"][1] == "answer";
    assert ["answer", "answer"][0] == "answer";
    assert "answers" != "answer" && "the answer" != "answer";
  }
}
