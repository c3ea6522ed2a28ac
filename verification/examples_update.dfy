/** The two dataset-row transforms of src/utils.py: `update_context` writes
    the joined retrieval into `example["context"]`, `calculate_element_mrr`
    writes the gold passage's reciprocal rank into `example["mrr"]`. Both
    mutate the caller's dict in place and return it. */
module Examples {
  import opened Wrappers
  import opened Retrieval
  import opened Assembly
  import opened Ranking

  /** A dataset row: a Python dict from column names to values. */
  type Row = map<string, Value>

  /** `example["context"] in concat_context` compares by equality, so a
      non-text gold value never matches a passage and scores 0. */
  function GoldRank(gold: Value, retrieved: seq<string>): (rr: real)
    ensures 0.0 <= rr <= 1.0
  {
    match gold
    case Text(g) => ReciprocalRankRange(g, retrieved); ReciprocalRank(g, retrieved)
    case Number(_) => 0.0
  }

  /** The row `update_context` leaves behind, or the exception it raises. */
  function WithContext(row: Row, backend: Backend, index: string, size: int): (r: Result<Row>)
    ensures "question" !in row ==> r == Failure(KeyError("question"))
    ensures r.Success? ==> r.value.Keys == row.Keys + {"context"}
    ensures r.Success? ==> forall k :: k in row && k != "context" ==> r.value[k] == row[k]
  {
    if "question" !in row then Failure(KeyError("question"))
    else
      match ContextFor(backend, row["question"], index, size)
      case Failure(e) => Failure(e)
      case Success(passages) => Success(row["context" := Text(Join(passages))])
  }

  /** The row `calculate_element_mrr` leaves behind, or the exception it
      raises. The `"context"` lookup happens after the search. */
  function WithMrr(row: Row, backend: Backend, index: string, size: int): (r: Result<Row>)
    ensures "question" !in row ==> r == Failure(KeyError("question"))
    ensures r.Success? ==> r.value.Keys == row.Keys + {"mrr"}
    ensures r.Success? ==> forall k :: k in row && k != "mrr" ==> r.value[k] == row[k]
    ensures r.Success? ==> r.value["mrr"].Number? && 0.0 <= r.value["mrr"].number <= 1.0
  {
    if "question" !in row then Failure(KeyError("question"))
    else
      match ContextFor(backend, row["question"], index, size)
      case Failure(e) => Failure(e)
      case Success(passages) =>
        if "context" !in row then Failure(KeyError("context"))
        else
          Success(row["mrr" := Number(GoldRank(row["context"], passages))])
  }

  /** The stored context is the retrieved passages joined by single spaces,
      in retrieval order; an empty retrieval stores the empty string. */
  lemma WithContextJoins(row: Row, backend: Backend, index: string, size: int)
    requires "question" in row
    ensures var retrieval := ContextFor(backend, row["question"], index, size);
      (retrieval.Failure? ==> WithContext(row, backend, index, size) == Failure(retrieval.error)) &&
      (retrieval.Success? ==>
        WithContext(row, backend, index, size).Success? &&
        WithContext(row, backend, index, size).value["context"] == Text(Join(retrieval.value)))
    ensures ContextFor(backend, row["question"], index, size) == Success([]) ==>
      WithContext(row, backend, index, size).value["context"] == Text("")
  {
  }

  /** For a row with a question: a search error propagates, a row without
      `"context"` raises `KeyError("context")` once the search succeeded, and
      a row with both keys and a successful search is always scored. */
  lemma WithMrrFails(row: Row, backend: Backend, index: string, size: int)
    requires "question" in row
    ensures var retrieval := ContextFor(backend, row["question"], index, size);
      && (retrieval.Failure? ==> WithMrr(row, backend, index, size) == Failure(retrieval.error))
      && (retrieval.Success? && "context" !in row ==>
            WithMrr(row, backend, index, size) == Failure(KeyError("context")))
      && (retrieval.Success? && "context" in row ==> WithMrr(row, backend, index, size).Success?)
  {
  }

  /** The stored score is 0 exactly when the gold passage is not, as a whole
      string, among the retrieved passages; otherwise it is `1/(i+1)` for the
      first position `i` holding it, and it is 1 exactly when that position
      is the first. */
  lemma {:induction false} WithMrrScore(row: Row, backend: Backend, index: string, size: int)
    requires WithMrr(row, backend, index, size).Success?
    ensures ContextFor(backend, row["question"], index, size).Success? && "context" in row
    ensures var retrieved := ContextFor(backend, row["question"], index, size).value;
      var mrr := WithMrr(row, backend, index, size).value["mrr"].number;
      && (mrr == 0.0 <==> !(row["context"].Text? && row["context"].text in retrieved))
      && (forall i :: 0 <= i < |retrieved| && row["context"] == Text(retrieved[i]) &&
                      (forall j :: 0 <= j < i ==> retrieved[j] != retrieved[i]) ==>
                      mrr == Reciprocal(i + 1))
      && (mrr == 1.0 <==> |retrieved| > 0 && row["context"] == Text(retrieved[0]))
  {
    var retrieved := ContextFor(backend, row["question"], index, size).value;
    match row["context"]
    case Text(g) => ReciprocalRankIsOne(g, retrieved);
    case Number(_) =>
  }

  /** When the backend returns at most one hit per request and one passage
      is requested, every score is a hit (1) or a miss (0). */
  lemma WithMrrSingle(row: Row, backend: Backend, index: string)
    requires RespectsSize(backend)
    requires WithMrr(row, backend, index, 1).Success?
    ensures WithMrr(row, backend, index, 1).value["mrr"] in {Number(0.0), Number(1.0)}
  {
    ContextForLength(backend, row["question"], index, 1);
    var retrieved := ContextFor(backend, row["question"], index, 1).value;
    match row["context"]
    case Text(g) => ReciprocalRankSingle(g, retrieved);
    case Number(_) =>
  }

  /** A dataset row as the dict the transforms mutate in place. */
  class Example {
    var fields: Row

    constructor (row: Row)
      ensures fields == row
    {
      fields := row;
    }

    /** `update_context(example, index, size, es)`: one retrieval for the
        row's question (none if it has no question), then `"context"` is
        overwritten; on an exception the row is left as it was. */
    method UpdateContext(index: string, size: int, es: SearchClient) returns (status: Outcome)
      modifies this, es
      ensures "question" in old(fields) ==>
        es.requests == old(es.requests) + [ContextRequest(old(fields)["question"], index, size)]
      ensures "question" !in old(fields) ==> es.requests == old(es.requests)
      ensures WithContext(old(fields), es.backend, index, size).Success? ==>
        status == Pass && fields == WithContext(old(fields), es.backend, index, size).value
      ensures WithContext(old(fields), es.backend, index, size).Failure? ==>
        status == Fail(WithContext(old(fields), es.backend, index, size).error) && fields == old(fields)
    {
      if "question" !in fields {
        return Fail(KeyError("question"));
      }
      var retrieval := GetContext(fields["question"], index, size, es);
      match retrieval
      case Failure(e) =>
        status := Fail(e);
      case Success(passages) =>
        fields := fields["context" := Text(Join(passages))];
        status := Pass;
    }

    /** `calculate_element_mrr(example, index, size, es)`: one retrieval for
        the row's question (none if it has no question), then `"mrr"` is
        overwritten; on an exception the row is left as it was. */
    method CalculateElementMrr(index: string, size: int, es: SearchClient) returns (status: Outcome)
      modifies this, es
      ensures "question" in old(fields) ==>
        es.requests == old(es.requests) + [ContextRequest(old(fields)["question"], index, size)]
      ensures "question" !in old(fields) ==> es.requests == old(es.requests)
      ensures WithMrr(old(fields), es.backend, index, size).Success? ==>
        status == Pass && fields == WithMrr(old(fields), es.backend, index, size).value
      ensures WithMrr(old(fields), es.backend, index, size).Failure? ==>
        status == Fail(WithMrr(old(fields), es.backend, index, size).error) && fields == old(fields)
    {
      if "question" !in fields {
        return Fail(KeyError("question"));
      }
      var retrieval := GetContext(fields["question"], index, size, es);
      match retrieval
      case Failure(e) =>
        status := Fail(e);
      case Success(passages) =>
        if "context" !in fields {
          return Fail(KeyError("context"));
        }
        fields := fields["mrr" := Number(GoldRank(fields["context"], passages))];
        status := Pass;
    }
  }
}
