/** The `/extract` handler `predict` of src/main.py: retrieve passages for
    the request text, join them, ask the reader once, and keep its answer
    only when its score is strictly above the configured threshold. */
module Serving {
  import opened Wrappers
  import opened Retrieval
  import opened Assembly

  /** The reader's output `{"answer": ..., "score": ...}`. */
  datatype Candidate = Candidate(answer: string, score: real)

  /** The arguments of one reader invocation. */
  datatype ReaderCall = ReaderCall(question: string, context: string)

  /** The pretrained question-answering model, as an opaque function. */
  type ReaderModel = (string, string) -> Candidate

  /** The `[HYPERPARAMS]` values `predict` reads, already parsed. */
  datatype Hyperparams = Hyperparams(indexName: string, contextSize: int, qaThreshold: real)

  /** The text returned when no answer clears the threshold. */
  const NotFound := "Answer is not found"

  /** The question-answering pipeline object. It records every invocation. */
  class Reader {
    const model: ReaderModel
    var calls: seq<ReaderCall>

    constructor (model: ReaderModel)
      ensures this.model == model && calls == []
    {
      this.model := model;
      calls := [];
    }

    /** `question_answerer(question=..., context=...)`. */
    method Answer(question: string, context: string) returns (c: Candidate)
      modifies this
      ensures calls == old(calls) + [ReaderCall(question, context)]
      ensures c == model(question, context)
    {
      calls := calls + [ReaderCall(question, context)];
      c := model(question, context);
    }
  }

  /** The conditional expression choosing the response text. */
  function Decide(candidate: Candidate, threshold: real): (text: string)
    ensures text == candidate.answer || text == NotFound
    ensures candidate.score > threshold ==> text == candidate.answer
    ensures candidate.score <= threshold ==> text == NotFound
  {
    if candidate.score > threshold then candidate.answer else NotFound
  }

  /** Lowering the threshold never turns a returned answer into the sentinel,
      and a score equal to the threshold is rejected. */
  lemma DecideThreshold(candidate: Candidate, threshold: real, lower: real)
    requires lower <= threshold
    ensures Decide(candidate, threshold) == candidate.answer ==> Decide(candidate, lower) == candidate.answer
    ensures Decide(Candidate(candidate.answer, threshold), threshold) == NotFound
  {
  }

  /** The handler tests' scores against a threshold of 0.5: 0.8 keeps the
      answer, 0.3 gives the sentinel. */
  lemma DecideScenarios()
    ensures Decide(Candidate("answer", 0.8), 0.5) == "answer"
    ensures Decide(Candidate("answer", 0.3), 0.5) == NotFound
  {
  }

  /** `predict(body)`: one search for the request text on the configured
      index and size, then, unless the search raised, exactly one reader call
      on the joined passages (also when nothing was retrieved, with context
      `""`), and the thresholded answer. */
  method Predict(question: string, config: Hyperparams, es: SearchClient, reader: Reader)
    returns (r: Result<string>)
    modifies es, reader
    ensures es.requests == old(es.requests) + [ContextRequest(Text(question), config.indexName, config.contextSize)]
    ensures ContextFor(es.backend, Text(question), config.indexName, config.contextSize).Failure? ==>
      r == Failure(ContextFor(es.backend, Text(question), config.indexName, config.contextSize).error) &&
      reader.calls == old(reader.calls)
    ensures ContextFor(es.backend, Text(question), config.indexName, config.contextSize).Success? ==>
      var context := Join(ContextFor(es.backend, Text(question), config.indexName, config.contextSize).value);
      reader.calls == old(reader.calls) + [ReaderCall(question, context)] &&
      r == Success(Decide(reader.model(question, context), config.qaThreshold))
  {
    var retrieval := GetContext(Text(question), config.indexName, config.contextSize, es);
    match retrieval
    case Failure(e) =>
      r := Failure(e);
    case Success(passages) =>
      var context := Join(passages);
      var result := reader.Answer(question, context);
      r := Success(Decide(result, config.qaThreshold));
  }

  // What the unit tests of the handler expect instead of the code above.

  /** The sentinel spelled as the tests expect it, with a trailing period. */
  const NotFoundAsTested := "Answer is not found."

  /** The decision with the tests' sentinel. */
  function DecideAsTested(candidate: Candidate, threshold: real): (text: string)
    ensures text == candidate.answer || text == NotFoundAsTested
    ensures candidate.score > threshold ==> text == candidate.answer
    ensures candidate.score <= threshold ==> text == NotFoundAsTested
  {
    if candidate.score > threshold then candidate.answer else NotFoundAsTested
  }

  /** The low-score scenario of the tests: the code's sentinel is not the
      expected text, it lacks the final period. */
  lemma SentinelLacksPeriod()
    ensures Decide(Candidate("answer", 0.3), 0.5) == NotFound
    ensures Decide(Candidate("answer", 0.3), 0.5) != "Answer is not found."
    ensures DecideAsTested(Candidate("answer", 0.3), 0.5) == "Answer is not found."
    ensures NotFoundAsTested == NotFound + "."
  {
  }

  /** The handler as the tests expect it: the reader is skipped when the
      joined context is empty, and the sentinel has the trailing period. */
  method PredictAsTested(question: string, config: Hyperparams, es: SearchClient, reader: Reader)
    returns (r: Result<string>)
    modifies es, reader
    ensures es.requests == old(es.requests) + [ContextRequest(Text(question), config.indexName, config.contextSize)]
    ensures ContextFor(es.backend, Text(question), config.indexName, config.contextSize) == Success([]) ==>
      r == Success(NotFoundAsTested) && reader.calls == old(reader.calls)
    ensures ContextFor(es.backend, Text(question), config.indexName, config.contextSize).Failure? ==>
      r == Failure(ContextFor(es.backend, Text(question), config.indexName, config.contextSize).error) &&
      reader.calls == old(reader.calls)
    ensures ContextFor(es.backend, Text(question), config.indexName, config.contextSize).Success? ==>
      var context := Join(ContextFor(es.backend, Text(question), config.indexName, config.contextSize).value);
      (context == "" ==> r == Success(NotFoundAsTested) && reader.calls == old(reader.calls)) &&
      (context != "" ==>
        reader.calls == old(reader.calls) + [ReaderCall(question, context)] &&
        r == Success(DecideAsTested(reader.model(question, context), config.qaThreshold)))
  {
    var retrieval := GetContext(Text(question), config.indexName, config.contextSize, es);
    match retrieval
    case Failure(e) =>
      r := Failure(e);
    case Success(passages) =>
      var context := Join(passages);
      if context == "" {
        r := Success(NotFoundAsTested);
      } else {
        var result := reader.Answer(question, context);
        r := Success(DecideAsTested(result, config.qaThreshold));
      }
  }
}
