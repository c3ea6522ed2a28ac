/** Passage retrieval: `get_context` in src/utils.py. One full-text `match`
    query on the `context` field of an index; the answer is the list of the
    hits' `_source.context` texts, in the backend's ranking order. */
module Retrieval {
  import opened Wrappers

  /** A value held in a dataset row (a Python dict value). */
  datatype Value = Text(text: string) | Number(number: real)

  /** The query body `{"match": {field: text}}`. */
  datatype Query = Match(field: string, text: Value)

  /** The arguments of one `es.search` call. */
  datatype SearchRequest = SearchRequest(index: string, query: Query, size: int)

  /** One entry of `hits.hits`; only its `_source` document is read. */
  datatype Hit = Hit(source: map<string, string>)

  /** A search response, reduced to its `hits.hits` list. */
  datatype SearchResponse = SearchResponse(hits: seq<Hit>)

  /** The search backend, seen from the client: what it answers to each
      request, or the error it raises. Its ranking is not modelled. */
  type Backend = SearchRequest -> Result<SearchResponse>

  /** The document field that holds passage texts. */
  const ContextField := "context"

  /** The request `get_context` sends for a question. */
  function ContextRequest(question: Value, index: string, size: int): SearchRequest
  {
    SearchRequest(index, Match(ContextField, question), size)
  }

  /** The list comprehension over `hits.hits`: one text per hit, in hit
      order; a hit without a `context` field raises `KeyError`. */
  function Passages(hits: seq<Hit>): (r: Result<seq<string>>)
    ensures r.Success? <==> forall i :: 0 <= i < |hits| ==> ContextField in hits[i].source
    ensures r.Success? ==>
      |r.value| == |hits| &&
      forall i :: 0 <= i < |hits| ==> r.value[i] == hits[i].source[ContextField]
    ensures r.Failure? ==> r.error == KeyError(ContextField)
  {
    if hits == [] then Success([])
    else if ContextField !in hits[0].source then Failure(KeyError(ContextField))
    else
      match Passages(hits[1..])
      case Failure(e) => Failure(e)
      case Success(rest) => Success([hits[0].source[ContextField]] + rest)
  }

  /** What `get_context(question, index, size, es)` evaluates to when the
      backend behind `es` is `backend`. */
  function ContextFor(backend: Backend, question: Value, index: string, size: int): (r: Result<seq<string>>)
    ensures var res := backend(ContextRequest(question, index, size));
      && (res.Failure? ==> r == Failure(res.error))
      && (res.Success? ==>
            (r.Success? <==> forall i :: 0 <= i < |res.value.hits| ==> ContextField in res.value.hits[i].source))
      && (res.Success? && r.Failure? ==> r.error == KeyError(ContextField))
      && (r.Success? ==>
            res.Success? && |r.value| == |res.value.hits| &&
            forall i :: 0 <= i < |r.value| ==> r.value[i] == res.value.hits[i].source[ContextField])
  {
    match backend(ContextRequest(question, index, size))
    case Failure(e) => Failure(e)
    case Success(response) => Passages(response.hits)
  }

  /** A backend that never returns more hits than the request's `size`. */
  ghost predicate RespectsSize(backend: Backend)
  {
    forall req :: backend(req).Success? ==> |backend(req).value.hits| <= req.size
  }

  /** A successful retrieval has one passage per hit of the response, so a
      backend that respects `size` yields at most `size` passages. */
  lemma ContextForLength(backend: Backend, question: Value, index: string, size: int)
    requires ContextFor(backend, question, index, size).Success?
    ensures backend(ContextRequest(question, index, size)).Success?
    ensures |ContextFor(backend, question, index, size).value|
         == |backend(ContextRequest(question, index, size)).value.hits|
    ensures RespectsSize(backend) ==> |ContextFor(backend, question, index, size).value| <= size
  {
  }

  /** The Elasticsearch client. It records every request it issues; what the
      backend answers is fixed for the life of the client. */
  class SearchClient {
    const backend: Backend
    var requests: seq<SearchRequest>

    constructor (backend: Backend)
      ensures this.backend == backend && requests == []
    {
      this.backend := backend;
      requests := [];
    }

    /** `es.search(index=..., body=..., size=...)`: one round trip. */
    method Search(req: SearchRequest) returns (res: Result<SearchResponse>)
      modifies this
      ensures requests == old(requests) + [req]
      ensures res == backend(req)
    {
      requests := requests + [req];
      res := backend(req);
    }
  }

  /** `get_context`: exactly one search, on `index`, bounded by `size`, with a
      `match` query of the question on the `context` field; the result is the
      hits' passage texts in order, and a backend error propagates. */
  method GetContext(question: Value, index: string, size: int, es: SearchClient)
    returns (r: Result<seq<string>>)
    modifies es
    ensures es.requests == old(es.requests) + [SearchRequest(index, Match("context", question), size)]
    ensures r == ContextFor(es.backend, question, index, size)
  {
    var res := es.Search(ContextRequest(question, index, size));
    match res
    case Failure(e) =>
      r := Failure(e);
    case Success(response) =>
      r := Passages(response.hits);
  }
}
