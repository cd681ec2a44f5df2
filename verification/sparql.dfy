/** `SkosSearch.sparql_query`: one GET request to a SPARQL endpoint and the
    classification of the response.  The HTTP exchange itself is not part of
    the model; callers pass a transport, a function from the request sent to
    the response received. */
module Sparql {
  import opened Wrappers

  /** One solution of a SPARQL SELECT in the JSON results format: every bound
      variable maps to its RDF term, whose members (`type`, `value`, ...) are
      all strings. */
  type Binding = map<string, map<string, string>>

  /** An endpoint URL with optional basic-authentication credentials. */
  datatype EndpointDetails = EndpointDetails(endpoint: string, username: Option<string>, password: Option<string>)

  datatype Credentials = Credentials(username: string, password: string)

  /** A GET of `url` carrying the query as its `query` parameter. */
  datatype Request = Request(url: string, query: string, accept: string, auth: Option<Credentials>, timeout: nat)

  /** What comes back: the status code, the body as text, and the value of
      the body's `results.bindings` member when the body is a JSON document
      that has one. */
  datatype Response = Response(status: int, text: string, bindings: Option<seq<Binding>>)

  const ResultsMediaType: string := "application/sparql-results+json"

  /** Seconds. */
  const Timeout: nat := 1000

  /** Credentials go with the request only when both halves are given. */
  function BasicAuth(username: Option<string>, password: Option<string>): (r: Option<Credentials>)
    ensures r.Some? <==> username.Some? && password.Some?
    ensures r.Some? ==> r.value.username == username.value && r.value.password == password.value
  {
    if username.Some? && password.Some? then Some(Credentials(username.value, password.value)) else None
  }

  function BuildRequest(query: string, endpoint: string, username: Option<string>, password: Option<string>): (r: Request)
    ensures r.url == endpoint && r.query == query
    ensures r.accept == ResultsMediaType && r.timeout == Timeout
    ensures r.auth.Some? <==> username.Some? && password.Some?
    ensures r.auth.Some? ==> r.auth.value == Credentials(username.value, password.value)
  {
    Request(endpoint, query, ResultsMediaType, BasicAuth(username, password), Timeout)
  }

  /** A username without a password, or the reverse, is dropped: the request
      is the unauthenticated one. */
  lemma LoneCredentialIgnored(query: string, endpoint: string, username: Option<string>, password: Option<string>)
    requires username.None? || password.None?
    ensures BuildRequest(query, endpoint, username, password) == BuildRequest(query, endpoint, None, None)
  {
  }

  predicate IsSuccess(status: int)
  {
    200 <= status < 300
  }

  datatype Payload = Bindings(rows: seq<Binding>) | Text(text: string)

  /** The triple `(ok, status, payload)` that `sparql_query` returns. */
  datatype Outcome = Outcome(ok: bool, status: int, payload: Payload)

  /** A 2xx response whose body has no `results.bindings`: decoding or
      indexing the JSON raises. */
  datatype QueryError = MalformedResults(status: int)

  /** A 2xx status yields the bindings, any other status the body text; the
      status is passed on as received. */
  function Classify(response: Response): (r: Result<Outcome, QueryError>)
    ensures r.Failure? <==> IsSuccess(response.status) && response.bindings.None?
    ensures r.Failure? ==> r.error.status == response.status
    ensures r.Success? ==> r.value.status == response.status
    ensures r.Success? ==> (r.value.ok <==> IsSuccess(response.status))
    ensures r.Success? ==> (r.value.ok <==> r.value.payload.Bindings?)
    ensures r.Success? && r.value.ok ==> r.value.payload.rows == response.bindings.value
    ensures r.Success? && !r.value.ok ==> r.value.payload.text == response.text
  {
    if IsSuccess(response.status) then
      match response.bindings
      case Some(rows) => Success(Outcome(true, response.status, Bindings(rows)))
      case None => Failure(MalformedResults(response.status))
    else
      Success(Outcome(false, response.status, Text(response.text)))
  }

  /** `sparql_query(query, endpoint, username, password)`. */
  function SparqlQuery(query: string, endpoint: string, username: Option<string>, password: Option<string>,
                       transport: Request -> Response): (r: Result<Outcome, QueryError>)
    ensures var response := transport(BuildRequest(query, endpoint, username, password));
            && (r.Failure? <==> IsSuccess(response.status) && response.bindings.None?)
            && (r.Failure? ==> r.error.status == response.status)
            && (r.Success? ==> r.value.status == response.status)
            && (r.Success? ==> (r.value.ok <==> r.value.payload.Bindings?))
            && (r.Success? && r.value.ok <==> IsSuccess(response.status) && response.bindings.Some?)
            && (r.Success? && r.value.ok ==> r.value.payload == Bindings(response.bindings.value))
            && (!IsSuccess(response.status) ==> r == Success(Outcome(false, response.status, Text(response.text))))
  {
    Classify(transport(BuildRequest(query, endpoint, username, password)))
  }
}
