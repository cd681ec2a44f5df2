/** The search side of `SkosSearch`: the list of search methods, the two
    query builders `weighted` and `preflabel`, and `federated_search`, which
    runs one builder against every endpoint.  The endpoints' answers come
    from a transport parameter; the concurrency of `asyncio.gather` is
    replaced by a sequential map with the same results. */
module SkosSearch {
  import opened Wrappers
  import opened Replace
  import opened QueryTemplate
  import opened Templates
  import opened Sparql
  import opened Decimal

  /** `get_search_methods()`. */
  const SearchMethods: seq<string> := ["weighted", "preflabel"]

  datatype SearchMethod = Weighted | Preflabel

  function MethodName(m: SearchMethod): string
  {
    match m
    case Weighted => "weighted"
    case Preflabel => "preflabel"
  }

  /** The builder that `getattr(SkosSearch, name)` selects, for the names in
      `SearchMethods`. */
  function ParseSearchMethod(name: string): (r: Option<SearchMethod>)
    ensures r.Some? <==> name in SearchMethods
    ensures r.Some? ==> MethodName(r.value) == name
  {
    if name == "weighted" then Some(Weighted)
    else if name == "preflabel" then Some(Preflabel)
    else None
  }

  /** The listed names are exactly the builders' names. */
  lemma SearchMethodNames()
    ensures SearchMethods == [MethodName(Weighted), MethodName(Preflabel)]
    ensures forall m :: ParseSearchMethod(MethodName(m)) == Some(m)
  {
  }

  function TemplateOf(m: SearchMethod): (t: Template)
    ensures Separated(t)
  {
    match m
    case Weighted => WeightedTemplateSeparated(); WeightedTemplate
    case Preflabel => PreflabelTemplateSeparated(); PreflabelTemplate
  }

  /** The query text a builder sends: `q.replace("{sys}", endpoint)
      .replace("{term}", term)`. */
  function BuildQuery(m: SearchMethod, term: string, endpoint: string): string
  {
    Render(TemplateOf(m), endpoint, term)
  }

  /** The endpoint is substituted first and the term second: a `{term}`
      inside the endpoint URL is itself replaced by the term, a `{sys}`
      inside the term stays.  When neither contains a placeholder the query
      is the template filled with them, and no placeholder is left. */
  lemma BuildQueryFills(m: SearchMethod, term: string, endpoint: string)
    ensures BuildQuery(m, term, endpoint)
            == Expand(TemplateOf(m), ReplaceAll(endpoint, Marker(Term), term), term)
    ensures !Contains(endpoint, Marker(Sys)) && !Contains(endpoint, Marker(Term))
            && !Contains(term, Marker(Sys)) && !Contains(term, Marker(Term))
            ==> BuildQuery(m, term, endpoint) == Expand(TemplateOf(m), endpoint, term)
                && !Contains(BuildQuery(m, term, endpoint), Marker(Sys))
                && !Contains(BuildQuery(m, term, endpoint), Marker(Term))
  {
    RenderFills(TemplateOf(m), endpoint, term);
    if !Contains(endpoint, Marker(Sys)) && !Contains(endpoint, Marker(Term))
       && !Contains(term, Marker(Sys)) && !Contains(term, Marker(Term)) {
      RenderLeavesNoMarker(TemplateOf(m), endpoint, term);
    }
  }

  /** What the search can raise.  `QueryFailed` is the exception a builder
      raises on a non-2xx answer, `UnreadableResults` a failure to read the
      bindings of a 2xx answer, `MissingWeight` the `KeyError` of a result
      without `weight.value` when results are combined, and
      `UnreadableWeight` the `ValueError` of a weight that is not a number
      when they are combined by numeric weight. */
  datatype SearchError =
    | InvalidSearchMethod
    | QueryFailed(builder: SearchMethod, status: int, text: string)
    | UnreadableResults(status: int)
    | MissingWeight
    | UnreadableWeight

  function Join(parts: seq<string>, separator: string): string
  {
    if |parts| == 0 then ""
    else if |parts| == 1 then parts[0]
    else parts[0] + separator + Join(parts[1..], separator)
  }

  /** The words before the status code in a failed query's message. */
  function FailurePrefix(m: SearchMethod): string
  {
    match m
    case Weighted => "SPARQL query error code "
    case Preflabel => "HTTP Error\nStatus Code: "
  }

  /** The words between the status code and the response text. */
  function FailureSeparator(m: SearchMethod): (r: string)
    ensures |r| > 0 && !IsDigit(r[0])
  {
    match m
    case Weighted => ": "
    case Preflabel => "\nMessage: "
  }

  /** Reads a message made of `prefix`, an integer, `separator` and a
      text back into the integer and the text. */
  function ReadWording(prefix: string, separator: string, message: string): Option<(int, string)>
  {
    if |message| < |prefix| || message[..|prefix|] != prefix then None
    else match ReadInt(message[|prefix|..])
      case None => None
      case Some(read) =>
        var rest := read.1;
        if |rest| < |separator| || rest[..|separator|] != separator then None
        else Some((read.0, rest[|separator|..]))
  }

  /** Reads a message in `m`'s wording back into its status code and
      response text. */
  function ReadFailure(m: SearchMethod, message: string): Option<(int, string)>
  {
    ReadWording(FailurePrefix(m), FailureSeparator(m), message)
  }

  /** The text of the exceptions the source raises itself.  An unknown
      method's message lists the method names.  A failed query's message is
      in its builder's wording, and the status code and the endpoint's
      response text read back from it; no other builder's wording fits it. */
  function Message(e: SearchError): (r: string)
    requires e.InvalidSearchMethod? || e.QueryFailed?
    ensures e.InvalidSearchMethod? ==> r == "search_method must be one of: weighted, preflabel"
    ensures e.QueryFailed? ==> |r| > |e.text| && r[|r| - |e.text|..] == e.text
    ensures e.QueryFailed? ==> |r| > |FailurePrefix(e.builder)| && r[..|FailurePrefix(e.builder)|] == FailurePrefix(e.builder)
    ensures e.QueryFailed? ==> ReadFailure(e.builder, r) == Some((e.status, e.text))
    ensures e.QueryFailed? ==> forall m :: ReadFailure(m, r).Some? <==> m == e.builder
  {
    match e
    case InvalidSearchMethod =>
      assert Join(SearchMethods, ", ") == "weighted" + ", " + "preflabel";
      "search_method must be one of: " + Join(SearchMethods, ", ")
    case QueryFailed(m, status, text) =>
      var r := FailurePrefix(m) + IntToString(status) + FailureSeparator(m) + text;
      WordingShape(FailurePrefix(m), FailureSeparator(m), status, text);
      WordingReads(FailurePrefix(m), FailureSeparator(m), status, text);
      forall other | other != m ensures ReadFailure(other, r).None? {
        ForeignWordingFails(m, other, r);
      }
      r
  }

  /** A message written as `prefix`, the status code, `separator` and the
      response text starts with the prefix and ends with the text. */
  lemma WordingShape(prefix: string, separator: string, status: int, text: string)
    ensures var r := prefix + IntToString(status) + separator + text;
            && |r| > |text| && r[|r| - |text|..] == text
            && |r| > |prefix| && r[..|prefix|] == prefix
  {
    var r := prefix + IntToString(status) + separator + text;
    assert r == (prefix + IntToString(status) + separator) + text;
    assert r == prefix + (IntToString(status) + separator + text);
  }

  /** Such a message reads back as the status code and the text when the
      separator does not start with a digit. */
  lemma WordingReads(prefix: string, separator: string, status: int, text: string)
    requires |separator| > 0 && !IsDigit(separator[0])
    ensures ReadWording(prefix, separator, prefix + IntToString(status) + separator + text) == Some((status, text))
  {
    var tail := separator + text;
    var r := prefix + IntToString(status) + separator + text;
    assert r == prefix + (IntToString(status) + tail);
    assert r[..|prefix|] == prefix;
    assert r[|prefix|..] == IntToString(status) + tail;
    ReadIntToString(status, tail);
    assert tail[..|separator|] == separator;
    assert tail[|separator|..] == text;
  }

  /** The two wordings start differently, so a message in one is never
      read in the other. */
  lemma ForeignWordingFails(m: SearchMethod, other: SearchMethod, r: string)
    requires |r| > |FailurePrefix(m)| && r[..|FailurePrefix(m)|] == FailurePrefix(m)
    requires other != m
    ensures ReadFailure(other, r).None?
  {
    assert r[0] == FailurePrefix(m)[0];
    if |r| >= |FailurePrefix(other)| {
      assert r[..|FailurePrefix(other)|][0] == r[0];
    }
  }

  /** The request a builder sends for one endpoint. */
  function SearchRequest(m: SearchMethod, term: string, details: EndpointDetails): (r: Request)
    ensures r.url == details.endpoint && r.query == BuildQuery(m, term, details.endpoint)
    ensures r.auth.Some? <==> details.username.Some? && details.password.Some?
    ensures r.auth.Some? ==> r.auth.value == Credentials(details.username.value, details.password.value)
    ensures r.accept == ResultsMediaType && r.timeout == Timeout
  {
    BuildRequest(BuildQuery(m, term, details.endpoint), details.endpoint, details.username, details.password)
  }

  /** `weighted(term, ...)` or `preflabel(term, ...)`: the bindings of a 2xx
      answer, or the builder's exception. */
  function Search(m: SearchMethod, term: string, details: EndpointDetails,
                  transport: Request -> Response): (r: Result<seq<Binding>, SearchError>)
    ensures var response := transport(SearchRequest(m, term, details));
            && (r.Success? <==> IsSuccess(response.status) && response.bindings.Some?)
            && (r.Success? ==> r.value == response.bindings.value)
            && (!IsSuccess(response.status) ==> r == Failure(QueryFailed(m, response.status, response.text)))
            && (IsSuccess(response.status) && response.bindings.None? ==> r == Failure(UnreadableResults(response.status)))
  {
    var query := BuildQuery(m, term, details.endpoint);
    var outcome := SparqlQuery(query, details.endpoint, details.username, details.password, transport);
    if outcome.Failure? then Failure(UnreadableResults(outcome.error.status))
    else if outcome.value.ok then Success(outcome.value.payload.rows)
    else Failure(QueryFailed(m, outcome.value.status, outcome.value.payload.text))
  }

  /** Endpoint `i` is the first in list order whose result is a failure. */
  ghost predicate FirstFailure<A, E>(results: seq<Result<A, E>>, i: int)
  {
    && 0 <= i < |results|
    && results[i].Failure?
    && forall j :: 0 <= j < i ==> results[j].Success?
  }

  /** `asyncio.gather` over the awaited results: the list of values when
      every one succeeds, otherwise the first failure in list order. */
  function Gather<A, E>(results: seq<Result<A, E>>): (r: Result<seq<A>, E>)
    ensures r.Success? <==> forall i :: 0 <= i < |results| ==> results[i].Success?
    ensures r.Success? ==> |r.value| == |results|
    ensures r.Success? ==> forall i :: 0 <= i < |results| ==> results[i] == Success(r.value[i])
    ensures r.Failure? ==> exists i :: FirstFailure(results, i) && results[i] == Failure(r.error)
  {
    if |results| == 0 then Success([])
    else match results[0]
      case Failure(e) =>
        assert FirstFailure(results, 0);
        Failure(e)
      case Success(v) =>
        match Gather(results[1..])
        case Failure(e) =>
          FirstFailureInTail(results, e);
          Failure(e)
        case Success(vs) =>
          assert forall i :: 1 <= i < |results| ==> results[i] == results[1..][i - 1];
          Success([v] + vs)
  }

  lemma FirstFailureInTail<A, E>(results: seq<Result<A, E>>, e: E)
    requires |results| > 0 && results[0].Success?
    requires exists i :: FirstFailure(results[1..], i) && results[1..][i] == Failure(e)
    ensures exists i :: FirstFailure(results, i) && results[i] == Failure(e)
  {
    var i :| FirstFailure(results[1..], i) && results[1..][i] == Failure(e);
    forall j | 0 < j < i + 1 ensures results[j].Success? {
      assert results[j] == results[1..][j - 1];
    }
    assert FirstFailure(results, i + 1);
  }

  /** Each endpoint's search, in list order. */
  function Searches(m: SearchMethod, term: string, details: seq<EndpointDetails>,
                    transport: Request -> Response): (r: seq<Result<seq<Binding>, SearchError>>)
    ensures |r| == |details|
    ensures forall i :: 0 <= i < |details| ==> r[i] == Search(m, term, details[i], transport)
  {
    seq(|details|, i requires 0 <= i < |details| => Search(m, term, details[i], transport))
  }

  /** Endpoint `i` is the first whose search fails, and it fails with `e`. */
  ghost predicate FailsFirstAt(m: SearchMethod, term: string, details: seq<EndpointDetails>,
                               transport: Request -> Response, i: int, e: SearchError)
  {
    var results := Searches(m, term, details, transport);
    FirstFailure(results, i) && results[i] == Failure(e)
  }

  /** One builder run against every endpoint.  It fails with the first
      failing endpoint's error. */
  function SearchAll(m: SearchMethod, term: string, details: seq<EndpointDetails>,
                     transport: Request -> Response): (r: Result<seq<seq<Binding>>, SearchError>)
    ensures r.Success? <==> forall i :: 0 <= i < |details| ==> Search(m, term, details[i], transport).Success?
    ensures r.Success? ==> |r.value| == |details|
    ensures r.Success? ==> forall i :: 0 <= i < |details| ==> Search(m, term, details[i], transport) == Success(r.value[i])
    ensures r.Failure? ==> exists i :: FailsFirstAt(m, term, details, transport, i, r.error)
  {
    var r := Gather(Searches(m, term, details, transport));
    if r.Failure? then
      FirstFailureIsFailsFirstAt(m, term, details, transport, r.error);
      r
    else r
  }

  lemma FirstFailureIsFailsFirstAt(m: SearchMethod, term: string, details: seq<EndpointDetails>,
                                   transport: Request -> Response, e: SearchError)
    requires var results := Searches(m, term, details, transport);
             exists i :: FirstFailure(results, i) && results[i] == Failure(e)
    ensures exists i :: FailsFirstAt(m, term, details, transport, i, e)
  {
    var results := Searches(m, term, details, transport);
    var i :| FirstFailure(results, i) && results[i] == Failure(e);
    assert FailsFirstAt(m, term, details, transport, i, e);
  }

  /** `federated_search(term, search_method, sparql_details)`.  A failure
      for a known method is the first failing endpoint's own error, never
      the unknown-method error. */
  function FederatedSearch(term: string, searchMethod: string, details: seq<EndpointDetails>,
                           transport: Request -> Response): (r: Result<seq<seq<Binding>>, SearchError>)
    ensures r == Failure(InvalidSearchMethod) <==> searchMethod !in SearchMethods
    ensures searchMethod in SearchMethods && r.Failure? ==>
              exists i :: FailsFirstAt(ParseSearchMethod(searchMethod).value, term, details, transport, i, r.error)
    ensures r.Success? ==> searchMethod in SearchMethods && |r.value| == |details|
    ensures r.Success? ==> forall i :: 0 <= i < |details| ==>
              Search(ParseSearchMethod(searchMethod).value, term, details[i], transport) == Success(r.value[i])
    ensures searchMethod in SearchMethods ==>
              (r.Success? <==> forall i :: 0 <= i < |details| ==> Search(ParseSearchMethod(searchMethod).value, term, details[i], transport).Success?)
  {
    match ParseSearchMethod(searchMethod)
    case None => Failure(InvalidSearchMethod)
    case Some(m) => SearchAll(m, term, details, transport)
  }

  /** The requests `federated_search` sends: none for an unknown method,
      otherwise one per endpoint, in endpoint order. */
  function Dispatched(term: string, searchMethod: string, details: seq<EndpointDetails>): (r: seq<Request>)
    ensures searchMethod !in SearchMethods ==> r == []
    ensures searchMethod in SearchMethods ==> |r| == |details|
    ensures searchMethod in SearchMethods ==> forall i :: 0 <= i < |details| ==>
              r[i] == SearchRequest(ParseSearchMethod(searchMethod).value, term, details[i])
  {
    match ParseSearchMethod(searchMethod)
    case None => []
    case Some(m) => seq(|details|, i requires 0 <= i < |details| => SearchRequest(m, term, details[i]))
  }

  lemma SearchAllUsesOnly(m: SearchMethod, term: string, details: seq<EndpointDetails>,
                          t1: Request -> Response, t2: Request -> Response)
    requires forall i :: 0 <= i < |details| ==> t1(SearchRequest(m, term, details[i])) == t2(SearchRequest(m, term, details[i]))
    ensures SearchAll(m, term, details, t1) == SearchAll(m, term, details, t2)
  {
    assert Searches(m, term, details, t1) == Searches(m, term, details, t2);
  }

  /** The outcome depends on the transport only through the answers to the
      dispatched requests; in particular an unknown searchMethod is rejected
      before any endpoint is asked. */
  lemma OnlyDispatchedRequestsMatter(term: string, searchMethod: string, details: seq<EndpointDetails>,
                                     t1: Request -> Response, t2: Request -> Response)
    requires forall q :: q in Dispatched(term, searchMethod, details) ==> t1(q) == t2(q)
    ensures FederatedSearch(term, searchMethod, details, t1) == FederatedSearch(term, searchMethod, details, t2)
  {
    if searchMethod in SearchMethods {
      var m := ParseSearchMethod(searchMethod).value;
      var sent := Dispatched(term, searchMethod, details);
      forall i | 0 <= i < |details|
        ensures t1(SearchRequest(m, term, details[i])) == t2(SearchRequest(m, term, details[i]))
      {
        assert sent[i] in sent;
      }
      SearchAllUsesOnly(m, term, details, t1, t2);
    }
  }
}
