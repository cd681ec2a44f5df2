# vocprez-fedsearch in Dafny

A model of `fedsearch.py`, the federated SKOS search of vocprez-fedsearch,
with proofs about it. `SkosSearch` sends one SPARQL SELECT to each
configured endpoint and merges the answers. The modelled parts are:

- `get_search_methods`: the two method names, `weighted` and `preflabel`.
- The query builders `weighted` and `preflabel`. Each fills a fixed query
  template with `q.replace("{sys}", endpoint).replace("{term}", term)`,
  sends it, and returns the bindings or raises.
- `sparql_query`. It attaches basic-auth credentials only when both the
  username and the password are given. It classifies a response as
  success (status 2xx, returning the bindings) or failure (returning the
  body text), and passes the status on unchanged.
- `federated_search`. It rejects an unknown method. Otherwise it runs the
  chosen builder once per endpoint and returns one result list per endpoint,
  in endpoint order.
- `combine_search_results`. It rejects an unknown method, chains the result
  lists, and stably sorts the bindings by `d["weight"]["value"]`, greatest
  first.

The files are:

- `wrappers.dfy`: `Option` and `Result`. A Python exception is a
  `Failure`.
- `replace.dfy`: Python's `str.replace`, replacing every occurrence of a
  pattern.
- `template.dfy`: query templates as pieces (text, a literal `{`, or a
  placeholder slot), and the effect of the two chained replacements on
  them.
- `templates.dfy`: the two query texts of the source, character for
  character.
- `ordering.dfy`, `lexorder.dfy`: strict total orders, and Python's
  string order.
- `sorting.dfy`: `sorted(..., key=..., reverse=True)` as a stable insertion
  sort, generic in the key and the key order.
- `decimal.dfy`: `str` of integers, and reading digit strings as numbers.
- `sparql.dfy`: `sparql_query`. The HTTP exchange is a parameter: a
  function from the request sent to the response received.
- `search.dfy`: the search methods, the builders and `federated_search`.
- `aggregation.dfy`: `combine_search_results`, and the corrected version
  described under Findings.

Section 3.2.2 of the SPARQL 1.1 Query Results JSON Format writes every RDF
term's `value` as a JSON string. So `d["weight"]["value"]` is text, and the
sort as written compares weights as strings, not as numbers.

## Model

| member | source | states |
|---|---|---|
| `Replace.ReplaceAbsent` | fedsearch.py:113-117 | Replacing a pattern that does not occur leaves the text unchanged. |
| `Replace.ReplaceWhole` | fedsearch.py:113-117 | The pattern on its own is replaced by exactly the replacement. |
| `Replace.ReplaceSplit` | fedsearch.py:113-117 | If no occurrence of the pattern crosses the join, replacing in a concatenation is the concatenation of the two replacements: the left-to-right scan rewrites each part on its own. |
| `QueryTemplate.SeparatedConcat` | fedsearch.py:65-113 | Two templates in which every `{` and placeholder is flanked by safe text stay so when joined, if the pieces that meet are compatible. |
| `QueryTemplate.ExpandReplace` | fedsearch.py:113-117 | In a separated template, replacing a marker in the filled-in text is the same as replacing it inside the slot fillings only: the fixed text contains no marker, and no occurrence crosses a join. |
| `QueryTemplate.ExpandClean` | fedsearch.py:113-117 | A filled-in separated template contains a marker only if one of the fillings brings it in. |
| `QueryTemplate.RenderFills` | fedsearch.py:113-117 | The chained replacement puts the endpoint into the `{sys}` slot, with any `{term}` inside the endpoint itself replaced by the term. It puts the term into the `{term}` slot unchanged. |
| `QueryTemplate.RenderLeavesNoMarker` | fedsearch.py:113-117 | If neither the endpoint nor the term contains `{sys}` or `{term}`, the rendered query is the template with its slots filled, and contains neither marker. |
| `QueryTemplate.SysReplacedBeforeTerm` | fedsearch.py:113-117 | The order of the replacements can be observed: an endpoint that is literally `{term}` ends up holding the search term. |
| `Templates.WeightedTemplateSeparated` | fedsearch.py:65-113 | In the `weighted` query text, every `{` and both placeholders sit between characters that cannot extend them into a marker. |
| `Templates.PreflabelTemplateSeparated` | fedsearch.py:152-175 | The same holds for the `preflabel` query text. |
| `LexOrder.LexLessCharacterization` | fedsearch.py:198 | The recursive string order holds exactly when `a` is a proper prefix of `b`, or when `a` has the smaller code point at the first position where they differ. |
| `LexOrder.LexLessIsStrictTotalOrder` | fedsearch.py:198 | Python's string order is irreflexive, transitive and total. |
| `StableSort.SortDesc` | fedsearch.py:198 | The sorted list is a permutation of the input: the same multiset, and the same length. |
| `StableSort.SortDescending` | fedsearch.py:198 | Under a strict total order, the sorted list runs from the greatest key to the least (`reverse=True`). |
| `StableSort.SortSelect` | fedsearch.py:198 | Stability: for every key, the elements with that key appear in the output in their input order. |
| `StableSort.DescendingUnique` | fedsearch.py:198 | Two descending lists whose key groups are equal, group by group, are the same list. |
| `StableSort.SortCharacterization` | fedsearch.py:198 | A list is the sort's output if and only if it is descending and each of its key groups equals the input's group for that key. |
| `StableSort.SortAgree` | fedsearch.py:198 | Two key orders that rank every pair of input elements alike produce the same sorted list. |
| `Decimal.NatToString` | fedsearch.py:124 | `str(n)` of a natural number writes one or more decimal digits, with no superfluous leading zero. The status code in the exception text reaches it through `IntToString`. |
| `Decimal.IntToString` | fedsearch.py:186 | `str(i)` of the status code: for `i >= 0`, canonical digits that read back as `i`; for `i < 0`, a minus sign followed by canonical digits that read back as `-i`. |
| `Decimal.ParseNat` | fedsearch.py:198 | For the corrected key `int(d["weight"]["value"])` of `CombineByNumber`: text reads as a number exactly when it is a non-empty string of decimal digits. |
| `Decimal.ParseNatToString` | fedsearch.py:198 | For the corrected key of `CombineByNumber`: reading back what `str` wrote gives the same number. |
| `Decimal.NatToStringValue` | fedsearch.py:198 | For the corrected key of `CombineByNumber`: writing out the value of a canonical digit string gives the same string, so reading and writing are inverse on canonical text. |
| `Decimal.SameLengthOrder` | fedsearch.py:198 | For digit strings of equal length, string order coincides with numeric order, in both directions. |
| `Decimal.LexOrderIsNotNumeric` | fedsearch.py:198 | Across lengths the orders differ: `"10"` sorts below `"5"` as a string, yet denotes the larger number. |
| `Sparql.BasicAuth` | fedsearch.py:36-44 | Credentials are attached if and only if both the username and the password are present, and they are the given pair. |
| `Sparql.BuildRequest` | fedsearch.py:35-50 | The GET goes to the endpoint, carries the query, and accepts `application/sparql-results+json` with a timeout of 1000. It is authenticated exactly when both credentials are given. |
| `Sparql.LoneCredentialIgnored` | fedsearch.py:36-50 | A username without a password, or the reverse, gives the same request as no credentials at all. |
| `Sparql.Classify` | fedsearch.py:51-54 | `ok` holds exactly for statuses 200 to 299. `ok` goes with the bindings and its negation with the body text. The status is returned unchanged. A 2xx body without `results.bindings` raises. |
| `Sparql.SparqlQuery` | fedsearch.py:28-54 | The answer to the request that was built is classified. A 2xx answer with bindings returns `(True, status, bindings)`. A non-2xx answer returns `(False, status, text)`. A 2xx answer without `results.bindings` raises, and only that answer does. |
| `SkosSearch.ParseSearchMethod` | fedsearch.py:24-25 | A name selects a builder exactly when it is in `get_search_methods()`, and the builder selected is the one with that name. |
| `SkosSearch.SearchMethodNames` | fedsearch.py:24-25 | The list of methods is exactly the two builders' names, and each name selects its own builder. |
| `SkosSearch.BuildQueryFills` | fedsearch.py:113-117 | For both builders (the same chain appears at lines 175-179), the endpoint is substituted before the term. If neither contains a placeholder, the query is the template filled with them and no placeholder is left. |
| `SkosSearch.Message` | fedsearch.py:124 | The exception text of a failed query starts with its builder's wording: `weighted` writes `SPARQL query error code `, and `preflabel` (line 186) writes `HTTP Error` and `Status Code: `. The status code and the endpoint's response text read back from the message exactly, through `ReadFailure`, and no other builder's wording reads it. The unknown-method text (line 208) lists `weighted, preflabel`. |
| `SkosSearch.WordingShape` | fedsearch.py:124 | A message built as wording, status code, separator and response text starts with the wording and ends with the response text, verbatim. |
| `SkosSearch.WordingReads` | fedsearch.py:124 | Such a message reads back as the status code and the response text whenever the separator does not start with a digit, as `: ` and `\nMessage: ` do not. The status code is written by `IntToString` and read by `Decimal.ReadInt`. |
| `SkosSearch.ForeignWordingFails` | fedsearch.py:186 | The two builders' messages start differently, so a message in one wording never reads in the other. |
| `Decimal.DigitRun` | fedsearch.py:124 | Counts the digits at the front of a text, stopping at the first non-digit. This is how the status code is found in a message. |
| `Decimal.ReadIntToString` | fedsearch.py:124 | What `str` writes for any status code, followed by text that does not start with a digit, reads back as that status code and that text. |
| `SkosSearch.SearchRequest` | fedsearch.py:118-120 | A builder sends its rendered query to the endpoint with the SPARQL results `Accept` type and the 1000-second timeout. Credentials are sent exactly when both are given, and then they are `(username, password)` in that order. |
| `SkosSearch.Search` | fedsearch.py:118-124 | A builder returns the bindings if and only if the answer is 2xx with bindings. A non-2xx answer raises with its status and text. |
| `SkosSearch.Gather` | fedsearch.py:211-221 | `asyncio.gather` over the builders' outcomes succeeds if and only if every one does, and then returns their values in list order. Otherwise it raises the exception of a failing builder, the first in list order in this model. |
| `SkosSearch.SearchAll` | fedsearch.py:211-221 | It succeeds if and only if every endpoint's search succeeds. It then returns one result per endpoint, in order, each equal to that endpoint's search. Otherwise it fails with the error of the first failing endpoint. |
| `SkosSearch.FederatedSearch` | fedsearch.py:200-222 | It fails with `InvalidSearchMethod` if and only if the method is unknown. For a known method it succeeds if and only if every endpoint's search does, with `result[i]` being the chosen builder applied to `endpoints[i]`. Otherwise it fails with the builder's own error from the first failing endpoint in list order. |
| `SkosSearch.Dispatched` | fedsearch.py:206-221 | No request is sent for an unknown method. Otherwise exactly one request goes to each endpoint, in list order. |
| `SkosSearch.OnlyDispatchedRequestsMatter` | fedsearch.py:206-221 | The outcome depends on the endpoints only through the answers to the dispatched requests. So an unknown method is rejected before any endpoint is queried. |
| `Aggregation.Flatten` | fedsearch.py:196 | The chained list has the total length of the lists, and an element occurs in it exactly when it occurs in one of the lists. |
| `Aggregation.FlattenSingle` | fedsearch.py:196 | Chaining a single list gives that list back. |
| `Aggregation.FlattenAt` | fedsearch.py:196 | Element `j` of list `i` is at position (total length of lists `0..i-1`) + `j` of the chained list, so nothing is dropped, duplicated or moved. |
| `Aggregation.FlattenConcat` | fedsearch.py:196 | Chaining keeps list order: flattening a concatenation is concatenating the flattenings. |
| `Aggregation.Combine` | fedsearch.py:188-198 | It fails with `InvalidSearchMethod` if and only if the method is unknown. For a known method it fails exactly when some binding has no `weight.value`. On success the output is a permutation of the chained input, in descending string order of the weight, with equal weights kept in input order. |
| `Aggregation.FirstWeightError` | fedsearch.py:198 | For the corrected key: there is no error exactly when every binding has a numeric weight. Otherwise the error belongs to the first binding in list order without one: `MissingWeight` if it has no weight, `UnreadableWeight` if its weight text is not a number. |
| `Aggregation.CombineByNumber` | fedsearch.py:198 | The corrected combination rejects an unknown method as `Combine` does. For a known method it succeeds exactly when every binding has a numeric weight, so it also fails on weight text such as `"abc"` that `Combine` sorts. A failure carries the error of the first binding in list order without a numeric weight. On success the output is a permutation of the chained input, ordered by numeric weight, with ties in input order. |
| `Aggregation.TenRankedBelowFive` | fedsearch.py:198 | As written, a binding weighted `"10"` is ranked after one weighted `"5"`. |
| `Aggregation.TenRankedAboveFiveByNumber` | fedsearch.py:198 | The corrected combination ranks the same two bindings the other way round. |
| `Aggregation.SameWidthWeightsAgree` | fedsearch.py:198 | When every weight has the same number of digits, the combination as written equals the corrected one. |

## Left out

- HTTP transport (`httpx.AsyncClient`, GET parameters, headers, timeouts).
  `sparql_query` and the builders take a transport function from request to
  response instead, and the request is a record of what would be sent.
  Because the transport is a function, identical requests get identical
  answers: an endpoint listed twice in `sparql_details` gets the same
  outcome both times, where two real GETs may differ.
- JSON decoding of the response body. A response carries `results.bindings`
  as an optional value, and its absence on a 2xx answer is a failure
  (`MalformedResults` / `UnreadableResults`). The text of the Python
  exception raised there is not modelled.
- `SkosSearch.FederatedSearch`: `asyncio.gather` runs the builders
  concurrently, and raises the first exception in order of completion. The
  model runs them in list order and reports the first failing endpoint in
  list order. The two agree whenever at most one endpoint fails.
- `SkosSearch.SearchAll`: the same list-order choice of the reported
  failure, for the same reason.
- `SkosSearch.Gather`: the same list-order choice of the reported failure,
  for the same reason.
- Evaluation of the SPARQL text (regular-expression filters, `UNION`
  branches, the `SUM` of weights). The remote endpoint performs it, so the
  template text is opaque here.
- `SkosSearch.rva`: a POST to an external registry, with no logic of its
  own.
- `command_line_present` and the `__main__` block: table printing with
  hard-coded endpoints.
- `version = "0.0.1"`: unused by the search.
- `Aggregation.Combine`: the `KeyError` text of a binding without a weight
  is reduced to the `MissingWeight` error. In Python, `d["weight"]["value"]`
  being something other than a string is impossible for a SPARQL JSON
  document, so non-string weights are not modelled.
- `Aggregation.CombineByNumber`: reads weights as plain strings of decimal
  digits, which is what an `xsd:integer` sum's lexical form is. It does not
  model the extra syntax that Python's `int()` accepts (sign, surrounding
  whitespace, underscores, and non-ASCII decimal digits such as `"٣"`). Weight text outside that form fails with
  `UnreadableWeight`, where `Combine` would sort it as text.

## Findings

| source | as written | input that shows it | evidently intended | confidence | as-written member | corrected member |
|---|---|---|---|---|---|---|
| fedsearch.py:198 | Results are sorted by `d["weight"]["value"]`, a string, so weights compare as text | Two bindings weighted `"10"` (a prefLabel substring match, line 81) and `"5"` (an altLabel match, line 89) come out with the `"5"` binding first | Rank by the numeric weight, so that prefLabel matches come before altLabel matches, the preference the docstring of `weighted` states (lines 63-64) | high; not executed | `Aggregation.TenRankedBelowFive` | `Aggregation.CombineByNumber` |
