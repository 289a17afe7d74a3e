# Pagination in GitHubService

`GitHubService` is the part of a Java/Spring back end that talks to the
GitHub REST API. Most of its operations are single GET or POST requests.
This model covers the part that is more than a single request: pagination.

- **How many pages there are.** The contributors retrieval sends a probe
  request. It reads the `Link` header of the response. With no header there
  is one page. Otherwise the page count is read out of the header by
  `getPageNumberFromValue`. That method takes the first match of the regular
  expression `page=[0-9]*` and parses its digits as an `int`.
- **Where the last page of commits is.** The first-commit-page retrieval also
  sends a probe. With no `Link` header the probe's own body is the answer.
  Otherwise `extractLinkToLastPage` splits the text of a header element at
  every `<` and `>` and takes the first piece: the first run of characters
  other than `<` and `>`, after any leading `<` or `>`. For an element
  `<uri>; rel="last"` that is `uri`, and that link is fetched. For text that
  does not open with `<`, such as `ab<c>`, it is `ab`.
- **Fetching the pages.** `retrievePagesUntilMax` runs a `for` loop over
  pages `1..maxPage`. For each page it builds a contributors URI with
  `page=i&per_page=100`, fetches it, and appends the page to a list.

Files:

- `java_lang.dfy` (module `JavaLang`). Java's `int`, `Integer.toString` and
  `Integer.parseInt` on digit strings, and the exceptions the code can throw,
  written as `Error` values inside a `Result`.
- `page_links.dfy` (module `PageLinks`). The two string parsers, and the two
  decisions the probe's `Link` headers drive. All of these are functions
  with lemmas.
- `pagination.dfy` (module `Pagination`). The network is a `Remote` object.
  Its `serve` function fixes what a GET of each URI returns: a response, or
  an `IOException` (`Failed`). Its `requested` field logs the URIs fetched, in
  order. `RetrievePagesUntilMax` is a method with a `while` loop. It is proved
  against the specification functions `PageUris`, `FetchAll` and `Attempted`.
  The two retrieval flows are methods on top of it.

The model follows the code in four places where a reader might expect
something else:

- The code takes the page count from the *second* element of the first
  `Link` header, whatever its `rel` is. It does not look for the element
  whose relation is "last".
- The page count can be 0 (`page=0`). Then no page is fetched and the list
  is empty. It cannot be negative.
- A failed GET is an `IOException` that carries no page index. It aborts
  the retrieval and loses the pages fetched so far. The model's
  `TransportFailure` carries no index either.
- The contributors probe lists `/contributors?per_page=100&anon=1`, which
  includes anonymous contributors. The loop's page URIs carry no `anon=1`.
  So the page count is read from a different listing than the pages that
  are fetched, and the probe is not page 1 fetched twice. The model keeps
  both URIs as the code builds them, and both requests in the log.

## Model

| member | source | states |
|---|---|---|
| `JavaLang.DecimalString` | GitHubService.java:271 | `"page=" + i` writes `i` as a non-empty string of decimal digits whose value is `i` |
| `PageLinks.FindPage` | GitHubService.java:283-285 | `find()` stops at the first `page=` at or after the start, with no `page=` before it; when there is none, none exists |
| `PageLinks.FindPageLeftmost` | GitHubService.java:285 | when `page=` first occurs at `i`, `find()` matches at `i` |
| `PageLinks.DigitRun` | GitHubService.java:283 | the greedy `[0-9]*` takes a prefix made only of digits, and the next character (if any) is not a digit |
| `PageLinks.DigitRunUnique` | GitHubService.java:283 | the greedy digit run is the only all-digit prefix that is followed by a non-digit or by the end |
| `PageLinks.KeepDigits` | GitHubService.java:287 | `replaceAll("[^0-9]", "")` yields only digits, is no longer than its input, keeps a character if and only if it is a digit of the input, and leaves a digit string unchanged |
| `PageLinks.KeepDigitsAppend` | GitHubService.java:287 | the filter keeps the order of the digits: filtering `s + t` gives the filtered `s` followed by the filtered `t` |
| `PageLinks.KeepDigitsOfMatch` | GitHubService.java:286-287 | removing non-digits from `page=` followed by digits `d` leaves exactly `d` |
| `PageLinks.MatchTextIs` | GitHubService.java:286 | `group()` of a match at `i` is `page=` followed by the maximal digit run after it |
| `PageLinks.PageNumberFromValue` | GitHubService.java:282-288 | a page number the method returns is never negative |
| `PageLinks.PageNumberNoMatch` | GitHubService.java:285-286 | the method fails with no match if and only if the value contains no `page=` |
| `PageLinks.PageNumberFromDigits` | GitHubService.java:282-288 | after the leftmost `page=`, the maximal digit run `d` decides the result: empty fails, a value above `Integer.MAX_VALUE` fails, otherwise the result is the value of `d` |
| `PageLinks.NoPageBefore` | GitHubService.java:283 | `page=` has no border, so no occurrence can start inside a string without `page=` and run into a `page=` written after it |
| `PageLinks.LeftmostAfterPrefix` | GitHubService.java:283-285 | a `page=` written after a prefix without `page=` is the first match `find()` returns |
| `PageLinks.PageNumberOfEmpty` | GitHubService.java:282-288 | a value written as `prefix + "page=" + suffix`, with no `page=` in the prefix and no digit at the start of the suffix, fails on the empty number |
| `PageLinks.PageNumberOfWritten` | GitHubService.java:282-288 | a value written as `prefix + "page=" + n + suffix`, with no `page=` in the prefix and no digit at the start of the suffix, gives `n` |
| `PageLinks.PageNumberTakesWholeRun` | GitHubService.java:283-287 | `?page=12x` gives 12, not 1 |
| `PageLinks.PageNumberMatchesInsidePerPage` | GitHubService.java:283-286 | `per_page=100&page=3` gives 100, not 3: the leftmost match is inside `per_page=` |
| `PageLinks.NoEqualsNoPage` | GitHubService.java:283 | a string without `=` contains no `page=` |
| `PageLinks.RunLength` | GitHubService.java:291 | the tokenizer's scan: a prefix of only delimiters (or only non-delimiters), followed by the opposite kind or by the end |
| `PageLinks.RunLengthUnique` | GitHubService.java:291 | that prefix is the only one with this property |
| `PageLinks.ExtractLinkToLastPage` | GitHubService.java:290-293 | fails with no token if and only if every character is `<` or `>`; otherwise returns a non-empty substring of the input that contains no `<` or `>` |
| `PageLinks.ExtractLinkIsFirstToken` | GitHubService.java:291-292 | the result is exactly the first maximal run of non-delimiters after the leading delimiters |
| `PageLinks.ExtractLinkOfElement` | GitHubService.java:291-292 | an element `<uri>params` with no angle bracket in `uri` gives `uri` |
| `PageLinks.ExtractLinkExample` | GitHubService.java:291-292 | `<u>; rel="last"` gives `u` |
| `PageLinks.PageCount` | GitHubService.java:199-206 | no `Link` header gives 1; a header with fewer than two elements fails; a page count is never negative |
| `PageLinks.PageCountOfLastLink` | GitHubService.java:199-206 | when the value of the second element carries `page=n` as its first `page=` and no digit follows, the page count is `n` |
| `PageLinks.CommitPageSourceOf` | GitHubService.java:96-109 | no `Link` header means the probe body is used; a header with fewer than two elements fails with the missing element; a link to fetch is what the tokenizer extracts from `toString()` of the second element; any other failure comes from the tokenizer |
| `PageLinks.CommitPageSourceOfLastElement` | GitHubService.java:107-108 | a second element `<uri>params` makes the retrieval fetch `uri`, and a `page=n` in that `uri` reads back as `n` |
| `Pagination.Remote.Get` | GitHubService.java:272-274 | one GET returns what the remote serves for that URI, and appends the URI to the request log |
| `Pagination.PageUris` | GitHubService.java:270-271 | the loop's URI list has `maxPage` entries, or none when `maxPage <= 0` |
| `Pagination.PageUrisAt` | GitHubService.java:270-271 | entry `k` of the list is the URI of page `k + 1` |
| `Pagination.Bodies` | GitHubService.java:277 | one body per URI |
| `Pagination.BodiesAt` | GitHubService.java:277 | body `k` is the one served for URI `k` |
| `Pagination.FirstFailure` | GitHubService.java:268-279 | every GET before the first failure is served, and the GET at that index fails |
| `Pagination.FirstFailureAt` | GitHubService.java:268-279 | the first failure is at `k` when all GETs before `k` are served and the GET at `k` fails |
| `Pagination.FirstFailureAtMost` | GitHubService.java:268-279 | the first failure comes no later than any failure |
| `Pagination.FetchAll` | GitHubService.java:268-280 | the loop succeeds if and only if every GET is served; then it holds one page per URI; otherwise it fails with the transport error |
| `Pagination.Attempted` | GitHubService.java:270-278 | the loop requests every URI when all are served; otherwise it requests the URIs up to and including the first failed one, and every earlier one was served |
| `Pagination.FetchAllAt` | GitHubService.java:277 | in a successful loop, page `k` is the body served for URI `k` |
| `Pagination.NoPageAcrossSlash` | GitHubService.java:271 | joining two strings without `page=` at a `/` makes no `page=` |
| `Pagination.ContributorsPrefixHasNoPage` | GitHubService.java:271 | the part of a page URI before `page=` contains no `page=` when the base URL, user and repository contain none |
| `Pagination.PageUriRoundTrip` | GitHubService.java:271 | `getPageNumberFromValue` of the URI of page `i` gives `i`, when the base URL, user and repository contain no `page=` |
| `Pagination.RequestedPagesAscend` | GitHubService.java:270-271 | the `k`-th URI the loop requests reads back as page `k + 1`, so the pages requested are 1, 2, ..., `maxPage` in order |
| `Pagination.RetrievePagesUntilMax` | GitHubService.java:268-280 | returns what `FetchAll` gives for the URIs of pages 1 to `maxPage`, and adds to the request log exactly the URIs that `Attempted` lists |
| `Pagination.PagesUntilMaxAt` | GitHubService.java:268-279 | a successful loop holds exactly `maxPage` pages, and element `k` is the page fetched for index `k + 1` |
| `Pagination.PagesUntilMaxFailsWithAnyPage` | GitHubService.java:268-280 | if the GET of any page `p` in `1..maxPage` fails, the loop returns no pages, and no page after `p` is requested |
| `Pagination.RetrieveAllContributors` | GitHubService.java:191-208 | sends the probe; a failed probe or a failed page count ends the retrieval after that one request; otherwise it runs the page loop for the page count |
| `Pagination.RetrieveInitialPageOfCommit` | GitHubService.java:88-114 | sends the probe; with no `Link` header the answer is the probe body; otherwise exactly one more GET, of the extracted last-page link, gives the answer |
| `Pagination.LoopGuardNeverFailsAtIntMax` | GitHubService.java:270 | with 32-bit `i++`, the counter equals the page number up to `Integer.MAX_VALUE` and then wraps to `Integer.MIN_VALUE`, so the guard `i <= maxPage` never fails when `maxPage` is `Integer.MAX_VALUE` |
| `Pagination.WrappedRequest` | GitHubService.java:270-271 | request `k + 1` of the loop as written is the URI of page `k + 1` while `k < Integer.MAX_VALUE`; the next request is the URI for `page=-2147483648`, whose page number does not parse |

## Left out

- HTTP execution (`executeGet`, `executePost`, `HttpClients`, `httpClient.execute`). A GET is `Remote.Get`: a fixed function from URI to a response or an `IOException`. Status codes, timeouts and the client objects are not modelled.
- How Apache's `Header.getElements()` splits a `Link` header, and what an element's `getValue()` and `toString()` return. Both strings are inputs (`HeaderElement.value`, `HeaderElement.text`).
- JSON parsing with `org.json` (`new JSONArray(...)` and `new JSONObject(...)`), and what happens when a body is not valid JSON. A body is an opaque value of type `B`.
- Pagination.RetrieveAllContributors: returns the list of pages, not one merged array, because `JSONUtils.stitchArrays` is not part of this model. The result is also not wrapped in `{"contributors": ...}`.
- Pagination.RetrieveInitialPageOfCommit: returns the page body, not the `{"commits": ...}` envelope.
- `@Async` and `CompletableFuture`. Each retrieval is a plain sequential method.
- `UserParser`, `RepoNameParser` and `AccessTokenParser` are not part of this model. The user and repository names are parameters.
- Loading the base URL from the properties file. When loading fails, `getGitHubBase` returns the string `cannot find github api url` and every URI starts with it. The base URL is a parameter, so that case is one value of it.
- The OAuth code exchange (`retrieveAccessToken`). It is one POST, and on an `IOException` it returns the empty string instead of failing (GitHubService.java:243-245). That fallback is not modelled.
- Markdown rendering and the single-request retrievals (repository, organisation, commit page, single commit, contents, URL, comparison, one page of contributors). Each is one request with no branch of its own.
- Logging.

## Findings

| source | as written | input that shows it | evidently intended | confidence | as-written member | corrected member |
|---|---|---|---|---|---|---|
| GitHubService.java:270 | the page counter is a Java `int` that is tested with `i <= maxPage` and then incremented with `i++`; when `maxPage` is `Integer.MAX_VALUE`, the guard can never be false, and the counter wraps to `Integer.MIN_VALUE`, and the next request asks for `page=-2147483648` | a probe response whose second `Link` element has the value `page=2147483647` | fetch pages 1 to `maxPage` and stop | not executed; follows from Java's 32-bit `int` arithmetic, but needs a page count nobody would meet in practice | `Pagination.WrappedRequest` | `Pagination.RetrievePagesUntilMax` |
