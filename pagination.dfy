/** The multi-page retrievals of GitHubService: the page loop
    `retrievePagesUntilMax`, the contributors retrieval that probes for a
    `Link` header and then runs that loop, and the first-commit-page
    retrieval that follows the header's last-page link. The network is a
    `Remote` object: each GET of a URI returns that URI's response, and the
    object keeps the list of URIs requested so far. */
module Pagination {
  import opened JavaLang
  import opened PageLinks

  /** What one GET gives the service: a response with its parsed body (JSON
      parsing is not modelled, so a body is any value of `B`) and its `Link`
      headers, each given as its elements; or an `IOException`. */
  datatype Response<B> =
    | Response(body: B, linkHeaders: seq<seq<HeaderElement>>)
    | Failed

  /** The GitHub API seen from the service. `serve` fixes the outcome of a GET
      of every URI; `requested` is the log of the GETs issued, oldest first. */
  class Remote<B> {
    const serve: string -> Response<B>
    var requested: seq<string>

    constructor (serve: string -> Response<B>)
      ensures this.serve == serve && requested == []
    {
      this.serve := serve;
      requested := [];
    }

    /** One `httpClient.execute(new HttpGet(uri))`. */
    method Get(uri: string) returns (response: Response<B>)
      modifies this
      ensures response == serve(uri)
      ensures requested == old(requested) + [uri]
    {
      response := serve(uri);
      requested := requested + [uri];
    }
  }

  // ---------------------------------------------------------------------------
  // URIs
  // ---------------------------------------------------------------------------

  /** The URI of one page of contributors, 100 per page. */
  function ContributorsPageUri(base: string, user: string, repo: string, page: nat, token: string): string
  {
    base + "/repos/" + user + "/" + repo + "/contributors?" + "page=" + DecimalString(page)
      + "&per_page=100" + "&access_token=" + token
  }

  /** The probe of the contributors retrieval: no page parameter, 100 per page, anonymous contributors included. */
  function ContributorsProbeUri(base: string, user: string, repo: string, token: string): string
  {
    base + "/repos/" + user + "/" + repo + "/contributors?per_page=100&anon=1" + "&access_token=" + token
  }

  /** The probe of the first-commit-page retrieval: page 1 of the commits. */
  function CommitsProbeUri(base: string, user: string, repo: string, token: string): string
  {
    base + "/repos/" + user + "/" + repo + "/commits?page=1" + "&access_token=" + token
  }

  /** The URIs of pages 1 to `n` of contributors, in that order (none when `n <= 0`). */
  function PageUris(base: string, user: string, repo: string, n: int, token: string): (uris: seq<string>)
    ensures |uris| == if n <= 0 then 0 else n
    decreases n
  {
    if n <= 0 then [] else PageUris(base, user, repo, n - 1, token) + [ContributorsPageUri(base, user, repo, n, token)]
  }

  /** Element `k` of the list is the URI of page `k + 1`. */
  lemma {:induction false} PageUrisAt(base: string, user: string, repo: string, n: int, token: string, k: nat)
    requires k < |PageUris(base, user, repo, n, token)|
    ensures PageUris(base, user, repo, n, token)[k] == ContributorsPageUri(base, user, repo, k + 1, token)
    decreases n
  {
    if k < n - 1 {
      PageUrisAt(base, user, repo, n - 1, token, k);
    }
  }

  /** Every GET of `uris` gets a response. */
  predicate AllServed<B>(serve: string -> Response<B>, uris: seq<string>)
  {
    forall k :: 0 <= k < |uris| ==> serve(uris[k]).Response?
  }

  /** The bodies of the responses to `uris`, in the same order. */
  function Bodies<B>(serve: string -> Response<B>, uris: seq<string>): (pages: seq<B>)
    requires AllServed(serve, uris)
    ensures |pages| == |uris|
  {
    if uris == [] then [] else Bodies(serve, uris[..|uris| - 1]) + [serve(uris[|uris| - 1]).body]
  }

  /** Element `k` of the bodies is the body served for `uris[k]`. */
  lemma {:induction false} BodiesAt<B>(serve: string -> Response<B>, uris: seq<string>, k: nat)
    requires AllServed(serve, uris) && k < |uris|
    ensures Bodies(serve, uris)[k] == serve(uris[k]).body
  {
    if k < |uris| - 1 {
      BodiesAt(serve, uris[..|uris| - 1], k);
    }
  }

  /** The index of the first of `uris` whose GET fails, or `|uris|` when none does. */
  function FirstFailure<B>(serve: string -> Response<B>, uris: seq<string>): (f: nat)
    ensures f <= |uris| && AllServed(serve, uris[..f])
    ensures f < |uris| ==> serve(uris[f]).Failed?
  {
    if uris == [] || serve(uris[0]).Failed? then 0
    else
      var f := 1 + FirstFailure(serve, uris[1..]);
      assert forall k :: 1 <= k < f ==> uris[..f][k] == uris[1..][..f - 1][k - 1];
      f
  }

  /** The first failure is at `k` when every GET before `k` is served and the one at `k` fails. */
  lemma {:induction false} FirstFailureAt<B>(serve: string -> Response<B>, uris: seq<string>, k: nat)
    requires k < |uris| && AllServed(serve, uris[..k]) && serve(uris[k]).Failed?
    ensures FirstFailure(serve, uris) == k
  {
    if k > 0 {
      assert uris[..k][0] == uris[0];
      assert uris[1..][..k - 1] == uris[..k][1..];
      FirstFailureAt(serve, uris[1..], k - 1);
    }
  }

  /** The first failure is no later than any failure. */
  lemma {:induction false} FirstFailureAtMost<B>(serve: string -> Response<B>, uris: seq<string>, k: nat)
    requires k < |uris| && serve(uris[k]).Failed?
    ensures FirstFailure(serve, uris) <= k
  {
    if !serve(uris[0]).Failed? {
      FirstFailureAtMost(serve, uris[1..], k - 1);
    }
  }

  /** What fetching `uris` one after the other yields when the first failure
      aborts the whole: every body, in order, or the failure. */
  function FetchAll<B>(serve: string -> Response<B>, uris: seq<string>): (r: Result<seq<B>>)
    ensures r.Ok? <==> AllServed(serve, uris)
    ensures r.Err? ==> r.error == TransportFailure
    ensures r.Ok? ==> |r.value| == |uris|
  {
    if FirstFailure(serve, uris) < |uris| then Err(TransportFailure)
    else
      assert uris[..|uris|] == uris;
      Ok(Bodies(serve, uris))
  }

  /** The URIs requested when fetching `uris` one after the other: all of
      them, or those up to and including the first that fails. */
  function Attempted<B>(serve: string -> Response<B>, uris: seq<string>): (a: seq<string>)
    ensures a <= uris
    ensures AllServed(serve, uris) ==> a == uris
    ensures !AllServed(serve, uris) ==>
      |a| > 0 && serve(a[|a| - 1]).Failed? && AllServed(serve, a[..|a| - 1])
  {
    var f := FirstFailure(serve, uris);
    if f < |uris| then
      assert uris[..f + 1][..f] == uris[..f];
      uris[..f + 1]
    else
      assert uris[..|uris|] == uris;
      uris
  }

  /** A successful fetch holds, at position `k`, the body served for `uris[k]`. */
  lemma FetchAllAt<B>(serve: string -> Response<B>, uris: seq<string>, k: nat)
    requires FetchAll(serve, uris).Ok? && k < |uris|
    ensures FetchAll(serve, uris).value[k] == serve(uris[k]).body
  {
    assert uris[..|uris|] == uris;
    BodiesAt(serve, uris, k);
  }

  // ---------------------------------------------------------------------------
  // No `page=` across a `/`
  // ---------------------------------------------------------------------------

  /** `page=` has no `/`, so no occurrence spans a `/` at the seam of two
      strings that have none of their own. */
  lemma NoPageAcrossSlash(s: string, t: string)
    requires !ContainsPage(s) && !ContainsPage(t)
    requires (s != [] && s[|s| - 1] == '/') || (t != [] && t[0] == '/')
    ensures !ContainsPage(s + t)
  {
    var st := s + t;
    forall j | 0 <= j <= |st| && j + |PageKey| <= |st|
      ensures !PageAt(st, j)
    {
      if |s| <= j {
        assert !PageAt(t, j - |s|);
        assert st[j..j + |PageKey|] == t[j - |s|..j - |s| + |PageKey|];
      } else if j + |PageKey| <= |s| {
        assert !PageAt(s, j);
        assert st[j..j + |PageKey|] == s[j..j + |PageKey|];
      } else if s != [] && s[|s| - 1] == '/' {
        assert st[j..j + |PageKey|][|s| - 1 - j] == '/' != PageKey[|s| - 1 - j];
      } else {
        assert st[|s|] == t[0] == '/';
        assert st[j..j + |PageKey|][|s| - j] == '/' != PageKey[|s| - j];
      }
    }
  }

  /** The part of a contributors page URI before `page=`. */
  function ContributorsPrefix(base: string, user: string, repo: string): (prefix: string)
  {
    base + "/repos/" + user + "/" + repo + "/contributors?"
  }

  /** With no `page=` in the base URL, user and repository name, the part of
      the URI before `page=` has none either. */
  lemma ContributorsPrefixHasNoPage(base: string, user: string, repo: string)
    requires !ContainsPage(base) && !ContainsPage(user) && !ContainsPage(repo)
    ensures !ContainsPage(ContributorsPrefix(base, user, repo))
  {
    var p1 := base + "/repos/";
    NoEqualsNoPage("/repos/");
    NoPageAcrossSlash(base, "/repos/");
    var p2 := p1 + user;
    NoPageAcrossSlash(p1, user);
    var p3 := p2 + "/";
    NoEqualsNoPage("/");
    NoPageAcrossSlash(p2, "/");
    var p4 := p3 + repo;
    NoPageAcrossSlash(p3, repo);
    NoEqualsNoPage("/contributors?");
    NoPageAcrossSlash(p4, "/contributors?");
  }

  /** Round trip: the page number read back from the URI of page `page` is
      `page`, provided the base URL, user and repository name contain no `page=`. */
  lemma PageUriRoundTrip(base: string, user: string, repo: string, page: nat, token: string)
    requires !ContainsPage(base) && !ContainsPage(user) && !ContainsPage(repo)
    requires page <= IntMax
    ensures PageNumberFromValue(ContributorsPageUri(base, user, repo, page, token)) == Ok(page as int32)
  {
    var prefix := ContributorsPrefix(base, user, repo);
    ContributorsPrefixHasNoPage(base, user, repo);
    var suffix := "&per_page=100" + "&access_token=" + token;
    assert suffix[0] == '&';
    assert ContributorsPageUri(base, user, repo, page, token) == prefix + PageKey + DecimalString(page) + suffix;
    PageNumberOfWritten(prefix, page, suffix);
  }

  /** The pages the loop requests are 1, 2, ..., n in this order: the page
      number read back from the `k`-th requested URI is `k + 1`. */
  lemma RequestedPagesAscend(base: string, user: string, repo: string, n: int32, token: string, k: nat)
    requires !ContainsPage(base) && !ContainsPage(user) && !ContainsPage(repo)
    requires k < |PageUris(base, user, repo, n as int, token)|
    ensures PageNumberFromValue(PageUris(base, user, repo, n as int, token)[k]) == Ok((k + 1) as int32)
  {
    PageUrisAt(base, user, repo, n as int, token, k);
    PageUriRoundTrip(base, user, repo, k + 1, token);
  }

  // ---------------------------------------------------------------------------
  // Retrievals
  // ---------------------------------------------------------------------------

  /** GitHubService.retrievePagesUntilMax: one GET per page 1 to `maxPage`, in
      ascending order, each page's body appended to the list as it arrives; a
      failed GET ends the loop with its exception and the list is lost. */
  method RetrievePagesUntilMax<B>(remote: Remote<B>, base: string, user: string, repo: string,
                                  maxPage: int32, token: string)
    returns (r: Result<seq<B>>)
    modifies remote
    ensures var uris := PageUris(base, user, repo, maxPage as int, token);
      r == FetchAll(remote.serve, uris) &&
      remote.requested == old(remote.requested) + Attempted(remote.serve, uris)
  {
    ghost var uris := PageUris(base, user, repo, maxPage as int, token);
    var pageList := [];
    var i := 1;
    while i <= maxPage as int
      invariant 1 <= i <= |uris| + 1
      invariant AllServed(remote.serve, uris[..i - 1])
      invariant remote.requested == old(remote.requested) + uris[..i - 1]
      invariant pageList == Bodies(remote.serve, uris[..i - 1])
    {
      var uri := ContributorsPageUri(base, user, repo, i, token);
      PageUrisAt(base, user, repo, maxPage as int, token, i - 1);
      assert uris[..i] == uris[..i - 1] + [uri];
      var response := remote.Get(uri);
      if response.Failed? {
        FirstFailureAt(remote.serve, uris, i - 1);
        return Err(TransportFailure);
      }
      assert uris[..i][..i - 1] == uris[..i - 1];
      pageList := pageList + [response.body];
      i := i + 1;
    }
    assert uris[..i - 1] == uris;
    r := Ok(pageList);
  }

  /** A successful loop holds exactly `maxPage` pages (none when `maxPage <= 0`)
      and, at position `k`, the body of page `k + 1`. */
  lemma PagesUntilMaxAt<B>(serve: string -> Response<B>, base: string, user: string, repo: string,
                           maxPage: int32, token: string, k: nat)
    requires FetchAll(serve, PageUris(base, user, repo, maxPage as int, token)).Ok?
    requires k < |FetchAll(serve, PageUris(base, user, repo, maxPage as int, token)).value|
    ensures |FetchAll(serve, PageUris(base, user, repo, maxPage as int, token)).value| == maxPage as int
    ensures serve(ContributorsPageUri(base, user, repo, k + 1, token)).Response?
    ensures FetchAll(serve, PageUris(base, user, repo, maxPage as int, token)).value[k]
         == serve(ContributorsPageUri(base, user, repo, k + 1, token)).body
  {
    var uris := PageUris(base, user, repo, maxPage as int, token);
    FetchAllAt(serve, uris, k);
    PageUrisAt(base, user, repo, maxPage as int, token, k);
  }

  /** A GET of page `p` that fails (1 <= p <= maxPage) makes the whole loop fail:
      no list of pages is returned, and no page after `p` is requested. */
  lemma PagesUntilMaxFailsWithAnyPage<B>(serve: string -> Response<B>, base: string, user: string, repo: string,
                                         maxPage: int32, token: string, p: nat)
    requires 1 <= p <= maxPage as int
    requires serve(ContributorsPageUri(base, user, repo, p, token)).Failed?
    ensures FetchAll(serve, PageUris(base, user, repo, maxPage as int, token)) == Err(TransportFailure)
    ensures |Attempted(serve, PageUris(base, user, repo, maxPage as int, token))| <= p
  {
    var uris := PageUris(base, user, repo, maxPage as int, token);
    PageUrisAt(base, user, repo, maxPage as int, token, p - 1);
    FirstFailureAtMost(serve, uris, p - 1);
  }

  /** GitHubService.retrieveAllContributorsJsons: probe, decide the page count
      from the probe's `Link` headers, then fetch pages 1 to that count. The
      result is the list of pages (their merge into one array is not modelled). */
  method RetrieveAllContributors<B>(remote: Remote<B>, base: string, user: string, repo: string, token: string)
    returns (r: Result<seq<B>>)
    modifies remote
    ensures var probe := ContributorsProbeUri(base, user, repo, token);
      var response := remote.serve(probe);
      if response.Failed? then
        r == Err(TransportFailure) && remote.requested == old(remote.requested) + [probe]
      else
        match PageCount(response.linkHeaders)
        case Err(e) =>
          r == Err(e) && remote.requested == old(remote.requested) + [probe]
        case Ok(n) =>
          var uris := PageUris(base, user, repo, n as int, token);
          r == FetchAll(remote.serve, uris) &&
          remote.requested == old(remote.requested) + [probe] + Attempted(remote.serve, uris)
  {
    var probe := ContributorsProbeUri(base, user, repo, token);
    var response := remote.Get(probe);
    if response.Failed? {
      return Err(TransportFailure);
    }
    match PageCount(response.linkHeaders)
    case Err(e) =>
      r := Err(e);
    case Ok(maxPages) =>
      r := RetrievePagesUntilMax(remote, base, user, repo, maxPages, token);
  }

  /** GitHubService.retrieveInitialPageOfCommitAsync: probe page 1 of the
      commits; with no `Link` header its body is the answer, otherwise the
      last-page link in the header is fetched and its body is the answer. */
  method RetrieveInitialPageOfCommit<B>(remote: Remote<B>, base: string, user: string, repo: string, token: string)
    returns (r: Result<B>)
    modifies remote
    ensures var probe := CommitsProbeUri(base, user, repo, token);
      var response := remote.serve(probe);
      if response.Failed? then
        r == Err(TransportFailure) && remote.requested == old(remote.requested) + [probe]
      else
        match CommitPageSourceOf(response.linkHeaders)
        case Err(e) =>
          r == Err(e) && remote.requested == old(remote.requested) + [probe]
        case Ok(ProbeBody) =>
          r == Ok(response.body) && remote.requested == old(remote.requested) + [probe]
        case Ok(LastPageLink(link)) =>
          r == (if remote.serve(link).Failed? then Err(TransportFailure) else Ok(remote.serve(link).body)) &&
          remote.requested == old(remote.requested) + [probe, link]
  {
    var probe := CommitsProbeUri(base, user, repo, token);
    var response := remote.Get(probe);
    if response.Failed? {
      return Err(TransportFailure);
    }
    match CommitPageSourceOf(response.linkHeaders)
    case Err(e) =>
      r := Err(e);
    case Ok(ProbeBody) =>
      r := Ok(response.body);
    case Ok(LastPageLink(link)) =>
      var last := remote.Get(link);
      if last.Failed? {
        r := Err(TransportFailure);
      } else {
        r := Ok(last.body);
      }
  }

  // ---------------------------------------------------------------------------
  // The loop counter as Java runs it
  // ---------------------------------------------------------------------------

  /** The counter `i` of the page loop after `k` executions of `i++` from 1,
      with Java's 32-bit wrap-around. */
  function JavaLoopCounter(k: nat): int32
  {
    Wrap32(1 + k)
  }

  /** `Integer.toString(i)` for any `int`: a minus sign before the digits of a negative value. */
  function JavaIntString(i: int32): string
  {
    if i < 0 then "-" + DecimalString(-(i as int)) else DecimalString(i as int)
  }

  /** The URI the loop as written builds from its counter `i`. */
  function JavaPageUri(base: string, user: string, repo: string, i: int32, token: string): string
  {
    ContributorsPrefix(base, user, repo) + "page=" + JavaIntString(i)
      + "&per_page=100" + "&access_token=" + token
  }

  /** `i++` from 1 gives the page number for the first `Integer.MAX_VALUE`
      iterations, and then wraps to `Integer.MIN_VALUE`. Every `int` is at most
      `Integer.MAX_VALUE`, so with `maxPage == Integer.MAX_VALUE` the guard
      `i <= maxPage` never fails and the loop never exits. */
  lemma LoopGuardNeverFailsAtIntMax(k: nat)
    ensures k < IntMax ==> JavaLoopCounter(k) as int == k + 1
    ensures k == IntMax ==> JavaLoopCounter(k) as int == IntMin
  {
  }

  /** The requests of the loop as written: request `k + 1` for `k < MAX_VALUE`
      is the URI of page `k + 1`, as in the corrected loop; request number
      `MAX_VALUE + 1` is the URI for `page=-2147483648`, whose page number
      does not even parse (no digit follows `page=`). */
  lemma WrappedRequest(base: string, user: string, repo: string, token: string, k: nat)
    requires !ContainsPage(base) && !ContainsPage(user) && !ContainsPage(repo)
    requires k <= IntMax
    ensures k < IntMax ==>
      JavaPageUri(base, user, repo, JavaLoopCounter(k), token) == ContributorsPageUri(base, user, repo, k + 1, token)
    ensures k == IntMax ==>
      JavaIntString(JavaLoopCounter(k)) == "-" + DecimalString(-IntMin) &&
      PageNumberFromValue(JavaPageUri(base, user, repo, JavaLoopCounter(k), token)) == Err(EmptyNumber)
  {
    LoopGuardNeverFailsAtIntMax(k);
    var i := JavaLoopCounter(k);
    if k == IntMax {
      assert JavaIntString(i) == "-" + DecimalString(-IntMin);
      var prefix := ContributorsPrefix(base, user, repo);
      ContributorsPrefixHasNoPage(base, user, repo);
      var suffix := JavaIntString(i) + "&per_page=100" + "&access_token=" + token;
      assert suffix[0] == '-';
      assert JavaPageUri(base, user, repo, i, token) == prefix + PageKey + suffix;
      PageNumberOfEmpty(prefix, suffix);
    }
  }
}
