/** The pagination parsers of GitHubService: `getPageNumberFromValue`
    (the regular expression `page=[0-9]*`, its first match, the digits of that
    match parsed as an int), `extractLinkToLastPage` (the first token of a
    `StringTokenizer` over the delimiters `<` and `>`), and the two decisions a
    probe response's `Link` headers drive: how many contributor pages to fetch,
    and where the last page of commits is. */
module PageLinks {
  import opened JavaLang

  // ---------------------------------------------------------------------------
  // getPageNumberFromValue
  // ---------------------------------------------------------------------------

  /** The literal part of the pattern `page=[0-9]*`. */
  const PageKey: string := "page="

  /** `page=` occurs in `s` starting at index `i`. */
  predicate PageAt(s: string, i: int)
  {
    0 <= i && i + |PageKey| <= |s| && s[i..i + |PageKey|] == PageKey
  }

  predicate ContainsPage(s: string)
  {
    exists i :: 0 <= i <= |s| && PageAt(s, i)
  }

  /** `i` is where the leftmost `page=` of `s` starts. */
  predicate LeftmostPage(s: string, i: int)
  {
    PageAt(s, i) && forall j :: 0 <= j < i ==> !PageAt(s, j)
  }

  /** Where `Matcher.find()` places the first match of `page=[0-9]*` when it
      scans `s` from index `from`: the first `page=` at or after `from`
      (the digit part `[0-9]*` always matches, possibly empty). */
  function FindPage(s: string, from: nat): (r: Option<nat>)
    requires from <= |s|
    ensures r.Some? ==> from <= r.value && PageAt(s, r.value)
    ensures r.Some? ==> forall j :: from <= j < r.value ==> !PageAt(s, j)
    ensures r.None? ==> forall j :: from <= j ==> !PageAt(s, j)
    decreases |s| - from
  {
    if from + |PageKey| > |s| then None
    else if s[from..from + |PageKey|] == PageKey then Some(from)
    else FindPage(s, from + 1)
  }

  /** What the greedy `[0-9]*` consumes at the start of `s`: its longest prefix of digits. */
  function DigitRun(s: string): (d: string)
    ensures d <= s && AllDigits(d)
    ensures |d| < |s| ==> !IsDigit(s[|d|])
  {
    if s == [] || !IsDigit(s[0]) then [] else [s[0]] + DigitRun(s[1..])
  }

  /** A prefix of digits that is followed by a non-digit or by the end of `s` is the digit run. */
  lemma {:induction false} DigitRunUnique(s: string, d: string)
    requires d <= s && AllDigits(d)
    requires |d| < |s| ==> !IsDigit(s[|d|])
    ensures DigitRun(s) == d
  {
    if d != [] {
      assert s[0] == d[0];
      DigitRunUnique(s[1..], d[1..]);
    }
  }

  /** `s.replaceAll("[^0-9]", "")`: the digits of `s`, in order. */
  function KeepDigits(s: string): (r: string)
    ensures |r| <= |s| && AllDigits(r)
    ensures forall c :: c in r <==> c in s && IsDigit(c)
    ensures AllDigits(s) ==> r == s
  {
    if s == [] then []
    else (if IsDigit(s[0]) then [s[0]] else []) + KeepDigits(s[1..])
  }

  /** The filter works character by character, keeping order: filtering a
      concatenation concatenates the filtered parts. */
  lemma {:induction false} KeepDigitsAppend(s: string, t: string)
    ensures KeepDigits(s + t) == KeepDigits(s) + KeepDigits(t)
  {
    if s == [] {
      assert s + t == t;
    } else {
      assert (s + t)[0] == s[0];
      assert (s + t)[1..] == s[1..] + t;
      KeepDigitsAppend(s[1..], t);
    }
  }

  /** The digit filter removes exactly the `page=` of a match. */
  lemma KeepDigitsOfMatch(d: string)
    requires AllDigits(d)
    ensures KeepDigits(PageKey + d) == d
  {
    var m := PageKey + d;
    assert m[1..] == "age=" + d;
    assert m[2..] == "ge=" + d;
    assert m[3..] == "e=" + d;
    assert m[4..] == "=" + d;
    assert m[5..] == d;
    calc {
      KeepDigits(m);
      KeepDigits(m[1..]);
      { assert m[1..][1..] == m[2..]; }
      KeepDigits(m[2..]);
      { assert m[2..][1..] == m[3..]; }
      KeepDigits(m[3..]);
      { assert m[3..][1..] == m[4..]; }
      KeepDigits(m[4..]);
      { assert m[4..][1..] == m[5..]; }
      KeepDigits(d);
    }
  }

  /** GitHubService.getPageNumberFromValue: the first match of `page=[0-9]*`
      (`m.group()`), its non-digits removed, parsed with `Integer.parseInt`. */
  function PageNumberFromValue(value: string): (r: Result<int32>)
    ensures r.Ok? ==> r.value >= 0
  {
    match FindPage(value, 0)
    case None => Err(NoMatch)
    case Some(i) => ParseInt(KeepDigits(MatchText(value, i)))
  }

  /** `m.group()` for a match that starts at `i`: `page=` and the digits after it. */
  function MatchText(value: string, i: nat): string
    requires PageAt(value, i)
  {
    value[i..i + |PageKey| + |DigitRun(value[i + |PageKey|..])|]
  }

  /** Without a `page=` anywhere, `group()` finds no match. */
  lemma PageNumberNoMatch(value: string)
    ensures PageNumberFromValue(value) == Err(NoMatch) <==> !ContainsPage(value)
  {
    if ContainsPage(value) {
      var i :| PageAt(value, i);
      assert FindPage(value, 0).Some?;
    }
  }

  /** Matcher.find() stops at the leftmost `page=`. */
  lemma FindPageLeftmost(value: string, i: nat)
    requires LeftmostPage(value, i)
    ensures FindPage(value, 0) == Some(i)
  {
    var found := FindPage(value, 0);
    assert found.Some?;
    assert !(found.value < i);
    assert !(found.value > i);
  }

  /** The text of a match at `i` is `page=` followed by the maximal digit run `d`. */
  lemma MatchTextIs(value: string, i: nat, d: string)
    requires PageAt(value, i)
    requires d <= value[i + |PageKey|..] && AllDigits(d)
    requires i + |PageKey| + |d| < |value| ==> !IsDigit(value[i + |PageKey| + |d|])
    ensures MatchText(value, i) == PageKey + d
  {
    var rest := value[i + |PageKey|..];
    DigitRunUnique(rest, d);
    var group := MatchText(value, i);
    assert group[..|PageKey|] == value[i..i + |PageKey|] == PageKey;
    assert group[|PageKey|..] == rest[..|d|] == d;
  }

  /** The result is decided by the maximal digit run `d` right after the
      leftmost `page=`: no digit, a value past `Integer.MAX_VALUE`, or that value. */
  lemma PageNumberFromDigits(value: string, i: nat, d: string)
    requires LeftmostPage(value, i)
    requires d <= value[i + |PageKey|..] && AllDigits(d)
    requires i + |PageKey| + |d| < |value| ==> !IsDigit(value[i + |PageKey| + |d|])
    ensures PageNumberFromValue(value) ==
      if d == [] then Err(EmptyNumber)
      else if DecimalValue(d) > IntMax then Err(NumberOutOfRange)
      else Ok(DecimalValue(d) as int32)
  {
    FindPageLeftmost(value, i);
    MatchTextIs(value, i, d);
    KeepDigitsOfMatch(d);
  }

  /** `page=` has no border (no proper prefix of it is also a suffix), so an
      occurrence cannot start inside `s` and run into a `page=` written after it. */
  lemma NoPageBefore(s: string, j: int)
    requires !ContainsPage(s)
    requires 0 <= j < |s|
    ensures !PageAt(s + PageKey, j)
  {
    var t := s + PageKey;
    if j + |PageKey| <= |s| {
      assert !PageAt(s, j);
      assert s[j..j + |PageKey|] == t[j..j + |PageKey|];
    } else {
      assert t[|s|] == 'p';
      assert t[j..j + |PageKey|][|s| - j] == 'p' != PageKey[|s| - j];
    }
  }

  /** A value written as `prefix + "page=" + n + suffix`, with no `page=` in
      `prefix` and no digit opening `suffix`, gives back `n`. */
  lemma PageNumberOfWritten(prefix: string, n: nat, suffix: string)
    requires !ContainsPage(prefix)
    requires n <= IntMax
    requires suffix == [] || !IsDigit(suffix[0])
    ensures PageNumberFromValue(prefix + PageKey + DecimalString(n) + suffix) == Ok(n as int32)
  {
    var digits := DecimalString(n);
    var value := prefix + PageKey + digits + suffix;
    assert value == prefix + PageKey + (digits + suffix);
    LeftmostAfterPrefix(prefix, digits + suffix);
    PageNumberFromDigits(value, |prefix|, digits);
  }

  /** A `page=` written after a prefix without `page=` is the leftmost one. */
  lemma LeftmostAfterPrefix(prefix: string, rest: string)
    requires !ContainsPage(prefix)
    ensures LeftmostPage(prefix + PageKey + rest, |prefix|)
    ensures (prefix + PageKey + rest)[|prefix| + |PageKey|..] == rest
  {
    var value := prefix + PageKey + rest;
    var i := |prefix|;
    assert value[i..i + |PageKey|] == PageKey;
    forall j | 0 <= j < i
      ensures !PageAt(value, j)
    {
      NoPageBefore(prefix, j);
      assert value[j..j + |PageKey|] == (prefix + PageKey)[j..j + |PageKey|];
    }
  }

  /** A value written as `prefix + "page=" + suffix`, with no `page=` in
      `prefix` and no digit opening `suffix`, fails on the empty number. */
  lemma PageNumberOfEmpty(prefix: string, suffix: string)
    requires !ContainsPage(prefix)
    requires suffix == [] || !IsDigit(suffix[0])
    ensures PageNumberFromValue(prefix + PageKey + suffix) == Err(EmptyNumber)
  {
    LeftmostAfterPrefix(prefix, suffix);
    PageNumberFromDigits(prefix + PageKey + suffix, |prefix|, []);
  }

  /** A `page=` that runs on into more digits gives the whole run: `page=12x` gives 12, not 1. */
  lemma PageNumberTakesWholeRun()
    ensures PageNumberFromValue("?page=12x") == Ok(12)
  {
    assert DecimalString(12) == "12";
    assert "?page=12x" == "?" + PageKey + DecimalString(12) + "x";
    assert !ContainsPage("?");
    PageNumberOfWritten("?", 12, "x");
  }

  /** The leftmost match is the `page=` inside `per_page=`: the value
      `per_page=100&page=3` gives 100, not 3. */
  lemma PageNumberMatchesInsidePerPage()
    ensures PageNumberFromValue("per_page=100&page=3") == Ok(100)
  {
    assert DecimalString(100) == "100";
    assert "per_page=100&page=3" == "per_" + PageKey + DecimalString(100) + "&page=3";
    NoEqualsNoPage("per_");
    PageNumberOfWritten("per_", 100, "&page=3");
  }

  // ---------------------------------------------------------------------------
  // extractLinkToLastPage
  // ---------------------------------------------------------------------------

  /** The delimiter set `"<>"` of the tokenizer. */
  predicate IsDelimiter(c: char) { c == '<' || c == '>' }

  /** Length of the longest prefix of `s` whose characters are delimiters
      (`delims`) or non-delimiters (`!delims`). */
  function RunLength(s: string, delims: bool): (n: nat)
    ensures n <= |s|
    ensures forall k :: 0 <= k < n ==> IsDelimiter(s[k]) == delims
    ensures n < |s| ==> IsDelimiter(s[n]) != delims
  {
    if s == [] || IsDelimiter(s[0]) != delims then 0 else 1 + RunLength(s[1..], delims)
  }

  /** GitHubService.extractLinkToLastPage: `new StringTokenizer(header, "<>").nextToken()`
      skips the leading delimiters and returns the longest run of
      non-delimiters after them; with no such character it throws. */
  function ExtractLinkToLastPage(header: string): (r: Result<string>)
    ensures r.Err? <==> forall k :: 0 <= k < |header| ==> IsDelimiter(header[k])
    ensures r.Err? ==> r.error == NoToken
    ensures r.Ok? ==> |r.value| > 0 && forall k :: 0 <= k < |r.value| ==> !IsDelimiter(r.value[k])
    ensures r.Ok? ==> exists start :: 0 <= start <= |header| && r.value <= header[start..]
  {
    var start := RunLength(header, true);
    if start == |header| then
      Err(NoToken)
    else
      var len := RunLength(header[start..], false);
      assert header[start..start + len] == header[start..][..len];
      Ok(header[start..start + len])
  }

  /** The token is determined by where it starts and ends: all delimiters
      before it, none inside it, a delimiter or the end after it. */
  lemma ExtractLinkIsFirstToken(header: string, start: nat, len: nat)
    requires start + len <= |header| && len > 0
    requires forall k :: 0 <= k < start ==> IsDelimiter(header[k])
    requires forall k :: start <= k < start + len ==> !IsDelimiter(header[k])
    requires start + len < |header| ==> IsDelimiter(header[start + len])
    ensures ExtractLinkToLastPage(header) == Ok(header[start..start + len])
  {
    RunLengthUnique(header, true, start);
    RunLengthUnique(header[start..], false, len);
  }

  lemma {:induction false} RunLengthUnique(s: string, delims: bool, n: nat)
    requires n <= |s|
    requires forall k :: 0 <= k < n ==> IsDelimiter(s[k]) == delims
    requires n < |s| ==> IsDelimiter(s[n]) != delims
    ensures RunLength(s, delims) == n
  {
    if n > 0 {
      RunLengthUnique(s[1..], delims, n - 1);
    }
  }

  /** A `Link` element of the form `<uri>; rel="last"` (section 3 of RFC 8288)
      gives back `uri`, provided `uri` itself has no angle bracket. */
  lemma ExtractLinkOfElement(uri: string, params: string)
    requires |uri| > 0 && '<' !in uri && '>' !in uri
    ensures ExtractLinkToLastPage("<" + uri + ">" + params) == Ok(uri)
  {
    var header := "<" + uri + ">" + params;
    assert header[1..1 + |uri|] == uri;
    ExtractLinkIsFirstToken(header, 1, |uri|);
  }

  /** `<u>; rel="last"` gives `u`. */
  lemma ExtractLinkExample()
    ensures ExtractLinkToLastPage("<u>; rel=\"last\"") == Ok("u")
  {
    assert "<u>; rel=\"last\"" == "<" + "u" + ">" + "; rel=\"last\"";
    ExtractLinkOfElement("u", "; rel=\"last\"");
  }

  // ---------------------------------------------------------------------------
  // Decisions on the probe response's Link headers
  // ---------------------------------------------------------------------------

  /** One element of a parsed `Link` header, as Apache's `HeaderElement`
      gives it: `toString()` (`text`) and `getValue()` (`value`). */
  datatype HeaderElement = HeaderElement(text: string, value: string)

  /** The page count of the contributors retrieval: 1 with no `Link` header,
      otherwise the page number in the value of the first header's second element. */
  function PageCount(linkHeaders: seq<seq<HeaderElement>>): (r: Result<int32>)
    ensures |linkHeaders| == 0 ==> r == Ok(1)
    ensures |linkHeaders| > 0 && |linkHeaders[0]| < 2 ==> r == Err(MissingLinkElement)
    ensures r.Ok? ==> r.value >= 0
  {
    if |linkHeaders| == 0 then Ok(1)
    else if |linkHeaders[0]| < 2 then Err(MissingLinkElement)
    else PageNumberFromValue(linkHeaders[0][1].value)
  }

  /** A header whose second element's value carries `page=n` (first
      occurrence, not followed by a digit) gives page count `n`. */
  lemma PageCountOfLastLink(linkHeaders: seq<seq<HeaderElement>>, prefix: string, n: nat, suffix: string)
    requires |linkHeaders| > 0 && |linkHeaders[0]| >= 2
    requires linkHeaders[0][1].value == prefix + PageKey + DecimalString(n) + suffix
    requires !ContainsPage(prefix) && n <= IntMax
    requires suffix == [] || !IsDigit(suffix[0])
    ensures PageCount(linkHeaders) == Ok(n as int32)
  {
    PageNumberOfWritten(prefix, n, suffix);
  }

  /** What the first-commit-page retrieval does after its probe. */
  datatype CommitPageSource =
    | ProbeBody                  // no Link header: the probe's own body is the answer
    | LastPageLink(uri: string)  // fetch this link, taken from the header

  /** With no `Link` header the probe body is used; otherwise the link in the
      `toString()` of the first header's second element is fetched. */
  function CommitPageSourceOf(linkHeaders: seq<seq<HeaderElement>>): (r: Result<CommitPageSource>)
    ensures |linkHeaders| == 0 <==> r == Ok(ProbeBody)
    ensures r.Ok? && r.value.LastPageLink? ==>
      |linkHeaders[0]| >= 2 && ExtractLinkToLastPage(linkHeaders[0][1].text) == Ok(r.value.uri)
    ensures |linkHeaders| > 0 && |linkHeaders[0]| < 2 ==> r == Err(MissingLinkElement)
    ensures r.Err? ==>
      |linkHeaders| > 0 &&
      (|linkHeaders[0]| < 2 || ExtractLinkToLastPage(linkHeaders[0][1].text) == Err(r.error))
  {
    if |linkHeaders| == 0 then Ok(ProbeBody)
    else if |linkHeaders[0]| < 2 then Err(MissingLinkElement)
    else
      match ExtractLinkToLastPage(linkHeaders[0][1].text)
      case Err(e) => Err(e)
      case Ok(link) => Ok(LastPageLink(link))
  }

  /** When the second element is written `<uri>params` (section 3 of RFC 8288)
      with no angle bracket in `uri`, the retrieval fetches `uri`; and when
      `uri` carries `page=n` as its first `page=`, that link names page `n`. */
  lemma CommitPageSourceOfLastElement(next: HeaderElement, uri: string, params: string, value: string,
                                      prefix: string, n: nat, suffix: string)
    requires |uri| > 0 && '<' !in uri && '>' !in uri
    requires uri == prefix + PageKey + DecimalString(n) + suffix
    requires !ContainsPage(prefix) && n <= IntMax
    requires suffix == [] || !IsDigit(suffix[0])
    ensures CommitPageSourceOf([[next, HeaderElement("<" + uri + ">" + params, value)]]) == Ok(LastPageLink(uri))
    ensures PageNumberFromValue(uri) == Ok(n as int32)
  {
    ExtractLinkOfElement(uri, params);
    PageNumberOfWritten(prefix, n, suffix);
  }

  /** A string without `=` has no `page=`. */
  lemma NoEqualsNoPage(s: string)
    requires '=' !in s
    ensures !ContainsPage(s)
  {
    forall j | 0 <= j <= |s| && j + |PageKey| <= |s|
      ensures !PageAt(s, j)
    {
      assert s[j..j + |PageKey|][4] == s[j + 4] != '=';
    }
  }
}
