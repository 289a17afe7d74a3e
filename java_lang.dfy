/** The pieces of java.lang the pagination code leans on: 32-bit `int`,
    `Integer.toString` of a non-negative int, `Integer.parseInt` of a string
    of ASCII digits, and the exceptions the pagination code can raise,
    turned into error values. */
module JavaLang {

  /** Java's `int`. */
  newtype int32 = x: int | -0x8000_0000 <= x < 0x8000_0000

  const IntMax: int := 0x7FFF_FFFF
  const IntMin: int := -0x8000_0000

  /** Two's-complement wrap-around of an integer into the `int` range. */
  function Wrap32(x: int): (r: int32)
    ensures (r as int - x) % 0x1_0000_0000 == 0
  {
    var m := (x - IntMin) % 0x1_0000_0000;
    (m + IntMin) as int32
  }

  datatype Option<T> = None | Some(value: T)

  /** The exceptions the pagination code lets escape, one per cause. */
  datatype Error =
    | NoMatch             // Matcher.group() after a failed find(): IllegalStateException
    | EmptyNumber         // Integer.parseInt(""): NumberFormatException
    | NumberOutOfRange    // Integer.parseInt of a value above Integer.MAX_VALUE: NumberFormatException
    | MissingLinkElement  // getElements()[1] on a header with fewer elements: ArrayIndexOutOfBoundsException
    | NoToken             // StringTokenizer.nextToken() with no token left: NoSuchElementException
    | TransportFailure    // httpClient.execute or reading the response body: IOException

  datatype Result<T> = Ok(value: T) | Err(error: Error)

  predicate IsDigit(c: char) { '0' <= c <= '9' }

  predicate AllDigits(s: string) { forall k :: 0 <= k < |s| ==> IsDigit(s[k]) }

  function DigitValue(c: char): nat
    requires IsDigit(c)
  {
    c as int - '0' as int
  }

  function DigitChar(d: nat): (c: char)
    requires d < 10
    ensures IsDigit(c) && DigitValue(c) == d
  {
    ('0' as int + d) as char
  }

  /** The number a string of decimal digits denotes, most significant digit first. */
  function DecimalValue(s: string): nat
    requires AllDigits(s)
  {
    if s == [] then 0 else DecimalValue(s[..|s| - 1]) * 10 + DigitValue(s[|s| - 1])
  }

  /** Appending a digit shifts the value one decimal place. */
  lemma DecimalValueSnoc(s: string, c: char)
    requires AllDigits(s) && IsDigit(c)
    ensures AllDigits(s + [c]) && DecimalValue(s + [c]) == DecimalValue(s) * 10 + DigitValue(c)
  {
    assert (s + [c])[..|s + [c]| - 1] == s;
  }

  /** `Integer.toString(n)` for a non-negative `n`: its decimal digits. */
  function DecimalString(n: nat): (s: string)
    ensures |s| > 0 && AllDigits(s)
    ensures DecimalValue(s) == n
  {
    if n < 10 then
      [DigitChar(n)]
    else
      DecimalValueSnoc(DecimalString(n / 10), DigitChar(n % 10));
      DecimalString(n / 10) + [DigitChar(n % 10)]
  }

  /** `Integer.parseInt(s)` for a string `s` made only of ASCII digits:
      the empty string and a value above `Integer.MAX_VALUE` are rejected. */
  function ParseInt(s: string): (r: Result<int32>)
    requires AllDigits(s)
  {
    if s == [] then Err(EmptyNumber)
    else if DecimalValue(s) > IntMax then Err(NumberOutOfRange)
    else Ok(DecimalValue(s) as int32)
  }
}
