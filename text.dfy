/**
 * Bytes, Python whitespace, `str(n).encode()` and Python's `int(text)`.
 *
 * The program moves raw bytes on the wire and turns some of them into text
 * (`bytes.decode()`, `str.strip()`, `int(...)`); this module fixes those
 * conversions once for both the client and the server.
 */
module Text {
  import opened Wrappers

  newtype byte = x: int | 0 <= x < 256

  const NEWLINE: byte := 10
  const QUOTE: byte := 34
  const BACKSLASH: byte := 92
  const LBRACE: byte := 123
  const RBRACE: byte := 125

  /** `bytes.isspace()` on one byte: space, tab, LF, VT, FF, CR (what `bytes.strip()` removes). */
  predicate IsByteSpace(b: byte) {
    9 <= b <= 13 || b == 32
  }

  /** `str.isspace()` on one character (what `str.strip()` and `int()` remove). */
  predicate IsSpace(c: char) {
    var n := c as int;
    (9 <= n <= 13) || (28 <= n <= 32) || n == 0x85 || n == 0xA0 || n == 0x1680
    || (0x2000 <= n <= 0x200A) || n == 0x2028 || n == 0x2029 || n == 0x202F
    || n == 0x205F || n == 0x3000
  }

  /** Number of leading elements that are whitespace. */
  function LeadingSpace<T>(s: seq<T>, ws: T -> bool): (i: nat)
    ensures i <= |s|
    ensures forall k | 0 <= k < i :: ws(s[k])
    ensures i < |s| ==> !ws(s[i])
  {
    if s == [] || !ws(s[0]) then 0 else 1 + LeadingSpace(s[1..], ws)
  }

  /** Index where the trailing run of whitespace starts. */
  function TrailingSpace<T>(s: seq<T>, ws: T -> bool): (j: nat)
    ensures j <= |s|
    ensures forall k | j <= k < |s| :: ws(s[k])
    ensures j > 0 ==> !ws(s[j - 1])
  {
    if s == [] || !ws(s[|s| - 1]) then |s| else TrailingSpace(s[..|s| - 1], ws)
  }

  /**
   * `strip()` with the whitespace class `ws`: the longest middle part of `s`
   * that neither starts nor ends with whitespace, everything around it being
   * whitespace.
   */
  function Strip<T>(s: seq<T>, ws: T -> bool): (r: seq<T>)
    ensures |r| <= |s|
    ensures r != [] ==> !ws(r[0]) && !ws(r[|r| - 1])
    ensures r == [] <==> forall k | 0 <= k < |s| :: ws(s[k])
  {
    var i := LeadingSpace(s, ws);
    if i == |s| then
      []
    else
      var j := TrailingSpace(s, ws);
      s[i..j]
  }

  /**
   * `strip()` removes whitespace at both ends and nothing else: the result is
   * a middle slice of the input with only whitespace before and after it.
   */
  lemma StripRemovesOnlyEnds<T>(s: seq<T>, ws: T -> bool)
    ensures exists i, j | 0 <= i <= j <= |s| ::
      Strip(s, ws) == s[i..j] && (forall k | 0 <= k < i :: ws(s[k])) && (forall k | j <= k < |s| :: ws(s[k]))
  {
    var i := LeadingSpace(s, ws);
    if i == |s| {
      assert Strip(s, ws) == s[i..i];
    } else {
      var j := TrailingSpace(s, ws);
      assert i < j;
      assert Strip(s, ws) == s[i..j];
    }
  }

  /** A sequence that neither starts nor ends with whitespace is its own strip. */
  lemma {:induction false} StripUnchanged<T>(s: seq<T>, ws: T -> bool)
    requires s != [] ==> !ws(s[0]) && !ws(s[|s| - 1])
    ensures Strip(s, ws) == s
  {
    if s != [] {
      assert LeadingSpace(s, ws) == 0;
      assert TrailingSpace(s, ws) == |s|;
      assert s[0..|s|] == s;
    }
  }

  predicate IsDigitChar(c: char) {
    '0' <= c <= '9'
  }

  /** `bytes.decode()` restricted to ASCII: any byte of 128 or more is refused. */
  function DecodeAscii(b: seq<byte>): (r: Option<string>)
    ensures r.Some? <==> forall k | 0 <= k < |b| :: b[k] < 128
    ensures r.Some? ==> |r.value| == |b| && forall k | 0 <= k < |b| :: r.value[k] as int == b[k] as int
  {
    if forall k | 0 <= k < |b| :: b[k] < 128 then
      Some(seq(|b|, k requires 0 <= k < |b| => (b[k] as int) as char))
    else
      None
  }

  /** `str.encode()` of ASCII text. */
  function Ascii(s: string): (b: seq<byte>)
    requires forall k | 0 <= k < |s| :: s[k] as int < 128
    ensures DecodeAscii(b) == Some(s)
  {
    var b := seq(|s|, k requires 0 <= k < |s| => (s[k] as int) as byte);
    assert DecodeAscii(b).value == s;
    b
  }

  /**
   * The digit part `int()` accepts: ASCII digits, optionally with single
   * underscores between two digits (`1_000`).
   */
  predicate IsDigitPart(s: string) {
    |s| > 0 && forall k | 0 <= k < |s| :: DigitOrJoin(s, k)
  }

  /** Position `k` of a digit part holds a digit, or an underscore between two digits. */
  predicate DigitOrJoin(s: string, k: nat)
    requires k < |s|
  {
    IsDigitChar(s[k]) || (s[k] == '_' && 0 < k < |s| - 1 && IsDigitChar(s[k - 1]) && IsDigitChar(s[k + 1]))
  }

  /** Value of a digit part, underscores ignored. */
  function DigitsValue(s: string): nat {
    if s == [] then 0
    else
      var last := s[|s| - 1];
      if last == '_' then DigitsValue(s[..|s| - 1])
      else DigitsValue(s[..|s| - 1]) * 10 + (if IsDigitChar(last) then last as int - '0' as int else 0)
  }

  /**
   * Python's `int(text)` for base-10 text: surrounding whitespace is
   * stripped, an optional sign, then a digit part; anything else raises
   * `ValueError` (here `None`).
   */
  function IntOfText(s: string): Option<int> {
    var t := Strip(s, IsSpace);
    if |t| > 0 && (t[0] == '+' || t[0] == '-') then
      if IsDigitPart(t[1..]) then
        var v: int := DigitsValue(t[1..]);
        Some(if t[0] == '-' then -v else v)
      else None
    else if IsDigitPart(t) then Some(DigitsValue(t))
    else None
  }

  function Digit(d: nat): (b: byte)
    requires d < 10
    ensures 48 <= b <= 57
  {
    (48 + d) as byte
  }

  /** `str(n).encode()` for a natural number: its decimal digits, no sign, no leading zero. */
  function Decimal(n: nat): (r: seq<byte>)
    ensures |r| > 0 && forall k | 0 <= k < |r| :: 48 <= r[k] <= 57
    ensures |r| > 1 ==> r[0] != 48
  {
    if n < 10 then [Digit(n)] else Decimal(n / 10) + [Digit(n % 10)]
  }

  /** The decimal text of `n`, as `str(n)` gives it. */
  function DecimalText(n: nat): (t: string)
    ensures |t| == |Decimal(n)| && forall k | 0 <= k < |t| :: IsDigitChar(t[k])
  {
    DecodeAscii(Decimal(n)).value
  }

  lemma {:induction false} DigitsValueOfDecimal(n: nat)
    ensures DigitsValue(DecimalText(n)) == n
  {
    var t := DecimalText(n);
    if n < 10 {
      assert t[..0] == [];
    } else {
      var p := DecimalText(n / 10);
      DigitsValueOfDecimal(n / 10);
      assert t[..|t| - 1] == p by {
        forall k | 0 <= k < |p| ensures t[k] == p[k] {
          assert Decimal(n)[k] == Decimal(n / 10)[k];
        }
      }
      assert t[|t| - 1] as int == 48 + n % 10 by {
        assert Decimal(n)[|t| - 1] == Digit(n % 10);
      }
    }
  }

  /** Round trip of the size line's text: `int(str(n)) == n`. */
  lemma {:induction false} DecimalRoundTrip(n: nat)
    ensures DecodeAscii(Decimal(n)).Some?
    ensures IntOfText(DecimalText(n)) == Some(n)
  {
    var t := DecimalText(n);
    StripUnchanged(t, IsSpace);
    DecimalIsDigitPart(n);
    assert !(t[0] == '+' || t[0] == '-');
    DigitsValueOfDecimal(n);
  }

  /** The text of `str(n)` is a digit part. */
  lemma {:induction false} DecimalIsDigitPart(n: nat)
    ensures IsDigitPart(DecimalText(n))
  {
    var t := DecimalText(n);
    forall k | 0 <= k < |t| ensures DigitOrJoin(t, k) {
      assert IsDigitChar(t[k]);
    }
  }

  /** `str(-n)` parses back too; `int()` accepts a leading sign. */
  lemma {:induction false} NegativeRoundTrip(n: nat)
    ensures IntOfText("-" + DecimalText(n)) == Some(-(n as int))
  {
    DecimalIsDigitPart(n);
    DigitsValueOfDecimal(n);
    NegativeParse(DecimalText(n), n);
  }

  /** A minus sign in front of a digit part negates its value. */
  lemma NegativeParse(d: string, v: nat)
    requires IsDigitPart(d) && DigitsValue(d) == v
    ensures IntOfText("-" + d) == Some(-(v as int))
  {
    var t := "-" + d;
    assert DigitOrJoin(d, |d| - 1);
    assert t[0] == '-' && t[|t| - 1] == d[|d| - 1];
    StripUnchanged(t, IsSpace);
    assert t[1..] == d;
  }
}
