/** Text helpers shared by the logger backend: decimal rendering of naturals
    (Rust's `{}` on an unsigned integer), padding (`{:>w}`, `{:0w}`), and the
    JSON text of a string value. */
module Text {

  /** Ten to the power `k`. */
  function Pow10(k: nat): (r: nat)
    ensures r >= 1
  {
    if k == 0 then 1 else 10 * Pow10(k - 1)
  }

  predicate IsDigit(c: char) {
    '0' <= c <= '9'
  }

  predicate AllDigits(s: string) {
    forall i :: 0 <= i < |s| ==> IsDigit(s[i])
  }

  function DigitChar(d: nat): (c: char)
    requires d < 10
    ensures IsDigit(c)
  {
    ('0' as int + d) as char
  }

  function DigitValue(c: char): (d: nat)
    requires IsDigit(c)
    ensures d < 10
  {
    (c as int - '0' as int) as nat
  }

  lemma DigitRoundTrip(d: nat)
    requires d < 10
    ensures DigitValue(DigitChar(d)) == d
  {
  }

  /** The decimal digits of `n`, most significant first, with no leading zero. */
  function Dec(n: nat): (r: string)
    ensures |r| >= 1
  {
    if n < 10 then [DigitChar(n)] else Dec(n / 10) + [DigitChar(n % 10)]
  }

  /** `Dec` writes only digits, and a leading zero only for zero itself. */
  lemma {:induction false} DecDigits(n: nat)
    ensures AllDigits(Dec(n))
    ensures Dec(n)[0] == '0' ==> n == 0
  {
    if n >= 10 {
      DecDigits(n / 10);
    }
  }

  /** The number a string of decimal digits denotes. */
  function ParseDec(s: string): nat
    requires AllDigits(s)
  {
    if s == [] then 0 else 10 * ParseDec(s[..|s| - 1]) + DigitValue(s[|s| - 1])
  }

  /** Reading back what `Dec` writes gives the number again. */
  lemma {:induction false} DecRoundTrip(n: nat)
    ensures AllDigits(Dec(n)) && ParseDec(Dec(n)) == n
  {
    DecDigits(n);
    if n < 10 {
      DigitRoundTrip(n);
    } else {
      var s := Dec(n);
      assert s[..|s| - 1] == Dec(n / 10);
      DecRoundTrip(n / 10);
      DigitRoundTrip(n % 10);
    }
  }

  /** A number below 10^k has at most k digits. */
  lemma {:induction false} DecLength(n: nat, k: nat)
    requires k >= 1 && n < Pow10(k)
    ensures |Dec(n)| <= k
  {
    if n >= 10 {
      DecLength(n / 10, k - 1);
    }
  }

  /** A number of at least 10^k has more than k digits. */
  lemma {:induction false} DecLengthAtLeast(n: nat, k: nat)
    requires Pow10(k) <= n
    ensures |Dec(n)| >= k + 1
  {
    if k > 0 {
      assert n / 10 >= Pow10(k - 1);
      DecLengthAtLeast(n / 10, k - 1);
    }
  }

  /** Digits written after other digits scale them by a power of ten. */
  lemma {:induction false} ParseDecAppend(a: string, b: string)
    requires AllDigits(a) && AllDigits(b)
    ensures AllDigits(a + b)
    ensures ParseDec(a + b) == ParseDec(a) * Pow10(|b|) + ParseDec(b)
  {
    DigitsAppend(a, b);
    if b != [] {
      var ab, b' := a + b, b[..|b| - 1];
      assert ab[..|ab| - 1] == a + b';
      assert ab[|ab| - 1] == b[|b| - 1];
      assert b[..|b| - 1] == b';
      ParseDecAppend(a, b');
      ShiftDigit(ParseDec(ab), ParseDec(a), Pow10(|b'|), ParseDec(b'), DigitValue(b[|b| - 1]));
    } else {
      assert a + b == a;
    }
  }

  lemma DigitsAppend(a: string, b: string)
    requires AllDigits(a) && AllDigits(b)
    ensures AllDigits(a + b)
  {
    forall i | 0 <= i < |a + b| ensures IsDigit((a + b)[i]) {
      if i >= |a| { assert (a + b)[i] == b[i - |a|]; }
    }
  }

  /** One more digit on the right of `a`'s digits followed by `z`'s. */
  lemma ShiftDigit(p: nat, x: nat, y: nat, z: nat, d: nat)
    requires p == 10 * (x * y + z) + d
    ensures p == x * (10 * y) + (10 * z + d)
  {
    MulLeft10(x, y);
  }

  lemma MulLeft10(x: nat, y: nat)
    ensures 10 * (x * y) == x * (10 * y)
  {
  }

  function Repeat(c: char, n: nat): (r: string)
    ensures |r| == n
  {
    if n == 0 then [] else Repeat(c, n - 1) + [c]
  }

  /** Every character of `Repeat(c, n)` is `c`. */
  lemma {:induction false} RepeatChars(c: char, n: nat)
    ensures forall i :: 0 <= i < n ==> Repeat(c, n)[i] == c
  {
    if n > 0 {
      RepeatChars(c, n - 1);
      assert Repeat(c, n) == Repeat(c, n - 1) + [c];
    }
  }

  /** `n` spaces: what `format!("{:>n$}", "")` writes. */
  function Spaces(n: nat): (r: string)
    ensures |r| == n
  {
    Repeat(' ', n)
  }

  /** Right alignment in a field of `width` characters filled with `fill`,
      as Rust's `{:>width}` (fill ' ') and `{:0width}` (fill '0') do. */
  function PadLeft(s: string, width: nat, fill: char): (r: string)
    ensures |r| == if |s| < width then width else |s|
  {
    if |s| < width then Repeat(fill, width - |s|) + s else s
  }

  /** The padded text ends with the text and is filled before it. */
  lemma PadLeftShape(s: string, width: nat, fill: char)
    ensures var r := PadLeft(s, width, fill);
      (forall i :: 0 <= i < |s| ==> r[|r| - |s| + i] == s[i]) &&
      (forall i :: 0 <= i < |r| - |s| ==> r[i] == fill)
  {
    if |s| < width {
      RepeatChars(fill, width - |s|);
    }
  }

  lemma {:induction false} ParseDecLeadingZeros(k: nat, s: string)
    requires AllDigits(s)
    ensures AllDigits(Repeat('0', k)) && AllDigits(Repeat('0', k) + s)
    ensures ParseDec(Repeat('0', k) + s) == ParseDec(s)
  {
    ZerosParseToZero(k);
    ParseDecAppend(Repeat('0', k), s);
  }

  lemma {:induction false} ZerosParseToZero(k: nat)
    ensures AllDigits(Repeat('0', k)) && ParseDec(Repeat('0', k)) == 0
  {
    if k > 0 {
      var z := Repeat('0', k);
      assert z[..k - 1] == Repeat('0', k - 1);
      ZerosParseToZero(k - 1);
    }
  }

  /** Zero padding a decimal to a width no smaller than its length keeps its
      value and gives exactly that width: what `{:0width}` promises. */
  lemma ZeroPaddedDec(n: nat, width: nat)
    requires width >= 1 && n < Pow10(width)
    ensures |PadLeft(Dec(n), width, '0')| == width
    ensures AllDigits(PadLeft(Dec(n), width, '0'))
    ensures ParseDec(PadLeft(Dec(n), width, '0')) == n
  {
    var d := Dec(n);
    DecLength(n, width);
    DecRoundTrip(n);
    if |d| < width {
      var z := Repeat('0', width - |d|);
      ParseDecLeadingZeros(width - |d|, d);
      assert PadLeft(d, width, '0') == z + d;
    } else {
      assert PadLeft(d, width, '0') == d;
    }
  }

  /** Rust's `{}` on a signed integer. */
  function IntToString(n: int): (r: string)
    ensures n >= 0 ==> r == Dec(n)
    ensures n < 0 ==> r == "-" + Dec(-n)
  {
    if n < 0 then "-" + Dec(-n) else Dec(n)
  }

  /** Lower-case hexadecimal digit, as JSON's `\u00XX` escapes use. */
  function HexChar(d: nat): char
    requires d < 16
  {
    "0123456789abcdef"[d]
  }

  /** The escape JSON writes for one character of a string. */
  function EscapeChar(c: char): (r: string)
    ensures |r| >= 1
  {
    if c == '"' then "\\\""
    else if c == '\\' then "\\\\"
    else if c == '\n' then "\\n"
    else if c == '\r' then "\\r"
    else if c == '\t' then "\\t"
    else if c == 8 as char then "\\b"
    else if c == 12 as char then "\\f"
    else if (c as int) < 0x20 then "\\u00" + [HexChar(c as int / 16), HexChar(c as int % 16)]
    else [c]
  }

  /** The characters JSON writes between the quotes of a string value. */
  function EscapeJson(s: string): (r: string)
    ensures |r| >= |s|
  {
    if s == [] then [] else EscapeJson(s[..|s| - 1]) + EscapeChar(s[|s| - 1])
  }
}
