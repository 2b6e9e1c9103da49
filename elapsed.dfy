/** `elapsed`: the text the logger backend shows for a duration, chosen by
    bucket on the whole seconds and, below one second, on the nanoseconds. */
module Elapsed {
  import opened Wrappers
  import opened Text

  const NanosPerSec: nat := 1_000_000_000

  /** `t / unit` rounded to the nearest integer, ties to the even one: what
      printing `t as f64 / unit` with no decimals shows (the quotient is exact
      to well within the rounding step for every `t` below one second). */
  function RoundHalfEven(t: nat, unit: nat): (q: nat)
    requires unit > 0
    ensures 2 * (q * unit - t) <= unit && 2 * (t - q * unit) <= unit
  {
    var q, r := t / unit, t % unit;
    assert t == q * unit + r;
    if 2 * r < unit then q
    else if 2 * r > unit then q + 1
    else if q % 2 == 0 then q
    else q + 1
  }

  /** The sub-second text: nanoseconds, microseconds or milliseconds,
      right-aligned in three characters, then the unit. */
  function Fraction(nanos: nat): (r: string)
    ensures |r| >= 5 && r[|r| - 1] == 's'
    ensures r[|r| - 2] == if nanos < 1000 then 'n' else if nanos < 1_000_000 then 'µ' else 'm'
  {
    if nanos < 1000 then PadLeft(Dec(nanos), 3, ' ') + "ns"
    else if nanos < 1_000_000 then PadLeft(Dec(RoundHalfEven(nanos, 1000)), 3, ' ') + "µs"
    else PadLeft(Dec(RoundHalfEven(nanos, 1_000_000)), 3, ' ') + "ms"
  }

  /** The bucket table; `microWidth` is the zero-padding width of the
      microsecond count shown for 1 to 4 whole seconds. Every text ends in
      `s` (seconds, or the sub-second units), except the hour bucket's,
      which ends in the minutes' `m`. */
  function Render(secs: nat, nanos: nat, microWidth: nat): (r: string)
    requires nanos < NanosPerSec
    ensures |r| >= 2 && r[|r| - 1] == if 3600 <= secs < 86400 then 'm' else 's'
  {
    if secs == 0 then Fraction(nanos)
    else if secs < 5 then Dec(secs) + "." + PadLeft(Dec(nanos / 1000), microWidth, '0') + "s"
    else if secs < 60 then Dec(secs) + "." + PadLeft(Dec(nanos / 1_000_000), 3, '0') + "s"
    else if secs < 3600 then Dec(secs / 60) + "m " + Dec(secs % 60) + "s"
    else if secs < 86400 then Dec(secs / 3600) + "h " + Dec((secs % 3600) / 60) + "m"
    else Dec(secs) + "s"
  }

  /** `elapsed` as the source writes it: the microsecond count for 1 to 4
      whole seconds is padded to three digits only. */
  function Elapsed(secs: nat, nanos: nat): (r: string)
    requires nanos < NanosPerSec
    ensures |r| >= 2 && r[|r| - 1] == if 3600 <= secs < 86400 then 'm' else 's'
  {
    Render(secs, nanos, 3)
  }

  /** `elapsed` with the microsecond count padded to its six digits; it
      differs from `Elapsed` only in that bucket (`CorrectionScope`). */
  function ElapsedCorrected(secs: nat, nanos: nat): (r: string)
    requires nanos < NanosPerSec
    ensures |r| >= 2 && r[|r| - 1] == if 3600 <= secs < 86400 then 'm' else 's'
  {
    Render(secs, nanos, 6)
  }

  /** `elapsed` of a duration given in nanoseconds (whole seconds and the
      sub-second remainder, as `as_secs` and `subsec_nanos` split it). */
  function ElapsedOf(d: nat): (r: string)
    ensures |r| >= 2
    ensures r[|r| - 1] == if 3600 * NanosPerSec <= d < 86400 * NanosPerSec then 'm' else 's'
  {
    Elapsed(d / NanosPerSec, d % NanosPerSec)
  }

  // ----- the buckets -----

  /** Below one second: the count in the unit the bucket picks, right-aligned
      to three characters, within half a unit of the true value. */
  lemma SubSecondBuckets(nanos: nat) returns (q: nat, unit: string)
    requires nanos < NanosPerSec
    ensures Elapsed(0, nanos) == PadLeft(Dec(q), 3, ' ') + unit
    ensures nanos < 1000 ==> unit == "ns" && q == nanos
    ensures 1000 <= nanos < 1_000_000 ==>
      (unit == "µs" && 2 * (q * 1000 - nanos) <= 1000 && 2 * (nanos - q * 1000) <= 1000)
    ensures 1_000_000 <= nanos ==>
      (unit == "ms" && 2 * (q * 1_000_000 - nanos) <= 1_000_000 && 2 * (nanos - q * 1_000_000) <= 1_000_000)
  {
    if nanos < 1000 {
      q, unit := nanos, "ns";
    } else if nanos < 1_000_000 {
      q, unit := RoundHalfEven(nanos, 1000), "µs";
    } else {
      q, unit := RoundHalfEven(nanos, 1_000_000), "ms";
    }
  }

  /** From one minute to just under an hour: whole minutes and the leftover
      seconds, which together give back the seconds exactly. */
  lemma MinutesBucket(secs: nat, nanos: nat) returns (m: nat, s: nat)
    requires 60 <= secs < 3600 && nanos < NanosPerSec
    ensures Elapsed(secs, nanos) == Dec(m) + "m " + Dec(s) + "s"
    ensures 60 * m + s == secs && s < 60 && 1 <= m < 60
  {
    m, s := secs / 60, secs % 60;
  }

  /** From one hour to just under a day: whole hours and whole minutes; the
      seconds within the minute are dropped. */
  lemma HoursBucket(secs: nat, nanos: nat) returns (h: nat, m: nat)
    requires 3600 <= secs < 86400 && nanos < NanosPerSec
    ensures Elapsed(secs, nanos) == Dec(h) + "h " + Dec(m) + "m"
    ensures 3600 * h + 60 * m <= secs < 3600 * h + 60 * m + 60 && m < 60 && 1 <= h < 24
  {
    h, m := secs / 3600, (secs % 3600) / 60;
  }

  /** A day or more: the whole seconds, with no larger unit. */
  lemma DaysBucket(secs: nat, nanos: nat)
    requires 86400 <= secs && nanos < NanosPerSec
    ensures Elapsed(secs, nanos) == Dec(secs) + "s"
  {
  }

  // ----- reading the decimal seconds back -----

  /** The first position of `c` in `s` (`IndexOfFirst`). */
  function IndexOf(s: string, c: char): (r: Option<nat>)
    ensures r.Some? ==> r.value < |s| && s[r.value] == c
  {
    if s == [] then None
    else if s[0] == c then Some(0)
    else match IndexOf(s[1..], c)
      case None => None
      case Some(i) => Some(i + 1)
  }

  /** No earlier position holds `c`, and `None` means `c` does not occur. */
  lemma {:induction false} IndexOfFirst(s: string, c: char)
    ensures IndexOf(s, c).Some? ==> forall j :: 0 <= j < IndexOf(s, c).value ==> s[j] != c
    ensures IndexOf(s, c).None? ==> forall j :: 0 <= j < |s| ==> s[j] != c
  {
    if s != [] && s[0] != c {
      IndexOfFirst(s[1..], c);
      forall j | 1 <= j < |s| ensures s[j] == s[1..][j - 1] {}
    }
  }

  lemma {:induction false} IndexOfAfterDigits(a: string, b: string)
    requires AllDigits(a)
    ensures IndexOf(a + "." + b, '.') == Some(|a|)
  {
    if a != [] {
      assert (a + "." + b)[1..] == a[1..] + "." + b;
      IndexOfAfterDigits(a[1..], b);
    }
  }

  /** How a reader takes a text of the form `<digits>.<digits>s`: as that
      many seconds with a decimal fraction, here in microseconds. */
  function ReadDecimalSeconds(t: string): Option<nat> {
    if t == [] || t[|t| - 1] != 's' then None
    else
      var body := t[..|t| - 1];
      match IndexOf(body, '.')
      case None => None
      case Some(i) => ReadParts(body[..i], body[i + 1..])
  }

  /** Up to six digits after the point, in microseconds. */
  function FracMicros(frac: string): nat
    requires AllDigits(frac) && |frac| <= 6
  {
    var v := ParseDec(frac);
    if |frac| == 6 then v
    else if |frac| == 5 then 10 * v
    else if |frac| == 4 then 100 * v
    else if |frac| == 3 then 1000 * v
    else if |frac| == 2 then 10_000 * v
    else 100_000 * v
  }

  /** Whole seconds and up to six fraction digits, in microseconds. */
  function ReadParts(whole: string, frac: string): Option<nat> {
    if |whole| >= 1 && AllDigits(whole) && 1 <= |frac| <= 6 && AllDigits(frac)
    then Some(ParseDec(whole) * 1_000_000 + FracMicros(frac))
    else None
  }

  /** Reading `<whole>.<frac>s` splits it at the point. */
  lemma ReadSplit(w: string, frac: string)
    requires AllDigits(w)
    ensures ReadDecimalSeconds(w + "." + frac + "s") == ReadParts(w, frac)
  {
    var body := w + "." + frac;
    var t := body + "s";
    assert t[..|t| - 1] == body;
    IndexOfAfterDigits(w, frac);
    assert body[..|w|] == w;
    assert body[|w| + 1..] == frac;
  }

  lemma ReadDecimal(whole: nat, frac: string)
    requires AllDigits(frac) && 1 <= |frac| <= 6
    ensures ReadDecimalSeconds(Dec(whole) + "." + frac + "s") == Some(whole * 1_000_000 + FracMicros(frac))
  {
    DecRoundTrip(whole);
    ReadSplit(Dec(whole), frac);
  }

  /** The 1 to 4 second bucket: whole seconds, a point, the microseconds
      zero-padded to six digits. */
  lemma CorrectedShortSecondsShape(secs: nat, nanos: nat)
    requires 1 <= secs < 5 && nanos < NanosPerSec
    ensures ElapsedCorrected(secs, nanos) == Dec(secs) + "." + PadLeft(Dec(nanos / 1000), 6, '0') + "s"
  {
  }

  /** The same bucket as written: the padding is to three digits only. */
  lemma ShortSecondsShape(secs: nat, nanos: nat)
    requires 1 <= secs < 5 && nanos < NanosPerSec
    ensures Elapsed(secs, nanos) == Dec(secs) + "." + PadLeft(Dec(nanos / 1000), 3, '0') + "s"
  {
  }

  /** The 5 to 59 second bucket. */
  lemma SecondsShape(secs: nat, nanos: nat)
    requires 5 <= secs < 60 && nanos < NanosPerSec
    ensures Elapsed(secs, nanos) == Dec(secs) + "." + PadLeft(Dec(nanos / 1_000_000), 3, '0') + "s"
  {
  }

  /** Six zero-padded digits after the point are read as microseconds. */
  lemma ReadPadded6(whole: nat, n: nat)
    requires n < 1_000_000
    ensures ReadDecimalSeconds(Dec(whole) + "." + PadLeft(Dec(n), 6, '0') + "s") == Some(whole * 1_000_000 + n)
  {
    var f := PadLeft(Dec(n), 6, '0');
    Pow10Six();
    ZeroPaddedDec(n, 6);
    ReadDecimal(whole, f);
    assert FracMicros(f) == n;
  }

  /** Three zero-padded digits after the point are read as milliseconds. */
  lemma ReadPadded3(whole: nat, n: nat)
    requires n < 1000
    ensures ReadDecimalSeconds(Dec(whole) + "." + PadLeft(Dec(n), 3, '0') + "s") == Some(whole * 1_000_000 + n * 1000)
  {
    var f := PadLeft(Dec(n), 3, '0');
    Pow10Three();
    ZeroPaddedDec(n, 3);
    ReadDecimal(whole, f);
    assert FracMicros(f) == n * 1000;
  }

  /** Equal texts read back alike. */
  lemma ReadSame(t: string, u: string, v: Option<nat>)
    requires t == u && ReadDecimalSeconds(u) == v
    ensures ReadDecimalSeconds(t) == v
  {
  }

  /** Corrected, from one to four seconds the text reads back as the
      duration cut to whole microseconds. */
  lemma CorrectedShortSecondsReadBack(secs: nat, nanos: nat)
    requires 1 <= secs < 5 && nanos < NanosPerSec
    ensures ReadDecimalSeconds(ElapsedCorrected(secs, nanos)) == Some(secs * 1_000_000 + nanos / 1000)
  {
    var micros := nanos / 1000;
    assert micros < 1_000_000;
    CorrectedShortSecondsShape(secs, nanos);
    ReadPadded6(secs, micros);
    ReadSame(ElapsedCorrected(secs, nanos), Dec(secs) + "." + PadLeft(Dec(micros), 6, '0') + "s", Some(secs * 1_000_000 + micros));
  }

  /** From five to 59 seconds the text reads back as the duration cut to
      whole milliseconds. */
  lemma SecondsReadBack(secs: nat, nanos: nat)
    requires 5 <= secs < 60 && nanos < NanosPerSec
    ensures ReadDecimalSeconds(Elapsed(secs, nanos)) == Some(secs * 1_000_000 + nanos / 1_000_000 * 1000)
  {
    SecondsShape(secs, nanos);
    ReadPadded3(secs, nanos / 1_000_000);
  }

  lemma Pow10Three()
    ensures Pow10(3) == 1000
  {
    assert Pow10(1) == 10;
    assert Pow10(2) == 100;
  }

  lemma Pow10Six()
    ensures Pow10(4) == 10_000 && Pow10(5) == 100_000 && Pow10(6) == 1_000_000
  {
    Pow10Three();
    assert Pow10(4) == 10_000;
    assert Pow10(5) == 100_000;
  }

  lemma Dec123()
    ensures Dec(123) == "123"
  {
    assert Dec(1) == "1";
    assert Dec(12) == Dec(1) + "2";
  }

  lemma Dec3()
    ensures Dec(3) == "3"
  {
  }

  lemma AsWrittenShortSecondsDigits()
    ensures Dec(3) + "." + PadLeft(Dec(123), 3, '0') + "s" == "3.123s"
  {
    Dec123();
    Dec3();
    assert "3" + "." + "123" + "s" == "3.123s";
  }

  /** As written, 3 s and 123 µs shows as "3.123s", which reads as 3.123 s. */
  lemma AsWrittenShortSecondsText(secs: nat, nanos: nat)
    requires secs == 3 && nanos == 123_000
    ensures Elapsed(secs, nanos) == "3.123s"
  {
    assert nanos / 1000 == 123;
    ShortSecondsShape(secs, nanos);
    AsWrittenShortSecondsDigits();
  }

  /** As written, a microsecond count of `k` digits, `k` from 4 to 6, is
      shown unpadded. */
  lemma LongMicrosShown(n: nat, k: nat)
    requires 4 <= k <= 6 && Pow10(k - 1) <= n < Pow10(k)
    ensures PadLeft(Dec(n), 3, '0') == Dec(n) && |Dec(n)| == k
  {
    DecLength(n, k);
    DecLengthAtLeast(n, k - 1);
  }

  /** In microseconds, what a count `q` below a million printed after the
      decimal point with 3-digit padding reads back as. */
  function MicrosReadAs(q: nat): nat
  {
    if q < 1000 then 1000 * q
    else if q < 10_000 then 100 * q
    else if q < 100_000 then 10 * q
    else q
  }

  /** The fraction digits printed for such a count, and the microseconds
      they are read as. */
  lemma PaddedMicrosValue(q: nat)
    requires q < 1_000_000
    ensures var f := PadLeft(Dec(q), 3, '0');
      AllDigits(f) && 3 <= |f| <= 6 && FracMicros(f) == MicrosReadAs(q)
  {
    Pow10Six();
    if q < 1000 {
      Pow10Three();
      ZeroPaddedDec(q, 3);
    } else {
      var k := if q < 10_000 then 4 else if q < 100_000 then 5 else 6;
      LongMicrosShown(q, k);
      DecRoundTrip(q);
    }
  }

  /** The text built from the whole seconds and a microsecond count reads back accordingly. */
  lemma ReadPadded3Micros(whole: nat, q: nat)
    requires q < 1_000_000
    ensures ReadDecimalSeconds(Dec(whole) + "." + PadLeft(Dec(q), 3, '0') + "s") == Some(whole * 1_000_000 + MicrosReadAs(q))
  {
    PaddedMicrosValue(q);
    ReadDecimal(whole, PadLeft(Dec(q), 3, '0'));
  }

  /** As written, from one to four seconds, the text reads back as the
      whole seconds plus `MicrosReadAs` of the microsecond count. */
  lemma AsWrittenShortRead(secs: nat, nanos: nat)
    requires 1 <= secs < 5 && nanos < NanosPerSec
    ensures ReadDecimalSeconds(Elapsed(secs, nanos)) == Some(secs * 1_000_000 + MicrosReadAs(nanos / 1000))
  {
    var q := nanos / 1000;
    ShortSecondsShape(secs, nanos);
    ReadPadded3Micros(secs, q);
    ReadSame(Elapsed(secs, nanos), Dec(secs) + "." + PadLeft(Dec(q), 3, '0') + "s", Some(secs * 1_000_000 + MicrosReadAs(q)));
  }

  /** As written, from one to four seconds, what the text reads back as: a
      count below 1000 µs is read as milliseconds, one of 4 or 5 digits as
      hundreds or tens of microseconds, and only a 6-digit count (or none)
      as what it is. */
  lemma AsWrittenShortSecondsReadBack(secs: nat, nanos: nat)
    requires 1 <= secs < 5 && nanos < NanosPerSec
    ensures var q, read := nanos / 1000, ReadDecimalSeconds(Elapsed(secs, nanos));
      (q < 1000 ==> read == Some(secs * 1_000_000 + 1000 * q)) &&
      (1000 <= q < 10_000 ==> read == Some(secs * 1_000_000 + 100 * q)) &&
      (10_000 <= q < 100_000 ==> read == Some(secs * 1_000_000 + 10 * q)) &&
      (100_000 <= q ==> read == Some(secs * 1_000_000 + q))
  {
    AsWrittenShortRead(secs, nanos);
  }

  /** So, from one to four seconds, the text as written reads back as the
      duration cut to whole microseconds exactly when that count is 0 or has
      six digits; corrected, it always does. */
  lemma AsWrittenShortSecondsWrong(secs: nat, nanos: nat)
    requires 1 <= secs < 5 && nanos < NanosPerSec
    ensures ReadDecimalSeconds(Elapsed(secs, nanos)) == Some(secs * 1_000_000 + nanos / 1000)
      <==> nanos / 1000 == 0 || nanos / 1000 >= 100_000
    ensures ReadDecimalSeconds(ElapsedCorrected(secs, nanos)) == Some(secs * 1_000_000 + nanos / 1000)
  {
    assert ReadDecimalSeconds(Elapsed(secs, nanos)) == Some(secs * 1_000_000 + nanos / 1000)
      <==> nanos / 1000 == 0 || nanos / 1000 >= 100_000 by {
      AsWrittenShortRead(secs, nanos);
      ReadRightWhen(ReadDecimalSeconds(Elapsed(secs, nanos)), secs * 1_000_000, nanos / 1000);
    }
    CorrectedShortSecondsReadBack(secs, nanos);
  }

  /** A reading of `base` plus the as-written count is right exactly for a
      count of 0 or of six digits. */
  lemma ReadRightWhen(read: Option<nat>, base: nat, q: nat)
    requires read == Some(base + MicrosReadAs(q))
    ensures read == Some(base + q) <==> q == 0 || q >= 100_000
  {
  }

  /** The correction changes the text exactly in the one-to-four-second
      bucket when the microsecond count has fewer than six digits. */
  lemma CorrectionScope(secs: nat, nanos: nat)
    requires nanos < NanosPerSec
    ensures ElapsedCorrected(secs, nanos) == Elapsed(secs, nanos) <==> !(1 <= secs < 5) || nanos / 1000 >= 100_000
  {
    if 1 <= secs < 5 {
      var q := nanos / 1000;
      ShortSecondsShape(secs, nanos);
      CorrectedShortSecondsShape(secs, nanos);
      Pow10Six();
      if q >= 100_000 {
        LongMicrosShown(q, 6);
      } else {
        DecLength(q, 5);
        assert |ElapsedCorrected(secs, nanos)| == |Dec(secs)| + 8;
        assert |Elapsed(secs, nanos)| <= |Dec(secs)| + 7;
      }
    }
  }

  lemma Pad123To6()
    ensures PadLeft("123", 6, '0') == "000123"
  {
    assert Repeat('0', 3) == "000";
  }

  lemma CorrectedShortSecondsDigits()
    ensures Dec(3) + "." + PadLeft(Dec(123), 6, '0') + "s" == "3.000123s"
  {
    Dec123();
    Dec3();
    Pad123To6();
    assert "3" + "." + "000123" + "s" == "3.000123s";
  }

  /** With the padding corrected the same duration shows as "3.000123s". */
  lemma CorrectedShortSecondsText(secs: nat, nanos: nat)
    requires secs == 3 && nanos == 123_000
    ensures ElapsedCorrected(secs, nanos) == "3.000123s"
  {
    assert nanos / 1000 == 123;
    CorrectedShortSecondsShape(secs, nanos);
    CorrectedShortSecondsDigits();
  }

  /** The boundary cases of the table. */
  lemma BoundaryNanos()
    ensures Elapsed(0, 999) == "999ns"
  {
    assert Dec(99) == Dec(9) + "9";
    assert Dec(999) == "999";
  }

  lemma BoundaryMicros()
    ensures Elapsed(0, 999_999) == "1000µs"
  {
    assert RoundHalfEven(999_999, 1000) == 1000;
    assert Dec(10) == Dec(1) + "0";
    assert Dec(100) == Dec(10) + "0";
    assert Dec(1000) == "1000";
  }

  lemma BoundaryMillis()
    ensures Elapsed(0, 1_000_000) == "  1ms"
  {
    assert RoundHalfEven(1_000_000, 1_000_000) == 1;
    assert Dec(1) == "1";
    assert Repeat(' ', 2) == "  ";
    assert PadLeft("1", 3, ' ') == "  1";
  }

  lemma Pad0To3()
    ensures PadLeft("0", 3, '0') == "000"
  {
    assert Repeat('0', 2) == "00";
  }

  lemma Pad0To6()
    ensures PadLeft("0", 6, '0') == "000000"
  {
    assert Repeat('0', 5) == "00000";
  }

  lemma BoundarySeconds()
    ensures Elapsed(3, 0) == "3.000s"
    ensures ElapsedCorrected(3, 0) == "3.000000s"
  {
    calc {
      Elapsed(3, 0);
      == { ShortSecondsShape(3, 0); }
      Dec(3) + "." + PadLeft(Dec(0), 3, '0') + "s";
      == { Dec3(); Pad0To3(); }
      "3" + "." + "000" + "s";
    }
    calc {
      ElapsedCorrected(3, 0);
      == { CorrectedShortSecondsShape(3, 0); }
      Dec(3) + "." + PadLeft(Dec(0), 6, '0') + "s";
      == { Dec3(); Pad0To6(); }
      "3" + "." + "000000" + "s";
    }
  }

  lemma BoundaryMinutes()
    ensures Elapsed(90, 0) == "1m 30s"
  {
    var m, sec := MinutesBucket(90, 0);
    assert m == 1 && sec == 30;
    assert Dec(1) == "1";
    assert Dec(30) == Dec(3) + "0";
    assert "1" + "m " + "30" + "s" == "1m 30s";
  }

  lemma BoundaryHours()
    ensures Elapsed(7200, 0) == "2h 0m"
  {
    var h, m := HoursBucket(7200, 0);
    assert h == 2 && m == 0;
    assert Dec(2) == "2" && Dec(0) == "0";
    assert "2" + "h " + "0" + "m" == "2h 0m";
  }

  lemma BoundaryDays()
    ensures Elapsed(90_000, 0) == "90000s"
  {
    DaysBucket(90_000, 0);
    assert Dec(9) == "9";
    assert Dec(90) == Dec(9) + "0";
    assert Dec(900) == Dec(90) + "0";
    assert Dec(9000) == Dec(900) + "0";
    assert Dec(90_000) == Dec(9000) + "0";
    assert "90000" + "s" == "90000s";
  }
}
