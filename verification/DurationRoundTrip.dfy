/** Parsing inverts printing, and the parse of a concatenation is the sum of the parses. */
module DurationRoundTrip {
  import opened Bytes
  import opened GoDuration

  // ----- numbers -----

  predicate AllDigits(s: string) {
    forall i :: 0 <= i < |s| ==> IsDigit(s[i])
  }

  /** The number that digits spell, on top of x. */
  function Value(x: nat, s: string): (r: nat)
    requires AllDigits(s)
    ensures r >= x
    decreases |s|
  {
    if s == [] then x else Value(10 * x + DigitOf(s[0]), s[1..])
  }

  lemma {:induction false} ValueSnoc(x: nat, s: string, c: char)
    requires AllDigits(s) && IsDigit(c)
    ensures Value(x, s + [c]) == 10 * Value(x, s) + DigitOf(c)
    decreases |s|
  {
    if s == [] {
      assert s + [c] == [c] && [c][1..] == [];
    } else {
      assert (s + [c])[1..] == s[1..] + [c];
      ValueSnoc(10 * x + DigitOf(s[0]), s[1..], c);
    }
  }

  lemma {:induction false} ValueOfDecimal(n: nat)
    ensures Value(0, Decimal(n)) == n
  {
    if n < 10 {
      assert Decimal(n)[1..] == [];
    } else {
      ValueOfDecimal(n / 10);
      ValueSnoc(0, Decimal(n / 10), DigitChar(n % 10));
    }
  }

  lemma {:induction false} ValueOfPadded(n: nat, width: nat)
    requires n < Pow10(width)
    ensures Value(0, Padded(n, width)) == n
  {
    if width > 0 {
      ValueOfPadded(n / 10, width - 1);
      ValueSnoc(0, Padded(n / 10, width - 1), DigitChar(n % 10));
    }
  }

  predicate NoDigitNext(rest: string) {
    rest == [] || !IsDigit(rest[0])
  }

  lemma {:induction false} IntReads(ds: string, rest: string, x: nat)
    requires AllDigits(ds) && NoDigitNext(rest) && x <= GO_OVERFLOW
    ensures LeadingInt(ds + rest, x) == if Value(x, ds) <= GO_OVERFLOW then Some((Value(x, ds), rest)) else None
  {
    if ds == [] {
      assert ds + rest == rest;
    } else {
      assert (ds + rest)[0] == ds[0] && (ds + rest)[1..] == ds[1..] + rest;
      var y := 10 * x + DigitOf(ds[0]);
      if y <= GO_OVERFLOW { IntReads(ds[1..], rest, y); }
    }
  }

  lemma {:induction false} FractionReads(ds: string, rest: string, f: nat, scale: nat)
    requires AllDigits(ds) && NoDigitNext(rest) && Value(f, ds) <= LEADING_INT_MAX
    ensures LeadingFraction(ds + rest, f, scale, false) == (Value(f, ds), Times(scale, Pow10(|ds|)), rest)
  {
    if ds == [] {
      assert ds + rest == rest;
      assert Times(scale, 1) == scale;
    } else {
      assert (ds + rest)[0] == ds[0] && (ds + rest)[1..] == ds[1..] + rest;
      FractionReads(ds[1..], rest, 10 * f + DigitOf(ds[0]), 10 * scale);
      TenTimes(scale, Pow10(|ds| - 1));
    }
  }

  lemma TenTimes(a: nat, b: nat)
    ensures Times(10 * a, b) == Times(a, 10 * b) == 10 * Times(a, b)
  {
  }

  /** Stripping zeros leaves a shorter number of the same value below the point. */
  lemma {:induction false} StripReads(n: nat, width: nat) returns (m: nat, k: nat)
    requires 0 < n < Pow10(width)
    ensures 0 < k <= width && 0 < m < Pow10(k)
    ensures StripZeros(Padded(n, width)) == Padded(m, k) && n == Times(m, Pow10(width - k))
  {
    var s := Padded(n, width);
    assert s[..width - 1] == Padded(n / 10, width - 1) && s[width - 1] == DigitChar(n % 10);
    if n % 10 == 0 {
      m, k := StripReads(n / 10, width - 1);
      TenTimes(m, Pow10(width - 1 - k));
    } else {
      m, k := n, width;
    }
  }

  // ----- units -----

  predicate NextNumber(rest: string) {
    rest == [] || StartsNumber(rest[0])
  }

  predicate Wordy(unit: string) {
    unit != [] && forall i :: 0 <= i < |unit| ==> !StartsNumber(unit[i])
  }

  lemma {:induction false} UnitReads(unit: string, rest: string)
    requires NextNumber(rest) && forall i :: 0 <= i < |unit| ==> !StartsNumber(unit[i])
    ensures UnitEnd(unit + rest) == |unit|
  {
    if unit == [] {
      assert unit + rest == rest;
    } else {
      assert (unit + rest)[1..] == unit[1..] + rest;
      UnitReads(unit[1..], rest);
    }
  }

  lemma QuotientBound(g: nat, q: nat, rem: nat, unit: nat, v: nat)
    requires g == Times(q, unit) + rem && rem < unit
    ensures v > q <==> Times(v, unit) > g
  {
    if v > q {
      TimesLe(q + 1, v, unit);
      assert Times(q + 1, unit) == Times(q, unit) + unit;
    } else {
      TimesLe(v, q, unit);
    }
  }

  lemma DivBound(v: nat, g: nat, unit: nat)
    requires unit > 0
    ensures v > g / unit <==> Times(v, unit) > g
  {
    QuotientBound(g, g / unit, g % unit, unit, v);
  }

  lemma TimesLe(a: nat, b: nat, c: nat)
    requires a <= b
    ensures Times(a, c) <= Times(b, c)
  {
  }

  lemma UnitsAre()
    ensures UnitNanos("s") == Some(1_000_000_000) && Wordy("s")
    ensures UnitNanos("m") == Some(60_000_000_000) && Wordy("m")
    ensures UnitNanos("h") == Some(3_600_000_000_000) && Wordy("h")
  {
  }

  /** Each unit is its multiple of the one below, microseconds have three spellings, and all of them are words
      that no number can be mistaken for. */
  lemma UnitScale(unit: string)
    ensures UnitNanos(NS) == Some(1) && UnitNanos(MS) == Some(1_000 * UnitNanos(US).value)
    ensures UnitNanos(US) == UnitNanos("us") == UnitNanos("\U{03BC}s") == Some(1_000 * UnitNanos(NS).value)
    ensures UnitNanos("s") == Some(1_000 * UnitNanos(MS).value)
    ensures UnitNanos("m") == Some(60 * UnitNanos("s").value) && UnitNanos("h") == Some(60 * UnitNanos("m").value)
    ensures UnitNanos(unit).Some? ==> Wordy(unit) && |unit| <= 2
  {
  }

  lemma UnitTokenReads(r: Rounding, v: nat, f: nat, scale: nat, unit: string, rest: string, nanos: nat)
    requires Wordy(unit) && UnitNanos(unit) == Some(nanos) && NextNumber(rest)
    ensures UnitToken(r, v, f, scale, unit + rest)
         == (var n := Times(v, nanos) + if f > 0 then r(f, nanos, scale) else 0;
             if n > GO_OVERFLOW then Err(Invalid) else Ok((n, rest)))
  {
    UnitReads(unit, rest);
    assert (unit + rest)[..|unit|] == unit && (unit + rest)[|unit|..] == rest;
    DivBound(v, GO_OVERFLOW, nanos);
  }

  // ----- printed tokens -----

  function Bounded(n: nat, rest: string): Result<(nat, string)> {
    if n > GO_OVERFLOW then Err(Invalid) else Ok((n, rest))
  }

  lemma PlainToken(r: Rounding, v: nat, unit: string, nanos: nat, rest: string)
    requires Wordy(unit) && UnitNanos(unit) == Some(nanos) && NextNumber(rest)
    ensures Token(r, Decimal(v) + unit + rest) == Bounded(Times(v, nanos), rest)
  {
    var ds, tail := Decimal(v), unit + rest;
    var s := Decimal(v) + unit + rest;
    assert s == ds + tail && s[0] == ds[0] && tail[0] == unit[0];
    IntReads(ds, tail, 0);
    ValueOfDecimal(v);
    if v <= GO_OVERFLOW {
      UnitTokenReads(r, v, 0, 1, unit, rest, nanos);
    } else {
      TimesLe(1, nanos, v);
      assert Times(v, nanos) == Times(nanos, v);
    }
  }

  lemma FracToken(r: Rounding, v: nat, m: nat, k: nat, unit: string, nanos: nat, rest: string)
    requires Exact(r) && Wordy(unit) && UnitNanos(unit) == Some(nanos) && NextNumber(rest)
    requires 0 < k && 0 < m < Pow10(k) && m <= LEADING_INT_MAX && nanos % Pow10(k) == 0
    ensures Token(r, Decimal(v) + ("." + Padded(m, k)) + unit + rest)
         == Bounded(Times(v, nanos) + Times(m, nanos / Pow10(k)), rest)
  {
    hide UnitToken, LeadingFraction, LeadingInt, Value, Padded, Decimal;
    var ds, fs := Decimal(v), Padded(m, k);
    var s := Decimal(v) + ("." + fs) + unit + rest;
    var tail := "." + fs + (unit + rest);
    assert s == ds + tail && s[0] == ds[0];
    IntReads(ds, tail, 0);
    ValueOfDecimal(v);
    if v <= GO_OVERFLOW {
      assert tail[1..] == fs + (unit + rest);
      FracRest(r, v, m, k, unit, nanos, rest);
    } else {
      TimesLe(1, nanos, v);
      assert Times(v, nanos) == Times(nanos, v);
    }
  }

  lemma FracRest(r: Rounding, v: nat, m: nat, k: nat, unit: string, nanos: nat, rest: string)
    requires Exact(r) && Wordy(unit) && UnitNanos(unit) == Some(nanos) && NextNumber(rest)
    requires 0 < k && 0 < m < Pow10(k) && m <= LEADING_INT_MAX && nanos % Pow10(k) == 0
    ensures LeadingFraction(Padded(m, k) + (unit + rest), 0, 1, false) == (m, Pow10(k), unit + rest)
    ensures UnitToken(r, v, m, Pow10(k), unit + rest) == Bounded(Times(v, nanos) + Times(m, nanos / Pow10(k)), rest)
  {
    assert (unit + rest)[0] == unit[0];
    ValueOfPadded(m, k);
    FractionReads(Padded(m, k), unit + rest, 0, 1);
    assert Times(1, Pow10(k)) == Pow10(k);
    UnitTokenReads(r, v, m, Pow10(k), unit, rest, nanos);
    assert ExactAt(r, m, nanos, Pow10(k));
  }

  lemma {:induction false} Pow10Adds(a: nat, b: nat)
    ensures Pow10(a + b) == Times(Pow10(a), Pow10(b))
  {
    if a > 0 {
      Pow10Adds(a - 1, b);
      TenTimes(Pow10(a - 1), Pow10(b));
    }
  }

  lemma PowDivides(width: nat, k: nat)
    requires k <= width
    ensures Pow10(width) % Pow10(k) == 0 && Pow10(width) / Pow10(k) == Pow10(width - k)
  {
    Pow10Adds(k, width - k);
    var p, q := Pow10(k), Pow10(width - k);
    ExactQuotient(p, q);
  }

  lemma ExactQuotient(p: nat, q: nat)
    requires p > 0
    ensures Times(p, q) % p == 0 && Times(p, q) / p == q
  {
    var n := Times(p, q);
    assert n == p * (n / p) + n % p;
    if n / p < q {
      TimesLe(n / p + 1, q, p);
    } else if n / p > q {
      TimesLe(q + 1, n / p, p);
    }
  }

  lemma Parts(v: nat, prec: nat)
    ensures v == Times(Above(v, prec), Pow10(prec)) + Below(v, prec) && Below(v, prec) < Pow10(prec)
  {
  }

  lemma {:induction false} Pow10Monotone(a: nat, b: nat)
    requires a <= b
    ensures Pow10(a) <= Pow10(b)
    decreases b
  {
    if a < b { Pow10Monotone(a, b - 1); }
  }

  lemma Pow10Values()
    ensures Pow10(0) == 1 && Pow10(3) == 1_000 && Pow10(6) == 1_000_000 && Pow10(9) == 1_000_000_000
  {
    assert Pow10(3) == 100 * Pow10(1);
    assert Pow10(5) == 100 * Pow10(3);
    assert Pow10(7) == 100 * Pow10(5);
    assert Pow10(9) == 100 * Pow10(7);
  }

  /** A printed number of a power-of-ten unit reads back. */
  lemma PrintedToken(r: Rounding, v: nat, prec: nat, unit: string, rest: string)
    requires Exact(r) && prec <= 9 && Wordy(unit) && UnitNanos(unit) == Some(Pow10(prec)) && NextNumber(rest)
    ensures Token(r, Printed(Frac(v, prec), unit) + rest) == Bounded(v, rest)
  {
    var whole, rem := Above(v, prec), Below(v, prec);
    Parts(v, prec);
    if rem == 0 {
      assert Decimal(whole) + "" == Decimal(whole);
      PlainToken(r, whole, unit, Pow10(prec), rest);
    } else {
      PrintedFraction(r, whole, rem, prec, unit, rest);
    }
  }

  lemma PrintedFraction(r: Rounding, whole: nat, rem: nat, prec: nat, unit: string, rest: string)
    requires Exact(r) && prec <= 9 && Wordy(unit) && UnitNanos(unit) == Some(Pow10(prec)) && NextNumber(rest)
    requires 0 < rem < Pow10(prec)
    ensures Token(r, Decimal(whole) + ("." + StripZeros(Padded(rem, prec))) + unit + rest)
         == Bounded(Times(whole, Pow10(prec)) + rem, rest)
  {
    var m, k := StripReads(rem, prec);
    PowDivides(prec, k);
    SmallPow10(k);
    FracToken(r, whole, m, k, unit, Pow10(prec), rest);
  }

  lemma SmallPow10(k: nat)
    requires k <= 9
    ensures Pow10(k) <= LEADING_INT_MAX
  {
    Pow10Monotone(k, 9);
    Pow10Values();
  }

  // ----- whole strings -----

  function Sum(d: nat): Result<nat> {
    if d > GO_OVERFLOW then Err(Invalid) else Ok(d)
  }

  lemma TokensThen(r: Rounding, s: string, d: nat, n: nat, rest: string, m: nat)
    requires s != [] && Token(r, s) == Bounded(n, rest) && Tokens(r, rest, d + n) == Sum(d + n + m)
    ensures Tokens(r, s, d) == Sum(d + n + m)
  {
    hide Token;
  }

  /** The part below a minute. */
  lemma SecondsRead(r: Rounding, v: nat, d: nat)
    requires Exact(r)
    ensures Tokens(r, Printed(Frac(v, 9), "s"), d) == Sum(d + v)
  {
    var s := Printed(Frac(v, 9), "s");
    assert s + "" == s;
    Pow10Values();
    PrintedToken(r, v, 9, "s", "");
    if d + v <= GO_OVERFLOW { assert Tokens(r, "", d + v) == Ok(d + v); }
  }

  lemma NumberThen(r: Rounding, v: nat, unit: string, nanos: nat, tail: string, d: nat, m: nat)
    requires Wordy(unit) && UnitNanos(unit) == Some(nanos) && NextNumber(tail)
    requires Tokens(r, tail, d + Times(v, nanos)) == Sum(d + Times(v, nanos) + m)
    ensures Tokens(r, Decimal(v) + unit + tail, d) == Sum(d + Times(v, nanos) + m)
  {
    PlainToken(r, v, unit, nanos, tail);
    TokensThen(r, Decimal(v) + unit + tail, d, Times(v, nanos), tail, m);
  }

  lemma PrintedStarts(x: (nat, string), unit: string)
    ensures NextNumber(Printed(x, unit))
  {
    assert Printed(x, unit)[0] == Decimal(x.0)[0];
  }

  const MINUTE: nat := 60_000_000_000
  const HOUR: nat := 3_600_000_000_000

  lemma MinutesThen(r: Rounding, mins: nat, tail: string, d: nat, m: nat)
    requires NextNumber(tail) && Tokens(r, tail, d + Times(mins, MINUTE)) == Sum(d + Times(mins, MINUTE) + m)
    ensures Tokens(r, Decimal(mins) + "m" + tail, d) == Sum(d + Times(mins, MINUTE) + m)
    ensures NextNumber(Decimal(mins) + "m" + tail)
  {
    hide Token, Tokens, Decimal;
    UnitsAre();
    NumberThen(r, mins, "m", MINUTE, tail, d, m);
    assert (Decimal(mins) + "m" + tail)[0] == Decimal(mins)[0];
  }

  lemma HoursThen(r: Rounding, hours: nat, tail: string, m: nat)
    requires NextNumber(tail) && Tokens(r, tail, Times(hours, HOUR)) == Sum(Times(hours, HOUR) + m)
    ensures Tokens(r, Decimal(hours) + "h" + tail, 0) == Sum(Times(hours, HOUR) + m)
  {
    hide Token, Tokens, Decimal;
    UnitsAre();
    NumberThen(r, hours, "h", HOUR, tail, 0, m);
  }

  lemma SubSecondReads(r: Rounding, u: nat, prec: nat, unit: string)
    requires Exact(r) && prec <= 9 && Wordy(unit) && UnitNanos(unit) == Some(Pow10(prec))
    ensures Tokens(r, Printed(Frac(u, prec), unit), 0) == Sum(u)
  {
    var s := Printed(Frac(u, prec), unit);
    assert s + "" == s;
    PrintedToken(r, u, prec, unit, "");
    if u <= GO_OVERFLOW { assert Tokens(r, "", u) == Ok(u); }
  }

  /** The seconds below a minute and the fraction, as one number of nanoseconds. */
  lemma BelowMinute(u: nat) returns (v: nat)
    ensures v == Above(u, 9) % 60 * 1_000_000_000 + Below(u, 9) && Frac(v, 9) == (Above(u, 9) % 60, Frac(u, 9).1)
    ensures u == Above(u, 9) / 60 * 60_000_000_000 + v
  {
    Pow10Values();
    Parts(u, 9);
    v := Above(u, 9) % 60 * 1_000_000_000 + Below(u, 9);
    assert Above(v, 9) == Above(u, 9) % 60 && Below(v, 9) == Below(u, 9);
  }

  lemma FormatReads(r: Rounding, u: nat)
    requires Exact(r)
    ensures Tokens(r, Format(u), 0) == Sum(u)
  {
    Pow10Values();
    if u == 0 {
      assert Frac(0, 9) == (0, "") by { assert Above(0, 9) == 0 && Below(0, 9) == 0; }
      assert Printed(Frac(0, 9), "s") == "0s";
      SecondsRead(r, 0, 0);
    } else if u < 1_000 {
      SubSecondReads(r, u, 0, NS);
    } else if u < 1_000_000 {
      SubSecondReads(r, u, 3, US);
    } else if u < 1_000_000_000 {
      SubSecondReads(r, u, 6, MS);
    } else {
      LongReads(r, u);
    }
  }

  lemma LongReads(r: Rounding, u: nat)
    requires Exact(r) && u >= 1_000_000_000
    ensures Tokens(r, Format(u), 0) == Sum(u)
  {
    var v := BelowMinute(u);
    ClockReads(r, Above(u, 9) / 60, v);
  }

  lemma ClockReads(r: Rounding, mins: nat, v: nat)
    requires Exact(r)
    ensures Tokens(r, Clock(mins, Printed(Frac(v, 9), "s")), 0) == Sum(mins * MINUTE + v)
  {
    var secs := Printed(Frac(v, 9), "s");
    PrintedStarts(Frac(v, 9), "s");
    forall d: nat ensures Tokens(r, secs, d) == Sum(d + v) { SecondsRead(r, v, d); }
    ClockAround(r, mins, secs, v);
  }

  lemma ClockAround(r: Rounding, mins: nat, secs: string, v: nat)
    requires NextNumber(secs) && forall d: nat :: Tokens(r, secs, d) == Sum(d + v)
    ensures Tokens(r, Clock(mins, secs), 0) == Sum(mins * MINUTE + v)
  {
    hide Token, Tokens, Decimal;
    SplitMinutes(mins);
    if mins / 60 > 0 {
      HourClock(r, mins / 60, mins % 60, secs, v);
    } else if mins > 0 {
      MinutesThen(r, mins % 60, secs, 0, v);
    }
  }

  lemma HourClock(r: Rounding, hours: nat, mins: nat, secs: string, v: nat)
    requires NextNumber(secs) && forall d: nat :: Tokens(r, secs, d) == Sum(d + v)
    ensures Tokens(r, Decimal(hours) + "h" + (Decimal(mins) + "m" + secs), 0)
         == Sum(Times(hours, HOUR) + Times(mins, MINUTE) + v)
  {
    hide Token, Tokens, Decimal;
    MinutesThen(r, mins, secs, Times(hours, HOUR), v);
    HoursThen(r, hours, Decimal(mins) + "m" + secs, Times(mins, MINUTE) + v);
  }

  lemma SplitMinutes(mins: nat)
    ensures mins * MINUTE == Times(mins / 60, HOUR) + Times(mins % 60, MINUTE)
  {
  }

  /** A printed fraction has no trailing zero, and is left out exactly when it is zero. */
  lemma FractionIsStripped(v: nat, prec: nat)
    ensures Frac(v, prec).1 == "" <==> v % Pow10(prec) == 0
    ensures Frac(v, prec).1 != "" ==>
              var f := Frac(v, prec).1;
              |f| > 1 && f[0] == '.' && AllDigits(f[1..]) && f[|f| - 1] != '0'
  {
    if Below(v, prec) != 0 {
      Parts(v, prec);
      var m, k := StripReads(Below(v, prec), prec);
      StripEnds(Padded(Below(v, prec), prec));
      assert Frac(v, prec).1[1..] == Padded(m, k);
    }
  }

  lemma {:induction false} StripEnds(s: string)
    ensures StripZeros(s) == [] || StripZeros(s)[|StripZeros(s)| - 1] != '0'
  {
    if s != [] && s[|s| - 1] == '0' { StripEnds(s[..|s| - 1]); }
  }

  /** The unit of a duration below a second is the one in which its whole part has one to three digits. */
  lemma SubSecondUnit(u: nat)
    requires 0 < u < 1_000_000_000
    ensures (u < 1_000 && Format(u) == Printed(Frac(u, 0), NS) && 1 <= Frac(u, 0).0 < 1_000)
         || (1_000 <= u < 1_000_000 && Format(u) == Printed(Frac(u, 3), US) && 1 <= Frac(u, 3).0 < 1_000)
         || (1_000_000 <= u && Format(u) == Printed(Frac(u, 6), MS) && 1 <= Frac(u, 6).0 < 1_000)
  {
    Pow10Values();
  }

  lemma FormatStarts(u: nat)
    ensures |Format(u)| >= 2 && IsDigit(Format(u)[0])
  {
  }

  /** Parsing a printed duration returns it exactly when it is below the overflow boundary; a longer one is
      refused as invalid. */
  lemma ParseInvertsFormat(r: Rounding, u: nat)
    requires Exact(r)
    ensures Parse(r, Format(u)) == if u < 0x8000_0000_0000_0000 then Ok(u) else Err(Invalid)
  {
    FormatReads(r, u);
    FormatStarts(u);
  }

  function Truncated(f: nat, unit: nat, scale: nat): nat {
    if scale == 0 then 0 else Times(f, unit) / scale
  }

  /** The law asked of the floating-point step is met, for one, by truncating the exact quotient. */
  lemma TruncationIsExact()
    ensures Exact(Truncated)
  {
    forall f: nat, unit: nat, scale: nat ensures ExactAt(Truncated, f, unit, scale) {
      if 0 < scale && unit % scale == 0 {
        var q := unit / scale;
        assert unit == Times(scale, q) by { assert unit == scale * (unit / scale) + unit % scale; }
        assert Times(f, unit) == Times(scale, f * q);
        ExactQuotient(scale, f * q);
      }
    }
  }

  // ----- concatenation -----

  lemma {:induction false} IntAppends(a: string, b: string, x: nat)
    requires LeadingInt(a, x).Some? && LeadingInt(a, x).value.1 != []
    ensures LeadingInt(a + b, x) == Some((LeadingInt(a, x).value.0, LeadingInt(a, x).value.1 + b))
    decreases |a|
  {
    assert a != [] && (a + b)[0] == a[0] && (a + b)[1..] == a[1..] + b;
    if IsDigit(a[0]) { IntAppends(a[1..], b, 10 * x + DigitOf(a[0])); }
  }

  lemma {:induction false} FractionAppends(a: string, b: string, f: nat, scale: nat, overflow: bool)
    requires LeadingFraction(a, f, scale, overflow).2 != []
    ensures var (f', scale', rest) := LeadingFraction(a, f, scale, overflow);
            LeadingFraction(a + b, f, scale, overflow) == (f', scale', rest + b)
    decreases |a|
  {
    assert a != [] && (a + b)[0] == a[0] && (a + b)[1..] == a[1..] + b;
    if IsDigit(a[0]) {
      if overflow || f > LEADING_INT_MAX || 10 * f + DigitOf(a[0]) > GO_OVERFLOW {
        FractionAppends(a[1..], b, f, scale, true);
      } else {
        FractionAppends(a[1..], b, 10 * f + DigitOf(a[0]), 10 * scale, false);
      }
    }
  }

  lemma {:induction false} UnitEndAppends(s: string, b: string)
    requires NextNumber(b)
    ensures UnitEnd(s + b) == UnitEnd(s)
  {
    if s == [] {
      assert s + b == b;
    } else {
      assert (s + b)[0] == s[0] && (s + b)[1..] == s[1..] + b;
      if !StartsNumber(s[0]) { UnitEndAppends(s[1..], b); }
    }
  }

  lemma UnitTokenAppends(r: Rounding, v: nat, f: nat, scale: nat, s: string, b: string)
    requires NextNumber(b) && UnitToken(r, v, f, scale, s).Ok?
    ensures var (n, rest) := UnitToken(r, v, f, scale, s).value;
            UnitToken(r, v, f, scale, s + b) == Ok((n, rest + b))
  {
    UnitEndAppends(s, b);
    var k := UnitEnd(s);
    assert (s + b)[..k] == s[..k] && (s + b)[k..] == s[k..] + b;
  }

  lemma TokenAppends(r: Rounding, a: string, b: string)
    requires a != [] && NextNumber(b) && Token(r, a).Ok?
    ensures var (n, rest) := Token(r, a).value;
            Token(r, a + b) == Ok((n, rest + b))
  {
    var (v, s1) := LeadingInt(a, 0).value;
    assert (a + b)[0] == a[0];
    IntAppends(a, b, 0);
    if s1[0] == '.' {
      var (f, scale, s2) := LeadingFraction(s1[1..], 0, 1, false);
      assert (s1 + b)[1..] == s1[1..] + b;
      FractionAppends(s1[1..], b, 0, 1, false);
      UnitTokenAppends(r, v, f, scale, s2, b);
    } else {
      UnitTokenAppends(r, v, 0, 1, s1, b);
    }
  }

  lemma {:induction false} TokensAppend(r: Rounding, a: string, b: string, d: nat)
    requires NextNumber(b) && Tokens(r, a, d).Ok?
    ensures Tokens(r, a + b, d) == Tokens(r, b, Tokens(r, a, d).value)
    decreases |a|
  {
    hide Token;
    if a == [] {
      assert a + b == b;
    } else {
      TokenAppends(r, a, b);
      var (v, rest) := Token(r, a).value;
      TokensAppend(r, rest, b, d + v);
    }
  }

  /** The total so far only adds to the outcome. */
  lemma {:induction false} TokensShift(r: Rounding, s: string, c: nat, d: nat)
    requires Tokens(r, s, c).Ok? && d <= GO_OVERFLOW
    ensures Tokens(r, s, c).value >= c
    ensures Tokens(r, s, d) == Sum(d + (Tokens(r, s, c).value - c))
    decreases |s|
  {
    hide Token;
    if s != [] {
      var (v, rest) := Token(r, s).value;
      if d + v <= GO_OVERFLOW {
        TokensShift(r, rest, c + v, d + v);
      } else {
        TokensShift(r, rest, c + v, 0);
      }
    }
  }

  lemma TokensStart(r: Rounding, s: string)
    requires Tokens(r, s, 0).Ok?
    ensures NextNumber(s)
  {
  }

  /** A plus sign changes nothing; behind a minus sign only the zero duration is accepted. */
  lemma SignedParse(r: Rounding, s: string)
    requires s == [] || (s[0] != '-' && s[0] != '+')
    ensures Parse(r, "+" + s) == Parse(r, s)
    ensures Parse(r, s).Ok? ==> Parse(r, "-" + s) == if Parse(r, s).value == 0 then Ok(0) else Err(NegativeUnsupported)
  {
    hide Tokens;
    assert ("+" + s)[1..] == s && ("-" + s)[1..] == s;
  }

  /** Neither signed, nor empty, nor the bare zero. */
  predicate Plain(s: string) {
    s != [] && s[0] != '-' && s[0] != '+' && s != "0"
  }

  /** Two valid durations written one after the other are their sum, or refused when it does not fit. */
  lemma ParseOfConcat(r: Rounding, a: string, b: string)
    requires Plain(a) && Plain(b) && Parse(r, a).Ok? && Parse(r, b).Ok?
    ensures var total := Parse(r, a).value + Parse(r, b).value;
            Parse(r, a + b) == if total < GO_OVERFLOW then Ok(total) else Err(Invalid)
  {
    hide Tokens;
    var x, y := Parse(r, a).value, Parse(r, b).value;
    assert (a + b)[0] == a[0];
    TokensStart(r, b);
    TokensAppend(r, a, b, 0);
    TokensShift(r, b, 0, x);
  }
}
