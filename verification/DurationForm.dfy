/** The text of every printed duration, and what the parser makes of every token. */
module DurationForm {
  import opened Bytes
  import opened GoDuration
  import opened DurationRoundTrip

  // ----- numbers as they are printed -----

  /** Digits that spell n, without a leading zero. */
  predicate Spells(s: string, n: nat) {
    s != [] && AllDigits(s) && (|s| > 1 ==> s[0] != '0') && Value(0, s) == n
  }

  lemma {:induction false} DecimalSpells(n: nat)
    ensures Spells(Decimal(n), n)
  {
    ValueOfDecimal(n);
    if n >= 10 {
      DecimalSpells(n / 10);
      assert Decimal(n)[0] == Decimal(n / 10)[0];
      if |Decimal(n / 10)| == 1 { assert Decimal(n / 10)[1..] == []; }
    }
  }

  /** Nothing for zero; otherwise a point and the fewest digits that spell rem of 10^prec. */
  predicate SpellsFraction(f: string, rem: nat, prec: nat) {
    if rem == 0 then f == ""
    else
      && 1 < |f| <= prec + 1 && f[0] == '.' && AllDigits(f[1..]) && f[|f| - 1] != '0'
      && Times(Value(0, f[1..]), Pow10(prec + 1 - |f|)) == rem
  }

  lemma StrippedSpells(rem: nat, prec: nat)
    requires 0 < rem < Pow10(prec)
    ensures SpellsFraction("." + StripZeros(Padded(rem, prec)), rem, prec)
  {
    hide Padded, Pow10, Times;
    var m, k := StripReads(rem, prec);
    StripEnds(Padded(rem, prec));
    ValueOfPadded(m, k);
    assert ("." + Padded(m, k))[1..] == Padded(m, k);
  }

  lemma FracSpells(v: nat, prec: nat)
    ensures Frac(v, prec).0 == v / Pow10(prec) && SpellsFraction(Frac(v, prec).1, v % Pow10(prec), prec)
  {
    Parts(v, prec);
    hide SpellsFraction, StripZeros, Padded, Pow10;
    if Below(v, prec) != 0 { StrippedSpells(Below(v, prec), prec); } else { NoFraction(prec); }
  }

  lemma NoFraction(prec: nat)
    ensures SpellsFraction("", 0, prec)
  {
  }

  // ----- the printed text -----

  /** A duration below a second is printed in the one of the three small units in which its whole part has one to three
      digits, and zero in seconds. */
  lemma ShortForm(u: nat) returns (whole: string, f: string)
    requires u < 1_000_000_000
    ensures if u == 0 then Format(u) == "0s"
            else if u < 1_000 then Format(u) == whole + "ns" && Spells(whole, u)
            else if u < 1_000_000 then
              Format(u) == whole + f + "\U{00B5}s" && Spells(whole, u / 1_000) && SpellsFraction(f, u % 1_000, 3)
            else
              Format(u) == whole + f + "ms" && Spells(whole, u / 1_000_000) && SpellsFraction(f, u % 1_000_000, 6)
  {
    Pow10Values();
    var prec := if u < 1_000 then 0 else if u < 1_000_000 then 3 else 6;
    FracSpells(u, prec);
    whole, f := Decimal(Frac(u, prec).0), Frac(u, prec).1;
    DecimalSpells(Frac(u, prec).0);
    if u < 1_000 { assert f == "" && whole + f == whole; }
  }

  /** A duration of a second or more is printed as hours, minutes and seconds: hours when there are any, minutes when
      there are any or there are hours, and always the seconds with their fraction. */
  lemma LongForm(u: nat) returns (h: nat, m: nat, s: nat, hours: string, mins: string, secs: string, f: string)
    requires u >= 1_000_000_000
    ensures u / 1_000_000_000 == 3_600 * h + 60 * m + s && m < 60 && s < 60
    ensures Spells(hours, h) && Spells(mins, m) && Spells(secs, s) && SpellsFraction(f, u % 1_000_000_000, 9)
    ensures Format(u) == (if h > 0 then hours + "h" else "") + (if h > 0 || m > 0 then mins + "m" else "")
                       + secs + f + "s"
  {
    Pow10Values();
    FracSpells(u, 9);
    var total := Frac(u, 9).0;
    f := Frac(u, 9).1;
    h, m, s := total / 3_600, total / 60 % 60, total % 60;
    DecimalSpells(h);
    DecimalSpells(m);
    DecimalSpells(s);
    hours, mins, secs := Decimal(h), Decimal(m), Decimal(s);
    ClockForm(total / 60, h, m, secs + f + "s");
    Reassociate(if h > 0 then hours + "h" else "", if h > 0 || m > 0 then mins + "m" else "", secs, f);
  }

  lemma ClockForm(total: nat, h: nat, m: nat, tail: string)
    requires h == total / 60 && m == total % 60
    ensures Clock(total, tail) == (if h > 0 then Decimal(h) + "h" else "")
                                + ((if h > 0 || m > 0 then Decimal(m) + "m" else "") + tail)
  {
    hide Decimal;
    assert "" + tail == tail && "" + ("" + tail) == tail;
    assert "" + (Decimal(m) + "m" + tail) == Decimal(m) + "m" + tail;
  }

  lemma Reassociate(a: string, b: string, c: string, d: string)
    ensures a + (b + (c + d + "s")) == a + b + c + d + "s"
  {
  }

  // ----- units -----

  /** The eight spellings, and nothing else, are units. */
  lemma UnitsExactly(unit: string)
    ensures UnitNanos(unit).Some?
       <==> unit in {"ns", "us", "\U{00B5}s", "\U{03BC}s", "ms", "s", "m", "h"}
  {
  }

  // ----- tokens -----

  lemma {:induction false} FractionSkips(ds: string, rest: string, f: nat, scale: nat)
    requires AllDigits(ds) && NoDigitNext(rest)
    ensures LeadingFraction(ds + rest, f, scale, true) == (f, scale, rest)
  {
    if ds == [] {
      assert ds + rest == rest;
    } else {
      assert (ds + rest)[0] == ds[0] && (ds + rest)[1..] == ds[1..] + rest;
      FractionSkips(ds[1..], rest, f, scale);
    }
  }

  lemma FractionStep(ds: string, rest: string, f: nat, scale: nat)
    requires AllDigits(ds) && ds != [] && NoDigitNext(rest)
    ensures var y := 10 * f + DigitOf(ds[0]);
            LeadingFraction(ds + rest, f, scale, false)
            == if y > GO_OVERFLOW then (f, scale, rest) else LeadingFraction(ds[1..] + rest, y, 10 * scale, false)
  {
    assert (ds + rest)[0] == ds[0] && (ds + rest)[1..] == ds[1..] + rest;
    FractionSkips(ds[1..], rest, f, scale);
  }

  /** The digits of a fraction count up to the longest part whose value is within the boundary. */
  lemma {:induction false} FractionCuts(ds: string, rest: string, f: nat, scale: nat) returns (k: nat)
    requires AllDigits(ds) && NoDigitNext(rest) && f <= GO_OVERFLOW
    ensures k <= |ds| && Value(f, ds[..k]) <= GO_OVERFLOW && (k < |ds| ==> Value(f, ds[..k + 1]) > GO_OVERFLOW)
    ensures LeadingFraction(ds + rest, f, scale, false) == (Value(f, ds[..k]), Times(scale, Pow10(k)), rest)
  {
    hide LeadingFraction, Times, Value, Pow10;
    k := 0;
    CutNone(ds, rest, f, scale);
    if ds != [] && 10 * f + DigitOf(ds[0]) <= GO_OVERFLOW {
      k := FractionCuts(ds[1..], rest, 10 * f + DigitOf(ds[0]), 10 * scale);
      FractionStep(ds, rest, f, scale);
      CutAfter(f, ds, k);
      if k < |ds[1..]| { CutAfter(f, ds, k + 1); }
      ScaleOnce(scale, k);
      k := k + 1;
    }
  }

  lemma ScaleOnce(scale: nat, k: nat)
    ensures Times(10 * scale, Pow10(k)) == Times(scale, Pow10(k + 1))
  {
    TenTimes(scale, Pow10(k));
  }

  lemma CutNone(ds: string, rest: string, f: nat, scale: nat)
    requires AllDigits(ds) && NoDigitNext(rest)
    ensures Value(f, ds[..0]) == f && (ds != [] ==> Value(f, ds[..1]) == 10 * f + DigitOf(ds[0]))
    ensures ds == [] || 10 * f + DigitOf(ds[0]) > GO_OVERFLOW ==>
              LeadingFraction(ds + rest, f, scale, false) == (f, Times(scale, Pow10(0)), rest)
  {
    if ds == [] {
      assert ds + rest == rest;
    } else {
      FractionStep(ds, rest, f, scale);
      assert ds[..1][1..] == [];
    }
  }

  lemma CutAfter(f: nat, ds: string, k: nat)
    requires AllDigits(ds) && ds != [] && k <= |ds[1..]|
    ensures Value(f, ds[..k + 1]) == Value(10 * f + DigitOf(ds[0]), ds[1..][..k])
  {
    assert ds[..k + 1][1..] == ds[1..][..k];
  }

  /** A token as it is written: digits, perhaps a point and more digits, a word, and what follows. */
  datatype Written = Written(ds: string, dotted: bool, fs: string, word: string, rest: string)

  function Text(t: Written): string {
    t.ds + ((if t.dotted then "." + t.fs else "") + (t.word + t.rest))
  }

  /** Each part is as long as it can be. */
  predicate Split(t: Written) {
    && AllDigits(t.ds) && AllDigits(t.fs) && (!t.dotted ==> t.fs == [])
    && (forall i :: 0 <= i < |t.word| ==> !StartsNumber(t.word[i])) && NextNumber(t.rest)
    && (t.word == [] ==> t.rest == [] || (t.dotted && t.rest[0] == '.'))
  }

  /** What the parser makes of it, with k digits of the fraction counted. */
  function Outcome(r: Rounding, t: Written, k: nat): Result<(nat, string)>
    requires Split(t) && k <= |t.fs|
  {
    if (t.ds == [] && t.fs == []) || Value(0, t.ds) > GO_OVERFLOW then Err(Invalid)
    else if t.word == [] then Err(MissingUnit)
    else
      match UnitNanos(t.word)
      case None => Err(UnknownUnit(t.word))
      case Some(unit) =>
        var f := Value(0, t.fs[..k]);
        Bounded(Times(Value(0, t.ds), unit) + if f > 0 then r(f, unit, Pow10(k)) else 0, t.rest)
  }

  /** Every text can be taken apart. */
  lemma SplitAny(s: string) returns (t: Written)
    ensures Split(t) && Text(t) == s
  {
    var ds, s1 := TakeDigits(s);
    var dotted, fs, s2 := false, "", s1;
    if s1 != [] && s1[0] == '.' {
      dotted := true;
      fs, s2 := TakeDigits(s1[1..]);
      assert s1 == "." + fs + s2;
    }
    var word, rest := TakeWord(s2);
    t := Written(ds, dotted, fs, word, rest);
    assert s1 == (if dotted then "." + fs else "") + (word + rest);
  }

  lemma {:induction false} TakeDigits(s: string) returns (ds: string, rest: string)
    ensures AllDigits(ds) && NoDigitNext(rest) && s == ds + rest
  {
    if s == [] || !IsDigit(s[0]) {
      ds, rest := "", s;
    } else {
      ds, rest := TakeDigits(s[1..]);
      ds := [s[0]] + ds;
    }
  }

  lemma {:induction false} TakeWord(s: string) returns (word: string, rest: string)
    ensures (forall i :: 0 <= i < |word| ==> !StartsNumber(word[i])) && NextNumber(rest) && s == word + rest
  {
    if s == [] || StartsNumber(s[0]) {
      word, rest := "", s;
    } else {
      word, rest := TakeWord(s[1..]);
      word := [s[0]] + word;
    }
  }

  lemma UnitOutcome(r: Rounding, v: nat, f: nat, scale: nat, word: string, rest: string)
    requires (forall i :: 0 <= i < |word| ==> !StartsNumber(word[i])) && NextNumber(rest)
    ensures UnitToken(r, v, f, scale, word + rest)
         == if word == [] then Err(MissingUnit)
            else match UnitNanos(word)
                 case None => Err(UnknownUnit(word))
                 case Some(unit) => Bounded(Times(v, unit) + if f > 0 then r(f, unit, scale) else 0, rest)
  {
    UnitReads(word, rest);
    assert (word + rest)[..|word|] == word && (word + rest)[|word|..] == rest;
    if UnitNanos(word).Some? { UnitTokenReads(r, v, f, scale, word, rest, UnitNanos(word).value); }
  }

  /** A number with a point, and how many of its digits behind the point count. */
  lemma DottedToken(r: Rounding, t: Written) returns (k: nat)
    requires Split(t) && t.dotted
    ensures k <= |t.fs| && Value(0, t.fs[..k]) <= GO_OVERFLOW
    ensures k < |t.fs| ==> Value(0, t.fs[..k + 1]) > GO_OVERFLOW
    ensures Text(t) != []
    ensures Token(r, Text(t))
         == if (t.ds == [] && t.fs == []) || Value(0, t.ds) > GO_OVERFLOW then Err(Invalid)
            else UnitToken(r, Value(0, t.ds), Value(0, t.fs[..k]), Pow10(k), t.word + t.rest)
  {
    hide LeadingInt, LeadingFraction, UnitToken, Value, Pow10, Times;
    var s, tail := Text(t), t.word + t.rest;
    var s1 := "." + t.fs + tail;
    assert s == t.ds + s1 && s1[0] == '.' && s1[1..] == t.fs + tail;
    AfterNumber(t);
    k := FractionCuts(t.fs, tail, 0, 1);
    OneTimes(Pow10(k));
    IntReads(t.ds, s1, 0);
    StartsHere(t);
  }

  lemma OneTimes(n: nat)
    ensures Times(1, n) == n
  {
  }

  lemma PlainNumber(r: Rounding, t: Written)
    requires Split(t) && !t.dotted && Text(t) != []
    ensures Token(r, Text(t))
         == if t.ds == [] || Value(0, t.ds) > GO_OVERFLOW then Err(Invalid)
            else UnitToken(r, Value(0, t.ds), 0, 1, t.word + t.rest)
  {
    hide LeadingInt, LeadingFraction, UnitToken, Value;
    var tail := t.word + t.rest;
    assert Text(t) == t.ds + tail;
    AfterNumber(t);
    assert "" + tail == tail;
    IntReads(t.ds, tail, 0);
    StartsHere(t);
  }

  /** What the parser makes of any text: a number without digits or above the boundary is invalid, then a missing unit
      and an unknown one are told apart, and otherwise the token counts its whole and its fraction. */
  lemma TokenIs(r: Rounding, t: Written) returns (k: nat)
    requires Split(t) && Text(t) != []
    ensures k <= |t.fs| && Value(0, t.fs[..k]) <= GO_OVERFLOW
    ensures k < |t.fs| ==> Value(0, t.fs[..k + 1]) > GO_OVERFLOW
    ensures Token(r, Text(t)) == Outcome(r, t, k)
  {
    hide Token, UnitToken, Value, Pow10, Times, Text;
    if t.dotted {
      k := DottedToken(r, t);
      UnitOutcome(r, Value(0, t.ds), Value(0, t.fs[..k]), Pow10(k), t.word, t.rest);
    } else {
      k := 0;
      PlainNumber(r, t);
      assert t.fs[..0] == [];
      NoValue(0);
      UnitOutcome(r, Value(0, t.ds), 0, 1, t.word, t.rest);
    }
  }

  lemma NoValue(x: nat)
    ensures Value(x, []) == x
  {
  }

  lemma AfterNumber(t: Written)
    requires Split(t)
    ensures NoDigitNext(t.word + t.rest) && NoDigitNext((if t.dotted then "." + t.fs else "") + (t.word + t.rest))
    ensures !t.dotted ==> t.word + t.rest == [] || (t.word + t.rest)[0] != '.'
  {
    if t.word != [] { assert (t.word + t.rest)[0] == t.word[0]; } else { assert t.word + t.rest == t.rest; }
  }

  lemma StartsHere(t: Written)
    requires Split(t) && Text(t) != []
    ensures StartsNumber(Text(t)[0]) <==> t.ds != [] || t.dotted
  {
    if t.ds != [] {
      assert Text(t)[0] == t.ds[0];
    } else if !t.dotted {
      assert Text(t) == t.word + t.rest;
      assert t.word == [] ==> Text(t) == t.rest;
    }
  }

  /** A text whose first bad token stands at the start or behind a valid duration is refused with that token's error. */
  lemma ParseRefuses(r: Rounding, a: string, t: Written) returns (k: nat)
    requires a == [] || (Plain(a) && Parse(r, a).Ok?)
    requires Split(t) && (t.ds != [] || t.dotted) && a + Text(t) != "0"
    ensures k <= |t.fs| && Outcome(r, t, k) == Token(r, Text(t))
    ensures Outcome(r, t, k).Err? ==> Parse(r, a + Text(t)) == Err(Outcome(r, t, k).error)
  {
    var s := Text(t);
    assert s != [];
    k := TokenIs(r, t);
    hide Token, Outcome, Text;
    StartsHere(t);
    if a == [] {
      assert a + s == s;
    } else if Token(r, s).Err? {
      TokensAppend(r, a, s, 0);
      assert (a + s)[0] == a[0];
    }
  }

  /** A single token is the whole duration, within the boundary; nothing is no duration, and a zero needs no unit. */
  lemma ParseOfToken(r: Rounding, t: Written) returns (k: nat)
    requires Split(t) && (t.ds != [] || t.dotted) && t.rest == []
    ensures k <= |t.fs| && Outcome(r, t, k) == Token(r, Text(t))
    ensures Text(t) != "0" ==>
              Parse(r, Text(t)) == match Outcome(r, t, k)
                                   case Err(e) => Err(e)
                                   case Ok((n, _)) => if n < GO_OVERFLOW then Ok(n) else Err(Invalid)
    ensures Parse(r, "") == Err(Invalid) && Parse(r, "0") == Ok(0)
  {
    var s := Text(t);
    assert s != [];
    k := TokenIs(r, t);
    StartsHere(t);
    var x := Token(r, s);
    if x.Ok? {
      assert x.value.1 == [];
      hide Token, Outcome, Text;
      assert Tokens(r, [], x.value.0) == Ok(x.value.0);
    }
  }

  /** A number may start with its point. */
  lemma PointFirst(r: Rounding, m: nat, k: nat, unit: string, nanos: nat)
    requires Exact(r) && UnitNanos(unit) == Some(nanos) && nanos % Pow10(k) == 0
    requires 0 < k && 0 < m < Pow10(k) && m <= LEADING_INT_MAX && Times(m, nanos / Pow10(k)) < GO_OVERFLOW
    ensures Parse(r, "." + Padded(m, k) + unit) == Ok(Times(m, nanos / Pow10(k)))
  {
    hide Pow10, Times, Padded, Token, Exact, UnitNanos;
    PointToken(r, m, k, unit, nanos);
    var n := Times(m, nanos / Pow10(k));
    assert Tokens(r, "", n) == Ok(n);
  }

  lemma PointToken(r: Rounding, m: nat, k: nat, unit: string, nanos: nat)
    requires Exact(r) && UnitNanos(unit) == Some(nanos) && nanos % Pow10(k) == 0
    requires 0 < k && 0 < m < Pow10(k) && m <= LEADING_INT_MAX
    ensures Token(r, "." + Padded(m, k) + unit) == Bounded(Times(m, nanos / Pow10(k)), "")
  {
    UnitScale(unit);
    FracRest(r, 0, m, k, unit, nanos, "");
    hide Pow10, Times, Padded, LeadingFraction, UnitToken, Exact, UnitNanos;
    var s := "." + Padded(m, k) + unit;
    assert unit + "" == unit && s[0] == '.' && s[1..] == Padded(m, k) + unit;
    assert LeadingInt(s, 0) == Some((0, s));
    NoTimes(nanos);
  }

  lemma NoTimes(n: nat)
    ensures Times(0, n) == 0
  {
  }
}
