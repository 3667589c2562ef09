/** Go's textual durations: the printer, the parser, and the functions that specify them. */
module GoDuration {
  import opened Bytes

  const GO_OVERFLOW: nat := 0x8000_0000_0000_0000
  const LEADING_INT_MAX: nat := (GO_OVERFLOW - 1) / 10

  datatype Error = Invalid | MissingUnit | UnknownUnit(unit: string) | NegativeUnsupported
  datatype Result<+T> = Ok(value: T) | Err(error: Error)

  /** The floating-point step: the nanoseconds of f / scale units. */
  type Rounding = (nat, nat, nat) -> nat

  function Pow10(n: nat): (r: nat)
    ensures r >= 1
  {
    if n == 0 then 1 else 10 * Pow10(n - 1)
  }

  /** The step is exact where no rounding is involved: a proper fraction whose scale divides a unit. */
  ghost predicate Exact(r: Rounding) {
    forall f: nat, unit: nat, scale: nat :: ExactAt(r, f, unit, scale)
  }

  ghost predicate ExactAt(r: Rounding, f: nat, unit: nat, scale: nat) {
    0 < scale && f < scale && unit <= 3_600_000_000_000 && unit % scale == 0 ==> r(f, unit, scale) == f * (unit / scale)
  }

  predicate IsDigit(c: char) {
    '0' <= c <= '9'
  }

  function DigitOf(c: char): (d: nat)
    requires IsDigit(c)
    ensures d < 10
  {
    c as int - '0' as int
  }

  function DigitChar(d: nat): (c: char)
    requires d < 10
    ensures IsDigit(c) && DigitOf(c) == d
  {
    ('0' as int + d) as char
  }

  // ----- printing -----

  function Decimal(n: nat): (s: string)
    ensures s != [] && forall i :: 0 <= i < |s| ==> IsDigit(s[i])
  {
    if n < 10 then [DigitChar(n)] else Decimal(n / 10) + [DigitChar(n % 10)]
  }

  /** n in exactly width digits. */
  function Padded(n: nat, width: nat): (s: string)
    ensures |s| == width && forall i :: 0 <= i < |s| ==> IsDigit(s[i])
  {
    if width == 0 then [] else Padded(n / 10, width - 1) + [DigitChar(n % 10)]
  }

  function StripZeros(s: string): string {
    if s != [] && s[|s| - 1] == '0' then StripZeros(s[..|s| - 1]) else s
  }

  function Above(v: nat, prec: nat): nat {
    DivIsNat(v, Pow10(prec));
    v / Pow10(prec)
  }

  function Below(v: nat, prec: nat): nat {
    v % Pow10(prec)
  }

  lemma DivIsNat(v: nat, p: nat)
    requires p > 0
    ensures v / p >= 0
  {
    var q := v / p;
    assert v == q * p + v % p;
    if q < 0 { NegativeProduct(q + 1, p); }
  }

  lemma NegativeProduct(a: int, p: nat)
    requires a <= 0
    ensures a * p <= 0
  {
  }

  /** The whole part above 10^prec, and the fraction below it without trailing zeros. */
  function Frac(v: nat, prec: nat): (nat, string) {
    (Above(v, prec), if Below(v, prec) == 0 then "" else "." + StripZeros(Padded(Below(v, prec), prec)))
  }

  const NS := "ns"
  const US := "\U{00B5}s"
  const MS := "ms"

  function Format(u: nat): string {
    if u == 0 then "0s"
    else if u < 1_000 then Printed(Frac(u, 0), NS)
    else if u < 1_000_000 then Printed(Frac(u, 3), US)
    else if u < 1_000_000_000 then Printed(Frac(u, 6), MS)
    else
      var (secs, f) := Frac(u, 9);
      Clock(secs / 60, Printed((secs % 60, f), "s"))
  }

  /** Minutes and hours, when there are any, before the seconds. */
  function Clock(mins: nat, secs: string): string {
    if mins == 0 then secs
    else if mins / 60 == 0 then Decimal(mins % 60) + "m" + secs
    else Decimal(mins / 60) + "h" + (Decimal(mins % 60) + "m" + secs)
  }

  function Printed(x: (nat, string), unit: string): string {
    Decimal(x.0) + x.1 + unit
  }

  method FracOf(v: nat, prec: nat) returns (whole: nat, f: string)
    ensures (whole, f) == Frac(v, prec)
  {
    whole := Above(v, prec);
    var rem := Below(v, prec);
    if rem == 0 { return whole, ""; }
    var digits := Padded(rem, prec);
    while digits != [] && digits[|digits| - 1] == '0'
      invariant StripZeros(digits) == StripZeros(Padded(rem, prec))
      decreases |digits|
    {
      digits := digits[..|digits| - 1];
    }
    f := "." + digits;
  }

  method FormatGoDuration(u: nat) returns (out: string)
    ensures out == Format(u)
  {
    if u == 0 { return "0s"; }
    if u < 1_000_000_000 {
      var prec, unit := 6, MS;
      if u < 1_000 {
        prec, unit := 0, NS;
      } else if u < 1_000_000 {
        prec, unit := 3, US;
      }
      var whole, f := FracOf(u, prec);
      return Decimal(whole) + f + unit;
    }
    var secs, f := FracOf(u, 9);
    out := Decimal(secs % 60) + f + "s";
    var mins := secs / 60;
    if mins > 0 {
      out := Decimal(mins % 60) + "m" + out;
      var hours := mins / 60;
      if hours > 0 {
        out := Decimal(hours) + "h" + out;
      }
    }
  }

  // ----- parsing -----

  function UnitNanos(unit: string): (r: Option<nat>)
    ensures r.Some? ==> 0 < r.value <= 3_600_000_000_000
  {
    if unit == "ns" then Some(1)
    else if unit == "us" || unit == "\U{00B5}s" || unit == "\U{03BC}s" then Some(1_000)
    else if unit == "ms" then Some(1_000_000)
    else if unit == "s" then Some(1_000_000_000)
    else if unit == "m" then Some(60_000_000_000)
    else if unit == "h" then Some(3_600_000_000_000)
    else None
  }

  /** The leading digits, on top of x; nothing when they exceed the overflow boundary. */
  function LeadingInt(s: string, x: nat): (r: Option<(nat, string)>)
    ensures r.Some? ==> |r.value.1| <= |s|
  {
    if s == [] || !IsDigit(s[0]) then Some((x, s))
    else if x > LEADING_INT_MAX then None
    else
      var y := 10 * x + DigitOf(s[0]);
      if y > GO_OVERFLOW then None else LeadingInt(s[1..], y)
  }

  /** The leading digits as a fraction and its scale; past the boundary they are read but not counted. */
  function LeadingFraction(s: string, f: nat, scale: nat, overflow: bool): (r: (nat, nat, string))
    ensures |r.2| <= |s|
  {
    if s == [] || !IsDigit(s[0]) then (f, scale, s)
    else if overflow || f > LEADING_INT_MAX || 10 * f + DigitOf(s[0]) > GO_OVERFLOW then
      LeadingFraction(s[1..], f, scale, true)
    else LeadingFraction(s[1..], 10 * f + DigitOf(s[0]), 10 * scale, false)
  }

  predicate StartsNumber(c: char) {
    c == '.' || IsDigit(c)
  }

  /** Where the unit ends: at the next number, or at the end. */
  function UnitEnd(s: string): (k: nat)
    ensures k <= |s|
  {
    if s == [] || StartsNumber(s[0]) then 0 else 1 + UnitEnd(s[1..])
  }

  /** The nanoseconds of a token. */
  function Scaled(r: Rounding, v: nat, f: nat, scale: nat, unit: nat): Result<nat>
    requires unit > 0
  {
    if v > GO_OVERFLOW / unit then Err(Invalid)
    else
      var n := Times(v, unit) + if f > 0 then r(f, unit, scale) else 0;
      if f > 0 && n > GO_OVERFLOW then Err(Invalid) else Ok(n)
  }

  function Times(a: nat, b: nat): nat {
    a * b
  }

  /** One turn of the loop: a number, a fraction and a unit. */
  function Token(r: Rounding, s: string): (t: Result<(nat, string)>)
    requires s != []
    ensures t.Ok? ==> |t.value.1| < |s|
  {
    if !StartsNumber(s[0]) then Err(Invalid)
    else
      match LeadingInt(s, 0)
      case None => Err(Invalid)
      case Some((v, s1)) =>
        if s1 != [] && s1[0] == '.' then
          var (f, scale, s2) := LeadingFraction(s1[1..], 0, 1, false);
          if |s1| == |s| && |s2| == |s1| - 1 then Err(Invalid) else UnitToken(r, v, f, scale, s2)
        else if |s1| == |s| then Err(Invalid) else UnitToken(r, v, 0, 1, s1)
  }

  function UnitToken(r: Rounding, v: nat, f: nat, scale: nat, s: string): (t: Result<(nat, string)>)
    ensures t.Ok? ==> |t.value.1| < |s|
  {
    var k := UnitEnd(s);
    if k == 0 then Err(MissingUnit)
    else
      match UnitNanos(s[..k])
      case None => Err(UnknownUnit(s[..k]))
      case Some(unit) =>
        match Scaled(r, v, f, scale, unit)
        case Err(e) => Err(e)
        case Ok(n) => Ok((n, s[k..]))
  }

  function Tokens(r: Rounding, s: string, d: nat): Result<nat>
    decreases |s|
  {
    if s == [] then Ok(d)
    else
      match Token(r, s)
      case Err(e) => Err(e)
      case Ok((v, rest)) => if d + v > GO_OVERFLOW then Err(Invalid) else Tokens(r, rest, d + v)
  }

  function Unsigned(s: string): string {
    if s != [] && (s[0] == '-' || s[0] == '+') then s[1..] else s
  }

  function Parse(r: Rounding, input: string): Result<nat> {
    var s := Unsigned(input);
    if s == "0" then Ok(0)
    else if s == [] then Err(Invalid)
    else
      match Tokens(r, s, 0)
      case Err(e) => Err(e)
      case Ok(d) =>
        if input[0] == '-' && d > 0 then Err(NegativeUnsupported)
        else if d > GO_OVERFLOW - 1 then Err(Invalid)
        else Ok(d)
  }

  method LeadingIntOf(s: string) returns (r: Option<(nat, string)>)
    ensures r == LeadingInt(s, 0)
  {
    var end := 0;
    while end < |s| && IsDigit(s[end])
      invariant end <= |s| && forall i :: 0 <= i < end ==> IsDigit(s[i])
    {
      end := end + 1;
    }
    var x: nat := 0;
    var i := 0;
    while i < end
      invariant i <= end && LeadingInt(s, 0) == LeadingInt(s[i..], x)
    {
      assert s[i..][1..] == s[i + 1..];
      if x > LEADING_INT_MAX { return None; }
      x := 10 * x + DigitOf(s[i]);
      if x > GO_OVERFLOW { return None; }
      i := i + 1;
    }
    r := Some((x, s[end..]));
  }

  method LeadingFractionOf(s: string) returns (f: nat, scale: nat, rest: string)
    ensures (f, scale, rest) == LeadingFraction(s, 0, 1, false)
  {
    f, scale := 0, 1;
    var overflow := false;
    var end := 0;
    while end < |s|
      invariant end <= |s| && LeadingFraction(s, 0, 1, false) == LeadingFraction(s[end..], f, scale, overflow)
    {
      var c := s[end];
      assert s[end..][1..] == s[end + 1..];
      if !IsDigit(c) { break; }
      end := end + 1;
      if overflow { continue; }
      if f > LEADING_INT_MAX {
        overflow := true;
        continue;
      }
      var y := 10 * f + DigitOf(c);
      if y > GO_OVERFLOW {
        overflow := true;
        continue;
      }
      f := y;
      scale := 10 * scale;
    }
    rest := s[end..];
  }

  method UnitEndOf(s: string) returns (k: nat)
    ensures k == UnitEnd(s)
  {
    k := 0;
    while k < |s| && !StartsNumber(s[k])
      invariant k <= |s| && UnitEnd(s) == k + UnitEnd(s[k..])
    {
      assert s[k..][1..] == s[k + 1..];
      k := k + 1;
    }
  }

  method TokenOf(r: Rounding, s: string) returns (t: Result<(nat, string)>)
    requires s != []
    ensures t == Token(r, s)
  {
    if !StartsNumber(s[0]) { return Err(Invalid); }
    var head := LeadingIntOf(s);
    if head.None? { return Err(Invalid); }
    var (v, rest) := head.value;
    var pre := |rest| != |s|;
    var f: nat, scale: nat, post := 0, 1, false;
    if rest != [] && rest[0] == '.' {
      var fracLen := |rest| - 1;
      f, scale, rest := LeadingFractionOf(rest[1..]);
      post := |rest| != fracLen;
    }
    if !pre && !post { return Err(Invalid); }
    var k := UnitEndOf(rest);
    if k == 0 { return Err(MissingUnit); }
    var unit := UnitNanos(rest[..k]);
    if unit.None? { return Err(UnknownUnit(rest[..k])); }
    if v > GO_OVERFLOW / unit.value { return Err(Invalid); }
    var n := Times(v, unit.value);
    if f > 0 {
      n := n + r(f, unit.value, scale);
      if n > GO_OVERFLOW { return Err(Invalid); }
    }
    t := Ok((n, rest[k..]));
  }

  method TokensOf(r: Rounding, whole: string) returns (out: Result<nat>)
    ensures out == Tokens(r, whole, 0)
  {
    hide Token;
    var s, d: nat := whole, 0;
    while s != []
      invariant Tokens(r, whole, 0) == Tokens(r, s, d)
      decreases |s|
    {
      var t := TokenOf(r, s);
      if t.Err? { return Err(t.error); }
      d, s := d + t.value.0, t.value.1;
      if d > GO_OVERFLOW { return Err(Invalid); }
    }
    out := Ok(d);
  }

  method ParseGoDuration(r: Rounding, input: string) returns (out: Result<nat>)
    ensures out == Parse(r, input)
  {
    var s, neg := input, false;
    if s != [] && s[0] == '-' {
      neg, s := true, s[1..];
    } else if s != [] && s[0] == '+' {
      s := s[1..];
    }
    if s == "0" { return Ok(0); }
    if s == [] { return Err(Invalid); }
    var total := TokensOf(r, s);
    if total.Err? { return Err(total.error); }
    var d := total.value;
    if neg && d > 0 { return Err(NegativeUnsupported); }
    if d > GO_OVERFLOW - 1 { return Err(Invalid); }
    out := Ok(d);
  }
}
