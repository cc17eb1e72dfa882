/** Byte sizes and durations as text, over the program's 64-bit integers. */
module Units {
  import opened Prelude
  import opened Decimal
  import opened Text

  const MAX64: int := 0x7FFF_FFFF_FFFF_FFFF
  const MIN64: int := -0x8000_0000_0000_0000

  predicate Fits64(n: int) {
    MIN64 <= n <= MAX64
  }

  /** Negation on 64 bits: the minimum is its own negation. */
  function Negated(n: int): (m: int)
    requires Fits64(n)
    ensures Fits64(m) && (n != MIN64 ==> m == -n)
  {
    if n == MIN64 then MIN64 else -n
  }

  /** strconv.FormatInt in base ten. */
  function IntText(n: int): string {
    if n < 0 then "-" + Numeral(-n) else Numeral(n)
  }

  // ---------- scanning ----------

  /** Length of the leading run of digits. */
  function DigitRun(s: string): (n: nat)
    ensures n <= |s| && AllDigits(s[..n]) && (n < |s| ==> !IsDigit(s[n]))
  {
    if s == "" || !IsDigit(s[0]) then 0
    else
      assert s[..1 + DigitRun(s[1..])] == [s[0]] + s[1..][..DigitRun(s[1..])];
      1 + DigitRun(s[1..])
  }

  lemma DigitRunOf(digits: string, rest: string)
    requires AllDigits(digits) && (rest == "" || !IsDigit(rest[0]))
    ensures DigitRun(digits + rest) == |digits|
    ensures (digits + rest)[..|digits|] == digits && (digits + rest)[|digits|..] == rest
  {
    var s := digits + rest;
    assert forall i :: 0 <= i < |digits| ==> s[i] == digits[i];
    assert rest != "" ==> s[|digits|] == rest[0];
    assert forall i :: 0 <= i < DigitRun(s) ==> s[..DigitRun(s)][i] == s[i];
  }

  // ---------- byte sizes ----------

  datatype SizeError = Empty | NoUnit | UnknownUnit | Overflow

  const KIB := 0x400
  const MIB := 0x10_0000
  const GIB := 0x4000_0000
  const TIB := 0x100_0000_0000

  function SizeUnit(unit: string): (mul: Option<nat>)
    ensures mul.Some? ==> mul.value in {1, KIB, MIB, GIB, TIB}
  {
    var u := Lower(unit);
    if u == "b" then Some(1)
    else if u == "kib" then Some(KIB)
    else if u == "mib" then Some(MIB)
    else if u == "gib" then Some(GIB)
    else if u == "tib" then Some(TIB)
    else None
  }

  /** A run of digits and what follows it. */
  function Measured(digits: string, unit: string): Result<int, SizeError>
    requires AllDigits(digits)
  {
    var n, mul := Value(digits), SizeUnit(unit);
    if n > MAX64 then Err(Overflow)
    else if mul.None? then Err(UnknownUnit)
    else if mul.value > 1 && n > MAX64 / mul.value then Err(Overflow)
    else Ok(n * mul.value)
  }

  function SizeOf(s: string): Result<int, SizeError> {
    var t := Trim(s);
    var i := DigitRun(t);
    if t == "" then Err(Empty) else if i == 0 || i == |t| then Err(NoUnit) else Measured(t[..i], t[i..])
  }

  method ParseByteSize(text: string) returns (r: Result<int, SizeError>)
    ensures r == SizeOf(text)
  {
    var s := Trim(text);
    var i := 0;
    while i < |s| && IsDigit(s[i])
      invariant 0 <= i <= |s| && AllDigits(s[..i])
    {
      i := i + 1;
    }
    assert i == DigitRun(s) by {
      DigitRunOf(s[..i], s[i..]);
      assert s[..i] + s[i..] == s;
    }
    if s == "" {
      r := Err(Empty);
    } else if i == 0 || i == |s| {
      r := Err(NoUnit);
    } else {
      r := Measured(s[..i], s[i..]);
    }
  }

  /** Division truncates; every division here is exact. */
  function Scaled(m: int): string {
    if m % TIB == 0 then IntText(m / TIB) + "TiB"
    else if m % GIB == 0 then IntText(m / GIB) + "GiB"
    else if m % MIB == 0 then IntText(m / MIB) + "MiB"
    else if m % KIB == 0 then IntText(m / KIB) + "KiB"
    else IntText(m) + "B"
  }

  function FormatByteSize(n: int): string
    requires Fits64(n)
  {
    if n == 0 then "0B"
    else if n < 0 then "-" + Scaled(Negated(n))
    else Scaled(n)
  }

  lemma NothingToTrim(s: string)
    requires s != "" && !IsSpace(s[0]) && !IsSpace(s[|s| - 1])
    ensures Trim(s) == s
  {
  }

  /** Every text is, between its blanks, a run of digits and a rest that does not begin with one. */
  lemma EveryTextSplits(text: string) returns (digits: string, unit: string)
    ensures Trim(text) == digits + unit && AllDigits(digits) && (unit == "" || !IsDigit(unit[0]))
  {
    var t := Trim(text);
    digits, unit := t[..DigitRun(t)], t[DigitRun(t)..];
  }

  /**
   * Every text, blanks around it or not: accepted exactly when it is digits and a unit whose product
   * fits in 64 bits, and then it means that product; otherwise which error it gets.
   */
  lemma SizeAcceptedIffFits(text: string, digits: string, unit: string)
    requires Trim(text) == digits + unit && AllDigits(digits) && (unit == "" || !IsDigit(unit[0]))
    ensures SizeOf(text).Ok? <==>
            digits != "" && SizeUnit(unit).Some? && Value(digits) * SizeUnit(unit).value <= MAX64
    ensures SizeOf(text).Ok? ==> SizeOf(text).value == Value(digits) * SizeUnit(unit).value
    ensures SizeOf(text).Err? ==>
              SizeOf(text).error == if digits == "" && unit == "" then Empty
                                    else if digits == "" || unit == "" then NoUnit
                                    else if SizeUnit(unit).None? && Value(digits) <= MAX64 then UnknownUnit
                                    else Overflow
  {
    NoUnitIsNone();
    hide Value, SizeUnit, Trim, DigitRun;
    DigitRunOf(digits, unit);
    if SizeUnit(unit).Some? {
      ProductFits(Value(digits), SizeUnit(unit).value);
    }
  }

  lemma NoUnitIsNone()
    ensures SizeUnit("").None?
  {
    assert Lower("") == "";
  }

  lemma DigitsFirst(digits: string, unit: string)
    requires AllDigits(digits) && digits != "" && unit != "" && !IsSpace(unit[|unit| - 1])
    ensures Trim(digits + unit) == digits + unit
  {
    var s := digits + unit;
    assert s[0] == digits[0] && IsDigit(s[0]) && s[|s| - 1] == unit[|unit| - 1];
    NothingToTrim(s);
  }

  lemma ProductFits(n: nat, mul: nat)
    requires mul in {1, KIB, MIB, GIB, TIB}
    ensures n > MAX64 || (mul > 1 && n > MAX64 / mul) <==> n * mul > MAX64
  {
  }

  lemma ScaledParses(digits: nat, unit: string, mul: nat)
    requires unit in {"B", "KiB", "MiB", "GiB", "TiB"} && SizeUnit(unit) == Some(mul) && digits * mul <= MAX64
    ensures SizeOf(IntText(digits) + unit) == Ok(digits * mul)
  {
    hide SizeOf, SizeUnit, Lower;
    NumeralRoundTrip(digits);
    DigitsFirst(Numeral(digits), unit);
    SizeAcceptedIffFits(Numeral(digits) + unit, Numeral(digits), unit);
  }

  lemma SizeUnits()
    ensures SizeUnit("B") == Some(1) && SizeUnit("KiB") == Some(KIB) && SizeUnit("MiB") == Some(MIB)
    ensures SizeUnit("GiB") == Some(GIB) && SizeUnit("TiB") == Some(TIB)
  {
    assert Lower("B") == "b";
    assert Lower("KiB") == "kib" && Lower("MiB") == "mib" && Lower("GiB") == "gib" && Lower("TiB") == "tib";
  }

  lemma ScaledRoundTrip(n: int)
    requires 0 < n <= MAX64
    ensures SizeOf(Scaled(n)) == Ok(n)
  {
    SizeUnits();
    hide SizeOf, SizeUnit, IntText;
    if n % TIB == 0 {
      ScaledParses(n / TIB, "TiB", TIB);
    } else if n % GIB == 0 {
      ScaledParses(n / GIB, "GiB", GIB);
    } else if n % MIB == 0 {
      ScaledParses(n / MIB, "MiB", MIB);
    } else if n % KIB == 0 {
      ScaledParses(n / KIB, "KiB", KIB);
    } else {
      ScaledParses(n, "B", 1);
    }
  }

  lemma ZeroSize()
    ensures SizeOf("0B") == Ok(0)
  {
    SizeUnits();
    ZeroText();
    ScaledParses(0, "B", 1);
  }

  /** Printing then parsing a size gives it back exactly when it is not negative. */
  lemma SizeRoundTrip(n: int)
    requires Fits64(n)
    ensures SizeOf(FormatByteSize(n)) == Ok(n) <==> n >= 0
    ensures n < 0 ==> SizeOf(FormatByteSize(n)) == Err(NoUnit)
  {
    hide SizeOf, Scaled;
    if n < 0 {
      ScaledEnds(Negated(n));
      NegativeSizeRefused(Scaled(Negated(n)));
    } else if n == 0 {
      ZeroSize();
    } else {
      ScaledRoundTrip(n);
    }
  }

  lemma ZeroText()
    ensures IntText(0) + "B" == "0B" && IntText(0) + "s" == "0s"
  {
  }

  lemma ScaledEnds(m: int)
    ensures |Scaled(m)| > 0 && Scaled(m)[|Scaled(m)| - 1] == 'B'
  {
  }

  lemma NegativeSizeRefused(s: string)
    requires s != "" && !IsSpace(s[|s| - 1])
    ensures SizeOf("-" + s) == Err(NoUnit)
  {
    var t := "-" + s;
    assert t[0] == '-' && t[|t| - 1] == s[|s| - 1];
    NothingToTrim(t);
  }

  // ---------- durations ----------

  const MICROSECOND := 1_000
  const MILLISECOND := 1_000_000
  const SECOND := 1_000_000_000
  const MINUTE := 60_000_000_000
  const HOUR := 3_600_000_000_000
  const LIMIT: int := 0x8000_0000_0000_0000   // what ParseDuration accumulates stays at or below this

  /**
   * At the minimum the program calls itself with the very argument it has, without end; everywhere else
   * the negation is positive.
   */
  lemma OnlyTheMinimumNegatesToItself(d: int)
    requires Fits64(d) && d < 0
    ensures Negated(d) == d <==> d == MIN64
    ensures Negated(d) > 0 <==> d != MIN64
  {
  }

  /** The printer with a bound on how deep it may call itself: `None` when that is not enough. */
  function PrintWithin(d: int, calls: nat): Option<string>
    requires Fits64(d)
    decreases calls
  {
    if d >= 0 then Some(FormatDuration(d))
    else if calls == 0 then None
    else
      var r := PrintWithin(Negated(d), calls - 1);
      if r.Some? then Some("-" + r.value) else None
  }

  /** The printer returns, within one call of itself, exactly for durations above the minimum. */
  lemma PrinterReturnsIffAboveMinimum(d: int)
    requires Fits64(d)
    ensures (exists calls :: PrintWithin(d, calls).Some?) <==> d != MIN64
    ensures d != MIN64 ==> PrintWithin(d, 1) == Some(FormatDuration(d))
  {
    if d == MIN64 {
      forall calls
        ensures PrintWithin(d, calls).None?
      {
        MinimumNeverPrints(calls);
      }
    } else {
      assert PrintWithin(d, 1).Some?;
    }
  }

  lemma {:induction false} MinimumNeverPrints(calls: nat)
    ensures PrintWithin(MIN64, calls).None?
  {
    if calls > 0 {
      MinimumNeverPrints(calls - 1);
    }
  }

  function FormatDuration(d: int): string
    requires Fits64(d) && d != MIN64
    decreases d < 0
  {
    if d == 0 then "0s"
    else if d < 0 then "-" + FormatDuration(Negated(d))
    else if d % HOUR == 0 then IntText(d / HOUR) + "h"
    else if d % MINUTE == 0 then IntText(d / MINUTE) + "m"
    else if d % SECOND == 0 then IntText(d / SECOND) + "s"
    else if d % MILLISECOND == 0 then IntText(d / MILLISECOND) + "ms"
    else if d % MICROSECOND == 0 then IntText(d / MICROSECOND) + "us"
    else IntText(d) + "ns"
  }

  function DurationUnit(u: string): (unit: Option<nat>)
    ensures unit.Some? ==> unit.value in {1, MICROSECOND, MILLISECOND, SECOND, MINUTE, HOUR}
  {
    if u == "ns" then Some(1)
    else if u == "us" || u == "\U{B5}s" || u == "\U{3BC}s" then Some(MICROSECOND)
    else if u == "ms" then Some(MILLISECOND)
    else if u == "s" then Some(SECOND)
    else if u == "m" then Some(MINUTE)
    else if u == "h" then Some(HOUR)
    else None
  }

  /** Length of the leading run of characters that can be in a unit. */
  function UnitRun(s: string): (n: nat)
    ensures n <= |s|
  {
    if s == "" || s[0] == '.' || IsDigit(s[0]) then 0 else 1 + UnitRun(s[1..])
  }

  /** The sum of the number-unit pairs; `None` for a syntax error or an overflow. No fractions. */
  function Components(s: string, d: nat): Option<nat>
    decreases |s|
  {
    if s == "" then Some(d)
    else
      var i := DigitRun(s);
      if i == 0 then None
      else
        var v, rest := Value(s[..i]), s[i..];
        var j := UnitRun(rest);
        var unit := DurationUnit(rest[..j]);
        if v > LIMIT || j == 0 || unit.None? || v > LIMIT / unit.value || d + v * unit.value > LIMIT then None
        else Components(rest[j..], d + v * unit.value)
  }

  /** time.ParseDuration on text without fractions. */
  function DurationOf(s: string): Option<int> {
    var neg := s != "" && s[0] == '-';
    var body := if s != "" && (s[0] == '-' || s[0] == '+') then s[1..] else s;
    if body == "0" then Some(0)
    else if body == "" then None
    else
      var d := Components(body, 0);
      if d.None? then None
      else
        var v: int := d.value;
        if neg then Some(-v) else if v > MAX64 then None else Some(v)
  }

  lemma {:induction false} ComponentsFit(s: string, d: nat)
    requires d <= LIMIT
    ensures Components(s, d).Some? ==> Components(s, d).value <= LIMIT
    decreases |s|
  {
    hide Value, DurationUnit;
    if s != "" && DigitRun(s) > 0 {
      var v, rest := Value(s[..DigitRun(s)]), s[DigitRun(s)..];
      var unit := DurationUnit(rest[..UnitRun(rest)]);
      if UnitRun(rest) > 0 && unit.Some? && v <= LIMIT && d + v * unit.value <= LIMIT {
        ComponentsFit(rest[UnitRun(rest)..], d + v * unit.value);
      }
    }
  }

  lemma DurationFits(s: string)
    ensures DurationOf(s).Some? ==> Fits64(DurationOf(s).value)
  {
    hide Components;
    if s != "" && (s[0] == '-' || s[0] == '+') {
      ComponentsFit(s[1..], 0);
    } else {
      ComponentsFit(s, 0);
    }
  }

  predicate IsUnitText(u: string) {
    u != "" && forall i :: 0 <= i < |u| ==> u[i] != '.' && !IsDigit(u[i])
  }

  lemma {:induction false} UnitRunOf(u: string)
    requires forall i :: 0 <= i < |u| ==> u[i] != '.' && !IsDigit(u[i])
    ensures UnitRun(u) == |u|
  {
    if u != "" {
      UnitRunOf(u[1..]);
    }
  }

  lemma OneComponent(n: nat, u: string, unit: nat)
    requires IsUnitText(u) && DurationUnit(u) == Some(unit) && n * unit <= LIMIT
    ensures Components(Numeral(n) + u, 0) == Some(n * unit)
  {
    hide Value, Numeral, DurationUnit;
    NumeralRoundTrip(n);
    DigitRunOf(Numeral(n), u);
    UnitRunOf(u);
    UnitsFit(n, unit);
    assert u[..|u|] == u && u[|u|..] == "";
  }

  lemma UnitsFit(n: nat, unit: nat)
    requires unit in {1, MICROSECOND, MILLISECOND, SECOND, MINUTE, HOUR}
    ensures n > LIMIT || n > LIMIT / unit <==> n * unit > LIMIT
  {
  }

  /** A positive duration is printed as one number and one unit. */
  lemma PrintedPositive(d: int) returns (n: nat, u: string, unit: nat)
    requires 0 < d <= MAX64
    ensures FormatDuration(d) == Numeral(n) + u && n * unit == d && IsUnitText(u) && DurationUnit(u) == Some(unit)
  {
    hide Numeral;
    if d % HOUR == 0 {
      n, u, unit := d / HOUR, "h", HOUR;
    } else if d % MINUTE == 0 {
      n, u, unit := d / MINUTE, "m", MINUTE;
    } else if d % SECOND == 0 {
      n, u, unit := d / SECOND, "s", SECOND;
    } else if d % MILLISECOND == 0 {
      n, u, unit := d / MILLISECOND, "ms", MILLISECOND;
    } else if d % MICROSECOND == 0 {
      n, u, unit := d / MICROSECOND, "us", MICROSECOND;
    } else {
      n, u, unit := d, "ns", 1;
    }
  }

  lemma PositiveDurationParses(d: int)
    requires 0 < d <= MAX64
    ensures Components(FormatDuration(d), 0) == Some(d)
    ensures |FormatDuration(d)| > 1 && IsDigit(FormatDuration(d)[0])
  {
    hide Components, FormatDuration, DurationUnit;
    var n, u, unit := PrintedPositive(d);
    OneComponent(n, u, unit);
    assert FormatDuration(d)[0] == Numeral(n)[0];
  }

  lemma NegativePrints(d: int)
    requires MIN64 < d < 0
    ensures FormatDuration(d) == "-" + FormatDuration(-d)
  {
  }

  lemma UnsignedReads(s: string, d: nat)
    requires |s| > 1 && IsDigit(s[0]) && Components(s, 0) == Some(d) && d <= MAX64
    ensures DurationOf(s) == Some(d)
  {
    hide Components;
  }

  lemma MinusReads(t: string, d: int)
    requires d >= 0 && |t| > 2 && t[0] == '-' && Components(t[1..], 0) == Some(d)
    ensures DurationOf(t) == Some(-d)
  {
    hide Components;
  }

  lemma SignedReads(s: string, d: int)
    requires d >= 0 && |s| > 1 && Components(s, 0) == Some(d)
    ensures DurationOf("-" + s) == Some(-d)
  {
    hide Components, DurationOf;
    var t := "-" + s;
    assert t[0] == '-' && t[1..] == s;
    MinusReads(t, d);
  }

  /** Printing then parsing gives back every duration the printer can print. */
  lemma DurationRoundTrip(d: int)
    requires Fits64(d) && d != MIN64
    ensures DurationOf(FormatDuration(d)) == Some(d)
  {
    hide Components, DurationOf, FormatDuration;
    if d > 0 {
      PositiveDurationParses(d);
      UnsignedReads(FormatDuration(d), d);
    } else if d < 0 {
      PositiveDurationParses(-d);
      NegativePrints(d);
      SignedReads(FormatDuration(-d), -d);
    } else {
      ZeroDuration();
    }
  }

  lemma ZeroDuration()
    ensures FormatDuration(0) == "0s" && DurationOf("0s") == Some(0)
  {
    ZeroText();
    assert IntText(0) == Numeral(0);
    OneComponent(0, "s", SECOND);
  }
}
