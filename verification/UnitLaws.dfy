/** What the size and duration texts mean: powers of 1024, nanoseconds, and sums of them, in base ten. */
module UnitLaws {
  import opened Prelude
  import opened Decimal
  import opened Text
  import opened Units

  function Pow(b: nat, e: nat): nat {
    if e == 0 then 1 else b * Pow(b, e - 1)
  }

  // ---------- numerals ----------

  lemma {:induction false} ValueOfTwo(a: string, b: string)
    requires AllDigits(a) && AllDigits(b)
    ensures Value(a + b) == Value(a) * Pow(10, |b|) + Value(b)
  {
    if b == "" {
      assert a + b == a;
    } else {
      var front, last := b[..|b| - 1], b[|b| - 1];
      assert (a + b)[..|a + b| - 1] == a + front && (a + b)[|a + b| - 1] == last;
      ValueOfTwo(a, front);
      PlaceValue(Value(a), Pow(10, |b| - 1), Value(front), DigitValue(last));
    }
  }

  lemma PlaceValue(a: nat, p: nat, f: nat, d: nat)
    ensures 10 * (a * p + f) + d == a * (10 * p) + (10 * f + d)
  {
  }

  /** A numeral is the shortest text of its number. */
  lemma {:induction false} NoLeadingZero(n: nat)
    ensures n > 0 ==> Numeral(n)[0] != '0'
    ensures n < 10 ==> |Numeral(n)| == 1
  {
    if n >= 10 {
      NoLeadingZero(n / 10);
    }
  }

  // ---------- sizes ----------

  const SIZE_UNITS := ["B", "KiB", "MiB", "GiB", "TiB"]

  lemma PowersOf1024()
    ensures Pow(1024, 0) == 1 && Pow(1024, 1) == KIB && Pow(1024, 2) == MIB
    ensures Pow(1024, 3) == GIB && Pow(1024, 4) == TIB
  {
    assert Pow(1024, 1) == 1024 * Pow(1024, 0);
    assert Pow(1024, 2) == 1024 * Pow(1024, 1);
    assert Pow(1024, 3) == 1024 * Pow(1024, 2);
    assert Pow(1024, 4) == 1024 * Pow(1024, 3);
  }

  lemma SizeUnitIsPower(k: nat)
    requires k < 5
    ensures SizeUnit(SIZE_UNITS[k]) == Some(Pow(1024, k))
  {
    PowersOf1024();
    SizeUnits();
    hide SizeUnit, Pow;
  }

  /** The k-th unit is a power of 1024, and its case does not matter. */
  lemma SizeMeans(n: nat, k: nat, unit: string)
    requires k < 5 && Lower(unit) == Lower(SIZE_UNITS[k])
    requires unit != "" && !IsDigit(unit[0]) && !IsSpace(unit[|unit| - 1])
    ensures SizeOf(Numeral(n) + unit) == if n * Pow(1024, k) <= MAX64 then Ok(n * Pow(1024, k)) else Err(Overflow)
  {
    SizeUnitIsPower(k);
    SameCaseSameUnit(unit, SIZE_UNITS[k]);
    hide SizeOf, SizeUnit, Lower, Pow;
    NumeralRoundTrip(n);
    DigitsFirst(Numeral(n), unit);
    SizeAcceptedIffFits(Numeral(n) + unit, Numeral(n), unit);
  }

  lemma SameCaseSameUnit(a: string, b: string)
    requires Lower(a) == Lower(b)
    ensures SizeUnit(a) == SizeUnit(b)
  {
  }

  lemma Exact(d: nat, unit: nat)
    requires unit > 0 && d % unit == 0
    ensures d / unit * unit == d
  {
    Divided(d, unit);
  }

  lemma Regrouped(q: nat, step: nat, unit: nat)
    ensures q * step * unit == q * (step * unit)
  {
  }

  /** What the next larger unit does not divide is no multiple of the step to it. */
  lemma NoLargerUnit(d: nat, unit: nat, step: nat, larger: nat)
    requires unit > 0 && step > 0 && larger == step * unit && d % unit == 0 && d % larger != 0
    ensures d / unit % step != 0 && d / unit * unit == d
  {
    var m := d / unit;
    Exact(d, unit);
    if m % step == 0 {
      var q := m / step;
      Exact(m, step);
      Regrouped(q, step, unit);
      MultipleDivides(q, larger);
      assert false;
    }
  }

  lemma Minus(q: int, a: int, unit: int)
    ensures q * unit - a * unit == (q - a) * unit
  {
  }

  lemma Times(x: int, unit: int)
    requires unit > 0
    ensures x >= 1 ==> x * unit >= unit
    ensures x <= -1 ==> x * unit <= -unit
    ensures x == 0 ==> x * unit == 0
  {
  }

  lemma Divided(t: int, unit: int)
    requires unit > 0
    ensures t == t / unit * unit + t % unit && 0 <= t % unit < unit
  {
  }

  lemma MultipleDivides(q: nat, unit: nat)
    requires unit > 0
    ensures q * unit % unit == 0
  {
    var t := q * unit;
    Divided(t, unit);
    var a, b := t / unit, t % unit;
    Minus(q, a, unit);
    Times(q - a, unit);
  }

  /** A positive size is printed as one number of the largest unit that divides it. */
  lemma SizePrintsInLargestUnit(n: int) returns (m: nat, k: nat)
    requires 0 < n <= MAX64
    ensures k < 5 && FormatByteSize(n) == Numeral(m) + SIZE_UNITS[k] && m * Pow(1024, k) == n
    ensures k == 4 || m % 1024 != 0
  {
    PowersOf1024();
    hide Numeral, Pow;
    if n % TIB == 0 {
      Exact(n, TIB);
      m, k := n / TIB, 4;
    } else if n % GIB == 0 {
      NoLargerUnit(n, GIB, 1024, TIB);
      m, k := n / GIB, 3;
    } else if n % MIB == 0 {
      NoLargerUnit(n, MIB, 1024, GIB);
      m, k := n / MIB, 2;
    } else if n % KIB == 0 {
      NoLargerUnit(n, KIB, 1024, MIB);
      m, k := n / KIB, 1;
    } else {
      NoLargerUnit(n, 1, 1024, KIB);
      m, k := n, 0;
    }
  }

  // ---------- durations ----------

  const DURATION_UNITS := ["ns", "us", "ms", "s", "m", "h"]

  /** Three steps of a thousand, then two of sixty. */
  function Nanoseconds(k: nat): nat
    requires k < 6
  {
    if k == 0 then 1 else (if k <= 3 then 1000 else 60) * Nanoseconds(k - 1)
  }

  lemma NanosecondsAre()
    ensures Nanoseconds(0) == 1 && Nanoseconds(1) == MICROSECOND && Nanoseconds(2) == MILLISECOND
    ensures Nanoseconds(3) == SECOND && Nanoseconds(4) == MINUTE && Nanoseconds(5) == HOUR
  {
    assert Nanoseconds(1) == 1000 * Nanoseconds(0) && Nanoseconds(2) == 1000 * Nanoseconds(1);
    assert Nanoseconds(3) == 1000 * Nanoseconds(2) && Nanoseconds(4) == 60 * Nanoseconds(3);
    assert Nanoseconds(5) == 60 * Nanoseconds(4);
  }

  lemma DurationUnitIs(k: nat)
    requires k < 6
    ensures DurationUnit(DURATION_UNITS[k]) == Some(Nanoseconds(k)) && IsUnitText(DURATION_UNITS[k])
  {
    NanosecondsAre();
    hide Nanoseconds;
  }

  /** A number of one unit. */
  datatype Part = Part(n: nat, k: nat)

  predicate Known(parts: seq<Part>) {
    forall i :: 0 <= i < |parts| ==> parts[i].k < 6
  }

  function Spelled(parts: seq<Part>): string
    requires Known(parts)
  {
    if parts == [] then "" else Numeral(parts[0].n) + DURATION_UNITS[parts[0].k] + Spelled(parts[1..])
  }

  function Sum(parts: seq<Part>): nat
    requires Known(parts)
  {
    if parts == [] then 0 else parts[0].n * Nanoseconds(parts[0].k) + Sum(parts[1..])
  }

  lemma {:induction false} UnitRunBefore(u: string, rest: string)
    requires IsUnitText(u) && (rest == "" || IsDigit(rest[0]))
    ensures UnitRun(u + rest) == |u|
    decreases |u|
  {
    if |u| > 1 {
      assert (u + rest)[1..] == u[1..] + rest;
      UnitRunBefore(u[1..], rest);
    } else {
      assert (u + rest)[1..] == rest;
    }
  }

  /** What one step of the parser does, given its number `v`, the text `rest` after it, and the unit there. */
  lemma OneStep(s: string, d: nat, v: nat, rest: string, j: nat, unit: nat)
    requires DigitRun(s) > 0 && v == Value(s[..DigitRun(s)]) && rest == s[DigitRun(s)..]
    requires j == UnitRun(rest) > 0 && DurationUnit(rest[..j]) == Some(unit) && unit > 0
    requires v > LIMIT || v > LIMIT / unit || d + v * unit > LIMIT <==> d + v * unit > LIMIT
    ensures Components(s, d) == if d + v * unit <= LIMIT then Components(rest[j..], d + v * unit) else None
  {
    hide Value, UnitRun, DigitRun, DurationUnit;
  }

  lemma FirstComponent(n: nat, u: string, unit: nat, rest: string, d: nat)
    requires IsUnitText(u) && DurationUnit(u) == Some(unit) && (rest == "" || IsDigit(rest[0]))
    ensures Components(Numeral(n) + u + rest, d) ==
            if d + n * unit <= LIMIT then Components(rest, d + n * unit) else None
  {
    hide Value, Numeral, DurationUnit, Components, UnitRun, DigitRun;
    var s := Numeral(n) + u + rest;
    assert s == Numeral(n) + (u + rest);
    NumeralRoundTrip(n);
    DigitRunOf(Numeral(n), u + rest);
    UnitRunBefore(u, rest);
    assert (u + rest)[..|u|] == u && (u + rest)[|u|..] == rest;
    FitsInLimit(n, unit, d);
    OneStep(s, d, n, u + rest, |u|, unit);
  }

  lemma FitsInLimit(n: nat, unit: nat, d: nat)
    requires unit in {1, MICROSECOND, MILLISECOND, SECOND, MINUTE, HOUR}
    ensures n > LIMIT || n > LIMIT / unit || d + n * unit > LIMIT <==> d + n * unit > LIMIT
  {
    UnitsFit(n, unit);
  }

  lemma SpelledStarts(parts: seq<Part>)
    requires Known(parts)
    ensures Spelled(parts) == "" || IsDigit(Spelled(parts)[0])
    ensures parts != [] ==> |Spelled(parts)| > 1
  {
    if parts != [] {
      assert Spelled(parts)[0] == Numeral(parts[0].n)[0];
    }
  }

  lemma SpelledStep(parts: seq<Part>, d: nat)
    requires Known(parts) && parts != []
    ensures var v := parts[0].n * Nanoseconds(parts[0].k);
            Components(Spelled(parts), d) == if d + v <= LIMIT then Components(Spelled(parts[1..]), d + v) else None
  {
    hide Components, Numeral, Nanoseconds, DurationUnit, IsUnitText;
    var p := parts[0];
    DurationUnitIs(p.k);
    SpelledStarts(parts[1..]);
    FirstComponent(p.n, DURATION_UNITS[p.k], Nanoseconds(p.k), Spelled(parts[1..]), d);
  }

  lemma NothingSpelled(d: nat)
    ensures Components(Spelled([]), d) == Some(d)
  {
  }

  lemma {:induction false} ComponentsAddUp(parts: seq<Part>, d: nat)
    requires Known(parts) && d <= LIMIT
    ensures Components(Spelled(parts), d) == if d + Sum(parts) <= LIMIT then Some(d + Sum(parts)) else None
    decreases |parts|
  {
    hide Components, Spelled, Nanoseconds;
    if parts == [] {
      NothingSpelled(d);
    } else {
      SpelledStep(parts, d);
      var v := parts[0].n * Nanoseconds(parts[0].k);
      if d + v <= LIMIT {
        ComponentsAddUp(parts[1..], d + v);
      }
    }
  }

  /** A duration text without fractions means the sum of its parts, refused when that does not fit. */
  lemma DurationMeansTheSum(parts: seq<Part>)
    requires Known(parts) && parts != []
    ensures DurationOf(Spelled(parts)) == if Sum(parts) <= MAX64 then Some(Sum(parts)) else None
    ensures var v: int := Sum(parts);
            DurationOf("-" + Spelled(parts)) == if v <= LIMIT then Some(-v) else None
  {
    hide Components, Spelled, Sum, DurationOf;
    ComponentsAddUp(parts, 0);
    SpelledStarts(parts);
    Signs(Spelled(parts));
  }

  lemma Signs(s: string)
    requires |s| > 1 && IsDigit(s[0])
    ensures var d := Components(s, 0);
            DurationOf(s) == (if d.Some? && d.value <= MAX64 then Some(d.value) else None) &&
            DurationOf("-" + s) == (if d.Some? then var v: int := d.value; Some(-v) else None)
  {
    hide Components;
    var t := "-" + s;
    assert t[0] == '-' && t[1..] == s;
  }

  lemma OnePart(p: Part)
    requires p.k < 6
    ensures Spelled([p]) == Numeral(p.n) + DURATION_UNITS[p.k] && Sum([p]) == p.n * Nanoseconds(p.k)
  {
    hide Numeral, Nanoseconds;
    assert [p][1..] == [];
    assert Numeral(p.n) + DURATION_UNITS[p.k] + "" == Numeral(p.n) + DURATION_UNITS[p.k];
  }

  /** A positive duration is printed as one number of the largest unit that divides it. */
  lemma DurationPrintsInLargestUnit(d: int) returns (p: Part)
    requires 0 < d <= MAX64
    ensures p.k < 6 && Sum([p]) == d && FormatDuration(d) == Spelled([p])
    ensures p.k == 5 || p.n % (if p.k < 3 then 1000 else 60) != 0
  {
    NanosecondsAre();
    hide Numeral, Nanoseconds, Spelled, Sum;
    if d % HOUR == 0 {
      Exact(d, HOUR);
      p := Part(d / HOUR, 5);
    } else if d % MINUTE == 0 {
      NoLargerUnit(d, MINUTE, 60, HOUR);
      p := Part(d / MINUTE, 4);
    } else if d % SECOND == 0 {
      NoLargerUnit(d, SECOND, 60, MINUTE);
      p := Part(d / SECOND, 3);
    } else if d % MILLISECOND == 0 {
      NoLargerUnit(d, MILLISECOND, 1000, SECOND);
      p := Part(d / MILLISECOND, 2);
    } else if d % MICROSECOND == 0 {
      NoLargerUnit(d, MICROSECOND, 1000, MILLISECOND);
      p := Part(d / MICROSECOND, 1);
    } else {
      NoLargerUnit(d, 1, 1000, MICROSECOND);
      p := Part(d, 0);
    }
    OnePart(p);
  }
}
