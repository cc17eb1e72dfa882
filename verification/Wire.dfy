/**
 * Whole trees between numbers and their text: each pass rewrites the values of one kind of key and
 * visits the rest. The program rewrites the maps in place; here a pass returns the tree it leaves.
 */
module Wire {
  import opened Prelude
  import opened JsonTree
  import opened Units

  datatype Kind = Durations | Sizes

  const DURATION_FIELDS := {"sessionTimeout", "commandIdle", "dataIdle", "maxWait", "greetingDelay", "commandDelay"}
  const SIZE_FIELDS := {"maxMessageBytes", "maxInFlightDataBytes", "maxBytes", "spillThreshold", "bodyLimit"}

  predicate IsField(kind: Kind, k: string) {
    k in if kind.Durations? then DURATION_FIELDS else SIZE_FIELDS
  }

  /** The 64-bit integer a value holds, if it holds one. */
  function Int64Of(t: Json): Option<int> {
    if t.Num? && t.number.Whole? && Fits64(t.number.n) then Some(t.number.n) else None
  }

  /** The one integer a printer cannot print. */
  predicate Prints(kind: Kind, n: int) {
    Fits64(n) && (kind.Durations? ==> n != MIN64)
  }

  function Print(kind: Kind, n: int): string
    requires Prints(kind, n)
  {
    if kind.Durations? then FormatDuration(n) else FormatByteSize(n)
  }

  function Read(kind: Kind, s: string): Option<int> {
    if kind.Durations? then DurationOf(s)
    else
      var r := SizeOf(s);
      if r.Ok? then Some(r.value) else None
  }

  // ---------- numbers to text ----------

  /** No field of the kind, at any depth, holds the integer its printer cannot print. */
  predicate Printable(kind: Kind, t: Json) {
    match t
    case Obj(fields) =>
      forall k :: k in fields ==>
        Printable(kind, fields[k]) &&
        (IsField(kind, k) && Int64Of(fields[k]).Some? ==> Prints(kind, Int64Of(fields[k]).value))
    case Arr(items) => forall i :: 0 <= i < |items| ==> Printable(kind, items[i])
    case _ => true
  }

  /** Goes into the values of its own keys too. */
  function Format(kind: Kind, t: Json): Json
    requires Printable(kind, t)
  {
    match t
    case Obj(fields) =>
      Obj(map k | k in fields ::
            if IsField(kind, k) && Int64Of(fields[k]).Some? then Str(Print(kind, Int64Of(fields[k]).value))
            else Format(kind, fields[k]))
    case Arr(items) => Arr(seq(|items|, i requires 0 <= i < |items| => Format(kind, items[i])))
    case _ => t
  }

  // ---------- text to numbers ----------

  /** A value under one of the kind's own keys; `ok` when no violation is reported for it. */
  function Coerced(kind: Kind, c: Json): (Json, bool) {
    match c
    case Null => (Null, true)
    case Str(s) =>
      var n := Read(kind, s);
      if n.Some? then (Num(Whole(n.value)), true) else (c, false)
    case _ => (c, kind.Durations? && c == Num(Whole(0)))
  }

  /** Under a key of its kind: null and text that parses are taken, and of bare numbers only a duration's zero. */
  lemma FieldsTaken(kind: Kind, c: Json)
    ensures Coerced(kind, c).1 <==>
            c.Null? || (c.Str? && Read(kind, c.s).Some?) || (kind.Durations? && c == Num(Whole(0)))
    ensures Coerced(kind, c).1 ==> Coerced(kind, c).0.Null? || Int64Of(Coerced(kind, c).0).Some?
    ensures !Coerced(kind, c).1 ==> Coerced(kind, c).0 == c
  {
    if c.Str? {
      ReadFits(kind, c.s);
    }
    hide Read;
  }

  lemma ReadFits(kind: Kind, s: string)
    ensures Read(kind, s).Some? ==> Fits64(Read(kind, s).value)
  {
    if kind.Durations? {
      DurationFits(s);
    } else {
      var digits, unit := EveryTextSplits(s);
      SizeAcceptedIffFits(s, digits, unit);
    }
    hide SizeOf, DurationOf;
  }

  /** Does not go into the values of its own keys. */
  function Coerce(kind: Kind, t: Json): Json {
    match t
    case Obj(fields) =>
      Obj(map k | k in fields :: if IsField(kind, k) then Coerced(kind, fields[k]).0 else Coerce(kind, fields[k]))
    case Arr(items) => Arr(seq(|items|, i requires 0 <= i < |items| => Coerce(kind, items[i])))
    case _ => t
  }

  /** No violation anywhere. */
  predicate Accepted(kind: Kind, t: Json) {
    match t
    case Obj(fields) =>
      forall k :: k in fields ==> if IsField(kind, k) then Coerced(kind, fields[k]).1 else Accepted(kind, fields[k])
    case Arr(items) => forall i :: 0 <= i < |items| ==> Accepted(kind, items[i])
    case _ => true
  }

  // ---------- both passes ----------

  function FormatWireTree(t: Json): Json
    requires Printable(Durations, t)
  {
    AlwaysPrintable(Format(Durations, t));
    Format(Sizes, Format(Durations, t))
  }

  function CoerceWireTree(t: Json): (Json, bool) {
    var d := Coerce(Durations, t);
    (Coerce(Sizes, d), Accepted(Durations, t) && Accepted(Sizes, d))
  }

  lemma {:induction false} AlwaysPrintable(t: Json)
    ensures Printable(Sizes, t)
  {
    match t
    case Obj(fields) => forall k | k in fields ensures Printable(Sizes, fields[k]) { AlwaysPrintable(fields[k]); }
    case Arr(items) => forall i | 0 <= i < |items| ensures Printable(Sizes, items[i]) { AlwaysPrintable(items[i]); }
    case _ =>
  }

  /** Null, or an integer that survives being printed and parsed. */
  predicate Survives(kind: Kind, c: Json) {
    c == Null || (Int64Of(c).Some? && if kind.Durations? then Int64Of(c).value != MIN64 else Int64Of(c).value >= 0)
  }

  /** Every size and duration key outside the values of other such keys holds a value that survives. */
  predicate Regular(t: Json) {
    match t
    case Obj(fields) =>
      forall k :: k in fields ==>
        if IsField(Durations, k) then Survives(Durations, fields[k])
        else if IsField(Sizes, k) then Survives(Sizes, fields[k])
        else Regular(fields[k])
    case Arr(items) => forall i :: 0 <= i < |items| ==> Regular(items[i])
    case _ => true
  }

  lemma ReadPrinted(kind: Kind, n: int)
    requires Prints(kind, n)
    ensures Read(kind, Print(kind, n)) == Some(n) <==> Survives(kind, Num(Whole(n)))
    ensures !Survives(kind, Num(Whole(n))) ==> Read(kind, Print(kind, n)).None?
  {
    if kind.Durations? {
      DurationRoundTrip(n);
    } else {
      SizeRoundTrip(n);
    }
  }

  /** What the four passes make of the value of a duration key, and of a size key. */
  lemma DurationFieldRoundTrip(c: Json)
    requires Printable(Durations, c) && (Int64Of(c).Some? ==> Prints(Durations, Int64Of(c).value))
    ensures var d := if Int64Of(c).Some? then Str(Print(Durations, Int64Of(c).value)) else Format(Durations, c);
            Printable(Sizes, d) &&
            var r := Coerced(Durations, Format(Sizes, d));
            (r.1 && Accepted(Sizes, r.0) && Coerce(Sizes, r.0) == c <==> Survives(Durations, c))
  {
    hide Read, Print;
    var d := if Int64Of(c).Some? then Str(Print(Durations, Int64Of(c).value)) else Format(Durations, c);
    AlwaysPrintable(d);
    if Int64Of(c).Some? {
      ReadPrinted(Durations, Int64Of(c).value);
    }
  }

  lemma SizeFieldRoundTrip(c: Json)
    requires Printable(Durations, c)
    ensures var d := Format(Durations, c);
            Printable(Sizes, d) &&
            var f := if Int64Of(d).Some? then Str(Print(Sizes, Int64Of(d).value)) else Format(Sizes, d);
            var r := Coerced(Sizes, Coerce(Durations, f));
            (Accepted(Durations, f) && r.1 && r.0 == c <==> Survives(Sizes, c))
  {
    hide Read, Print;
    AlwaysPrintable(Format(Durations, c));
    if Int64Of(c).Some? {
      ReadPrinted(Sizes, Int64Of(c).value);
    }
  }

  /** One value on its way: as printed by each pass, then as parsed by each. */
  datatype Journey = Journey(d: Json, f: Json, b: Json, r: Json)

  function Travel(t: Json): Journey
    requires Printable(Durations, t)
  {
    var d := Format(Durations, t);
    AlwaysPrintable(d);
    var f := Format(Sizes, d);
    var b := Coerce(Durations, f);
    Journey(d, f, b, Coerce(Sizes, b))
  }

  ghost predicate ComesBack(t: Json)
    requires Printable(Durations, t)
  {
    var j := Travel(t);
    Accepted(Durations, j.f) && Accepted(Sizes, j.b) && j.r == t
  }

  /** The same for the value of key `k`, by the rules for that key. */
  function TravelUnder(k: string, c: Json): Journey
    requires Printable(Durations, c)
    requires IsField(Durations, k) && Int64Of(c).Some? ==> Prints(Durations, Int64Of(c).value)
  {
    var d := if IsField(Durations, k) && Int64Of(c).Some? then Str(Print(Durations, Int64Of(c).value))
             else Format(Durations, c);
    AlwaysPrintable(d);
    var f := if IsField(Sizes, k) && Int64Of(d).Some? then Str(Print(Sizes, Int64Of(d).value)) else Format(Sizes, d);
    var b := if IsField(Durations, k) then Coerced(Durations, f).0 else Coerce(Durations, f);
    Journey(d, f, b, if IsField(Sizes, k) then Coerced(Sizes, b).0 else Coerce(Sizes, b))
  }

  /** The pass takes the value found under the key. */
  ghost predicate TakenUnder(kind: Kind, k: string, c: Json) {
    if IsField(kind, k) then Coerced(kind, c).1 else Accepted(kind, c)
  }

  ghost predicate ComesBackUnder(k: string, c: Json)
    requires Printable(Durations, c)
    requires IsField(Durations, k) && Int64Of(c).Some? ==> Prints(Durations, Int64Of(c).value)
  {
    var j := TravelUnder(k, c);
    TakenUnder(Durations, k, j.f) && TakenUnder(Sizes, k, j.b) && j.r == c
  }

  lemma FormatObject(kind: Kind, fields: map<string, Json>)
    requires Printable(kind, Obj(fields))
    ensures var o := Format(kind, Obj(fields));
            o.Obj? && o.fields.Keys == fields.Keys &&
            forall k :: k in fields ==>
              o.fields[k] == if IsField(kind, k) && Int64Of(fields[k]).Some?
                             then Str(Print(kind, Int64Of(fields[k]).value)) else Format(kind, fields[k])
  {
  }

  lemma CoerceObject(kind: Kind, fields: map<string, Json>)
    ensures var o := Coerce(kind, Obj(fields));
            o.Obj? && o.fields.Keys == fields.Keys &&
            forall k :: k in fields ==>
              o.fields[k] == if IsField(kind, k) then Coerced(kind, fields[k]).0 else Coerce(kind, fields[k])
    ensures Accepted(kind, Obj(fields)) <==>
            forall k :: k in fields ==> TakenUnder(kind, k, fields[k])
  {
  }

  lemma ObjectStops(fields: map<string, Json>)
    requires Printable(Durations, Obj(fields))
    ensures var j := Travel(Obj(fields));
            j.d.Obj? && j.f.Obj? && j.b.Obj? && j.r.Obj? &&
            j.d.fields.Keys == j.f.fields.Keys == j.b.fields.Keys == j.r.fields.Keys == fields.Keys &&
            forall k :: k in fields ==>
              Journey(j.d.fields[k], j.f.fields[k], j.b.fields[k], j.r.fields[k]) == TravelUnder(k, fields[k])
  {
    var j := Travel(Obj(fields));
    FormatObject(Durations, fields);
    AlwaysPrintable(j.d);
    FormatObject(Sizes, j.d.fields);
    CoerceObject(Durations, j.f.fields);
    CoerceObject(Sizes, j.b.fields);
    hide Coerced, Print, Int64Of, Format, Coerce, IsField;
  }

  lemma ObjectTravels(fields: map<string, Json>)
    requires Printable(Durations, Obj(fields))
    ensures ComesBack(Obj(fields)) <==> forall k :: k in fields ==> ComesBackUnder(k, fields[k])
  {
    hide Travel, TravelUnder, TakenUnder, Accepted, Coerce, Prints, Format;
    ObjectStops(fields);
    var j := Travel(Obj(fields));
    CoerceObject(Durations, j.f.fields);
    CoerceObject(Sizes, j.b.fields);
    forall k | k in fields && ComesBack(Obj(fields))
      ensures ComesBackUnder(k, fields[k])
    {
      assert j.r.fields[k] == fields[k];
    }
    if forall k :: k in fields ==> ComesBackUnder(k, fields[k]) {
      forall k | k in fields
        ensures j.r.fields[k] == fields[k] && TakenUnder(Durations, k, j.f.fields[k]) &&
                TakenUnder(Sizes, k, j.b.fields[k])
      {
        assert ComesBackUnder(k, fields[k]);
      }
      assert j.r.fields == fields;
    }
  }

  lemma ArrayTravels(items: seq<Json>)
    requires Printable(Durations, Arr(items))
    ensures ComesBack(Arr(items)) <==> forall i :: 0 <= i < |items| ==> ComesBack(items[i])
  {
    hide Coerced, Print, Int64Of;
    var j := Travel(Arr(items));
    forall i | 0 <= i < |items|
      ensures j.f.items[i] == Travel(items[i]).f && j.b.items[i] == Travel(items[i]).b
      ensures j.r.items[i] == Travel(items[i]).r
    {
    }
    assert j.r == Arr(items) <==> forall i :: 0 <= i < |items| ==> j.r.items[i] == items[i];
  }

  lemma FieldRoundTrip(k: string, c: Json)
    requires Printable(Durations, c) && (IsField(Durations, k) || IsField(Sizes, k))
    requires IsField(Durations, k) && Int64Of(c).Some? ==> Prints(Durations, Int64Of(c).value)
    ensures ComesBackUnder(k, c) <==> Survives(if IsField(Durations, k) then Durations else Sizes, c)
  {
    hide Coerced, Print, Int64Of, Format, Coerce, Accepted, Survives;
    if IsField(Durations, k) {
      DurationFieldRoundTrip(c);
    } else {
      SizeFieldRoundTrip(c);
    }
  }

  lemma {:induction false} TreeRoundTrip(t: Json)
    requires Printable(Durations, t)
    ensures ComesBack(t) <==> Regular(t)
  {
    hide ComesBackUnder, ComesBack, Survives, Coerced;
    match t
    case Obj(fields) =>
      ObjectTravels(fields);
      forall k | k in fields
        ensures ComesBackUnder(k, fields[k]) <==>
                if IsField(Durations, k) then Survives(Durations, fields[k])
                else if IsField(Sizes, k) then Survives(Sizes, fields[k])
                else Regular(fields[k])
      {
        if IsField(Durations, k) || IsField(Sizes, k) {
          FieldRoundTrip(k, fields[k]);
        } else {
          TreeRoundTrip(fields[k]);
          PlainKeyTravels(k, fields[k]);
        }
      }
    case Arr(items) =>
      ArrayTravels(items);
      forall i | 0 <= i < |items|
        ensures ComesBack(items[i]) <==> Regular(items[i])
      {
        TreeRoundTrip(items[i]);
      }
    case _ => LeafTravels(t);
  }

  lemma PlainKeyTravels(k: string, c: Json)
    requires Printable(Durations, c) && !IsField(Durations, k) && !IsField(Sizes, k)
    ensures ComesBackUnder(k, c) <==> ComesBack(c)
  {
    hide Format, Coerce, Accepted;
  }

  lemma LeafTravels(t: Json)
    requires !t.Obj? && !t.Arr?
    ensures ComesBack(t)
  {
  }

  /**
   * Parsing undoes printing on a whole tree exactly when every size key holds null or a non-negative
   * 64-bit integer and every duration key null or a 64-bit integer (which the printer's domain keeps
   * above the minimum).
   */
  lemma WireRoundTrip(t: Json)
    requires Printable(Durations, t)
    ensures CoerceWireTree(FormatWireTree(t)) == (t, true) <==> Regular(t)
  {
    TreeRoundTrip(t);
    hide Format, Coerce, Accepted, Regular;
  }
}
