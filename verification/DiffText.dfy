/** The text of a diff: paths as text, the order it gives the entries, and the lines for a reader. */
module DiffText {
  import opened Prelude
  import opened Decimal
  import opened JsonTree
  import opened Diff

  // ---------- paths as text ----------

  function Render(p: Path): string
    decreases |p|
  {
    if p == [] then ""
    else
      var parent := Render(p[..|p| - 1]);
      match p[|p| - 1]
      case Key(k) => if parent == "" then k else parent + "." + k
      case Index(i) => parent + "[" + Numeral(i) + "]"
  }

  predicate Stops(c: char) {
    c == '.' || c == '[' || c == ']'
  }

  predicate StopFree(s: string) {
    forall i :: 0 <= i < |s| ==> !Stops(s[i])
  }

  /** A path into an object whose keys are not empty and hold no dot and no bracket. */
  predicate Plain(p: Path) {
    (p != [] ==> p[0].Key?) && forall i :: 0 <= i < |p| && p[i].Key? ==> p[i].k != "" && StopFree(p[i].k)
  }

  function StepText(h: Step): string {
    match h
    case Key(k) => "." + k
    case Index(i) => "[" + Numeral(i) + "]"
  }

  /** The text of a path after its first key. */
  function Tail(p: Path): string {
    if p == [] then "" else StepText(p[0]) + Tail(p[1..])
  }

  lemma {:induction false} TailSnoc(p: Path, h: Step)
    ensures Tail(p + [h]) == Tail(p) + StepText(h)
    decreases |p|
  {
    hide StepText;
    if p == [] {
      assert p + [h] == [h] && [h][1..] == [];
    } else {
      assert (p + [h])[0] == p[0] && (p + [h])[1..] == p[1..] + [h];
      TailSnoc(p[1..], h);
    }
  }

  lemma RenderSnoc(p: Path, h: Step)
    requires Render(p) != ""
    ensures Render(p + [h]) == Render(p) + StepText(h)
  {
    assert (p + [h])[..|p|] == p;
    assert forall k :: Render(p) + "." + k == Render(p) + ("." + k);
    assert h.Index? ==> Render(p) + "[" + Numeral(h.i) + "]" == Render(p) + ("[" + Numeral(h.i) + "]");
  }

  lemma RenderOne(p: Path)
    requires |p| == 1 && p[0].Key?
    ensures Render(p) == p[0].k + Tail(p[1..])
  {
    assert p[..0] == [] && p[1..] == [];
    assert p[0].k + "" == p[0].k;
  }

  predicate Named(p: Path) {
    p != [] && p[0].Key? && p[0].k != ""
  }

  lemma {:induction false} RenderFromFront(p: Path)
    requires Named(p)
    ensures Render(p) == p[0].k + Tail(p[1..]) && Render(p) != ""
    decreases |p|
  {
    hide StepText, Render, Tail;
    if |p| == 1 {
      RenderOne(p);
    } else {
      var front, h := p[..|p| - 1], p[|p| - 1];
      assert front[1..] + [h] == p[1..] && front + [h] == p && front[0] == p[0];
      RenderFromFront(front);
      RenderSnoc(front, h);
      TailSnoc(front[1..], h);
      assert p[0].k + Tail(front[1..]) + StepText(h) == p[0].k + (Tail(front[1..]) + StepText(h));
    }
  }

  /** Position of the first separator, or the length when there is none. */
  function FirstStop(s: string): (n: nat)
    ensures n <= |s| && (n < |s| ==> Stops(s[n])) && forall i :: 0 <= i < n ==> !Stops(s[i])
  {
    if s == "" || Stops(s[0]) then 0 else 1 + FirstStop(s[1..])
  }

  lemma FirstStopAt(a: string, s: string)
    requires StopFree(a) && (s == "" || Stops(s[0]))
    ensures FirstStop(a + s) == |a|
  {
    assert forall i :: 0 <= i < |a| ==> (a + s)[i] == a[i];
    assert s != "" ==> (a + s)[|a|] == s[0];
  }

  lemma SplitAtStop(a: string, s: string, b: string, t: string)
    requires StopFree(a) && StopFree(b) && a + s == b + t
    requires (s == "" || Stops(s[0])) && (t == "" || Stops(t[0]))
    ensures a == b && s == t
  {
    FirstStopAt(a, s);
    FirstStopAt(b, t);
    assert a == (a + s)[..|a|] && b == (b + t)[..|b|];
    assert s == (a + s)[|a|..] && t == (b + t)[|b|..];
  }

  lemma NumeralHasNoStop(i: nat)
    ensures StopFree(Numeral(i))
  {
    assert forall k :: 0 <= k < |Numeral(i)| ==> IsDigit(Numeral(i)[k]);
  }

  predicate PlainKeys(p: Path) {
    forall i :: 0 <= i < |p| && p[i].Key? ==> StopFree(p[i].k)
  }

  lemma DropFirst(c: char, a: string, t: string)
    ensures [c] + a + t == [c] + (a + t) && ([c] + (a + t))[1..] == a + t
  {
  }

  lemma KeyTail(p: Path)
    requires p != [] && p[0].Key?
    ensures |Tail(p)| > 0 && Tail(p)[0] == '.' && Tail(p)[1..] == p[0].k + Tail(p[1..])
  {
    DropFirst('.', p[0].k, Tail(p[1..]));
  }

  lemma IndexTail(p: Path)
    requires p != [] && p[0].Index?
    ensures |Tail(p)| > 0 && Tail(p)[0] == '[' && Tail(p)[1..] == Numeral(p[0].i) + "]" + Tail(p[1..])
  {
    var n := Numeral(p[0].i);
    assert StepText(p[0]) == ['['] + (n + "]");
    DropFirst('[', n + "]", Tail(p[1..]));
  }

  lemma TailStops(p: Path)
    ensures Tail(p) == "" <==> p == []
    ensures p != [] ==> Stops(Tail(p)[0])
  {
  }

  lemma Regroup(n: string, t: string)
    ensures n + "]" + t == n + ("]" + t)
  {
  }

  lemma SameKey(p: Path, q: Path)
    requires p != [] && q != [] && p[0].Key? && q[0].Key? && StopFree(p[0].k) && StopFree(q[0].k)
    requires Tail(p) == Tail(q)
    ensures p[0] == q[0] && Tail(p[1..]) == Tail(q[1..])
  {
    TailStops(p[1..]);
    TailStops(q[1..]);
    KeyTail(p);
    KeyTail(q);
    hide Tail, StopFree;
    SplitAtStop(p[0].k, Tail(p[1..]), q[0].k, Tail(q[1..]));
  }

  lemma BracketedSame(i: nat, s: string, j: nat, t: string)
    requires Numeral(i) + ("]" + s) == Numeral(j) + ("]" + t)
    ensures i == j && s == t
  {
    NumeralHasNoStop(i);
    NumeralHasNoStop(j);
    hide Numeral, StopFree;
    SplitAtStop(Numeral(i), "]" + s, Numeral(j), "]" + t);
    assert ("]" + s)[1..] == s && ("]" + t)[1..] == t;
    NumeralInjective(i, j);
  }

  lemma SameIndex(p: Path, q: Path)
    requires p != [] && q != [] && p[0].Index? && q[0].Index? && Tail(p) == Tail(q)
    ensures p[0] == q[0] && Tail(p[1..]) == Tail(q[1..])
  {
    IndexTail(p);
    IndexTail(q);
    hide Tail, Numeral;
    Regroup(Numeral(p[0].i), Tail(p[1..]));
    Regroup(Numeral(q[0].i), Tail(q[1..]));
    BracketedSame(p[0].i, Tail(p[1..]), q[0].i, Tail(q[1..]));
  }

  lemma TailTellsKind(p: Path)
    requires p != []
    ensures Tail(p) != "" && (Tail(p)[0] == if p[0].Key? then '.' else '[')
  {
    if p[0].Key? {
      KeyTail(p);
    } else {
      IndexTail(p);
    }
  }

  lemma SameHead(p: Path, q: Path)
    requires p != [] && q != [] && Tail(p) == Tail(q)
    requires (p[0].Key? ==> StopFree(p[0].k)) && (q[0].Key? ==> StopFree(q[0].k))
    ensures p[0] == q[0] && Tail(p[1..]) == Tail(q[1..])
  {
    TailTellsKind(p);
    TailTellsKind(q);
    hide Tail, StopFree;
    if p[0].Key? {
      SameKey(p, q);
    } else {
      SameIndex(p, q);
    }
  }

  lemma {:induction false} TailInjective(p: Path, q: Path)
    requires PlainKeys(p) && PlainKeys(q) && Tail(p) == Tail(q)
    ensures p == q
    decreases |p|
  {
    TailStops(p);
    TailStops(q);
    hide Tail, StopFree, Stops;
    if p != [] {
      SameHead(p, q);
      TailInjective(p[1..], q[1..]);
      assert p == [p[0]] + p[1..] && q == [q[0]] + q[1..];
    }
  }

  lemma RenderInjective(p: Path, q: Path)
    requires Plain(p) && Plain(q) && Render(p) == Render(q)
    ensures p == q
  {
    if p != [] && q != [] {
      RenderFromFront(p);
      RenderFromFront(q);
      TailStops(p[1..]);
      TailStops(q[1..]);
      hide Tail, Render;
      SplitAtStop(p[0].k, Tail(p[1..]), q[0].k, Tail(q[1..]));
      TailInjective(p[1..], q[1..]);
      assert p == [p[0]] + p[1..] && q == [q[0]] + q[1..];
    } else if p != [] {
      RenderFromFront(p);
    } else if q != [] {
      RenderFromFront(q);
    }
  }

  // ---------- the texts of one diff ----------

  predicate PlainKey(k: string) {
    k != "" && StopFree(k)
  }

  predicate Open(t: Json) {
    t.Obj? || t.Arr?
  }

  /** An object may have keys that are not plain only when nothing is nested below it. */
  predicate TextSafe(t: Json) {
    match t
    case Arr(items) => forall i :: 0 <= i < |items| ==> TextSafe(items[i])
    case Obj(fields) =>
      (forall k :: k in fields ==> TextSafe(fields[k])) &&
      ((forall k :: k in fields ==> PlainKey(k)) || (forall k :: k in fields ==> !Open(fields[k])))
    case _ => true
  }

  /** Below a child that is open on both sides there is a change only if all keys beside it are plain. */
  lemma NestedMeansPlain(before: Json, after: Json, p: Path)
    requires TextSafe(before) && TextSafe(after) && before.Obj? && after.Obj? && |p| > 1
    requires ChangeAt(before, after, p).Some?
    ensures forall k :: k in before.fields || k in after.fields ==> PlainKey(k)
  {
    var b, a := Child(before, p[0]), Child(after, p[0]);
    assert b.Some? && a.Some? && p[1..] != [] && ChangeAt(b.value, a.value, p[1..]).Some?;
    assert Open(before.fields[p[0].k]) && Open(after.fields[p[0].k]);
  }

  lemma KeysAgree(before: Json, after: Json, p: Path, q: Path)
    requires TextSafe(before) && TextSafe(after) && before.Obj? && after.Obj?
    requires p != [] && q != [] && p[0].Key? && q[0].Key?
    requires p[0].k in before.fields || p[0].k in after.fields
    requires q[0].k in before.fields || q[0].k in after.fields
    requires ChangeAt(before, after, p).Some? && ChangeAt(before, after, q).Some? && Tail(p) == Tail(q)
    ensures p[0] == q[0]
  {
    hide ChangeAt, TextSafe;
    KeyTail(p);
    KeyTail(q);
    if |p| > 1 {
      NestedMeansPlain(before, after, p);
    } else if |q| > 1 {
      NestedMeansPlain(before, after, q);
    }
    if |p| == 1 && |q| == 1 {
      assert p[0].k + "" == p[0].k && q[0].k + "" == q[0].k;
    } else {
      TailStops(p[1..]);
      TailStops(q[1..]);
      SplitAtStop(p[0].k, Tail(p[1..]), q[0].k, Tail(q[1..]));
    }
  }

  lemma IndexesAgree(p: Path, q: Path)
    requires p != [] && q != [] && p[0].Index? && q[0].Index? && Tail(p) == Tail(q)
    ensures p[0] == q[0]
  {
    IndexTail(p);
    IndexTail(q);
    var s, t := Tail(p[1..]), Tail(q[1..]);
    hide Tail;
    Regroup(Numeral(p[0].i), s);
    Regroup(Numeral(q[0].i), t);
    NumeralHasNoStop(p[0].i);
    NumeralHasNoStop(q[0].i);
    SplitAtStop(Numeral(p[0].i), "]" + s, Numeral(q[0].i), "]" + t);
    NumeralInjective(p[0].i, q[0].i);
  }

  /** What a change below two open trees begins with. */
  lemma ChangeHead(before: Json, after: Json, p: Path)
    requires BothOpen(before, after) && ChangeAt(before, after, p).Some?
    ensures p != [] && (before.Obj? <==> p[0].Key?)
    ensures p[0].Key? ==> p[0].k in before.fields || p[0].k in after.fields
    ensures Child(before, p[0]).None? || Child(after, p[0]).None? ==> |p| == 1
    ensures Child(before, p[0]).Some? && Child(after, p[0]).Some? ==>
              ChangeAt(Child(before, p[0]).value, Child(after, p[0]).value, p[1..]).Some?
  {
  }

  lemma CancelFront(x: string, s: string, t: string)
    requires x + s == x + t
    ensures s == t
  {
    assert s == (x + s)[|x|..] && t == (x + t)[|x|..];
  }

  lemma ChildIsTextSafe(t: Json, h: Step)
    requires TextSafe(t) && Child(t, h).Some?
    ensures TextSafe(Child(t, h).value)
  {
  }

  lemma TailFront(p: Path)
    requires p != []
    ensures Tail(p) == StepText(p[0]) + Tail(p[1..])
  {
  }

  /** Two changes of one diff whose paths read the same are one change. */
  lemma {:induction false} SameTextSamePath(before: Json, after: Json, p: Path, q: Path)
    requires TextSafe(before) && TextSafe(after)
    requires ChangeAt(before, after, p).Some? && ChangeAt(before, after, q).Some? && Tail(p) == Tail(q)
    ensures p == q
    decreases |p|
  {
    hide ChangeAt, TextSafe, StepText, Child, Stops;
    TailStops(p);
    TailStops(q);
    if p != [] && q != [] {
      TailFront(p);
      TailFront(q);
      hide Tail;
      NestedIsOpen(before, after, p);
      ChangeHead(before, after, p);
      ChangeHead(before, after, q);
      if before.Obj? {
        KeysAgree(before, after, p, q);
      } else {
        IndexesAgree(p, q);
      }
      CancelFront(StepText(p[0]), Tail(p[1..]), Tail(q[1..]));
      if Child(before, p[0]).Some? && Child(after, p[0]).Some? {
        ChildIsTextSafe(before, p[0]);
        ChildIsTextSafe(after, p[0]);
        SameTextSamePath(Child(before, p[0]).value, Child(after, p[0]).value, p[1..], q[1..]);
      }
      assert p == [p[0]] + p[1..] && q == [q[0]] + q[1..];
    }
  }

  lemma NestedIsOpen(before: Json, after: Json, p: Path)
    requires p != [] && ChangeAt(before, after, p).Some?
    ensures BothOpen(before, after)
  {
  }

  lemma RenderIsTail(before: Json, after: Json, p: Path)
    requires TextSafe(before) && TextSafe(after) && before.Obj? && after.Obj? && ChangeAt(before, after, p).Some?
    ensures Tail(p) == "." + Render(p)
  {
    hide Render, Tail, TextSafe, ChangeAt, StopFree;
    ChangeHead(before, after, p);
    if |p| > 1 {
      NestedMeansPlain(before, after, p);
      RenderFromFront(p);
    } else {
      RenderOne(p);
    }
    KeyTail(p);
    assert Tail(p) == ['.'] + Tail(p)[1..];
  }

  /** The texts of a diff's entries differ, so sorting by them leaves one order. */
  lemma RenderedPathsDiffer(before: Json, after: Json, es: seq<Entry>, i: nat, j: nat)
    requires Lists(es, before, after, []) && i < j < |es|
    requires before.Obj? && after.Obj? && TextSafe(before) && TextSafe(after)
    ensures Render(es[i].path) != Render(es[j].path)
  {
    hide ChangeAt, TextSafe, Render, Tail;
    var p, q := es[i].path, es[j].path;
    assert es[i] in es && es[j] in es && p[0..] == p && q[0..] == q;
    RenderIsTail(before, after, p);
    RenderIsTail(before, after, q);
    if Render(p) == Render(q) {
      SameTextSamePath(before, after, p, q);
    }
  }

  /** A tree no configuration has: where a key with a dot sits beside a nested one, texts can collide. */
  lemma DottedKeysAreAmbiguous() returns (before: Json, after: Json, p: Path, q: Path)
    ensures before.Obj? && after.Obj? && p != q && Render(p) == Render(q)
    ensures ChangeAt(before, after, p).Some? && ChangeAt(before, after, q).Some?
  {
    var inner0, inner1 := Obj(map["b" := Null]), Obj(map["b" := Bool(true)]);
    before, after := Obj(map["a" := inner0, "a.b" := Null]), Obj(map["a" := inner1, "a.b" := Bool(true)]);
    p, q := [Key("a"), Key("b")], [Key("a.b")];
    assert p[..1] == [Key("a")] && q[..0] == [] && p[..1][..0] == [];
    assert Child(before, p[0]) == Some(inner0) && Child(after, p[0]) == Some(inner1);
    assert inner0.fields["b"] != inner1.fields["b"];
    assert p[1..] == [Key("b")] && inner0 != inner1;
    assert Child(inner0, Key("b")) == Some(Null) && Child(inner1, Key("b")) == Some(Bool(true));
    assert ChangeAt(inner0, inner1, p[1..]).Some?;
    assert before.fields["a.b"] != after.fields["a.b"];
    assert Child(before, q[0]) == Some(Null) && Child(after, q[0]) == Some(Bool(true));
    assert Render([Key("a")]) == "a";
    assert Render(p) == "a" + "." + "b";
  }

  // ---------- the trees of configurations ----------

  predicate PlainTree(t: Json) {
    match t
    case Arr(items) => forall i :: 0 <= i < |items| ==> PlainTree(items[i])
    case Obj(fields) => forall k :: k in fields ==> PlainKey(k) && PlainTree(fields[k])
    case _ => true
  }

  /** The one place with keys of the user's choosing: labels, each of them text. */
  predicate LabelsTree(t: Json) {
    t.Obj? && forall k :: k in t.fields ==> t.fields[k].Str?
  }

  predicate MetadataTree(t: Json) {
    t.Obj? && forall k :: k in t.fields ==>
                PlainKey(k) && if k == "labels" then LabelsTree(t.fields[k]) else PlainTree(t.fields[k])
  }

  /** A configuration's tree: field names everywhere but in metadata.labels. */
  predicate StateTree(t: Json) {
    t.Obj? && forall k :: k in t.fields ==>
                PlainKey(k) && if k == "metadata" then MetadataTree(t.fields[k]) else PlainTree(t.fields[k])
  }

  lemma {:induction false} PlainIsTextSafe(t: Json)
    requires PlainTree(t)
    ensures TextSafe(t)
  {
    match t
    case Arr(items) => forall i | 0 <= i < |items| ensures TextSafe(items[i]) { PlainIsTextSafe(items[i]); }
    case Obj(fields) => forall k | k in fields ensures TextSafe(fields[k]) { PlainIsTextSafe(fields[k]); }
    case _ =>
  }

  lemma StateIsTextSafe(t: Json)
    requires StateTree(t)
    ensures TextSafe(t)
  {
    forall k | k in t.fields && k != "metadata"
      ensures TextSafe(t.fields[k])
    {
      PlainIsTextSafe(t.fields[k]);
    }
    if "metadata" in t.fields {
      MetadataIsTextSafe(t.fields["metadata"]);
    }
  }

  lemma MetadataIsTextSafe(t: Json)
    requires MetadataTree(t)
    ensures TextSafe(t)
  {
    forall k | k in t.fields
      ensures TextSafe(t.fields[k])
    {
      if k == "labels" {
        assert forall l :: l in t.fields[k].fields ==> TextSafe(t.fields[k].fields[l]);
      } else {
        PlainIsTextSafe(t.fields[k]);
      }
    }
  }

  /** The tree of a configuration; none at all counts as an empty object. */
  function TreeOf(state: Option<Json>): Json {
    if state.Some? then state.value else Obj(map[])
  }

  // ---------- sorting by text ----------

  /** The order of Go's strings: by the first character that differs. */
  predicate TextLess(s: string, t: string) {
    t != "" && (s == "" || s[0] < t[0] || (s[0] == t[0] && TextLess(s[1..], t[1..])))
  }

  lemma {:induction false} TextLessIsTotal(s: string, t: string)
    ensures s == t || TextLess(s, t) || TextLess(t, s)
    ensures !(TextLess(s, t) && (s == t || TextLess(t, s)))
    decreases |s|
  {
    if s != "" && t != "" && s[0] == t[0] {
      TextLessIsTotal(s[1..], t[1..]);
      assert s == [s[0]] + s[1..] && t == [t[0]] + t[1..];
    }
  }

  lemma {:induction false} TextLessIsTransitive(s: string, t: string, u: string)
    requires TextLess(s, t) && TextLess(t, u)
    ensures TextLess(s, u)
    decreases |s|
  {
    if s != "" && s[0] == t[0] == u[0] {
      TextLessIsTransitive(s[1..], t[1..], u[1..]);
    }
  }

  /** A text comes before what extends it, and otherwise the first difference decides. */
  lemma {:induction false} FirstDifferenceDecides(p: string, a: char, s: string, b: char, t: string)
    ensures TextLess(p, p + [b] + t) && !TextLess(p + [b] + t, p)
    ensures a != b ==> (TextLess(p + [a] + s, p + [b] + t) <==> a < b)
    decreases |p|
  {
    var x, y := p + [a] + s, p + [b] + t;
    if p != "" {
      assert x[0] == y[0] == p[0] && x[1..] == p[1..] + [a] + s && y[1..] == p[1..] + [b] + t;
      FirstDifferenceDecides(p[1..], a, s, b, t);
    } else {
      assert x[0] == a && y[0] == b;
    }
  }

  ghost predicate SortedByText(es: seq<Entry>) {
    forall i, j :: 0 <= i < j < |es| ==> !TextLess(Render(es[j].path), Render(es[i].path))
  }

  /** Where an entry goes: after every entry whose text is not greater. */
  function TextPosition(es: seq<Entry>, text: string): (p: nat)
    ensures p <= |es| && (p < |es| ==> TextLess(text, Render(es[p].path)))
    ensures forall i :: 0 <= i < p ==> !TextLess(text, Render(es[i].path))
  {
    if es == [] || TextLess(text, Render(es[0].path)) then 0 else 1 + TextPosition(es[1..], text)
  }

  lemma InsertedStaysSorted(es: seq<Entry>, e: Entry)
    requires SortedByText(es)
    ensures var p := TextPosition(es, Render(e.path)); SortedByText(es[..p] + [e] + es[p..])
  {
    hide Render, TextLess;
    var text := Render(e.path);
    var p := TextPosition(es, text);
    forall j | p <= j < |es|
      ensures !TextLess(Render(es[j].path), text)
    {
      var at, far := Render(es[p].path), Render(es[j].path);
      TextLessIsTotal(text, far);
      TextLessIsTotal(at, far);
      if TextLess(at, far) {
        TextLessIsTransitive(text, at, far);
      }
    }
  }

  lemma InsertedCounts(es: seq<Entry>, e: Entry, p: nat)
    requires p <= |es|
    ensures multiset(es[..p] + [e] + es[p..]) == multiset(es) + multiset{e}
  {
    assert es == es[..p] + es[p..];
  }

  lemma EmptyIsSorted()
    ensures SortedByText([])
  {
  }

  /** Any sort by text will do; this one inserts. */
  method SortByText(es: seq<Entry>) returns (out: seq<Entry>)
    ensures SortedByText(out) && multiset(out) == multiset(es)
  {
    hide Render, TextLess, SortedByText;
    EmptyIsSorted();
    out := [];
    for i := 0 to |es|
      invariant SortedByText(out) && multiset(out) == multiset(es[..i])
    {
      var p := TextPosition(out, Render(es[i].path));
      InsertedStaysSorted(out, es[i]);
      InsertedCounts(out, es[i], p);
      assert es[..i + 1] == es[..i] + [es[i]];
      out := out[..p] + [es[i]] + out[p..];
    }
    assert es[..|es|] == es;
  }

  lemma OnlyOnce(es: seq<Entry>, e: Entry)
    requires Distinct(es)
    ensures multiset(es)[e] <= 1
  {
    if e in es {
      var k :| 0 <= k < |es| && es[k] == e;
      var a, b := es[..k], es[k + 1..];
      assert es == a + [e] + b;
      assert e !in a && e !in b;
    }
  }

  lemma TwiceCounts(fs: seq<Entry>, i: nat, j: nat)
    requires i < j < |fs| && fs[i] == fs[j]
    ensures multiset(fs)[fs[i]] >= 2
  {
    assert fs == fs[..j] + fs[j..];
    assert fs[..j][i] == fs[i] && fs[j..][0] == fs[j];
  }

  lemma PathsOnce(es: seq<Entry>, fs: seq<Entry>)
    requires Distinct(es) && multiset(es) == multiset(fs)
    ensures Distinct(fs)
  {
    forall i, j | 0 <= i < j < |fs|
      ensures fs[i].path != fs[j].path
    {
      assert fs[i] in multiset(es) && fs[j] in multiset(es);
      if fs[i].path == fs[j].path {
        assert fs[i] == fs[j];
        TwiceCounts(fs, i, j);
        OnlyOnce(es, fs[i]);
      }
    }
  }

  /** Reordering a diff leaves it the same diff. */
  lemma ReorderedDiff(es: seq<Entry>, fs: seq<Entry>, before: Json, after: Json)
    requires Lists(es, before, after, []) && multiset(es) == multiset(fs)
    ensures Lists(fs, before, after, []) && SameEntries(es, fs)
  {
    hide ChangeAt;
    forall e
      ensures e in es <==> e in fs
    {
      assert e in multiset(es) <==> e in multiset(fs);
    }
    forall p | HasPath(es, p)
      ensures HasPath(fs, p)
    {
      var e :| e in es && e.path == p;
      assert e in fs;
    }
    PathsOnce(es, fs);
  }

  ghost predicate Ascending(es: seq<Entry>) {
    forall i, j :: 0 <= i < j < |es| ==> TextLess(Render(es[i].path), Render(es[j].path))
  }

  lemma SortedDiffAscends(before: Json, after: Json, es: seq<Entry>)
    requires Lists(es, before, after, []) && SortedByText(es) && StateTree(before) && StateTree(after)
    ensures Ascending(es)
  {
    hide Lists, Render, TextLess, TextSafe, StateTree;
    StateIsTextSafe(before);
    StateIsTextSafe(after);
    forall i, j | 0 <= i < j < |es|
      ensures TextLess(Render(es[i].path), Render(es[j].path))
    {
      StateIsObject(before);
      StateIsObject(after);
      RenderedPathsDiffer(before, after, es, i, j);
      TextLessIsTotal(Render(es[i].path), Render(es[j].path));
    }
  }

  lemma StateIsObject(t: Json)
    requires StateTree(t)
    ensures t.Obj?
  {
  }

  lemma FirstIsLeast(es: seq<Entry>, e: Entry)
    requires Ascending(es) && e in es
    ensures es[0] == e || TextLess(Render(es[0].path), Render(e.path))
  {
  }

  lemma HasOne(es: seq<Entry>)
    requires es != []
    ensures exists e :: e in es
  {
    assert es[0] in es;
  }

  /** Two ascending lists of the same entries are one list. */
  lemma {:induction false} AscendingIsUnique(es: seq<Entry>, fs: seq<Entry>)
    requires Ascending(es) && Ascending(fs) && SameEntries(es, fs)
    ensures es == fs
    decreases |es|
  {
    hide Render, TextLess;
    if es == [] {
      if fs != [] {
        HasOne(fs);
      }
    } else {
      assert es[0] in fs;
      assert fs[0] in es;
      FirstIsLeast(es, fs[0]);
      FirstIsLeast(fs, es[0]);
      TextLessIsTotal(Render(es[0].path), Render(fs[0].path));
      RestIsSame(es, fs);
      AscendingIsUnique(es[1..], fs[1..]);
      assert es == [es[0]] + es[1..] && fs == [fs[0]] + fs[1..];
    }
  }

  lemma RestIsSame(es: seq<Entry>, fs: seq<Entry>)
    requires Ascending(es) && Ascending(fs) && SameEntries(es, fs) && es != [] && fs != [] && es[0] == fs[0]
    ensures Ascending(es[1..]) && Ascending(fs[1..]) && SameEntries(es[1..], fs[1..])
  {
    hide Render, TextLess;
    NotInRest(es);
    NotInRest(fs);
    forall e
      ensures e in es[1..] <==> e in fs[1..]
    {
      assert es == [es[0]] + es[1..] && fs == [fs[0]] + fs[1..];
      assert e in es <==> e in fs;
    }
  }

  lemma NotInRest(es: seq<Entry>)
    requires Ascending(es) && es != []
    ensures es[0] !in es[1..]
  {
    hide Render, TextLess;
    forall k | 0 <= k < |es[1..]|
      ensures es[1..][k] != es[0]
    {
      assert es[1..][k] == es[k + 1];
      TextLessIsTotal(Render(es[0].path), Render(es[k + 1].path));
    }
  }

  /** The diff of two configurations is one list: no other sorted listing of it exists. */
  lemma SortedDiffIsDetermined(before: Json, after: Json, es: seq<Entry>, fs: seq<Entry>)
    requires StateTree(before) && StateTree(after) && SortedByText(es) && SortedByText(fs)
    requires Lists(es, before, after, []) && Lists(fs, before, after, [])
    ensures es == fs
  {
    hide Lists, StateTree, SortedByText, Ascending;
    SortedDiffAscends(before, after, es);
    SortedDiffAscends(before, after, fs);
    SameDiffSameEntries(before, after, es, fs);
    SameDiffSameEntries(before, after, fs, es);
    AscendingIsUnique(es, fs);
  }

  lemma SameDiffSameEntries(before: Json, after: Json, es: seq<Entry>, fs: seq<Entry>)
    requires Lists(es, before, after, []) && Lists(fs, before, after, [])
    ensures forall e :: e in es ==> e in fs
  {
    hide ChangeAt;
    forall e | e in es
      ensures e in fs
    {
      assert e.path[0..] == e.path && [] + e.path == e.path;
      assert HasPath(fs, [] + e.path);
      var f :| f in fs && f.path == e.path;
      assert f.path[0..] == f.path;
    }
  }

  // ---------- the whole diff ----------

  function OpName(c: Change): string {
    match c
    case Add(_) => "add"
    case Remove(_) => "remove"
    case Replace(_, _) => "replace"
  }

  /** One line for each entry. */
  function HumanText(es: seq<Entry>): string {
    if es == [] then ""
    else
      var e := es[|es| - 1];
      HumanText(es[..|es| - 1]) + OpName(e.change) + " " + Render(e.path) + "\n"
  }

  /** The lines of two listings in a row are those of the first and then those of the second. */
  lemma {:induction false} HumanTextConcat(es: seq<Entry>, fs: seq<Entry>)
    ensures HumanText(es + fs) == HumanText(es) + HumanText(fs)
    decreases |fs|
  {
    hide OpName, Render;
    if fs == [] {
      assert es + fs == es;
    } else {
      var front, e := fs[..|fs| - 1], fs[|fs| - 1];
      assert (es + fs)[..|es + fs| - 1] == es + front;
      HumanTextConcat(es, front);
      var line := OpName(e.change) + " " + Render(e.path) + "\n";
      assert HumanText(fs) == HumanText(front) + line;
      assert HumanText(es + fs) == HumanText(es + front) + line;
    }
  }

  /** Each entry has one line, in the order of the entries: what happened, a blank, and the path. */
  lemma OneLineEach(before: seq<Entry>, e: Entry, after: seq<Entry>)
    ensures HumanText(before + [e] + after) == HumanText(before) + LineOf(e) + HumanText(after)
  {
    OneLine(e);
    hide HumanText, LineOf;
    HumanTextConcat(before, [e]);
    HumanTextConcat(before + [e], after);
  }

  function LineOf(e: Entry): string {
    (if e.change.Add? then "add " else if e.change.Remove? then "remove " else "replace ") + Render(e.path) + "\n"
  }

  lemma OneLine(e: Entry)
    ensures HumanText([e]) == LineOf(e)
  {
    hide Render;
    assert HumanText([e][..0]) == "";
    assert "add" + " " == "add " && "remove" + " " == "remove " && "replace" + " " == "replace ";
    assert "" + OpName(e.change) == OpName(e.change);
  }

  /** Keys are joined by dots, and an index stands in brackets. */
  lemma ExamplePath()
    ensures Render([Key("smtp"), Key("hideExtensions"), Index(1)]) == "smtp.hideExtensions[1]"
  {
    var p := [Key("smtp"), Key("hideExtensions"), Index(1)];
    assert p[..2] == [Key("smtp"), Key("hideExtensions")] && p[..2][..1] == [Key("smtp")] && p[..1][..0] == [];
    assert Render(p[..1]) == "smtp" && Render(p[..2]) == "smtp.hideExtensions";
    assert Numeral(1) == "1";
  }

  /** The sorted diff and its lines: with SortedDiffIsDetermined, a function of the two configurations. */
  method DiffStates(before: Option<Json>, after: Option<Json>) returns (es: seq<Entry>, human: string)
    ensures Lists(es, TreeOf(before), TreeOf(after), []) && SortedByText(es)
    ensures es == [] <==> TreeOf(before) == TreeOf(after)
    ensures human == HumanText(es)
  {
    hide Lists, SortedByText, Render;
    var c := new Collector();
    ghost var all := c.Walk(TreeOf(before), TreeOf(after), []);
    assert c.out == all;
    es := SortByText(c.out);
    ReorderedDiff(all, es, TreeOf(before), TreeOf(after));
    EmptyDiffMeansEqual(TreeOf(before), TreeOf(after), es);
    human := FormatHumanDiff(es);
  }

  method FormatHumanDiff(es: seq<Entry>) returns (text: string)
    ensures text == HumanText(es)
  {
    text := "";
    for i := 0 to |es|
      invariant text == HumanText(es[..i])
    {
      assert es[..i + 1][..i] == es[..i];
      text := text + OpName(es[i].change) + " " + Render(es[i].path) + "\n";
    }
    assert es[..|es|] == es;
  }
}
