/** The structural diff of two configurations, as JSON trees. */
module Diff {
  import opened Prelude
  import opened Decimal
  import opened JsonTree

  datatype Change = Add(added: Json) | Remove(removed: Json) | Replace(before: Json, after: Json)

  datatype Entry = Entry(path: Path, change: Change)

  // ---------- which change the diff has at a path ----------

  predicate BothOpen(before: Json, after: Json) {
    (before.Obj? && after.Obj?) || (before.Arr? && after.Arr?)
  }

  /** The diff as a partial function of the path below the two trees. */
  function ChangeAt(before: Json, after: Json, p: Path): Option<Change>
    decreases |p|
  {
    if before == after then None
    else if !BothOpen(before, after) then (if p == [] then Some(Replace(before, after)) else None)
    else if p == [] then None
    else
      match (Child(before, p[0]), Child(after, p[0]))
      case (Some(b), Some(a)) => ChangeAt(b, a, p[1..])
      case (None, Some(a)) => if |p| == 1 then Some(Add(a)) else None
      case (Some(b), None) => if |p| == 1 then Some(Remove(b)) else None
      case (None, None) => None
  }

  /** `es` is the diff: an entry for each path that has a change, and no path twice. */
  ghost predicate Lists(es: seq<Entry>, before: Json, after: Json, path: Path) {
    (forall e :: e in es ==> path <= e.path && ChangeAt(before, after, e.path[|path|..]) == Some(e.change)) &&
    (forall p :: ChangeAt(before, after, p).Some? ==> HasPath(es, path + p)) &&
    Distinct(es)
  }

  ghost predicate HasPath(es: seq<Entry>, p: Path) {
    exists e :: e in es && e.path == p
  }

  ghost predicate Distinct(es: seq<Entry>) {
    forall i, j :: 0 <= i < j < |es| ==> es[i].path != es[j].path
  }

  /** The part of the diff below the children in `heads`. */
  ghost predicate ListsBelow(es: seq<Entry>, before: Json, after: Json, path: Path, heads: set<Step>) {
    (forall e :: e in es ==>
       path < e.path && e.path[|path|] in heads && ChangeAt(before, after, e.path[|path|..]) == Some(e.change)) &&
    (forall p :: p != [] && p[0] in heads && ChangeAt(before, after, p).Some? ==> HasPath(es, path + p)) &&
    Distinct(es)
  }

  // ---------- how the pieces of a walk fit together ----------

  lemma NoEntries(before: Json, after: Json, path: Path)
    requires before == after
    ensures Lists([], before, after, path)
  {
  }

  lemma OneEntry(before: Json, after: Json, path: Path)
    requires before != after && !BothOpen(before, after)
    ensures Lists([Entry(path, Replace(before, after))], before, after, path)
  {
    var e := Entry(path, Replace(before, after));
    assert e in [e] && path[|path|..] == [] && path + [] == path;
  }

  lemma NoneBelow(before: Json, after: Json, path: Path)
    ensures ListsBelow([], before, after, path, {})
  {
  }

  lemma JoinBelow(before: Json, after: Json, path: Path, heads: set<Step>, h: Step, es: seq<Entry>, piece: seq<Entry>)
    requires ListsBelow(es, before, after, path, heads) && ListsBelow(piece, before, after, path, {h}) && h !in heads
    ensures ListsBelow(es + piece, before, after, path, heads + {h})
  {
    hide ChangeAt;
    forall p | p != [] && p[0] in heads + {h} && ChangeAt(before, after, p).Some?
      ensures HasPath(es + piece, path + p)
    {
      if p[0] in heads {
        var e :| e in es && e.path == path + p;
        assert e in es + piece;
      } else {
        var e :| e in piece && e.path == path + p;
        assert e in es + piece;
      }
    }
    forall i, j | 0 <= i < j < |es + piece|
      ensures (es + piece)[i].path != (es + piece)[j].path
    {
      if i < |es| <= j {
        assert es[i] in es && piece[j - |es|] in piece;
      }
    }
  }

  lemma AllBelow(before: Json, after: Json, path: Path, heads: set<Step>, es: seq<Entry>)
    requires ListsBelow(es, before, after, path, heads) && before != after && BothOpen(before, after)
    requires forall h :: Child(before, h).Some? || Child(after, h).Some? ==> h in heads
    ensures Lists(es, before, after, path)
  {
    forall p | ChangeAt(before, after, p).Some?
      ensures p != [] && p[0] in heads
    {
    }
  }

  lemma NoChild(before: Json, after: Json, path: Path, h: Step)
    requires before != after && BothOpen(before, after) && Child(before, h).None? && Child(after, h).None?
    ensures ListsBelow([], before, after, path, {h})
  {
  }

  lemma OneSided(before: Json, after: Json, path: Path, h: Step, c: Change)
    requires before != after && BothOpen(before, after)
    requires (Child(before, h).None? && Child(after, h).Some? && c == Add(Child(after, h).value)) ||
             (Child(before, h).Some? && Child(after, h).None? && c == Remove(Child(before, h).value))
    ensures ListsBelow([Entry(path + [h], c)], before, after, path, {h})
  {
    var e := Entry(path + [h], c);
    assert e in [e] && (path + [h])[|path|..] == [h];
    forall p | p != [] && p[0] == h && ChangeAt(before, after, p).Some?
      ensures HasPath([e], path + p)
    {
      assert p == [h];
    }
  }

  lemma TwoSided(before: Json, after: Json, path: Path, h: Step, es: seq<Entry>)
    requires before != after && BothOpen(before, after) && Child(before, h).Some? && Child(after, h).Some?
    requires Lists(es, Child(before, h).value, Child(after, h).value, path + [h])
    ensures ListsBelow(es, before, after, path, {h})
  {
    var b, a := Child(before, h).value, Child(after, h).value;
    forall e | e in es
      ensures path < e.path && e.path[|path|] == h && ChangeAt(before, after, e.path[|path|..]) == Some(e.change)
    {
      var p := e.path[|path|..];
      assert p[0] == (path + [h])[|path|];
      assert p[1..] == e.path[|path| + 1..];
      assert ChangeAt(before, after, p) == ChangeAt(b, a, p[1..]);
    }
    forall p | p != [] && p[0] == h && ChangeAt(before, after, p).Some?
      ensures HasPath(es, path + p)
    {
      assert ChangeAt(b, a, p[1..]).Some?;
      assert (path + [h]) + p[1..] == path + p;
    }
  }

  class Collector {
    var out: seq<Entry>

    constructor ()
      ensures out == []
    {
      out := [];
    }

    /** Appends the entries of the diff below `path`. */
    method Walk(before: Json, after: Json, path: Path) returns (ghost more: seq<Entry>)
      modifies this
      ensures out == old(out) + more && Lists(more, before, after, path)
      decreases before, 2
    {
      hide ListsBelow, Lists;
      more := [];
      if before == after {
        NoEntries(before, after, path);
      } else if before.Obj? && after.Obj? {
        more := WalkFields(before, after, path);
      } else if before.Arr? && after.Arr? {
        more := WalkItems(before, after, path);
      } else {
        more := [Entry(path, Replace(before, after))];
        out := out + [Entry(path, Replace(before, after))];
        OneEntry(before, after, path);
      }
    }

    /** The keys of both sides, in any order: the diff does not depend on it. */
    method WalkFields(before: Json, after: Json, path: Path) returns (ghost more: seq<Entry>)
      requires before.Obj? && after.Obj? && before != after
      modifies this
      ensures out == old(out) + more && Lists(more, before, after, path)
      decreases before, 1
    {
      hide ListsBelow, Lists;
      more := [];
      var keys := before.fields.Keys + after.fields.Keys;
      ghost var heads: set<Step> := {};
      NoneBelow(before, after, path);
      while keys != {}
        invariant out == old(out) + more && ListsBelow(more, before, after, path, heads)
        invariant forall k :: Key(k) in heads ==> k !in keys
        invariant forall k :: k in before.fields || k in after.fields ==> k in keys || Key(k) in heads
        decreases |keys|
      {
        var k :| k in keys;
        ghost var piece := WalkChild(before, after, path, Key(k));
        keys := keys - {k};
        JoinBelow(before, after, path, heads, Key(k), more, piece);
        more, heads := more + piece, heads + {Key(k)};
      }
      AllBelow(before, after, path, heads, more);
    }

    method WalkItems(before: Json, after: Json, path: Path) returns (ghost more: seq<Entry>)
      requires before.Arr? && after.Arr? && before != after
      modifies this
      ensures out == old(out) + more && Lists(more, before, after, path)
      decreases before, 1
    {
      hide ListsBelow, Lists;
      more := [];
      var n := Max(|before.items|, |after.items|);
      var i := 0;
      ghost var heads: set<Step> := {};
      NoneBelow(before, after, path);
      while i < n
        invariant 0 <= i <= n && out == old(out) + more && ListsBelow(more, before, after, path, heads)
        invariant forall j: nat :: Index(j) in heads <==> j < i
      {
        ghost var piece := WalkChild(before, after, path, Index(i));
        JoinBelow(before, after, path, heads, Index(i), more, piece);
        more, heads := more + piece, heads + {Index(i)};
        i := i + 1;
      }
      AllBelow(before, after, path, heads, more);
    }

    /** One key or index that at least one side has. */
    method WalkChild(before: Json, after: Json, path: Path, h: Step) returns (ghost more: seq<Entry>)
      requires before != after && BothOpen(before, after)
      modifies this
      ensures out == old(out) + more && ListsBelow(more, before, after, path, {h})
      decreases before, 0
    {
      hide ListsBelow, Lists;
      var b, a := Child(before, h), Child(after, h);
      var p := path + [h];
      more := [];
      if b.None? && a.None? {
        NoChild(before, after, path, h);
      } else if b.None? {
        more := [Entry(p, Add(a.value))];
        out := out + [Entry(p, Add(a.value))];
        OneSided(before, after, path, h, Add(a.value));
      } else if a.None? {
        more := [Entry(p, Remove(b.value))];
        out := out + [Entry(p, Remove(b.value))];
        OneSided(before, after, path, h, Remove(b.value));
      } else {
        more := Walk(b.value, a.value, p);
        TwoSided(before, after, path, h, more);
      }
    }
  }

  // ---------- the diff is a patch ----------

  /** What a tree has at a path, without what is below. */
  datatype Label = NullLabel | BoolLabel(b: bool) | NumLabel(n: Number) | StrLabel(s: string) | ArrLabel | ObjLabel

  function Shallow(t: Json): Label {
    match t
    case Null => NullLabel
    case Bool(b) => BoolLabel(b)
    case Num(n) => NumLabel(n)
    case Str(s) => StrLabel(s)
    case Arr(_) => ArrLabel
    case Obj(_) => ObjLabel
  }

  function LabelAt(t: Json, p: Path): Option<Label>
    decreases |p|
  {
    if p == [] then Some(Shallow(t))
    else
      var c := Child(t, p[0]);
      if c.Some? then LabelAt(c.value, p[1..]) else None
  }

  function LabelIn(t: Option<Json>, p: Path): Option<Label> {
    if t.Some? then LabelAt(t.value, p) else None
  }

  /** What a change leaves at its path, and what it found there. */
  function Result(c: Change): Option<Json> {
    match c
    case Add(a) => Some(a)
    case Remove(_) => None
    case Replace(_, a) => Some(a)
  }

  function Inverse(c: Change): Change {
    match c
    case Add(a) => Remove(a)
    case Remove(b) => Add(b)
    case Replace(b, a) => Replace(a, b)
  }

  /** What `t` has at `p` once all the entries are applied to it at once. */
  ghost function PatchedLabel(t: Json, es: seq<Entry>, p: Path): Option<Label> {
    if exists e :: e in es && e.path <= p then
      var e :| e in es && e.path <= p;
      LabelIn(Result(e.change), p[|e.path|..])
    else LabelAt(t, p)
  }

  lemma LabelBelow(t: Json, h: Step, p: Path)
    ensures LabelAt(t, [h] + p) == LabelIn(Child(t, h), p)
  {
    assert ([h] + p)[0] == h && ([h] + p)[1..] == p;
  }

  /** A tree is what it has at each path. */
  lemma {:induction false} LabelsDetermineTree(a: Json, b: Json)
    requires forall p :: LabelAt(a, p) == LabelAt(b, p)
    ensures a == b
    decreases a
  {
    assert LabelAt(a, []) == LabelAt(b, []);
    forall h
      ensures Child(a, h) == Child(b, h)
    {
      forall p
        ensures LabelIn(Child(a, h), p) == LabelIn(Child(b, h), p)
      {
        LabelBelow(a, h, p);
        LabelBelow(b, h, p);
        assert LabelAt(a, [h] + p) == LabelAt(b, [h] + p);
      }
      assert LabelIn(Child(a, h), []) == LabelIn(Child(b, h), []);
      if Child(a, h).Some? {
        forall p
          ensures LabelAt(Child(a, h).value, p) == LabelAt(Child(b, h).value, p)
        {
          assert LabelIn(Child(a, h), p) == LabelIn(Child(b, h), p);
        }
        LabelsDetermineTree(Child(a, h).value, Child(b, h).value);
      }
    }
    SameChildren(a, b);
  }

  lemma SameChildren(a: Json, b: Json)
    requires Shallow(a) == Shallow(b) && forall h :: Child(a, h) == Child(b, h)
    ensures a == b
  {
    if a.Obj? {
      forall k
        ensures k in a.fields <==> k in b.fields
        ensures k in a.fields ==> a.fields[k] == b.fields[k]
      {
        assert Child(a, Key(k)) == Child(b, Key(k));
      }
      assert a.fields == b.fields;
    } else if a.Arr? {
      assert Child(a, Index(|a.items|)) == Child(b, Index(|a.items|));
      assert Child(a, Index(|b.items|)) == Child(b, Index(|b.items|));
      forall i | 0 <= i < |a.items|
        ensures a.items[i] == b.items[i]
      {
        assert Child(a, Index(i)) == Child(b, Index(i));
      }
      assert a.items == b.items;
    }
  }

  /** Below a change, each side is what the change says. */
  lemma {:induction false} ChangeTells(before: Json, after: Json, p: Path, q: Path)
    requires ChangeAt(before, after, p).Some?
    ensures LabelAt(after, p + q) == LabelIn(Result(ChangeAt(before, after, p).value), q)
    ensures LabelAt(before, p + q) == LabelIn(Result(Inverse(ChangeAt(before, after, p).value)), q)
    decreases |p|
  {
    if p == [] {
      assert p + q == q;
    } else {
      assert (p + q)[0] == p[0] && (p + q)[1..] == p[1..] + q;
      if Child(before, p[0]).Some? && Child(after, p[0]).Some? {
        ChangeTells(Child(before, p[0]).value, Child(after, p[0]).value, p[1..], q);
      } else {
        assert p[1..] + q == q;
      }
    }
  }

  /** Where no prefix has a change, the sides agree. */
  lemma {:induction false} NoChangeNoDifference(before: Json, after: Json, p: Path)
    requires forall n :: 0 <= n <= |p| ==> ChangeAt(before, after, p[..n]).None?
    ensures LabelAt(before, p) == LabelAt(after, p)
    decreases |p|
  {
    assert ChangeAt(before, after, p[..0]).None?;
    if before != after && p != [] {
      assert ChangeAt(before, after, p[..1]).None?;
      var b, a := Child(before, p[0]), Child(after, p[0]);
      if b.Some? && a.Some? {
        forall n | 0 <= n <= |p| - 1
          ensures ChangeAt(b.value, a.value, p[1..][..n]).None?
        {
          assert p[..n + 1][1..] == p[1..][..n];
          assert ChangeAt(before, after, p[..n + 1]).None?;
        }
        NoChangeNoDifference(b.value, a.value, p[1..]);
      }
    }
  }

  /** No change lies below another: the paths of the diff are an antichain. */
  lemma {:induction false} ChangesAreApart(before: Json, after: Json, p: Path, q: Path)
    requires ChangeAt(before, after, p).Some? && ChangeAt(before, after, p + q).Some?
    ensures q == []
    decreases |p|
  {
    if p == [] {
      assert p + q == q;
    } else {
      assert (p + q)[0] == p[0] && (p + q)[1..] == p[1..] + q;
      if Child(before, p[0]).Some? && Child(after, p[0]).Some? {
        ChangesAreApart(Child(before, p[0]).value, Child(after, p[0]).value, p[1..], q);
      }
    }
  }

  /** The diff the other way round has the inverse changes at the same paths. */
  lemma {:induction false} InverseChanges(before: Json, after: Json, p: Path)
    ensures var c := ChangeAt(before, after, p);
            ChangeAt(after, before, p) == if c.Some? then Some(Inverse(c.value)) else None
    decreases |p|
  {
    if before != after && BothOpen(before, after) && p != [] {
      if Child(before, p[0]).Some? && Child(after, p[0]).Some? {
        InverseChanges(Child(before, p[0]).value, Child(after, p[0]).value, p[1..]);
      }
    }
  }

  /** The entries, in whatever order they are given. */
  ghost predicate SameEntries(es: seq<Entry>, fs: seq<Entry>) {
    forall e :: e in es <==> e in fs
  }

  lemma EntryTells(before: Json, after: Json, es: seq<Entry>, e: Entry, p: Path)
    requires Lists(es, before, after, []) && e in es && e.path <= p
    ensures LabelIn(Result(e.change), p[|e.path|..]) == LabelAt(after, p)
  {
    hide ChangeAt, LabelAt, LabelIn, Result;
    assert e.path[0..] == e.path;
    assert ChangeAt(before, after, e.path) == Some(e.change);
    ChangeTells(before, after, e.path, p[|e.path|..]);
    assert e.path + p[|e.path|..] == p;
  }

  lemma NoEntryNoDifference(before: Json, after: Json, es: seq<Entry>, p: Path)
    requires Lists(es, before, after, []) && forall e :: e in es ==> !(e.path <= p)
    ensures LabelAt(before, p) == LabelAt(after, p)
  {
    hide ChangeAt, LabelAt;
    forall n | 0 <= n <= |p|
      ensures ChangeAt(before, after, p[..n]).None?
    {
      assert [] + p[..n] == p[..n];
    }
    NoChangeNoDifference(before, after, p);
  }

  lemma PatchGivesAfter(before: Json, after: Json, es: seq<Entry>, p: Path)
    requires Lists(es, before, after, [])
    ensures PatchedLabel(before, es, p) == LabelAt(after, p)
  {
    hide Lists, LabelAt, LabelIn, Result;
    if exists e :: e in es && e.path <= p {
      var e :| e in es && e.path <= p && PatchedLabel(before, es, p) == LabelIn(Result(e.change), p[|e.path|..]);
      EntryTells(before, after, es, e, p);
    } else {
      NoEntryNoDifference(before, after, es, p);
    }
  }

  lemma SameEntriesSamePatch(t: Json, es: seq<Entry>, fs: seq<Entry>, p: Path)
    requires SameEntries(es, fs) && Apart(es)
    ensures PatchedLabel(t, es, p) == PatchedLabel(t, fs, p)
  {
    if exists e :: e in es && e.path <= p {
      var e :| e in es && e.path <= p && PatchedLabel(t, es, p) == LabelIn(Result(e.change), p[|e.path|..]);
      var f :| f in fs && f.path <= p && PatchedLabel(t, fs, p) == LabelIn(Result(f.change), p[|f.path|..]);
      assert f in es;
      if |e.path| <= |f.path| {
        assert e.path <= f.path;
      } else {
        assert f.path <= e.path;
      }
    }
  }

  /** No path is at or below another entry's path. */
  ghost predicate Apart(es: seq<Entry>) {
    forall e, f :: e in es && f in es && e.path <= f.path ==> e == f
  }

  /** The entries of a diff lie at unrelated paths. */
  lemma DiffIsApart(before: Json, after: Json, es: seq<Entry>)
    requires Lists(es, before, after, [])
    ensures Apart(es)
  {
    hide ChangeAt;
    forall e, f | e in es && f in es && e.path <= f.path
      ensures e == f
    {
      assert e.path[0..] == e.path && f.path[0..] == f.path;
      var q := f.path[|e.path|..];
      assert e.path + q == f.path;
      ChangesAreApart(before, after, e.path, q);
      assert e.path == f.path;
    }
  }

  /**
   * A diff is a complete patch: in whatever order its entries are listed, applying them all at once to
   * `before` gives `after` and no other tree.
   */
  lemma DiffIsThePatch(before: Json, after: Json, es: seq<Entry>, listed: seq<Entry>, t: Json)
    requires Lists(es, before, after, []) && SameEntries(es, listed)
    ensures (forall p :: PatchedLabel(before, listed, p) == LabelAt(t, p)) <==> t == after
  {
    hide Lists, PatchedLabel, LabelAt;
    DiffIsApart(before, after, es);
    forall p
      ensures PatchedLabel(before, listed, p) == LabelAt(after, p)
    {
      PatchGivesAfter(before, after, es, p);
      SameEntriesSamePatch(before, es, listed, p);
    }
    if forall p :: PatchedLabel(before, listed, p) == LabelAt(t, p) {
      forall p
        ensures LabelAt(t, p) == LabelAt(after, p)
      {
        assert PatchedLabel(before, listed, p) == LabelAt(t, p);
      }
      LabelsDetermineTree(t, after);
    }
  }

  function Inverted(es: seq<Entry>): seq<Entry> {
    seq(|es|, i requires 0 <= i < |es| => Entry(es[i].path, Inverse(es[i].change)))
  }

  /** The inverted entries are the diff the other way round, so they take `after` back to `before`. */
  lemma InvertedDiff(before: Json, after: Json, es: seq<Entry>)
    requires Lists(es, before, after, [])
    ensures Lists(Inverted(es), after, before, [])
  {
    hide ChangeAt;
    forall f | f in Inverted(es)
      ensures ChangeAt(after, before, f.path[0..]) == Some(f.change)
    {
      InvertedEntry(before, after, es, f);
    }
    forall p | ChangeAt(after, before, p).Some?
      ensures HasPath(Inverted(es), [] + p)
    {
      InverseChanges(after, before, p);
      InvertedPath(es, [] + p);
    }
  }

  lemma InvertedEntry(before: Json, after: Json, es: seq<Entry>, f: Entry)
    requires Lists(es, before, after, []) && f in Inverted(es)
    ensures ChangeAt(after, before, f.path[0..]) == Some(f.change)
  {
    hide ChangeAt;
    var i :| 0 <= i < |es| && Inverted(es)[i] == f;
    assert es[i] in es;
    InverseChanges(before, after, f.path[0..]);
  }

  lemma InvertedPath(es: seq<Entry>, p: Path)
    requires HasPath(es, p)
    ensures HasPath(Inverted(es), p)
  {
    var i :| 0 <= i < |es| && es[i].path == p;
    assert Inverted(es)[i] in Inverted(es);
  }

  /** A diff is empty exactly when the trees are equal. */
  lemma EmptyDiffMeansEqual(before: Json, after: Json, es: seq<Entry>)
    requires Lists(es, before, after, [])
    ensures es == [] <==> before == after
  {
    hide ChangeAt, LabelAt;
    if es == [] {
      forall p
        ensures LabelAt(before, p) == LabelAt(after, p)
      {
        PatchGivesAfter(before, after, es, p);
      }
      LabelsDetermineTree(before, after);
    } else {
      assert es[0] in es;
      ChangeMeansDifferent(before, after, es[0].path[0..]);
    }
  }

  lemma ChangeMeansDifferent(before: Json, after: Json, p: Path)
    requires ChangeAt(before, after, p).Some?
    ensures before != after
  {
  }
}
