/** How fine the diff is: it descends into every pair of like containers, and no other such patch exists. */
module DiffFine {
  import opened Prelude
  import opened JsonTree
  import opened Diff

  function Subtree(t: Json, p: Path): Option<Json>
    decreases |p|
  {
    if p == [] then Some(t)
    else
      var c := Child(t, p[0]);
      if c.Some? then Subtree(c.value, p[1..]) else None
  }

  /** Two objects or two arrays. */
  predicate Alike(a: Json, b: Json) {
    (a.Obj? && b.Obj?) || (a.Arr? && b.Arr?)
  }

  /** Both trees have a container of one kind just above the path. */
  predicate InLikeContainers(before: Json, after: Json, p: Path) {
    p != [] &&
    var b, a := Subtree(before, p[..|p| - 1]), Subtree(after, p[..|p| - 1]);
    b.Some? && a.Some? && Alike(b.value, a.value)
  }

  /**
   * A replacement is of two different things that are no like containers, with exactly what each tree
   * has there; an addition or removal is of a child that only one of two like containers has.
   */
  predicate Justified(before: Json, after: Json, p: Path, c: Change) {
    match c
    case Replace(b, a) => Subtree(before, p) == Some(b) && Subtree(after, p) == Some(a) && b != a && !Alike(b, a)
    case Add(a) => InLikeContainers(before, after, p) && Subtree(before, p).None? && Subtree(after, p) == Some(a)
    case Remove(b) => InLikeContainers(before, after, p) && Subtree(before, p) == Some(b) && Subtree(after, p).None?
  }

  lemma InLikeContainersBelow(before: Json, after: Json, p: Path)
    requires |p| > 1 && Child(before, p[0]).Some? && Child(after, p[0]).Some?
    ensures InLikeContainers(before, after, p) <==>
            InLikeContainers(Child(before, p[0]).value, Child(after, p[0]).value, p[1..])
  {
    var up := p[..|p| - 1];
    assert up[0] == p[0] && up[1..] == p[1..][..|p| - 2];
  }

  lemma {:induction false} ChangesAreJustified(before: Json, after: Json, p: Path)
    requires ChangeAt(before, after, p).Some?
    ensures Justified(before, after, p, ChangeAt(before, after, p).value)
    decreases |p|
  {
    if p != [] {
      var b, a := Child(before, p[0]), Child(after, p[0]);
      if b.Some? && a.Some? {
        ChangesAreJustified(b.value, a.value, p[1..]);
        if |p| > 1 {
          InLikeContainersBelow(before, after, p);
        }
      } else {
        assert p[..0] == [];
      }
    }
  }

  lemma SubtreeOne(t: Json, p: Path)
    requires |p| == 1
    ensures Subtree(t, p) == Child(t, p[0])
  {
    assert Child(t, p[0]).Some? ==> Subtree(Child(t, p[0]).value, p[1..]) == Some(Child(t, p[0]).value);
  }

  lemma ChildrenMeanAlike(a: Json, b: Json, h: JsonTree.Step)
    requires Child(a, h).Some? && Child(b, h).Some?
    ensures Alike(a, b)
  {
  }

  /** Along a path that both trees have down to its last step, they are like containers. */
  lemma BothGoOn(before: Json, after: Json, p: Path, c: Change)
    requires Justified(before, after, p, c) && p != []
    ensures Alike(before, after) && before != after
    ensures |p| > 1 || c.Replace? ==> Child(before, p[0]).Some? && Child(after, p[0]).Some?
    ensures |p| == 1 && !c.Replace? ==> (Child(before, p[0]).Some? <==> Child(after, p[0]).None?)
  {
    var up := p[..|p| - 1];
    if |p| > 1 {
      assert up[0] == p[0];
    } else {
      assert up == [];
      SubtreeOne(before, p);
      SubtreeOne(after, p);
    }
    if |p| > 1 || c.Replace? {
      ChildrenMeanAlike(before, after, p[0]);
    }
  }

  lemma {:induction false} JustifiedIsTheChange(before: Json, after: Json, p: Path, c: Change)
    requires Justified(before, after, p, c)
    ensures ChangeAt(before, after, p) == Some(c)
    decreases |p|
  {
    if p != [] {
      BothGoOn(before, after, p, c);
      if Child(before, p[0]).Some? && Child(after, p[0]).Some? {
        if |p| > 1 {
          InLikeContainersBelow(before, after, p);
        }
        JustifiedIsTheChange(Child(before, p[0]).value, Child(after, p[0]).value, p[1..], c);
      } else {
        SubtreeOne(before, p);
        SubtreeOne(after, p);
      }
    }
  }

  /** What a change finds at its path and what it leaves there look different. */
  lemma ChangeShows(before: Json, after: Json, p: Path)
    requires ChangeAt(before, after, p).Some?
    ensures LabelAt(before, p) != LabelAt(after, p)
  {
    ChangesAreJustified(before, after, p);
    ChangeTells(before, after, p, []);
    assert p + [] == p;
    hide ChangeAt, Subtree, InLikeContainers;
  }

  ghost predicate Patches(es: seq<Entry>, before: Json, after: Json) {
    forall p :: PatchedLabel(before, es, p) == LabelAt(after, p)
  }

  ghost predicate AllJustified(es: seq<Entry>, before: Json, after: Json) {
    forall e :: e in es ==> Justified(before, after, e.path, e.change)
  }

  lemma PatchCoversChange(es: seq<Entry>, before: Json, after: Json, p: Path)
    requires AllJustified(es, before, after) && Patches(es, before, after) && ChangeAt(before, after, p).Some?
    ensures HasPath(es, p)
  {
    ChangeShows(before, after, p);
    hide ChangeAt, LabelAt, Justified;
    assert PatchedLabel(before, es, p) == LabelAt(after, p);
    var e :| e in es && e.path <= p;
    JustifiedIsTheChange(before, after, e.path, e.change);
    assert e.path + p[|e.path|..] == p;
    ChangesAreApart(before, after, e.path, p[|e.path|..]);
    assert e.path == p;
  }

  /** The entries of the walk are those of the one patch whose every entry is justified. */
  lemma DiffIsTheOnlyFinePatch(before: Json, after: Json, es: seq<Entry>)
    ensures Lists(es, before, after, []) <==>
            Distinct(es) && AllJustified(es, before, after) && Patches(es, before, after)
  {
    hide ChangeAt, LabelAt, Justified, PatchedLabel;
    if Lists(es, before, after, []) {
      forall e | e in es
        ensures Justified(before, after, e.path, e.change)
      {
        assert e.path[0..] == e.path;
        ChangesAreJustified(before, after, e.path);
      }
      forall p
        ensures PatchedLabel(before, es, p) == LabelAt(after, p)
      {
        PatchGivesAfter(before, after, es, p);
      }
    } else if Distinct(es) && AllJustified(es, before, after) && Patches(es, before, after) {
      FinePatchLists(before, after, es);
    }
  }

  lemma FinePatchLists(before: Json, after: Json, es: seq<Entry>)
    requires Distinct(es) && AllJustified(es, before, after) && Patches(es, before, after)
    ensures Lists(es, before, after, [])
  {
    hide ChangeAt, LabelAt, Justified, PatchedLabel;
    forall e | e in es
      ensures ChangeAt(before, after, e.path[0..]) == Some(e.change)
    {
      assert e.path[0..] == e.path;
      JustifiedIsTheChange(before, after, e.path, e.change);
    }
    forall p | ChangeAt(before, after, p).Some?
      ensures HasPath(es, [] + p)
    {
      PatchCoversChange(es, before, after, p);
      assert [] + p == p;
    }
  }
}
