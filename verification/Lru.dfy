/** The idempotency cache as a bounded sequence of entries, most recently used first. */
module LruSpec {
  import opened Prelude
  import opened Protocol

  datatype CacheEntry = CacheEntry(key: string, fp: Fingerprint, plan: Option<Plan>, apply: Option<ApplyResult>)

  type Cache = seq<CacheEntry>

  ghost predicate DistinctKeys(c: Cache) {
    forall i, j :: 0 <= i < j < |c| ==> c[i].key != c[j].key
  }

  function KeyIndex(c: Cache, key: string): (i: nat)
    ensures i <= |c|
    ensures i < |c| ==> c[i].key == key
    ensures forall j :: 0 <= j < i ==> c[j].key != key
  {
    if c == [] || c[0].key == key then 0 else 1 + KeyIndex(c[1..], key)
  }

  predicate HasKey(c: Cache, key: string) {
    KeyIndex(c, key) < |c|
  }

  function EntryOf(c: Cache, key: string): CacheEntry
    requires HasKey(c, key)
  {
    c[KeyIndex(c, key)]
  }

  function DropAt(c: Cache, i: nat): Cache
    requires i < |c|
  {
    c[..i] + c[i + 1..]
  }

  function ToFront(c: Cache, i: nat): Cache
    requires i < |c|
  {
    [c[i]] + DropAt(c, i)
  }

  /** Replaces the key's entry, puts the new one first, and drops the oldest beyond `max`. */
  function Push(c: Cache, max: nat, e: CacheEntry): Cache {
    var rest := if HasKey(c, e.key) then DropAt(c, KeyIndex(c, e.key)) else c;
    var all := [e] + rest;
    if |all| <= max then all else all[..max]
  }

  datatype Lookup = Miss | Conflict | Hit(entry: CacheEntry)

  function LookupResult(c: Cache, key: string, fp: Fingerprint): Lookup {
    if key == "" || !HasKey(c, key) then Miss
    else if EntryOf(c, key).fp != fp then Conflict
    else Hit(EntryOf(c, key))
  }

  function AfterLookup(c: Cache, key: string, fp: Fingerprint): Cache {
    if LookupResult(c, key, fp).Hit? then ToFront(c, KeyIndex(c, key)) else c
  }

  function AfterStorePlan(c: Cache, max: nat, key: string, fp: Fingerprint, p: Plan): Cache {
    if key == "" then c
    else if HasKey(c, key) && EntryOf(c, key).fp == fp then
      var i := KeyIndex(c, key);
      ToFront(c[i := c[i].(plan := Some(p))], i)
    else Push(c, max, CacheEntry(key, fp, Some(p), None))
  }

  function AfterStoreApply(c: Cache, max: nat, key: string, fp: Fingerprint, r: ApplyResult): Cache {
    if key == "" then c
    else if HasKey(c, key) && EntryOf(c, key).fp == fp then
      var i := KeyIndex(c, key);
      ToFront(c[i := c[i].(apply := Some(r))], i)
    else Push(c, max, CacheEntry(key, fp, None, Some(r)))
  }

  function AfterEvict(c: Cache, key: string): Cache {
    if key == "" || !HasKey(c, key) then c else DropAt(c, KeyIndex(c, key))
  }
}

/**
 * The cache as the program keeps it: a map from keys to nodes and a doubly linked list through the
 * same nodes. Every operation refines the bounded sequence of LruSpec through `View()`.
 */
module Idempotency {
  import opened Prelude
  import opened Protocol
  import opened LruSpec

  const DEFAULT_IDEMPOTENCY_MAX := 256

  class Entry {
    const key: string
    const fp: Fingerprint
    var plan: Option<Plan>
    var apply: Option<ApplyResult>
    var prev: Entry?
    var next: Entry?

    constructor (key: string, fp: Fingerprint, plan: Option<Plan>, apply: Option<ApplyResult>)
      ensures this.key == key && this.fp == fp && this.plan == plan && this.apply == apply
      ensures prev == null && next == null
    {
      this.key, this.fp, this.plan, this.apply := key, fp, plan, apply;
      prev, next := null, null;
    }

    function Value(): CacheEntry
      reads this`plan, this`apply
    {
      CacheEntry(key, fp, plan, apply)
    }
  }

  function First(ns: seq<Entry>): Entry? {
    if ns == [] then null else ns[0]
  }

  function Last(ns: seq<Entry>): Entry? {
    if ns == [] then null else ns[|ns| - 1]
  }

  ghost predicate Distinct(ns: seq<Entry>) {
    forall i, j :: 0 <= i < j < |ns| ==> ns[i] != ns[j]
  }

  /** `prev` and `next` of each node are its neighbours in `ns`. */
  ghost predicate Chain(ns: seq<Entry>)
    reads ns`prev, ns`next
  {
    (forall i {:trigger ns[i].prev} :: 0 <= i < |ns| ==> ns[i].prev == if i == 0 then null else ns[i - 1]) &&
    (forall i {:trigger ns[i].next} :: 0 <= i < |ns| ==> ns[i].next == if i == |ns| - 1 then null else ns[i + 1])
  }

  /** The map and the list describe the same entries. */
  ghost predicate Maps(entries: map<string, Entry>, ns: seq<Entry>) {
    (forall n :: n in ns ==> n.key in entries && entries[n.key] == n) &&
    (forall k :: k in entries ==> entries[k] in ns && entries[k].key == k)
  }

  function Without(ns: seq<Entry>, i: nat): seq<Entry>
    requires i < |ns|
  {
    ns[..i] + ns[i + 1..]
  }

  /** `c` is what the nodes hold, in list order. */
  ghost predicate Shows(ns: seq<Entry>, c: Cache)
    reads ns`plan, ns`apply
  {
    |c| == |ns| && forall i :: 0 <= i < |ns| ==> c[i] == ns[i].Value()
  }

  lemma ShowsSize(ns: seq<Entry>, c: Cache)
    requires Shows(ns, c)
    ensures |c| == |ns|
  {
  }

  lemma ShowsWithout(ns: seq<Entry>, c: Cache, i: nat)
    requires i < |ns| && Shows(ns, c)
    ensures Shows(Without(ns, i), DropAt(c, i))
  {
  }

  lemma ShowsMoved(ns: seq<Entry>, c: Cache, i: nat, e: Entry)
    requires i < |ns| && ns[i] == e && Shows(ns, c)
    ensures Shows([e] + Without(ns, i), ToFront(c, i))
  {
  }

  lemma NodesMoved(ns: seq<Entry>, i: nat, e: Entry)
    requires i < |ns| && ns[i] == e
    ensures |[e] + Without(ns, i)| == |ns|
    ensures forall n :: n in [e] + Without(ns, i) <==> n in ns
  {
    assert ns == ns[..i] + ([ns[i]] + ns[i + 1..]);
  }

  lemma ShowsFront(ns: seq<Entry>, c: Cache, e: Entry)
    requires Shows(ns, c)
    ensures Shows([e] + ns, [e.Value()] + c)
  {
  }

  lemma DropNode(ns: seq<Entry>, i: nat)
    requires i < |ns| && Distinct(ns)
    ensures Distinct(Without(ns, i)) && ns[i] !in Without(ns, i)
    ensures forall n :: n in ns <==> n == ns[i] || n in Without(ns, i)
    ensures forall j :: 0 <= j < |ns| - 1 ==> Without(ns, i)[j] == ns[if j < i then j else j + 1]
  {
    assert ns == ns[..i] + ([ns[i]] + ns[i + 1..]);
  }

  lemma MapsWithout(entries: map<string, Entry>, ns: seq<Entry>, i: nat)
    requires Maps(entries, ns) && i < |ns| && Distinct(ns)
    ensures Maps(entries - {ns[i].key}, Without(ns, i))
  {
    DropNode(ns, i);
    hide Without, Distinct;
    assert forall n :: n in Without(ns, i) ==> n in ns && n != ns[i];
  }

  lemma MapsFront(entries: map<string, Entry>, ns: seq<Entry>, e: Entry)
    requires Maps(entries, ns) && e.key !in entries
    ensures Maps(entries[e.key := e], [e] + ns)
  {
  }

  lemma MapsMoved(entries: map<string, Entry>, ns: seq<Entry>, i: nat, e: Entry)
    requires Maps(entries, ns) && i < |ns| && ns[i] == e && Distinct(ns)
    ensures Maps(entries, [e] + Without(ns, i))
  {
    DropNode(ns, i);
    hide Without, Distinct;
  }

  lemma MapsCount(entries: map<string, Entry>, ns: seq<Entry>)
    requires Maps(entries, ns) && Distinct(ns)
    ensures |entries| == |ns|
  {
    var keys := seq(|ns|, i requires 0 <= i < |ns| => ns[i].key);
    forall i, j | 0 <= i < j < |keys|
      ensures keys[i] != keys[j]
    {
      assert ns[i] in ns && ns[j] in ns;
    }
    DistinctCount(keys);
    forall k
      ensures k in entries <==> k in keys
    {
      if k in entries {
        var i :| 0 <= i < |ns| && ns[i] == entries[k];
        assert keys[i] == k;
      }
      if k in keys {
        var i :| 0 <= i < |keys| && keys[i] == k;
        assert ns[i] in ns;
      }
    }
    assert entries.Keys == set k | k in keys;
    assert |entries| == |entries.Keys|;
  }

  lemma {:induction false} DistinctCount(keys: seq<string>)
    requires forall i, j :: 0 <= i < j < |keys| ==> keys[i] != keys[j]
    ensures |set k | k in keys| == |keys|
  {
    if keys != [] {
      var n := |keys| - 1;
      DistinctCount(keys[..n]);
      assert (set k | k in keys) == (set k | k in keys[..n]) + {keys[n]};
    }
  }

  /** Distinct nodes of one map have distinct keys, so the map finds a key exactly where the list has it. */
  lemma KeyLocates(entries: map<string, Entry>, ns: seq<Entry>, c: Cache, key: string)
    requires Maps(entries, ns) && Shows(ns, c)
    ensures key in entries <==> HasKey(c, key)
    ensures key in entries ==> ns[KeyIndex(c, key)] == entries[key] && entries[key].key == key
  {
    if key in entries {
      var i :| 0 <= i < |ns| && ns[i] == entries[key];
      assert c[i].key == key;
    }
    if HasKey(c, key) {
      var i := KeyIndex(c, key);
      assert c[i].key == ns[i].key == key && ns[i] in ns;
    }
  }

  lemma KeysDistinct(entries: map<string, Entry>, ns: seq<Entry>, c: Cache)
    requires Maps(entries, ns) && Distinct(ns) && Shows(ns, c)
    ensures DistinctKeys(c)
  {
    forall i, j | 0 <= i < j < |ns|
      ensures c[i].key != c[j].key
    {
      assert ns[i] in ns && ns[j] in ns;
    }
  }

  lemma FrontStays(c: Cache)
    requires |c| > 0
    ensures ToFront(c, 0) == c
  {
  }

  class IdempCache {
    const max: nat
    var entries: map<string, Entry>
    var head: Entry?
    var tail: Entry?
    ghost var nodes: seq<Entry>  // the list from head to tail
    ghost var view: Cache        // what it holds

    /** Acyclic, head and tail at the ends, `prev` and `next` inverse to each other. */
    ghost predicate Linked()
      reads this`head, this`tail, this`nodes, nodes`prev, nodes`next
    {
      Distinct(nodes) && head == First(nodes) && tail == Last(nodes) && Chain(nodes)
    }

    /** List, map and view agree; only the bound may be exceeded, while an insertion is under way. */
    ghost predicate Consistent()
      reads this, nodes
    {
      Linked() && Maps(entries, nodes) && Shows(nodes, view)
    }

    ghost predicate Valid()
      reads this, nodes
    {
      Consistent() && 0 < max && |nodes| <= max
    }

    constructor (max: int)
      ensures Valid() && view == [] && nodes == []
      ensures this.max == if max <= 0 then DEFAULT_IDEMPOTENCY_MAX else max
    {
      this.max := if max <= 0 then DEFAULT_IDEMPOTENCY_MAX else max;
      entries, head, tail, nodes, view := map[], null, null, [], [];
    }

    /** Takes `nodes[i]` out of the list; map and view are left to the caller. */
    method UnlinkLocked(e: Entry, ghost i: nat)
      requires Linked() && i < |nodes| && nodes[i] == e
      modifies this`head, this`tail, this`nodes, nodes`prev, nodes`next
      ensures Linked() && nodes == Without(old(nodes), i)
      ensures e.prev == null && e.next == null
    {
      ghost var was := nodes;
      assert forall j :: 0 <= j < |nodes| && j != i ==> nodes[j] != e;
      DropNode(nodes, i);
      hide Without, Distinct;
      assert nodes[i].prev == if i == 0 then null else nodes[i - 1];
      assert nodes[i].next == if i == |nodes| - 1 then null else nodes[i + 1];
      if e.prev != null {
        e.prev.next := e.next;
      } else {
        head := e.next;
      }
      if e.next != null {
        e.next.prev := e.prev;
      } else {
        tail := e.prev;
      }
      e.prev := null;
      e.next := null;
      nodes := Without(was, i);
    }

    /** Puts a node that is not in the list at its head. */
    method LinkFrontLocked(e: Entry)
      requires Linked() && e !in nodes
      modifies this`head, this`tail, this`nodes, nodes`prev, nodes`next, e`prev, e`next
      ensures Linked() && nodes == [e] + old(nodes)
    {
      e.prev := null;
      e.next := head;
      if head != null {
        head.prev := e;
      }
      head := e;
      if tail == null {
        tail := e;
      }
      nodes := [e] + nodes;
    }

    lemma LinkedEnds(i: nat)
      requires Linked() && i < |nodes|
      ensures Distinct(nodes)
      ensures nodes[i] == head <==> i == 0
      ensures tail == nodes[|nodes| - 1]
    {
    }

    method RelinkFront(e: Entry, ghost i: nat)
      requires Linked() && i < |nodes| && nodes[i] == e
      modifies this`head, this`tail, this`nodes, nodes`prev, nodes`next
      ensures Linked() && nodes == [e] + Without(old(nodes), i)
    {
      DropNode(nodes, i);
      hide Linked, Without;
      UnlinkLocked(e, i);
      LinkFrontLocked(e);
    }

    method MoveFrontLocked(e: Entry, ghost i: nat)
      requires Consistent() && i < |nodes| && i < |view| && nodes[i] == e
      modifies this`head, this`tail, this`nodes, this`view, nodes`prev, nodes`next
      ensures Consistent() && view == ToFront(old(view), i)
      ensures |nodes| == |old(nodes)| && forall n :: n in nodes <==> n in old(nodes)
    {
      hide Linked, Distinct, Maps, ToFront, Shows, Without;
      LinkedEnds(i);
      if e == head {
        assert view == ToFront(view, i) by {
          ShowsSize(nodes, view);
          FrontStays(view);
        }
      } else {
        MapsMoved(entries, nodes, i, e);
        ShowsMoved(nodes, view, i, e);
        NodesMoved(nodes, i, e);
        ghost var moved := [e] + Without(nodes, i);
        assert Maps(entries, moved) && forall n :: n in moved <==> n in nodes;
        RelinkFront(e, i);
        assert nodes == moved;
        view := ToFront(view, i);
      }
    }

    method RemoveLocked(e: Entry, ghost i: nat)
      requires Consistent() && i < |nodes| && nodes[i] == e
      modifies this`entries, this`head, this`tail, this`nodes, this`view, nodes`prev, nodes`next
      ensures Consistent() && nodes == Without(old(nodes), i) && view == DropAt(old(view), i)
      ensures entries == old(entries) - {e.key}
    {
      hide Linked, Distinct, Maps;
      LinkedEnds(i);
      MapsWithout(entries, nodes, i);
      ShowsWithout(nodes, view, i);
      hide Without, Shows;
      entries := entries - {e.key};
      UnlinkLocked(e, i);
      view := DropAt(view, i);
    }

    lemma Counted()
      requires Consistent()
      ensures |entries| == |nodes| == |view|
      ensures (nodes == [] <==> tail == null) && (nodes != [] ==> tail == nodes[|nodes| - 1])
    {
      MapsCount(entries, nodes);
    }

    /** In every state the sequence the cache stands for has one entry a key and no more than its bound. */
    lemma ViewHasDistinctKeys()
      requires Valid()
      ensures DistinctKeys(view) && |view| == |entries| <= max
      ensures forall key :: key in entries <==> HasKey(view, key)
    {
      hide Chain, Maps, KeyIndex;
      Counted();
      KeysDistinct(entries, nodes, view);
      forall key
        ensures key in entries <==> HasKey(view, key)
      {
        KeyLocates(entries, nodes, view, key);
      }
    }

    /** Replaces an entry of the same key, links the new one first, and trims from the tail. */
    method InsertFrontLocked(e: Entry)
      requires Valid() && e !in nodes
      modifies this`entries, this`head, this`tail, this`nodes, this`view, nodes`prev, nodes`next, e`prev, e`next
      ensures Valid() && view == Push(old(view), max, e.Value())
      ensures forall k :: 0 <= k < |nodes| ==> nodes[k] in old(nodes) || nodes[k] == e
    {
      hide Linked, Distinct, Maps, Shows, HasKey, KeyIndex, DropAt;
      DropKey(e.key, e);
      MapsFront(entries, nodes, e);
      ShowsFront(nodes, view, e);
      entries := entries[e.key := e];
      LinkFrontLocked(e);
      view := [e.Value()] + view;
      Trim();
    }

    /** Removes the entry of `key`, if there is one; `e` is a node outside the list. */
    method DropKey(key: string, ghost e: Entry)
      requires Valid() && e !in nodes
      modifies this`entries, this`head, this`tail, this`nodes, this`view, nodes`prev, nodes`next
      ensures Valid() && key !in entries && e !in nodes
      ensures view == if HasKey(old(view), key) then DropAt(old(view), KeyIndex(old(view), key)) else old(view)
      ensures forall k :: 0 <= k < |nodes| ==> nodes[k] in old(nodes)
    {
      hide Linked, Distinct, Maps, Shows, KeyIndex;
      KeyLocates(entries, nodes, view, key);
      ShowsSize(nodes, view);
      if key in entries {
        ghost var i := KeyIndex(view, key);
        ghost var was := nodes;
        RemoveLocked(entries[key], i);
        assert nodes == Without(was, i);
      }
    }

    /** The tail loop: oldest entries go while the map holds more than `max`. */
    method Trim()
      requires Consistent() && 0 < max
      modifies this`entries, this`head, this`tail, this`nodes, this`view, nodes`prev, nodes`next
      ensures Valid()
      ensures view == if |old(view)| <= max then old(view) else old(view)[..max]
      ensures forall k :: 0 <= k < |nodes| ==> nodes[k] in old(nodes)
    {
      hide Linked, Distinct, Maps, Shows;
      ghost var all := view;
      Counted();
      while |entries| > max && tail != null
        invariant Consistent() && |entries| == |nodes| == |view| <= |all|
        invariant (nodes == [] <==> tail == null) && (nodes != [] ==> tail == nodes[|nodes| - 1])
        invariant view == all[..|view|] && (|view| < |all| ==> max <= |view|)
        invariant forall k :: 0 <= k < |nodes| ==> nodes[k] in old(nodes)
        decreases |nodes|
      {
        ghost var was := nodes;
        RemoveLocked(tail, |nodes| - 1);
        assert nodes == was[..|was| - 1];
        Counted();
      }
    }

    method Find(key: string, fp: Fingerprint) returns (r: Lookup)
      requires Valid()
      modifies this`head, this`tail, this`nodes, this`view, nodes`prev, nodes`next
      ensures Valid() && r == LookupResult(old(view), key, fp) && view == AfterLookup(old(view), key, fp)
      ensures r.Hit? ==> view != [] && view[0] == r.entry
      ensures forall k :: 0 <= k < |nodes| ==> nodes[k] in old(nodes)
    {
      hide Linked, Distinct, Maps, KeyIndex;
      KeyLocates(entries, nodes, view, key);
      if key == "" || key !in entries {
        return Miss;
      }
      var e := entries[key];
      ghost var i := KeyIndex(view, key);
      assert view[i] == e.Value();
      if e.fp != fp {
        return Conflict;
      }
      r := Hit(e.Value());
      MoveFrontLocked(e, i);
    }

    method StorePlan(key: string, fp: Fingerprint, p: Plan)
      requires Valid()
      modifies this, nodes
      ensures Valid() && view == AfterStorePlan(old(view), max, key, fp, p)
      ensures forall k :: 0 <= k < |nodes| ==> nodes[k] in old(nodes) || fresh(nodes[k])
    {
      hide Linked, Distinct, Maps, KeyIndex, Push;
      KeyLocates(entries, nodes, view, key);
      if key == "" {
        return;
      }
      if key in entries && entries[key].fp == fp {
        var e := entries[key];
        ghost var i := KeyIndex(view, key);
        SetPlan(e, i, p);
        MoveFrontLocked(e, i);
      } else {
        var e := new Entry(key, fp, Some(p), None);
        InsertFrontLocked(e);
      }
    }

    method SetPlan(e: Entry, ghost i: nat, p: Plan)
      requires Valid() && i < |nodes| && nodes[i] == e && i < |view|
      modifies this`view, nodes`plan
      ensures Valid() && view == old(view)[i := old(view)[i].(plan := Some(p))]
    {
      e.plan := Some(p);
      view := view[i := view[i].(plan := Some(p))];
    }

    method StoreApply(key: string, fp: Fingerprint, r: ApplyResult)
      requires Valid()
      modifies this, nodes
      ensures Valid() && view == AfterStoreApply(old(view), max, key, fp, r)
      ensures forall k :: 0 <= k < |nodes| ==> nodes[k] in old(nodes) || fresh(nodes[k])
    {
      hide Linked, Distinct, Maps, KeyIndex, Push;
      KeyLocates(entries, nodes, view, key);
      if key == "" {
        return;
      }
      if key in entries && entries[key].fp == fp {
        var e := entries[key];
        ghost var i := KeyIndex(view, key);
        SetApply(e, i, r);
        MoveFrontLocked(e, i);
      } else {
        var e := new Entry(key, fp, None, Some(r));
        InsertFrontLocked(e);
      }
    }

    method SetApply(e: Entry, ghost i: nat, r: ApplyResult)
      requires Valid() && i < |nodes| && nodes[i] == e && i < |view|
      modifies this`view, nodes`apply
      ensures Valid() && view == old(view)[i := old(view)[i].(apply := Some(r))]
    {
      e.apply := Some(r);
      view := view[i := view[i].(apply := Some(r))];
    }

    method Evict(key: string)
      requires Valid()
      modifies this, nodes
      ensures Valid() && view == AfterEvict(old(view), key)
      ensures forall k :: 0 <= k < |nodes| ==> nodes[k] in old(nodes)
    {
      hide Linked, Distinct, Maps, KeyIndex;
      KeyLocates(entries, nodes, view, key);
      if key != "" && key in entries {
        ghost var was := nodes;
        RemoveLocked(entries[key], KeyIndex(view, key));
        assert nodes == Without(was, KeyIndex(old(view), key));
      }
    }

    method Clear()
      requires Valid()
      modifies this
      ensures Valid() && view == [] && nodes == []
    {
      entries := map[];
      head := null;
      tail := null;
      nodes, view := [], [];
    }
  }
}
