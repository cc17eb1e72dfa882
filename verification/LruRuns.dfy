/** Recency over runs of the idempotency cache: the entry pushed out of a full one is the least recently used. */
module LruRuns {
  import opened Prelude
  import opened Protocol
  import opened LruSpec

  datatype Event =
    | Look(key: string, fp: Fingerprint)
    | StorePlan(key: string, fp: Fingerprint, plan: Plan)
    | StoreApply(key: string, fp: Fingerprint, result: ApplyResult)
    | Evict(key: string)
    | Clear

  function AfterEvent(c: Cache, max: nat, e: Event): Cache {
    match e
    case Look(key, fp) => AfterLookup(c, key, fp)
    case StorePlan(key, fp, p) => AfterStorePlan(c, max, key, fp, p)
    case StoreApply(key, fp, r) => AfterStoreApply(c, max, key, fp, r)
    case Evict(key) => AfterEvict(c, key)
    case Clear => []
  }

  /** What an empty cache has become after the events. */
  function RunCache(max: nat, events: seq<Event>): Cache {
    if events == [] then []
    else AfterEvent(RunCache(max, events[..|events| - 1]), max, events[|events| - 1])
  }

  predicate Stores(e: Event) {
    (e.StorePlan? || e.StoreApply?) && e.key != ""
  }

  /** The event hits or stores under the key. */
  predicate Uses(c: Cache, e: Event, key: string) {
    (e.Look? && e.key == key && LookupResult(c, key, e.fp).Hit?) || (Stores(e) && e.key == key)
  }

  /** Which event, counted from one, was the last to hit or store under the key; 0 if none was. */
  function LastUse(max: nat, events: seq<Event>, key: string): (n: nat)
    ensures n <= |events|
  {
    if events == [] then 0
    else if Uses(RunCache(max, events[..|events| - 1]), events[|events| - 1], key) then |events|
    else LastUse(max, events[..|events| - 1], key)
  }

  lemma OneMore(max: nat, events: seq<Event>, e: Event, key: string)
    ensures RunCache(max, events + [e]) == AfterEvent(RunCache(max, events), max, e)
    ensures LastUse(max, events + [e], key) ==
            if Uses(RunCache(max, events), e, key) then |events| + 1 else LastUse(max, events, key)
  {
    assert (events + [e])[..|events|] == events;
  }

  // ---------- what one event does to the order ----------

  /** The entries of the other keys, in their old order, short of the last ones. */
  ghost predicate Follow(rest: Cache, c: Cache, key: string) {
    exists from: seq<nat> :: |from| == |rest| && Picks(rest, c, key, from)
  }

  ghost predicate Picks(rest: Cache, c: Cache, key: string, from: seq<nat>)
    requires |from| == |rest|
  {
    (forall i :: 0 <= i < |rest| ==> from[i] < |c| && rest[i] == c[from[i]] && rest[i].key != key) &&
    (forall i, j :: 0 <= i < j < |rest| ==> from[i] < from[j])
  }

  lemma DropFollows(c: Cache, i: nat, n: nat)
    requires DistinctKeys(c) && i < |c| && n <= |c| - 1
    ensures Follow(DropAt(c, i)[..n], c, c[i].key)
  {
    var rest := DropAt(c, i)[..n];
    var from := seq(n, j => if j < i then j else j + 1);
    forall j | 0 <= j < n
      ensures rest[j] == c[from[j]] && rest[j].key != c[i].key
    {
      assert DropAt(c, i)[j] == c[from[j]];
    }
    assert Picks(rest, c, c[i].key, from);
  }

  lemma PrefixFollows(c: Cache, key: string, n: nat)
    requires n <= |c| && !HasKey(c, key)
    ensures Follow(c[..n], c, key)
  {
    var from := seq(n, j => j);
    assert Picks(c[..n], c, key, from);
  }

  /** A use brings its entry to the front and leaves the rest in order. */
  ghost predicate Fronted(c: Cache, d: Cache, key: string) {
    d != [] && d[0].key == key && Follow(d[1..], c, key)
  }

  lemma ToFrontFronts(c: Cache, e: CacheEntry, i: nat)
    requires DistinctKeys(c) && i < |c| && e.key == c[i].key
    ensures ToFront(c[i := e], i)[0] == e && Fronted(c, ToFront(c[i := e], i), e.key)
    ensures |ToFront(c[i := e], i)| == |c| && ToFront(c[i := e], i)[1..] == DropAt(c, i)
  {
    DropFollows(c, i, |c| - 1);
    assert DropAt(c[i := e], i) == DropAt(c, i);
    assert DropAt(c, i)[..|c| - 1] == DropAt(c, i);
    assert ToFront(c[i := e], i)[1..] == DropAt(c, i);
  }

  /** The other keys' entries after a store: all of them, but for the last when the key is new and the cache full. */
  function Others(c: Cache, max: nat, key: string): Cache
    requires max > 0
  {
    if HasKey(c, key) then DropAt(c, KeyIndex(c, key)) else if |c| == max then c[..max - 1] else c
  }

  lemma PushKnown(c: Cache, max: nat, e: CacheEntry)
    requires |c| <= max && HasKey(c, e.key)
    ensures Push(c, max, e) == [e] + DropAt(c, KeyIndex(c, e.key))
  {
    assert |DropAt(c, KeyIndex(c, e.key))| == |c| - 1;
  }

  lemma PushNew(c: Cache, max: nat, e: CacheEntry)
    requires |c| <= max && max > 0 && !HasKey(c, e.key)
    ensures Push(c, max, e) == [e] + if |c| == max then c[..max - 1] else c
  {
    hide KeyIndex;
    if |c| == max {
      assert ([e] + c)[..max] == [e] + c[..max - 1];
    }
  }

  lemma PushFronts(c: Cache, max: nat, e: CacheEntry)
    requires DistinctKeys(c) && |c| <= max && max > 0
    ensures Push(c, max, e) != [] && Push(c, max, e)[0] == e && Fronted(c, Push(c, max, e), e.key)
    ensures |Push(c, max, e)| <= max
    ensures Push(c, max, e)[1..] == Others(c, max, e.key)
  {
    hide Push, KeyIndex, DropAt, Follow, DistinctKeys;
    var d := Push(c, max, e);
    if HasKey(c, e.key) {
      var i := KeyIndex(c, e.key);
      PushKnown(c, max, e);
      DropIsShorter(c, i);
      DropFollows(c, i, |c| - 1);
      assert d[1..] == DropAt(c, i) == DropAt(c, i)[..|c| - 1];
    } else {
      PushNew(c, max, e);
      var n := if |c| == max then max - 1 else |c|;
      PrefixFollows(c, e.key, n);
      assert d[1..] == c[..n];
    }
  }

  lemma DropIsShorter(c: Cache, i: nat)
    requires i < |c|
    ensures |DropAt(c, i)| == |c| - 1
  {
  }

  /** A hit comes first and is what was found; a miss or a conflict changes nothing. */
  lemma HitComesFirst(c: Cache, key: string, fp: Fingerprint)
    requires DistinctKeys(c)
    ensures var look, d := LookupResult(c, key, fp), AfterLookup(c, key, fp);
            if look.Hit? then Fronted(c, d, key) && d[0] == look.entry && |d| == |c| else d == c
    ensures LookupResult(c, key, fp).Hit? ==>
              LookupResult(c, key, fp).entry in c && LookupResult(c, key, fp).entry.key == key &&
              LookupResult(c, key, fp).entry.fp == fp
    ensures LookupResult(c, key, fp).Conflict? <==>
              key != "" && exists i :: 0 <= i < |c| && c[i].key == key && c[i].fp != fp
    ensures LookupResult(c, key, fp).Miss? <==> key == "" || forall i :: 0 <= i < |c| ==> c[i].key != key
  {
    if HasKey(c, key) {
      var i := KeyIndex(c, key);
      ToFrontFronts(c, c[i], i);
      assert c[i := c[i]] == c;
    }
  }

  /** A stored plan comes first, with the result that was stored for the same request, if any. */
  lemma StoredPlanComesFirst(c: Cache, max: nat, key: string, fp: Fingerprint, p: Plan)
    requires DistinctKeys(c) && |c| <= max && max > 0 && key != ""
    ensures var d, look := AfterStorePlan(c, max, key, fp, p), LookupResult(c, key, fp);
            Fronted(c, d, key) && |d| <= max &&
            d[0] == CacheEntry(key, fp, Some(p), if look.Hit? then look.entry.apply else None) &&
            d[1..] == Others(c, max, key)
  {
    if HasKey(c, key) && EntryOf(c, key).fp == fp {
      var i := KeyIndex(c, key);
      ToFrontFronts(c, c[i].(plan := Some(p)), i);
    } else {
      PushFronts(c, max, CacheEntry(key, fp, Some(p), None));
    }
  }

  lemma StoredApplyComesFirst(c: Cache, max: nat, key: string, fp: Fingerprint, r: ApplyResult)
    requires DistinctKeys(c) && |c| <= max && max > 0 && key != ""
    ensures var d, look := AfterStoreApply(c, max, key, fp, r), LookupResult(c, key, fp);
            Fronted(c, d, key) && |d| <= max &&
            d[0] == CacheEntry(key, fp, if look.Hit? then look.entry.plan else None, Some(r)) &&
            d[1..] == Others(c, max, key)
  {
    if HasKey(c, key) && EntryOf(c, key).fp == fp {
      var i := KeyIndex(c, key);
      ToFrontFronts(c, c[i].(apply := Some(r)), i);
    } else {
      PushFronts(c, max, CacheEntry(key, fp, None, Some(r)));
    }
  }

  lemma EvictDropsTheKey(c: Cache, key: string)
    requires DistinctKeys(c) && key != ""
    ensures Follow(AfterEvict(c, key), c, key)
    ensures forall e :: e in c && e.key != key ==> e in AfterEvict(c, key)
  {
    if HasKey(c, key) {
      var i := KeyIndex(c, key);
      DropFollows(c, i, |c| - 1);
      assert DropAt(c, i)[..|c| - 1] == DropAt(c, i);
      SplitAround(c, i);
      forall e | e in c && e.key != key
        ensures e in DropAt(c, i)
      {
        assert e in c[..i] + [c[i]] + c[i + 1..];
      }
    } else {
      PrefixFollows(c, key, |c|);
      assert c[..|c|] == c;
    }
  }

  // ---------- every run ----------

  /** Most recently used first, by a measure of when each key was last used. */
  ghost predicate ByRecency(c: Cache, use: string -> nat) {
    forall i, j :: 0 <= i < j < |c| ==> use(c[i].key) > use(c[j].key)
  }

  ghost predicate Below(c: Cache, use: string -> nat, now: nat) {
    forall i :: 0 <= i < |c| ==> 0 < use(c[i].key) <= now
  }

  lemma FollowKeepsRecency(rest: Cache, c: Cache, key: string, use: string -> nat, after: string -> nat, now: nat)
    requires ByRecency(c, use) && Below(c, use, now) && DistinctKeys(c) && Follow(rest, c, key)
    requires forall k :: k != key ==> after(k) == use(k)
    ensures ByRecency(rest, after) && Below(rest, after, now) && DistinctKeys(rest)
    ensures forall i :: 0 <= i < |rest| ==> rest[i].key != key
  {
    var from: seq<nat> :| |from| == |rest| && Picks(rest, c, key, from);
  }

  lemma FrontedKeepsRecency(c: Cache, d: Cache, key: string, use: string -> nat, after: string -> nat, now: nat)
    requires ByRecency(c, use) && Below(c, use, now) && DistinctKeys(c) && Fronted(c, d, key)
    requires (forall k :: k != key ==> after(k) == use(k)) && after(key) == now + 1
    ensures ByRecency(d, after) && Below(d, after, now + 1) && DistinctKeys(d)
  {
    FollowKeepsRecency(d[1..], c, key, use, after, now);
    hide Follow;
    assert d == [d[0]] + d[1..];
  }

  ghost predicate Recent(max: nat, events: seq<Event>) {
    var c, use := RunCache(max, events), k => LastUse(max, events, k);
    ByRecency(c, use) && Below(c, use, |events|) && DistinctKeys(c) && |c| <= max
  }

  lemma UsedEvent(max: nat, events: seq<Event>, e: Event)
    requires !e.Clear? && Recent(max, events) && Uses(RunCache(max, events), e, e.key) && max > 0
    ensures Recent(max, events + [e])
  {
    hide RunCache, Uses, Follow;
    var c, d := RunCache(max, events), AfterEvent(RunCache(max, events), max, e);
    OneMore(max, events, e, "");
    forall k
      ensures LastUse(max, events + [e], k) == if k == e.key then |events| + 1 else LastUse(max, events, k)
    {
      OneMore(max, events, e, k);
      UsesOnlyItsKey(c, e, k);
    }
    UseFronts(c, max, e);
    FrontedKeepsRecency(c, d, e.key, k => LastUse(max, events, k), k => LastUse(max, events + [e], k), |events|);
  }

  lemma UsesOnlyItsKey(c: Cache, e: Event, k: string)
    ensures Uses(c, e, k) ==> !e.Clear? && k == e.key
  {
  }

  lemma UseFronts(c: Cache, max: nat, e: Event)
    requires DistinctKeys(c) && |c| <= max && max > 0 && !e.Clear? && Uses(c, e, e.key)
    ensures Fronted(c, AfterEvent(c, max, e), e.key) && |AfterEvent(c, max, e)| <= max
  {
    hide Fronted, AfterLookup, AfterStorePlan, AfterStoreApply;
    match e
    case Look(key, fp) => HitComesFirst(c, key, fp);
    case StorePlan(key, fp, p) => StoredPlanComesFirst(c, max, key, fp, p);
    case StoreApply(key, fp, r) => StoredApplyComesFirst(c, max, key, fp, r);
    case Evict(_) =>
  }

  lemma QuietEvent(max: nat, events: seq<Event>, e: Event)
    requires Recent(max, events) && forall k :: !Uses(RunCache(max, events), e, k)
    ensures Recent(max, events + [e])
  {
    hide RunCache, Uses, Follow, AfterEvict;
    var c, d := RunCache(max, events), AfterEvent(RunCache(max, events), max, e);
    OneMore(max, events, e, "");
    forall k
      ensures LastUse(max, events + [e], k) == LastUse(max, events, k)
    {
      OneMore(max, events, e, k);
    }
    if e.Evict? && e.key != "" {
      EvictDropsTheKey(c, e.key);
      FollowKeepsRecency(d, c, e.key, k => LastUse(max, events, k), k => LastUse(max, events + [e], k), |events|);
      FollowIsNoLonger(d, c, e.key);
    } else if !e.Clear? {
      QuietKeeps(c, max, e);
      RecencySame(c, k => LastUse(max, events, k), k => LastUse(max, events + [e], k), |events|);
    }
  }

  lemma RecencySame(c: Cache, use: string -> nat, after: string -> nat, now: nat)
    requires ByRecency(c, use) && Below(c, use, now) && forall k :: after(k) == use(k)
    ensures ByRecency(c, after) && Below(c, after, now + 1)
  {
  }

  lemma OldestIsLast(c: Cache, use: string -> nat, i: nat)
    requires ByRecency(c, use) && i < |c|
    ensures i == |c| - 1 <==> forall j :: 0 <= j < |c| && j != i ==> use(c[j].key) > use(c[i].key)
  {
    if i < |c| - 1 {
      assert use(c[i].key) > use(c[i + 1].key);
    }
  }

  lemma FollowIsNoLonger(rest: Cache, c: Cache, key: string)
    requires Follow(rest, c, key)
    ensures |rest| <= |c|
  {
    var from: seq<nat> :| |from| == |rest| && Picks(rest, c, key, from);
    var i := 0;
    while i < |rest|
      invariant 0 <= i <= |rest| && (i > 0 ==> from[i - 1] >= i - 1)
    {
      i := i + 1;
    }
  }

  lemma QuietKeeps(c: Cache, max: nat, e: Event)
    requires !e.Clear? && !Uses(c, e, e.key) && (e.Evict? ==> e.key == "")
    ensures AfterEvent(c, max, e) == c
  {
  }

  /** After every run each entry has been used, and those nearer the front more recently. */
  lemma {:induction false} RunsKeepRecency(max: nat, events: seq<Event>)
    requires max > 0
    ensures Recent(max, events)
  {
    hide Uses;
    if events != [] {
      var front, e := events[..|events| - 1], events[|events| - 1];
      RunsKeepRecency(max, front);
      assert front + [e] == events;
      hide Recent, RunCache;
      if !e.Clear? && Uses(RunCache(max, front), e, e.key) {
        UsedEvent(max, front, e);
      } else {
        forall k
          ensures !Uses(RunCache(max, front), e, k)
        {
          UsesOnlyItsKey(RunCache(max, front), e, k);
        }
        QuietEvent(max, front, e);
      }
    }
  }

  ghost predicate HoldsKey(c: Cache, key: string) {
    exists i :: 0 <= i < |c| && c[i].key == key
  }

  /**
   * Over every run: the only entry that storing under another key costs is, in a full cache without
   * that key, the one whose last hit or store is the oldest.
   */
  lemma PushedOutIsLeastRecentlyUsed(max: nat, events: seq<Event>, e: Event, i: nat)
    requires max > 0 && Stores(e)
    requires i < |RunCache(max, events)| && RunCache(max, events)[i].key != e.key
    ensures var c := RunCache(max, events);
            !HoldsKey(RunCache(max, events + [e]), c[i].key) <==>
            |c| == max && !HoldsKey(c, e.key) &&
            forall j :: 0 <= j < |c| && j != i ==> LastUse(max, events, c[j].key) > LastUse(max, events, c[i].key)
  {
    hide RunCache, LastUse, AfterEvent, HoldsKey, DistinctKeys, ByRecency, Below;
    RunsKeepRecency(max, events);
    OneMore(max, events, e, "");
    StoreCostsTheLast(RunCache(max, events), max, e, i);
    OldestIsLast(RunCache(max, events), k => LastUse(max, events, k), i);
  }

  lemma StoreCostsTheLast(c: Cache, max: nat, e: Event, i: nat)
    requires max > 0 && Stores(e) && DistinctKeys(c) && |c| <= max && i < |c| && c[i].key != e.key
    ensures !HoldsKey(AfterEvent(c, max, e), c[i].key) <==> |c| == max && !HoldsKey(c, e.key) && i == |c| - 1
  {
    hide AfterStorePlan, AfterStoreApply, Follow, DropAt;
    var d := AfterEvent(c, max, e);
    if e.StorePlan? {
      StoredPlanComesFirst(c, max, e.key, e.fp, e.plan);
    } else {
      StoredApplyComesFirst(c, max, e.key, e.fp, e.result);
    }
    assert HasKey(c, e.key) <==> HoldsKey(c, e.key);
    if !HoldsKey(c, e.key) {
      if i < |d| - 1 {
        assert d[1 + i] == d[1..][i] == c[i];
      }
    } else {
      var k := KeyIndex(c, e.key);
      DropKeepsTheOther(c, k, i);
      assert d[1 + (if i < k then i else i - 1)] == c[i];
    }
  }

  lemma DropKeepsTheOther(c: Cache, k: nat, i: nat)
    requires i < |c| && k < |c| && i != k
    ensures var at := if i < k then i else i - 1; at < |DropAt(c, k)| && DropAt(c, k)[at] == c[i]
  {
  }
}
