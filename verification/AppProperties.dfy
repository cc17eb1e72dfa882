/** What Plan, Apply and Reset promise: atomicity, drift, stable candidates and idempotent keys. */
module AppProperties {
  import opened Prelude
  import opened InboxSpec
  import opened MemoryStore
  import opened Protocol
  import opened LruSpec
  import opened LruRuns
  import opened AppSpec

  // ---------- all or nothing ----------

  /** The snapshots and, up to what other callers did meanwhile, the inbox. */
  ghost predicate Untouched(h: Host, t: Host, inbox: Inbox) {
    t.active == h.active && t.previous == h.previous && t.bootstrap == h.bootstrap && t.inbox == inbox
  }

  /**
   * An Apply that fails changes no snapshot and nothing of the inbox; one that succeeds either replays
   * a stored result and changes neither, or moves the generation by one, keeps the displaced snapshot
   * as the previous one and leaves the bootstrap alone.
   */
  lemma ApplyIsAllOrNothing(h: Host, max: nat, req: ChangeIn, verdict: bool, between: seq<Op>)
    requires HostOK(h, max)
    ensures var r := ApplyStep(h, max, req, verdict, between);
            (r.1.Err? ==> Untouched(h, r.0, h.inbox) || Untouched(h, r.0, Run(h.inbox, between))) &&
            (r.1.Ok? ==>
               Untouched(h, r.0, h.inbox) ||
               (r.0.active.value.generation == h.active.value.generation + 1 == r.1.value.generation &&
                r.0.active.value.revision == r.1.value.runtime == r.1.value.plan.candidate &&
                r.0.previous == h.active && r.0.bootstrap == h.bootstrap))
  {
    hide AfterLookup, LookupResult, AfterStoreApply, WellFormed, CacheOK, Run, AfterEvict;
    var next := BuildCandidate(h.active, req, verdict);
    if next.Ok? {
      CandidateAnswers(h, max, req, verdict, false);
    }
  }

  /** `now` is `mid` cut at the old end to its own caps, or `mid` itself when no caps were named. */
  ghost predicate CutsOldEnd(mid: Inbox, now: Inbox, ops: seq<Operation>) {
    var k := Excess(mid.mail, now.caps.maxMessages, now.caps.maxBytes);
    k <= |mid.mail| && now.mail == mid.mail[k..] && now.epoch == mid.epoch &&
    (!AnyReplaceStoreCaps(ops) ==> now == mid)
  }

  /** An Apply that succeeds afresh leaves an inbox under the new caps, cut from the old one at the old end. */
  lemma ApplyEvictsOnlyTheExcess(h: Host, max: nat, req: ChangeIn, verdict: bool, between: seq<Op>)
    requires HostOK(h, max) && LegalStep(h, DoApply(req, verdict, between))
    requires ApplyStep(h, max, req, verdict, between).1.Ok?
    requires !Untouched(h, ApplyStep(h, max, req, verdict, between).0, h.inbox)
    ensures CutsOldEnd(Run(h.inbox, between), ApplyStep(h, max, req, verdict, between).0.inbox, req.operations)
  {
    RunKeepsWellFormed(h.inbox, between);
    hide AfterLookup, LookupResult, HostOK, LegalStep, Run, WellFormed, CutsOldEnd, ApplyFresh;
    FreshCutsOldEnd(h.(cache := AfterLookup(h.cache, req.key, FingerprintOf(req))), max, req, verdict, between);
  }

  lemma FreshCutsOldEnd(h: Host, max: nat, req: ChangeIn, verdict: bool, between: seq<Op>)
    requires WellFormed(Run(h.inbox, between)) && AppSpec.ApplyFresh(h, max, req, verdict, between).1.Ok?
    ensures CutsOldEnd(Run(h.inbox, between), AppSpec.ApplyFresh(h, max, req, verdict, between).0.inbox, req.operations)
  {
    hide Run, BuildCandidate, WellFormed, CheckStoreCaps, CommitCandidate, CutsOldEnd;
    var next := BuildCandidate(h.active, req, verdict).value;
    var evicts := CheckStoreCaps(h.inbox, next, req).value;
    CommitCutsOldEnd(h, max, req, next, evicts, Run(h.inbox, between));
  }

  lemma CommitCutsOldEnd(h: Host, max: nat, req: ChangeIn, next: Snapshot, evicts: bool, mid: Inbox)
    requires WellFormed(mid) && CommitCandidate(h, max, req, next, evicts, mid).1.Ok?
    ensures CutsOldEnd(mid, CommitCandidate(h, max, req, next, evicts, mid).0.inbox, req.operations)
  {
    hide AfterStoreApply, InstallCaps, Excess, WellFormed, AnyReplaceStoreCaps;
    InstallCutsOldEnd(mid, next, req);
  }

  lemma InstallCutsOldEnd(mid: Inbox, next: Snapshot, req: ChangeIn)
    requires WellFormed(mid) && InstallCaps(mid, next, req).Ok?
    ensures var t := InstallCaps(mid, next, req).value;
            var k := Excess(mid.mail, t.caps.maxMessages, t.caps.maxBytes);
            k <= |mid.mail| && t.mail == mid.mail[k..] && t.epoch == mid.epoch
    ensures !AnyReplaceStoreCaps(req.operations) ==> InstallCaps(mid, next, req).value == mid
  {
    var caps := InstallCaps(mid, next, req).value.caps;
    ExcessIsLeast(mid.mail, caps.maxMessages, caps.maxBytes);
    assert mid.mail[0..] == mid.mail;
  }

  /** After CheckOptions nothing can fail, so a Reset that fails has changed nothing at all. */
  lemma ResetIsAllOrNothing(h: Host, max: nat, env: ResetEnv)
    requires HostOK(h, max)
    ensures var r := ResetStep(h, env);
            (r.1.Err? ==> r.0 == h) &&
            (r.1.Ok? ==>
               r.0.active == r.0.bootstrap && r.0.previous == h.active && r.0.cache == [] &&
               r.0.active.value.generation == h.active.value.generation + 1 &&
               r.0.inbox.mail == [] && r.0.inbox.epoch == h.inbox.epoch + 1 &&
               !Drifted(r.0.active.value) && !r.1.value.plan.drifted)
    ensures ResetCandidate(h.active, h.bootstrap, env).Ok? ==>
              var o := NormalizeOptions(ResetCandidate(h.active, h.bootstrap, env).value.canonical.store);
              o.Ok? && NormalizeOptions(o.value) == o
  {
    var next := ResetCandidate(h.active, h.bootstrap, env);
    if next.Ok? {
      NormalizeIsIdempotent(NormalizeOptions(next.value.canonical.store).value);
    }
  }

  // ---------- drift ----------

  /** Over every run, drift is exactly a difference between the active and the bootstrap state. */
  lemma DriftIsDifference(h: Host, max: nat, steps: seq<Step>)
    requires HostOK(h, max) && max > 0 && LegalSteps(h, max, steps)
    ensures var t := AfterAll(h, max, steps);
            t.active.Some? && t.bootstrap.Some? &&
            (Drifted(t.active.value) <==> t.active.value.canonical != t.bootstrap.value.canonical) &&
            t.inbox.caps == CapsOf(t.active.value.canonical.store)
  {
    RunsKeepHost(h, max, steps);
  }

  // ---------- stable candidates ----------

  /** The request a Plan or an Apply answers. */
  function RequestOf(st: Step): Option<ChangeIn> {
    match st
    case DoPlan(req, _) => Some(req)
    case DoApply(req, _, _) => Some(req)
    case _ => None
  }

  /** The plan in its answer, when it succeeds. */
  ghost function AnswerOf(h: Host, max: nat, st: Step): Option<Plan> {
    match st
    case DoPlan(req, verdict) =>
      var r := PlanStep(h, max, req, verdict).1;
      if r.Ok? then Some(r.value) else None
    case DoApply(req, verdict, between) =>
      var r := ApplyStep(h, max, req, verdict, between).1;
      if r.Ok? then Some(r.value.plan) else None
    case _ => None
  }

  lemma AnswerIsTheRequests(h: Host, max: nat, st: Step)
    requires HostOK(h, max) && max > 0 && LegalStep(h, st) && AnswerOf(h, max, st).Some?
    ensures RequestOf(st).Some? && Answers(AnswerOf(h, max, st).value, FingerprintOf(RequestOf(st).value))
  {
    hide PlanStep, ApplyStep, HostOK, Answers;
    match st
    case DoPlan(req, verdict) => PlanKeepsHost(h, max, req, verdict);
    case DoApply(req, verdict, between) => ApplyKeepsHost(h, max, req, verdict, between);
  }

  /**
   * Any two answers, each from a Plan or an Apply, for one expected revision and one list of operations
   * start from that revision and name one candidate, whatever ran in between and whether cached or not.
   */
  lemma SameRequestSameCandidate(h: Host, max: nat, steps: seq<Step>, a: Step, b: Step)
    requires HostOK(h, max) && max > 0 && LegalSteps(h, max, steps)
    requires LegalStep(h, a) && LegalStep(AfterAll(h, max, steps), b)
    requires AnswerOf(h, max, a).Some? && AnswerOf(AfterAll(h, max, steps), max, b).Some?
    requires RequestOf(a).Some? && RequestOf(b).Some?
    requires RequestOf(a).value.expected == RequestOf(b).value.expected
    requires RequestOf(a).value.operations == RequestOf(b).value.operations
    ensures var p, q := AnswerOf(h, max, a).value, AnswerOf(AfterAll(h, max, steps), max, b).value;
            p.candidate == q.candidate && p.previous == q.previous == RequestOf(a).value.expected
  {
    RunsKeepHost(h, max, steps);
    AnswerIsTheRequests(h, max, a);
    AnswerIsTheRequests(AfterAll(h, max, steps), max, b);
    hide PlanStep, ApplyStep, HostOK, AfterAll, AnswerOf;
  }

  // ---------- idempotent keys ----------

  /** While a key's entry holds an apply result, Apply with that key never swaps: it replays or conflicts. */
  lemma AppliedKeyNeverSwapsAgain(h: Host, max: nat, e: CacheEntry, req: ChangeIn, verdict: bool, between: seq<Op>)
    requires HostOK(h, max) && e in h.cache && e.apply.Some? && req.key == e.key
    ensures var r := ApplyStep(h, max, req, verdict, between);
            Untouched(h, r.0, h.inbox) && e in r.0.cache &&
            (r.1 == Ok(e.apply.value) || r.1 == Err(IdempotencyConflict)) &&
            (r.1.Ok? <==> e.fp == FingerprintOf(req) && e.apply.value.runtime == h.active.value.revision)
  {
    EntryFound(h.cache, e);
    LookupKeepsCache(h.cache, max, req.key, FingerprintOf(req));
  }

  /**
   * A Plan under the same key is the one request that can drop an applied entry on the spot: exactly
   * when it repeats the request, no plan was stored, and the active revision has moved on.
   */
  lemma PlanForgetsAppliedExactlyWhenStale(h: Host, max: nat, e: CacheEntry, req: ChangeIn, verdict: bool)
    requires HostOK(h, max) && max > 0 && e in h.cache && e.apply.Some? && req.key == e.key
    ensures var c := PlanStep(h, max, req, verdict).0.cache;
            var stale := e.fp == FingerprintOf(req) && e.plan.None? && req.expected != h.active.value.revision;
            (stale <==> forall x :: x in c ==> x.key != e.key) &&
            (!stale ==> exists x :: x in c && x.key == e.key && x.apply == e.apply && x.fp == e.fp)
  {
    var fp := FingerprintOf(req);
    EntryFound(h.cache, e);
    LookupKeepsCache(h.cache, max, req.key, fp);
    var c := AfterLookup(h.cache, req.key, fp);
    assert e in c && EntryOK(e);
    var t := PlanStep(h, max, req, verdict).0.cache;
    var next := BuildCandidate(h.active, req, verdict);
    if e.fp != fp || e.plan.Some? {
      assert e in t;
    } else if next.Err? {
      ForgetKeepsCache(c, max, req.key, next.error);
      assert !next.error.RevisionConflict? ==> e in t;
    } else {
      CandidateAnswers(h, max, req, verdict, false);
      CandidateAnswers(h, max, req, verdict, true);
      StorePlanKeepsCache(c, max, req.key, fp, PlanFrom(h.active, next.value, req.operations, false));
      StorePlanKeepsCache(c, max, req.key, fp, PlanFrom(h.active, next.value, req.operations, true));
      var evicts := CheckStoreCaps(h.inbox, next.value, req);
      if evicts.Ok? {
        assert e.(plan := Some(PlanFrom(h.active, next.value, req.operations, evicts.value))) in t;
      } else {
        assert e in t;
      }
    }
  }

  /** The three ways an applied entry can leave the cache. */
  ghost predicate Displaces(h: Host, max: nat, e: CacheEntry, st: Step) {
    match st
    case DoReset(env) => true
    case DoPlan(req, _) =>
      (req.key == e.key && e.fp == FingerprintOf(req) && e.plan.None? && req.expected != RevisionOf(h.active)) ||
      PushesOut(h.cache, max, e, req.key)
    case DoApply(req, _, _) => PushesOut(h.cache, max, e, req.key)
    case DoInbox(_) => false
  }

  /** The cache is full, the key is new, and the entry is the least recently used. */
  ghost predicate PushesOut(c: Cache, max: nat, e: CacheEntry, key: string) {
    key != e.key && !HasKey(c, key) && |c| == max && |c| > 0 && c[|c| - 1] == e
  }

  ghost predicate Remembers(c: Cache, e: CacheEntry) {
    exists x :: x in c && x.key == e.key && x.fp == e.fp && x.apply == e.apply
  }

  /** Any other step leaves the key's apply result in place. */
  lemma AppliedEntryStays(h: Host, max: nat, e: CacheEntry, st: Step)
    requires HostOK(h, max) && max > 0 && LegalStep(h, st) && e in h.cache && e.apply.Some?
    requires !Displaces(h, max, e, st)
    ensures Remembers(After(h, max, st).cache, e)
  {
    match st
    case DoPlan(req, verdict) =>
      if req.key == e.key {
        PlanForgetsAppliedExactlyWhenStale(h, max, e, req, verdict);
      } else {
        OtherPlanKeeps(h, max, e, req, verdict);
        assert e in After(h, max, st).cache;
      }
    case DoApply(req, verdict, between) =>
      if req.key == e.key {
        AppliedKeyNeverSwapsAgain(h, max, e, req, verdict, between);
      } else {
        OtherApplyKeeps(h, max, e, req, verdict, between);
      }
      assert e in After(h, max, st).cache;
    case DoInbox(op) =>
      assert e in After(h, max, st).cache;
  }

  lemma OtherPlanKeeps(h: Host, max: nat, e: CacheEntry, req: ChangeIn, verdict: bool)
    requires HostOK(h, max) && max > 0 && e in h.cache && req.key != e.key
    requires !PushesOut(h.cache, max, e, req.key)
    ensures e in PlanStep(h, max, req, verdict).0.cache
  {
    var fp := FingerprintOf(req);
    LookupKeepsCache(h.cache, max, req.key, fp);
    LookupKeepsLast(h.cache, req.key, fp);
    hide CacheOK, AfterLookup, LookupResult, AfterStorePlan, BuildCandidate, WellFormed, HasKey;
    var c := AfterLookup(h.cache, req.key, fp);
    var next := BuildCandidate(h.active, req, verdict);
    if next.Err? {
      ForgetKeepsCache(c, max, req.key, next.error);
    } else {
      CandidateAnswers(h, max, req, verdict, false);
      CandidateAnswers(h, max, req, verdict, true);
      StorePlanKeepsCache(c, max, req.key, fp, PlanFrom(h.active, next.value, req.operations, false));
      StorePlanKeepsCache(c, max, req.key, fp, PlanFrom(h.active, next.value, req.operations, true));
    }
  }

  /** A lookup that misses moves nothing, so what is last stays last. */
  lemma LookupKeepsLast(c: Cache, key: string, fp: Fingerprint)
    ensures !HasKey(c, key) ==> AfterLookup(c, key, fp) == c
    ensures HasKey(c, key) && DistinctKeys(c) ==> HasKey(AfterLookup(c, key, fp), key)
  {
    if HasKey(c, key) && DistinctKeys(c) && LookupResult(c, key, fp).Hit? {
      FrontKeepsEntries(c, KeyIndex(c, key));
      EntryFound(AfterLookup(c, key, fp), EntryOf(c, key));
    }
  }

  lemma OtherApplyKeeps(h: Host, max: nat, e: CacheEntry, req: ChangeIn, verdict: bool, between: seq<Op>)
    requires HostOK(h, max) && max > 0 && e in h.cache && req.key != e.key
    requires !PushesOut(h.cache, max, e, req.key)
    ensures e in ApplyStep(h, max, req, verdict, between).0.cache
  {
    hide CacheOK, AfterLookup, LookupResult, WellFormed, AppSpec.ApplyFresh, SnapshotOK, HasKey;
    LookupKeepsCache(h.cache, max, req.key, FingerprintOf(req));
    LookupKeepsLast(h.cache, req.key, FingerprintOf(req));
    var looked := h.(cache := AfterLookup(h.cache, req.key, FingerprintOf(req)));
    assert HasKey(h.cache, req.key) ==> HasKey(looked.cache, req.key) by {
      CacheKeysDistinct(h.cache, max);
    }
    FreshApplyKeeps(looked, max, e, req, verdict, between);
  }

  lemma CacheKeysDistinct(c: Cache, max: nat)
    requires CacheOK(c, max)
    ensures DistinctKeys(c)
  {
  }

  lemma FreshApplyKeeps(h: Host, max: nat, e: CacheEntry, req: ChangeIn, verdict: bool, between: seq<Op>)
    requires HostOK(h, max) && max > 0 && e in h.cache && req.key != e.key
    requires !PushesOut(h.cache, max, e, req.key)
    ensures e in AppSpec.ApplyFresh(h, max, req, verdict, between).0.cache
  {
    hide CacheOK, BuildCandidate, WellFormed, Run, CommitCandidate, SnapshotOK, HasKey;
    var next := BuildCandidate(h.active, req, verdict);
    if next.Err? {
      ForgetKeepsCache(h.cache, max, req.key, next.error);
    } else {
      CommitKeepsOthers(h, max, e, req, verdict, false, Run(h.inbox, between));
      CommitKeepsOthers(h, max, e, req, verdict, true, Run(h.inbox, between));
    }
  }

  lemma CommitKeepsOthers(h: Host, max: nat, e: CacheEntry, req: ChangeIn, verdict: bool, evicts: bool, mid: Inbox)
    requires HostOK(h, max) && max > 0 && e in h.cache && req.key != e.key
    requires !(|h.cache| == max && !HasKey(h.cache, req.key) && e == h.cache[|h.cache| - 1])
    requires BuildCandidate(h.active, req, verdict).Ok?
    ensures e in CommitCandidate(h, max, req, BuildCandidate(h.active, req, verdict).value, evicts, mid).0.cache
  {
    hide CacheOK, AfterStoreApply, BuildCandidate, WellFormed, HasKey, InstallCaps, Answers;
    var next := BuildCandidate(h.active, req, verdict).value;
    CandidateAnswers(h, max, req, verdict, evicts);
    StoreApplyKeepsCache(h.cache, max, req.key, FingerprintOf(req), ResultFrom(h.active, next, req.operations, evicts));
  }

  // ---------- what the cache answers ----------

  /** Fingerprints tell requests apart in everything but their keys. */
  lemma SameFingerprintSameRequest(a: ChangeIn, b: ChangeIn)
    ensures FingerprintOf(a) == FingerprintOf(b) <==> a.(key := b.key) == b
  {
  }

  /** The entry in front answers its own request, refuses any other under its key, and stays in front. */
  lemma FrontAnswers(c: Cache, key: string, fp: Fingerprint)
    requires c != [] && c[0].key == key && key != ""
    ensures LookupResult(c, key, fp) == (if c[0].fp == fp then Hit(c[0]) else Conflict)
    ensures AfterLookup(c, key, fp) == c
  {
    assert ToFront(c, 0) == c;
  }

  lemma PlannedComesFirst(h: Host, max: nat, req: ChangeIn, verdict: bool)
    requires HostOK(h, max) && max > 0 && req.key != "" && PlanStep(h, max, req, verdict).1.Ok?
    ensures var (t, p) := PlanStep(h, max, req, verdict);
            t.cache != [] && t.cache[0].key == req.key && t.cache[0].fp == FingerprintOf(req) &&
            t.cache[0].plan == Some(p.value)
  {
    var fp := FingerprintOf(req);
    LookupKeepsCache(h.cache, max, req.key, fp);
    HitComesFirst(h.cache, req.key, fp);
    hide AfterLookup, LookupResult, AfterStorePlan, BuildCandidate, CheckStoreCaps, WellFormed, Follow;
    var c := AfterLookup(h.cache, req.key, fp);
    var next := BuildCandidate(h.active, req, verdict);
    if next.Ok? && CheckStoreCaps(h.inbox, next.value, req).Ok? {
      var evicts := CheckStoreCaps(h.inbox, next.value, req).value;
      StoredPlanComesFirst(c, max, req.key, fp, PlanFrom(h.active, next.value, req.operations, evicts));
    }
  }

  /** A plan is replayed as it was, whatever has changed outside, and its key refused to any other request. */
  lemma PlanIsReplayed(h: Host, max: nat, req: ChangeIn, verdict: bool, again: ChangeIn, later: bool)
    requires HostOK(h, max) && max > 0 && req.key != "" && PlanStep(h, max, req, verdict).1.Ok?
    requires again.key == req.key
    ensures var (t, p) := PlanStep(h, max, req, verdict);
            PlanStep(t, max, again, later) == (t, if again == req then p else Err(IdempotencyConflict))
  {
    PlannedComesFirst(h, max, req, verdict);
    var t := PlanStep(h, max, req, verdict).0;
    FrontAnswers(t.cache, req.key, FingerprintOf(again));
    SameFingerprintSameRequest(again, req);
    hide PlanStep, LookupResult, AfterLookup, PlanFresh;
    PlanFromCache(t, max, again, later);
  }

  lemma PlanFromCache(h: Host, max: nat, req: ChangeIn, verdict: bool)
    requires var look := LookupResult(h.cache, req.key, FingerprintOf(req));
             look.Conflict? || (look.Hit? && look.entry.plan.Some?)
    requires AfterLookup(h.cache, req.key, FingerprintOf(req)) == h.cache
    ensures PlanStep(h, max, req, verdict) ==
            (h, var look := LookupResult(h.cache, req.key, FingerprintOf(req));
                if look.Conflict? then Err(IdempotencyConflict) else Ok(look.entry.plan.value))
  {
    hide LookupResult, AfterLookup, PlanFresh;
  }

  // ---------- the calls on the cache ----------

  /** The calls on the cache that one step makes, in order. */
  ghost function CallsOf(h: Host, max: nat, st: Step): seq<Event> {
    match st
    case DoPlan(req, verdict) =>
      [Look(req.key, FingerprintOf(req))] +
      (var look := LookupResult(h.cache, req.key, FingerprintOf(req));
       if look.Conflict? || (look.Hit? && look.entry.plan.Some?) then []
       else
         var next := BuildCandidate(h.active, req, verdict);
         if next.Err? then Forgets(req.key, next.error)
         else
           var evicts := CheckStoreCaps(h.inbox, next.value, req);
           if evicts.Err? then []
           else [Event.StorePlan(req.key, FingerprintOf(req),
                                 PlanFrom(h.active, next.value, req.operations, evicts.value))])
    case DoApply(req, verdict, between) =>
      [Look(req.key, FingerprintOf(req))] +
      (var look := LookupResult(h.cache, req.key, FingerprintOf(req));
       if look.Conflict? || (look.Hit? && look.entry.apply.Some?) then []
       else
         var next := BuildCandidate(h.active, req, verdict);
         if next.Err? then Forgets(req.key, next.error)
         else
           var r := ApplyStep(h, max, req, verdict, between).1;
           if r.Err? then [] else [Event.StoreApply(req.key, FingerprintOf(req), r.value)])
    case DoReset(env) => if ResetStep(h, env).1.Ok? then [Clear] else []
    case DoInbox(_) => []
  }

  function Forgets(key: string, e: DomainError): seq<Event> {
    if e.RevisionConflict? then [Evict(key)] else []
  }

  function AfterEvents(c: Cache, max: nat, events: seq<Event>): Cache
    decreases |events|
  {
    if events == [] then c else AfterEvents(AfterEvent(c, max, events[0]), max, events[1..])
  }

  lemma TwoEvents(c: Cache, max: nat, a: Event, b: Event)
    ensures AfterEvents(c, max, [a]) == AfterEvent(c, max, a)
    ensures AfterEvents(c, max, [a] + [b]) == AfterEvent(AfterEvent(c, max, a), max, b)
  {
    hide AfterEvent;
    assert [a][1..] == [] && ([a] + [b])[0] == a && ([a] + [b])[1..] == [b] && [b][1..] == [];
    assert AfterEvents(AfterEvent(c, max, a), max, [b]) == AfterEvent(AfterEvent(c, max, a), max, b);
  }

  lemma PlanIsItsCalls(h: Host, max: nat, req: ChangeIn, verdict: bool)
    ensures PlanStep(h, max, req, verdict).0.cache ==
            AfterEvents(h.cache, max, CallsOf(h, max, DoPlan(req, verdict)))
  {
    hide AfterLookup, LookupResult, AfterStorePlan, AfterEvict, BuildCandidate, CheckStoreCaps, AfterEvents;
    var look := Look(req.key, FingerprintOf(req));
    var calls := CallsOf(h, max, DoPlan(req, verdict));
    TwoEvents(h.cache, max, look, if |calls| > 1 then calls[1] else look);
    assert |calls| <= 1 ==> calls == [look];
    assert |calls| > 1 ==> calls == [look] + [calls[1]];
  }

  lemma ApplyIsItsCalls(h: Host, max: nat, req: ChangeIn, verdict: bool, between: seq<Op>)
    ensures ApplyStep(h, max, req, verdict, between).0.cache ==
            AfterEvents(h.cache, max, CallsOf(h, max, DoApply(req, verdict, between)))
  {
    hide AfterLookup, LookupResult, AfterStoreApply, AfterEvict, BuildCandidate, CheckStoreCaps, AfterEvents,
      InstallCaps, Run;
    var look := Look(req.key, FingerprintOf(req));
    var calls := CallsOf(h, max, DoApply(req, verdict, between));
    TwoEvents(h.cache, max, look, if |calls| > 1 then calls[1] else look);
    assert |calls| <= 1 ==> calls == [look];
    assert |calls| > 1 ==> calls == [look] + [calls[1]];
  }

  lemma StepIsItsCalls(h: Host, max: nat, st: Step)
    ensures After(h, max, st).cache == AfterEvents(h.cache, max, CallsOf(h, max, st))
  {
    hide PlanStep, ApplyStep;
    match st
    case DoPlan(req, verdict) => PlanIsItsCalls(h, max, req, verdict);
    case DoApply(req, verdict, between) => ApplyIsItsCalls(h, max, req, verdict, between);
    case DoReset(_) => TwoEvents(h.cache, max, Clear, Clear);
    case DoInbox(_) =>
  }

  /** All calls of a run. */
  ghost function CallsOfAll(h: Host, max: nat, steps: seq<Step>): seq<Event>
    decreases |steps|
  {
    if steps == [] then [] else CallsOf(h, max, steps[0]) + CallsOfAll(After(h, max, steps[0]), max, steps[1..])
  }

  lemma {:induction false} AfterBoth(c: Cache, max: nat, a: seq<Event>, b: seq<Event>)
    ensures AfterEvents(c, max, a + b) == AfterEvents(AfterEvents(c, max, a), max, b)
    decreases |a|
  {
    hide AfterEvent;
    if a == [] {
      assert a + b == b;
    } else {
      assert (a + b)[0] == a[0] && (a + b)[1..] == a[1..] + b;
      AfterBoth(AfterEvent(c, max, a[0]), max, a[1..], b);
    }
  }

  lemma {:induction false} RunIsItsCalls(h: Host, max: nat, steps: seq<Step>)
    ensures AfterAll(h, max, steps).cache == AfterEvents(h.cache, max, CallsOfAll(h, max, steps))
    decreases |steps|
  {
    hide After, CallsOf;
    if steps != [] {
      StepIsItsCalls(h, max, steps[0]);
      RunIsItsCalls(After(h, max, steps[0]), max, steps[1..]);
      AfterBoth(h.cache, max, CallsOf(h, max, steps[0]), CallsOfAll(After(h, max, steps[0]), max, steps[1..]));
    }
  }

  lemma {:induction false} FromEmpty(max: nat, events: seq<Event>)
    ensures AfterEvents([], max, events) == RunCache(max, events)
    decreases |events|
  {
    hide AfterEvent;
    if events != [] {
      var front, e := events[..|events| - 1], events[|events| - 1];
      FromEmpty(max, front);
      assert front + [e] == events;
      AfterBoth([], max, front, [e]);
      assert [e][1..] == [];
    }
  }

  /** Over every run from a boot: an entry that a step pushes out is the one used least recently. */
  lemma PushedOutIsOldest(h: Host, max: nat, steps: seq<Step>, e: CacheEntry, key: string, x: CacheEntry)
    requires max > 0 && h.cache == []
    requires PushesOut(AfterAll(h, max, steps).cache, max, e, key)
    requires x in AfterAll(h, max, steps).cache && x != e
    ensures var calls := CallsOfAll(h, max, steps);
            LastUse(max, calls, x.key) > LastUse(max, calls, e.key)
  {
    var calls := CallsOfAll(h, max, steps);
    RunIsItsCalls(h, max, steps);
    FromEmpty(max, calls);
    RunsKeepRecency(max, calls);
    hide CallsOfAll, AfterEvents, AfterAll, RunCache, LastUse, HasKey;
    var c := RunCache(max, calls);
    var i :| 0 <= i < |c| && c[i] == x;
    OldestIsLast(c, k => LastUse(max, calls, k), |c| - 1);
  }

  /** What a client sees of one key: replayed, refused, or swapped afresh. */
  ghost predicate Swaps(h: Host, max: nat, req: ChangeIn) {
    ApplyStep(h, max, req, true, []).0.active != h.active
  }

  function Boots(c: Config): Host
    requires ValidStore(c.store)
  {
    Boot(Some(c), true).value
  }

  const BASE := Config(Options(10, 10, "reject", "", 0), "a", [], "", "", "")
  const TO_B := Operation(REPLACE_AUTH, Some("b"), None, None, None, None)
  const TO_A := Operation(REPLACE_AUTH, Some("a"), None, None, None, None)

  /**
   * So a retry is not always idempotent: after Apply(k), a Plan repeated under k forgets the result, and
   * once the state has been changed back the same Apply(k) swaps a second time. Without that Plan it
   * would report an idempotency conflict.
   */
  lemma PlanCanReopenAnAppliedKey()
    ensures var h0 := Boots(BASE);
            var first := ChangeIn(Hash(BASE), "k", "", false, [TO_B]);
            var back := ChangeIn(Hash(BASE.(auth := "b")), "", "", false, [TO_A]);
            var h1 := ApplyStep(h0, 8, first, true, []).0;
            var h2 := PlanStep(h1, 8, first, true).0;
            Swaps(h0, 8, first) &&
            Swaps(ApplyStep(h2, 8, back, true, []).0, 8, first) &&
            ApplyStep(ApplyStep(h1, 8, back, true, []).0, 8, first, true, []).1 == Err(IdempotencyConflict)
  {
    var b := BASE.(auth := "b");
    var h0 := Boots(BASE);
    var first := ChangeIn(Hash(BASE), "k", "", false, [TO_B]);
    var back := ChangeIn(Hash(b), "", "", false, [TO_A]);
    var fp := FingerprintOf(first);
    FreshApply(h0, first, BASE, "b");
    var h1 := ApplyStep(h0, 8, first, true, []).0;
    var e := CacheEntry("k", fp, None, Some(ApplyStep(h0, 8, first, true, []).1.value));
    assert h1.cache == [e];
    OneEntry(e, fp);
    var h2 := PlanStep(h1, 8, first, true).0;
    assert h2 == h1.(cache := []);
    assert b.(auth := "a") == BASE;
    FreshApply(h1, back, b, "a");
    FreshApply(h2, back, b, "a");
    FreshApply(ApplyStep(h2, 8, back, true, []).0, first, BASE, "b");
  }

  /** An Apply that the cache does not answer, replacing the auth value of an active state. */
  lemma FreshApply(h: Host, req: ChangeIn, c: Config, auth: string)
    requires h.active.Some? && h.active.value.canonical == c && h.active.value.revision == Hash(c) == req.expected
    requires h.active.value.bootstrapRevision == Hash(BASE) && ValidStore(c.store) && c.auth != auth
    requires req.operations == [Operation(REPLACE_AUTH, Some(auth), None, None, None, None)]
    requires LookupResult(h.cache, req.key, FingerprintOf(req)).Miss? && (req.key != "" ==> h.cache == [])
    ensures var r := ApplyStep(h, 8, req, true, []);
            r.1.Ok? && r.0.active.Some? && r.0.active != h.active &&
            r.0.active.value.canonical == c.(auth := auth) && r.0.active.value.revision == Hash(c.(auth := auth)) &&
            r.0.active.value.bootstrapRevision == Hash(BASE) && r.1.value.runtime == Hash(c.(auth := auth)) &&
            r.0.cache == if req.key == "" then h.cache
                         else [CacheEntry(req.key, FingerprintOf(req), None, Some(r.1.value))]
  {
    assert req.operations[1..] == [];
    assert ApplyOperations(c, req.operations) == ApplyOperations(c.(auth := auth), []);
    assert !AnyReplaceStoreCaps(req.operations);
    hide Next;
    assert Run(h.inbox, []) == h.inbox;
  }

  lemma OneEntry(e: CacheEntry, fp: Fingerprint)
    requires e.fp == fp && e.key != ""
    ensures LookupResult([e], e.key, fp) == Hit(e) && AfterLookup([e], e.key, fp) == [e]
    ensures AfterEvict([e], e.key) == []
  {
  }
}
