/** Plan, Apply and Reset as steps of a value: snapshots, inbox and idempotency cache together. */
module AppSpec {
  import opened Prelude
  import opened InboxSpec
  import opened MemoryStore
  import opened Protocol
  import opened LruSpec

  datatype Host = Host(
    active: Option<Snapshot>, previous: Option<Snapshot>, bootstrap: Option<Snapshot>, inbox: Inbox, cache: Cache)

  // ---------- candidates ----------

  function BuildCandidate(active: Option<Snapshot>, req: ChangeIn, verdict: bool): Result<Snapshot, DomainError> {
    if active.None? then Err(NoSnapshot)
    else if req.expected.Unset? then Err(ValidationFailed("expectedRevision"))
    else if req.expected != active.value.revision then Err(RevisionConflict(active.value.revision))
    else
      var changed := ApplyOperations(active.value.canonical, req.operations);
      if changed.Err? then Err(changed.error) else CompileCandidate(changed.value, active.value, verdict)
  }

  /** The dry half of checkStoreCaps: refuse, or say whether applying would evict. */
  function CheckStoreCaps(inbox: Inbox, next: Snapshot, req: ChangeIn): Result<bool, DomainError> {
    if !AnyReplaceStoreCaps(req.operations) then Ok(false)
    else if Under(CapsOf(next.canonical.store), inbox.mail) then Ok(false)
    else if OverNewCap(inbox, CapsOf(next.canonical.store), req.force) then Err(StoreOverNewCap)
    else Ok(true)
  }

  /** The other half, on the inbox as it is when the caps are replaced. */
  ghost function InstallCaps(inbox: Inbox, next: Snapshot, req: ChangeIn): Result<Inbox, DomainError> {
    if !AnyReplaceStoreCaps(req.operations) then Ok(inbox)
    else if OverNewCap(inbox, CapsOf(next.canonical.store), req.force) then Err(StoreOverNewCap)
    else Ok(AfterReplaceCaps(inbox, CapsOf(next.canonical.store), req.force))
  }

  function RevisionOf(s: Option<Snapshot>): Revision {
    if s.None? then Unset else s.value.revision
  }

  function PlanFrom(prev: Option<Snapshot>, next: Snapshot, ops: seq<Operation>, evicts: bool): Plan {
    Plan(RevisionOf(prev), next.revision, Drifted(next), evicts, ops)
  }

  function ResultFrom(prev: Option<Snapshot>, next: Snapshot, ops: seq<Operation>, evicts: bool): ApplyResult {
    ApplyResult(PlanFrom(prev, next, ops, evicts), true, next.generation, next.revision)
  }

  /** A revision conflict drops the key's entry. */
  function Forget(c: Cache, key: string, e: DomainError): Cache {
    if e.RevisionConflict? then AfterEvict(c, key) else c
  }

  // ---------- steps ----------

  /** A plan the cache does not answer. */
  function PlanFresh(h: Host, max: nat, req: ChangeIn, verdict: bool): (Host, Result<Plan, DomainError>) {
    var next := BuildCandidate(h.active, req, verdict);
    if next.Err? then (h.(cache := Forget(h.cache, req.key, next.error)), Err(next.error))
    else
      var evicts := CheckStoreCaps(h.inbox, next.value, req);
      if evicts.Err? then (h, Err(evicts.error))
      else
        var p := PlanFrom(h.active, next.value, req.operations, evicts.value);
        (h.(cache := AfterStorePlan(h.cache, max, req.key, FingerprintOf(req), p)), Ok(p))
  }

  function PlanStep(h: Host, max: nat, req: ChangeIn, verdict: bool): (Host, Result<Plan, DomainError>) {
    var fp := FingerprintOf(req);
    var look := LookupResult(h.cache, req.key, fp);
    var looked := h.(cache := AfterLookup(h.cache, req.key, fp));
    if look.Conflict? then (looked, Err(IdempotencyConflict))
    else if look.Hit? && look.entry.plan.Some? then (looked, Ok(look.entry.plan.value))
    else PlanFresh(looked, max, req, verdict)
  }

  function Swapped(h: Host, next: Snapshot): Host {
    h.(active := Some(next), previous := if h.active.Some? then h.active else h.previous)
  }

  /** Caps first, then the swap, then the cache; only the caps can still refuse. */
  ghost function CommitCandidate(h: Host, max: nat, req: ChangeIn, next: Snapshot, evicts: bool, mid: Inbox)
    : (Host, Result<ApplyResult, DomainError>)
  {
    var inbox := InstallCaps(mid, next, req);
    if inbox.Err? then (h.(inbox := mid), Err(inbox.error))
    else
      var res := ResultFrom(h.active, next, req.operations, evicts);
      (Swapped(h, next).(inbox := inbox.value,
                         cache := AfterStoreApply(h.cache, max, req.key, FingerprintOf(req), res)), Ok(res))
  }

  /**
   * An apply the cache does not answer. `between` is what other callers do to the inbox between the
   * occupancy check and the installation of the caps; the inbox takes its own lock for each.
   */
  ghost function ApplyFresh(h: Host, max: nat, req: ChangeIn, verdict: bool, between: seq<Op>)
    : (Host, Result<ApplyResult, DomainError>)
  {
    var next := BuildCandidate(h.active, req, verdict);
    if next.Err? then (h.(cache := Forget(h.cache, req.key, next.error)), Err(next.error))
    else
      var evicts := CheckStoreCaps(h.inbox, next.value, req);
      if evicts.Err? then (h, Err(evicts.error))
      else CommitCandidate(h, max, req, next.value, evicts.value, Run(h.inbox, between))
  }

  ghost function ApplyStep(h: Host, max: nat, req: ChangeIn, verdict: bool, between: seq<Op>)
    : (Host, Result<ApplyResult, DomainError>)
  {
    var fp := FingerprintOf(req);
    var look := LookupResult(h.cache, req.key, fp);
    var looked := h.(cache := AfterLookup(h.cache, req.key, fp));
    if look.Conflict? then (looked, Err(IdempotencyConflict))
    else if look.Hit? && look.entry.apply.Some? then
      if h.active.None? then (looked, Err(NoSnapshot))
      else if look.entry.apply.value.runtime != h.active.value.revision then (looked, Err(IdempotencyConflict))
      else (looked, Ok(look.entry.apply.value))
    else ApplyFresh(looked, max, req, verdict, between)
  }

  /** An apply after its occupancy check: answered, or about to install a candidate. */
  datatype Begun = Done(answer: Result<ApplyResult, DomainError>) | Checked(next: Snapshot, evicts: bool)

  function StartApply(h: Host, req: ChangeIn, verdict: bool): (Host, Begun) {
    var fp := FingerprintOf(req);
    var look := LookupResult(h.cache, req.key, fp);
    var looked := h.(cache := AfterLookup(h.cache, req.key, fp));
    if look.Conflict? then (looked, Done(Err(IdempotencyConflict)))
    else if look.Hit? && look.entry.apply.Some? then
      if h.active.None? then (looked, Done(Err(NoSnapshot)))
      else if look.entry.apply.value.runtime != h.active.value.revision then (looked, Done(Err(IdempotencyConflict)))
      else (looked, Done(Ok(look.entry.apply.value)))
    else
      var next := BuildCandidate(h.active, req, verdict);
      if next.Err? then (looked.(cache := Forget(looked.cache, req.key, next.error)), Done(Err(next.error)))
      else
        var evicts := CheckStoreCaps(h.inbox, next.value, req);
        (looked, if evicts.Err? then Done(Err(evicts.error)) else Checked(next.value, evicts.value))
  }

  /** Whatever other callers do to the inbox between the two parts, they make up one apply step. */
  lemma ApplyIsStartThenCommit(h: Host, max: nat, req: ChangeIn, verdict: bool, between: seq<Op>)
    ensures var (t, b) := StartApply(h, req, verdict);
            var mid := Run(t.inbox, between);
            ApplyStep(h, max, req, verdict, between) ==
            match b
            case Done(answer) => (t, answer)
            case Checked(next, evicts) => CommitCandidate(t.(inbox := mid), max, req, next, evicts, mid)
  {
    hide AfterLookup, LookupResult, BuildCandidate, CheckStoreCaps, InstallCaps, AfterStoreApply, Run, Forget;
  }

  /** What the outside world answers to a reset: the bootstrap file, the checks, the spill directory. */
  datatype ResetEnv = ResetEnv(hasPath: bool, file: Option<Config>, verdict: bool, authOK: bool, dirOK: bool)

  function BootstrapSource(bootstrap: Option<Snapshot>, env: ResetEnv): Option<Config> {
    if env.hasPath then env.file
    else if bootstrap.Some? then Some(bootstrap.value.canonical) else None
  }

  function ResetCandidate(active: Option<Snapshot>, bootstrap: Option<Snapshot>, env: ResetEnv)
    : Result<Snapshot, DomainError>
  {
    var source := BootstrapSource(bootstrap, env);
    var generation := if active.Some? then active.value.generation + 1 else 0;
    if source.None? then Err(ValidationFailed("bootstrap"))
    else
      var next := Compile(source.value, Unset, generation, env.verdict);
      if next.Err? then next
      else if !env.authOK then Err(ValidationFailed("auth preflight"))
      else if NormalizeOptions(next.value.canonical.store).Err? || !env.dirOK
      then Err(ValidationFailed("store options"))
      else next
  }

  ghost function ResetStep(h: Host, env: ResetEnv): (Host, Result<ApplyResult, DomainError>) {
    var next := ResetCandidate(h.active, h.bootstrap, env);
    if next.Err? then (h, Err(next.error))
    else
      (Swapped(h, next.value).(
         bootstrap := Some(next.value), cache := [],
         inbox := AfterWipe(h.inbox).(caps := CapsOf(next.value.canonical.store))),
       Ok(ResultFrom(h.active, next.value, [], false)))
  }

  function Boot(file: Option<Config>, verdict: bool): Result<Host, DomainError> {
    if file.None? then Err(ValidationFailed("bootstrap"))
    else
      var snap := Compile(file.value, Unset, 0, verdict);
      if snap.Err? then Err(snap.error)
      else
        var caps := CapsOf(snap.value.canonical.store);
        Ok(Host(Some(snap.value), None, Some(snap.value), Inbox(caps, 1, 0, 0, []), []))
  }

  // ---------- runs ----------

  datatype Step =
    | DoPlan(req: ChangeIn, verdict: bool)
    | DoApply(req: ChangeIn, verdict: bool, between: seq<Op>)
    | DoReset(env: ResetEnv)
    | DoInbox(op: Op)

  ghost function After(h: Host, max: nat, st: Step): Host {
    match st
    case DoPlan(req, verdict) => PlanStep(h, max, req, verdict).0
    case DoApply(req, verdict, between) => ApplyStep(h, max, req, verdict, between).0
    case DoReset(env) => ResetStep(h, env).0
    case DoInbox(op) => h.(inbox := Next(h.inbox, op))
  }

  /** Caps change only through Apply and Reset. */
  predicate KeepsCaps(op: Op) {
    !op.ReplaceCaps? && !op.ResetTo?
  }

  ghost predicate LegalStep(h: Host, st: Step) {
    match st
    case DoInbox(op) => KeepsCaps(op) && Legal(h.inbox, op)
    case DoApply(_, _, between) =>
      LegalRun(h.inbox, between) && forall i :: 0 <= i < |between| ==> KeepsCaps(between[i])
    case _ => true
  }

  ghost function AfterAll(h: Host, max: nat, steps: seq<Step>): Host
    decreases |steps|
  {
    if steps == [] then h else AfterAll(After(h, max, steps[0]), max, steps[1..])
  }

  ghost predicate LegalSteps(h: Host, max: nat, steps: seq<Step>)
    decreases |steps|
  {
    steps == [] || (LegalStep(h, steps[0]) && LegalSteps(After(h, max, steps[0]), max, steps[1..]))
  }

  // ---------- the invariant ----------

  ghost predicate SnapshotOK(s: Snapshot) {
    s.revision == Hash(s.canonical) && s.bootstrapRevision.Hash? && ValidStore(s.canonical.store)
  }

  /** The plan is the answer to the request with this fingerprint. */
  ghost predicate Answers(p: Plan, fp: Fingerprint) {
    fp.expected.Hash? && p.previous == fp.expected && p.operations == fp.operations &&
    ApplyOperations(fp.expected.canonical, fp.operations).Ok? &&
    p.candidate == Hash(ApplyOperations(fp.expected.canonical, fp.operations).value)
  }

  ghost predicate EntryOK(e: CacheEntry) {
    e.key != "" &&
    (e.plan.Some? ==> Answers(e.plan.value, e.fp)) &&
    (e.apply.Some? ==> Answers(e.apply.value.plan, e.fp) && e.apply.value.runtime == e.apply.value.plan.candidate)
  }

  ghost predicate CacheOK(c: Cache, max: nat) {
    DistinctKeys(c) && |c| <= max && forall e :: e in c ==> EntryOK(e)
  }

  /**
   * The inbox runs under the active snapshot's caps, the active snapshot measures drift against the
   * installed bootstrap, and every cached answer is the answer to its own request.
   */
  ghost predicate HostOK(h: Host, max: nat) {
    h.active.Some? && h.bootstrap.Some? && SnapshotOK(h.active.value) && SnapshotOK(h.bootstrap.value) &&
    h.active.value.bootstrapRevision == h.bootstrap.value.revision &&
    h.inbox.caps == CapsOf(h.active.value.canonical.store) && WellFormed(h.inbox) && CacheOK(h.cache, max)
  }

  // ---------- cache lemmas ----------

  /** With distinct keys, being in the cache and being found under its key are the same. */
  lemma EntryFound(c: Cache, e: CacheEntry)
    requires DistinctKeys(c) && e in c
    ensures HasKey(c, e.key) && EntryOf(c, e.key) == e
  {
    var i :| 0 <= i < |c| && c[i] == e;
    var k := KeyIndex(c, e.key);
    assert k <= i;
    assert c[k].key == c[i].key;
  }

  lemma MemberAround(a: Cache, e: CacheEntry, b: Cache)
    ensures forall x :: x in a + [e] + b <==> x in a || x == e || x in b
  {
  }

  /** Moving to the front keeps every entry. */
  lemma FrontKeepsEntries(c: Cache, i: nat)
    requires i < |c| && DistinctKeys(c)
    ensures DistinctKeys(ToFront(c, i)) && |ToFront(c, i)| == |c|
    ensures forall e :: e in ToFront(c, i) <==> e in c
  {
    DropKeepsOthers(c, i);
    var d := DropAt(c, i);
    hide DropAt;
    forall k | 0 <= k < |d|
      ensures d[k].key != c[i].key
    {
      assert d[k] in d;
    }
  }

  lemma DropKeepsOthers(c: Cache, i: nat)
    requires i < |c| && DistinctKeys(c)
    ensures DistinctKeys(DropAt(c, i)) && |DropAt(c, i)| == |c| - 1
    ensures forall e :: e in c <==> e == c[i] || e in DropAt(c, i)
    ensures forall e :: e in DropAt(c, i) ==> e.key != c[i].key
  {
    var d := DropAt(c, i);
    SplitAround(c, i);
    MemberAround(c[..i], c[i], c[i + 1..]);
    forall k | 0 <= k < |d|
      ensures d[k] == c[if k < i then k else k + 1] && d[k].key != c[i].key
    {
    }
  }

  /** What a push keeps of the old cache: everything of another key, short of the oldest when it is full. */
  lemma PushShape(c: Cache, max: nat, e: CacheEntry) returns (kept: Cache)
    requires DistinctKeys(c) && |c| <= max && max > 0
    ensures Push(c, max, e) == [e] + kept && |kept| < max
    ensures DistinctKeys(kept) && forall x :: x in kept ==> x in c && x.key != e.key
    ensures forall x :: x in c && x.key != e.key && !(|c| == max && !HasKey(c, e.key) && x == c[|c| - 1]) ==> x in kept
  {
    kept := if HasKey(c, e.key) then DropAt(c, KeyIndex(c, e.key)) else c;
    RestWithoutKey(c, e.key, kept);
    hide DropAt, KeyIndex;
    if |kept| == max {
      ShortOfLast(c);
      var rest := kept;
      kept := c[..max - 1];
      assert ([e] + rest)[..max] == [e] + kept;
    }
  }

  lemma ShortOfLast(c: Cache)
    requires |c| > 0 && DistinctKeys(c)
    ensures DistinctKeys(c[..|c| - 1])
    ensures forall x :: x in c <==> x in c[..|c| - 1] || x == c[|c| - 1]
  {
    assert c == c[..|c| - 1] + [c[|c| - 1]];
  }

  /** A push replaces its own key and can cost at most the oldest entry. */
  lemma PushKeepsCache(c: Cache, max: nat, e: CacheEntry)
    requires CacheOK(c, max) && EntryOK(e) && max > 0
    ensures CacheOK(Push(c, max, e), max) && e in Push(c, max, e)
    ensures forall x :: x in Push(c, max, e) ==> x == e || x in c
    ensures forall x :: x in c && x.key != e.key && !(|c| == max && !HasKey(c, e.key) && x == c[|c| - 1]) ==>
              x in Push(c, max, e)
  {
    var kept := PushShape(c, max, e);
    hide Push, EntryOK, HasKey;
    assert forall i :: 0 <= i < |kept| ==> kept[i] in kept;
  }

  lemma RestWithoutKey(c: Cache, key: string, rest: Cache)
    requires DistinctKeys(c)
    requires rest == if HasKey(c, key) then DropAt(c, KeyIndex(c, key)) else c
    ensures DistinctKeys(rest) && |rest| == |c| - if HasKey(c, key) then 1 else 0
    ensures forall i :: 0 <= i < |rest| ==> rest[i].key != key
    ensures forall x :: x in c && x.key != key ==> x in rest
    ensures forall x :: x in rest ==> x in c
  {
    if HasKey(c, key) {
      DropKeepsOthers(c, KeyIndex(c, key));
    }
  }

  lemma LookupKeepsCache(c: Cache, max: nat, key: string, fp: Fingerprint)
    requires CacheOK(c, max)
    ensures CacheOK(AfterLookup(c, key, fp), max)
    ensures forall e :: e in AfterLookup(c, key, fp) <==> e in c
    ensures |AfterLookup(c, key, fp)| == |c|
  {
    if LookupResult(c, key, fp).Hit? {
      FrontKeepsEntries(c, KeyIndex(c, key));
    }
  }

  lemma UpdateKeepsCache(c: Cache, max: nat, i: nat, e: CacheEntry)
    requires CacheOK(c, max) && i < |c| && e.key == c[i].key && EntryOK(e)
    ensures CacheOK(ToFront(c[i := e], i), max) && e in ToFront(c[i := e], i)
    ensures forall x :: x in c && x.key != e.key ==> x in ToFront(c[i := e], i)
    ensures forall x :: x in ToFront(c[i := e], i) ==> x == e || x in c
  {
    var u := c[i := e];
    assert u[i] == e;
    assert forall k :: 0 <= k < |u| && k != i ==> u[k] == c[k];
    forall x | x in c && x.key != e.key
      ensures x in u
    {
      var k :| 0 <= k < |c| && c[k] == x;
      assert u[k] == x;
    }
    FrontKeepsEntries(u, i);
  }

  /** Storing a plan keeps an apply result of the same request, and the other way round. */
  lemma StorePlanKeepsCache(c: Cache, max: nat, key: string, fp: Fingerprint, p: Plan)
    requires CacheOK(c, max) && max > 0 && Answers(p, fp)
    ensures CacheOK(AfterStorePlan(c, max, key, fp, p), max)
    ensures forall x :: x in c && x.key != key && !(|c| == max && !HasKey(c, key) && x == c[|c| - 1]) ==>
              x in AfterStorePlan(c, max, key, fp, p)
    ensures forall x :: x in c && x.key == key && x.fp == fp && key != "" ==>
              x.(plan := Some(p)) in AfterStorePlan(c, max, key, fp, p)
  {
    if key != "" && HasKey(c, key) && EntryOf(c, key).fp == fp {
      var i := KeyIndex(c, key);
      assert c[i] in c;
      UpdateKeepsCache(c, max, i, c[i].(plan := Some(p)));
    } else if key != "" {
      PushKeepsCache(c, max, CacheEntry(key, fp, Some(p), None));
    }
    forall x | x in c && x.key == key
      ensures HasKey(c, key) && EntryOf(c, key) == x
    {
      EntryFound(c, x);
    }
  }

  lemma StoreApplyKeepsCache(c: Cache, max: nat, key: string, fp: Fingerprint, r: ApplyResult)
    requires CacheOK(c, max) && max > 0 && Answers(r.plan, fp) && r.runtime == r.plan.candidate
    ensures CacheOK(AfterStoreApply(c, max, key, fp, r), max)
    ensures forall x :: x in c && x.key != key && !(|c| == max && !HasKey(c, key) && x == c[|c| - 1]) ==>
              x in AfterStoreApply(c, max, key, fp, r)
  {
    if key != "" && HasKey(c, key) && EntryOf(c, key).fp == fp {
      var i := KeyIndex(c, key);
      assert c[i] in c;
      UpdateKeepsCache(c, max, i, c[i].(apply := Some(r)));
    } else if key != "" {
      PushKeepsCache(c, max, CacheEntry(key, fp, None, Some(r)));
    }
  }

  lemma ForgetKeepsCache(c: Cache, max: nat, key: string, e: DomainError)
    requires CacheOK(c, max)
    ensures CacheOK(Forget(c, key, e), max)
    ensures forall x :: x in c && x.key != key ==> x in Forget(c, key, e)
    ensures e.RevisionConflict? && key != "" ==> forall x :: x in Forget(c, key, e) ==> x.key != key
    ensures !e.RevisionConflict? ==> Forget(c, key, e) == c
  {
    if HasKey(c, key) {
      DropKeepsOthers(c, KeyIndex(c, key));
    }
    if e.RevisionConflict? && key != "" && !HasKey(c, key) {
      forall x | x in c
        ensures x.key != key
      {
        EntryFound(c, x);
      }
    }
  }

  // ---------- what a candidate is ----------

  /** A candidate is a function of the expected revision and the operations alone. */
  lemma CandidateAnswers(h: Host, max: nat, req: ChangeIn, verdict: bool, evicts: bool)
    requires HostOK(h, max) && BuildCandidate(h.active, req, verdict).Ok?
    ensures var next := BuildCandidate(h.active, req, verdict).value;
            Answers(PlanFrom(h.active, next, req.operations, evicts), FingerprintOf(req)) &&
            SnapshotOK(next) && next.bootstrapRevision == h.active.value.bootstrapRevision &&
            next.generation == h.active.value.generation + 1
    ensures !AnyReplaceStoreCaps(req.operations) ==>
              BuildCandidate(h.active, req, verdict).value.canonical.store == h.active.value.canonical.store
  {
    if !AnyReplaceStoreCaps(req.operations) {
      OtherOperationsLeaveStore(h.active.value.canonical, req.operations);
    }
  }

  // ---------- every step keeps the host consistent ----------

  lemma FreshPlanKeepsHost(h: Host, max: nat, req: ChangeIn, verdict: bool)
    requires HostOK(h, max) && max > 0
    ensures var r := PlanFresh(h, max, req, verdict);
            HostOK(r.0, max) && r.0 == h.(cache := r.0.cache) && (r.1.Ok? ==> Answers(r.1.value, FingerprintOf(req)))
  {
    hide AfterStorePlan, Answers, WellFormed, BuildCandidate, CacheOK;
    var next := BuildCandidate(h.active, req, verdict);
    if next.Err? {
      ForgetKeepsCache(h.cache, max, req.key, next.error);
    } else {
      forall evicts
        ensures var p := PlanFrom(h.active, next.value, req.operations, evicts);
                Answers(p, FingerprintOf(req)) &&
                CacheOK(AfterStorePlan(h.cache, max, req.key, FingerprintOf(req), p), max)
      {
        CandidateAnswers(h, max, req, verdict, evicts);
        var p := PlanFrom(h.active, next.value, req.operations, evicts);
        StorePlanKeepsCache(h.cache, max, req.key, FingerprintOf(req), p);
      }
    }
  }

  lemma PlanKeepsHost(h: Host, max: nat, req: ChangeIn, verdict: bool)
    requires HostOK(h, max) && max > 0
    ensures HostOK(PlanStep(h, max, req, verdict).0, max)
    ensures PlanStep(h, max, req, verdict).0 == h.(cache := PlanStep(h, max, req, verdict).0.cache)
    ensures PlanStep(h, max, req, verdict).1.Ok? ==> Answers(PlanStep(h, max, req, verdict).1.value, FingerprintOf(req))
  {
    hide AfterLookup, LookupResult, Answers, WellFormed, PlanFresh, CacheOK, SnapshotOK;
    LookupKeepsCache(h.cache, max, req.key, FingerprintOf(req));
    if LookupResult(h.cache, req.key, FingerprintOf(req)).Hit? {
      HitAnswers(h.cache, max, req.key, FingerprintOf(req));
    }
    FreshPlanKeepsHost(h.(cache := AfterLookup(h.cache, req.key, FingerprintOf(req))), max, req, verdict);
  }

  /** What a hit replays answers the request that hit it. */
  lemma HitAnswers(c: Cache, max: nat, key: string, fp: Fingerprint)
    requires CacheOK(c, max) && LookupResult(c, key, fp).Hit?
    ensures var e := LookupResult(c, key, fp).entry;
            e in c && e.key == key && e.fp == fp &&
            (e.plan.Some? ==> Answers(e.plan.value, fp)) && (e.apply.Some? ==> Answers(e.apply.value.plan, fp))
  {
    hide Answers;
  }

  /** The inbox keeps its caps through everything but ReplaceCaps and ResetTo. */
  lemma {:induction false} RunKeepsCaps(s: Inbox, ops: seq<Op>)
    requires forall i :: 0 <= i < |ops| ==> KeepsCaps(ops[i])
    ensures Run(s, ops).caps == s.caps
    decreases |ops|
  {
    if ops != [] {
      assert KeepsCaps(ops[0]);
      forall i | 0 <= i < |ops[1..]|
        ensures KeepsCaps(ops[1..][i])
      {
        assert KeepsCaps(ops[i + 1]);
      }
      RunKeepsCaps(Next(s, ops[0]), ops[1..]);
    }
  }

  /** An installation ends with the candidate's caps, or refuses and leaves the inbox as it found it. */
  lemma InstallMatchesSpec(h: Host, max: nat, mid: Inbox, req: ChangeIn, verdict: bool)
    requires HostOK(h, max) && BuildCandidate(h.active, req, verdict).Ok?
    requires WellFormed(mid) && mid.caps == h.inbox.caps
    ensures var next := BuildCandidate(h.active, req, verdict).value;
            InstallCaps(mid, next, req).Ok? ==>
              WellFormed(InstallCaps(mid, next, req).value) &&
              InstallCaps(mid, next, req).value.caps == CapsOf(next.canonical.store)
  {
    CandidateAnswers(h, max, req, verdict, false);
    var next := BuildCandidate(h.active, req, verdict).value;
    if AnyReplaceStoreCaps(req.operations) {
      ReplaceCapsKeepsWellFormed(mid, CapsOf(next.canonical.store), req.force);
    }
  }

  lemma CommitKeepsHost(h: Host, max: nat, req: ChangeIn, verdict: bool, evicts: bool, mid: Inbox)
    requires HostOK(h, max) && max > 0 && BuildCandidate(h.active, req, verdict).Ok?
    requires WellFormed(mid) && mid.caps == h.inbox.caps
    ensures var r := CommitCandidate(h, max, req, BuildCandidate(h.active, req, verdict).value, evicts, mid);
            HostOK(r.0, max) && (r.1.Ok? ==> Answers(r.1.value.plan, FingerprintOf(req)))
  {
    hide AfterStoreApply, WellFormed, InstallCaps, BuildCandidate, CacheOK, Answers;
    var next := BuildCandidate(h.active, req, verdict).value;
    CandidateAnswers(h, max, req, verdict, evicts);
    InstallMatchesSpec(h, max, mid, req, verdict);
    StoreApplyKeepsCache(h.cache, max, req.key, FingerprintOf(req), ResultFrom(h.active, next, req.operations, evicts));
  }

  lemma FreshApplyKeepsHost(h: Host, max: nat, req: ChangeIn, verdict: bool, between: seq<Op>)
    requires HostOK(h, max) && max > 0 && LegalStep(h, DoApply(req, verdict, between))
    ensures var r := ApplyFresh(h, max, req, verdict, between);
            HostOK(r.0, max) && (r.1.Ok? ==> Answers(r.1.value.plan, FingerprintOf(req)))
  {
    RunKeepsWellFormed(h.inbox, between);
    RunKeepsCaps(h.inbox, between);
    hide Answers, WellFormed, Run, LegalRun, CommitCandidate, BuildCandidate, CacheOK, SnapshotOK;
    var next := BuildCandidate(h.active, req, verdict);
    if next.Err? {
      ForgetKeepsCache(h.cache, max, req.key, next.error);
    } else {
      CommitKeepsHost(h, max, req, verdict, false, Run(h.inbox, between));
      CommitKeepsHost(h, max, req, verdict, true, Run(h.inbox, between));
    }
  }

  lemma StartKeepsHost(h: Host, max: nat, req: ChangeIn, verdict: bool)
    requires HostOK(h, max) && max > 0
    ensures HostOK(StartApply(h, req, verdict).0, max)
  {
    hide AfterLookup, LookupResult, WellFormed, BuildCandidate, CacheOK, SnapshotOK, CheckStoreCaps, Forget;
    LookupKeepsCache(h.cache, max, req.key, FingerprintOf(req));
    var next := BuildCandidate(h.active, req, verdict);
    if next.Err? {
      ForgetKeepsCache(AfterLookup(h.cache, req.key, FingerprintOf(req)), max, req.key, next.error);
    }
  }

  lemma ApplyKeepsHost(h: Host, max: nat, req: ChangeIn, verdict: bool, between: seq<Op>)
    requires HostOK(h, max) && max > 0 && LegalStep(h, DoApply(req, verdict, between))
    ensures HostOK(ApplyStep(h, max, req, verdict, between).0, max)
    ensures ApplyStep(h, max, req, verdict, between).1.Ok? ==>
              Answers(ApplyStep(h, max, req, verdict, between).1.value.plan, FingerprintOf(req))
  {
    hide AfterLookup, LookupResult, Answers, WellFormed, LegalRun, ApplyFresh, CacheOK, SnapshotOK;
    LookupKeepsCache(h.cache, max, req.key, FingerprintOf(req));
    if LookupResult(h.cache, req.key, FingerprintOf(req)).Hit? {
      HitAnswers(h.cache, max, req.key, FingerprintOf(req));
    }
    FreshApplyKeepsHost(h.(cache := AfterLookup(h.cache, req.key, FingerprintOf(req))), max, req, verdict, between);
  }

  lemma ResetKeepsHost(h: Host, max: nat, env: ResetEnv)
    requires HostOK(h, max)
    ensures HostOK(ResetStep(h, env).0, max)
  {
  }

  lemma StepKeepsHost(h: Host, max: nat, st: Step)
    requires HostOK(h, max) && max > 0 && LegalStep(h, st)
    ensures HostOK(After(h, max, st), max)
  {
    match st
    case DoPlan(req, verdict) => PlanKeepsHost(h, max, req, verdict);
    case DoApply(req, verdict, between) => ApplyKeepsHost(h, max, req, verdict, between);
    case DoReset(env) => ResetKeepsHost(h, max, env);
    case DoInbox(op) => NextKeepsWellFormed(h.inbox, op);
  }

  /** Over every run of Plan, Apply, Reset and inbox traffic after Boot. */
  lemma {:induction false} RunsKeepHost(h: Host, max: nat, steps: seq<Step>)
    requires HostOK(h, max) && max > 0 && LegalSteps(h, max, steps)
    ensures HostOK(AfterAll(h, max, steps), max)
    decreases |steps|
  {
    if steps != [] {
      StepKeepsHost(h, max, steps[0]);
      RunsKeepHost(After(h, max, steps[0]), max, steps[1..]);
    }
  }

  lemma BootStartsConsistent(file: Option<Config>, verdict: bool, max: nat)
    requires Boot(file, verdict).Ok?
    ensures HostOK(Boot(file, verdict).value, max)
  {
  }
}
