/** What a change request asks for, part by part, and that Apply, Plan, Reset and Boot do just that. */
module ChangeLaws {
  import opened Prelude
  import opened InboxSpec
  import opened InboxLaws
  import opened MemoryStore
  import opened Protocol
  import opened LruSpec
  import opened AppSpec

  // ---------- the last operation on a part wins ----------

  /** Where the last operation of this kind is, or -1. */
  function LastIndex(ops: seq<Operation>, kind: string): (i: int)
    ensures -1 <= i < |ops| && (i >= 0 ==> ops[i].op == kind)
    ensures forall j :: i < j < |ops| ==> ops[j].op != kind
    decreases |ops|
  {
    if ops == [] then -1
    else
      var later := LastIndex(ops[1..], kind);
      if later >= 0 then 1 + later else if ops[0].op == kind then 0 else -1
  }

  /** The caps named last, or the old ones; where and when to spill is no part of them. */
  predicate StoreTaken(was: Options, now: Options, ops: seq<Operation>) {
    var i := LastIndex(ops, REPLACE_STORE_CAPS);
    now.spillDirectory == was.spillDirectory && now.spillThreshold == was.spillThreshold &&
    if i < 0 then now == was
    else
      ops[i].store.Some? && now.maxMessages == ops[i].store.value.maxMessages &&
      now.maxBytes == ops[i].store.value.maxBytes && now.fullPolicy == ops[i].store.value.fullPolicy
  }

  predicate HiddenTaken(was: seq<string>, now: seq<string>, ops: seq<Operation>) {
    var i := LastIndex(ops, REPLACE_HIDE);
    if i < 0 then now == was
    else if ops[i].hideExtensions.None? then now == []
    else now == ops[i].hideExtensions.value
  }

  /** Each part of the state is the argument of the last operation naming it, and the old part without one. */
  predicate Takes(was: Config, now: Config, ops: seq<Operation>) {
    var auth, admission := LastIndex(ops, REPLACE_AUTH), LastIndex(ops, REPLACE_ADMISSION);
    var behavior := LastIndex(ops, REPLACE_BEHAVIOR);
    Some(now.auth) == (if auth < 0 then Some(was.auth) else ops[auth].auth) &&
    Some(now.admission) == (if admission < 0 then Some(was.admission) else ops[admission].admission) &&
    Some(now.behavior) == (if behavior < 0 then Some(was.behavior) else ops[behavior].behavior) &&
    StoreTaken(was.store, now.store, ops) && HiddenTaken(was.hideExtensions, now.hideExtensions, ops) &&
    now.rest == was.rest
  }

  /** The kinds are five, and all but the hidden extensions come with their argument. */
  predicate Complete(op: Operation) {
    (op.op == REPLACE_AUTH && op.auth.Some?) || (op.op == REPLACE_STORE_CAPS && op.store.Some?) ||
    op.op == REPLACE_HIDE || (op.op == REPLACE_ADMISSION && op.admission.Some?) ||
    (op.op == REPLACE_BEHAVIOR && op.behavior.Some?)
  }

  lemma LastIndexBefore(op: Operation, rest: seq<Operation>, kind: string)
    ensures var later := LastIndex(rest, kind);
            LastIndex([op] + rest, kind) == if later >= 0 then 1 + later else if op.op == kind then 0 else -1
    ensures LastIndex(rest, kind) >= 0 ==> ([op] + rest)[1 + LastIndex(rest, kind)] == rest[LastIndex(rest, kind)]
  {
    assert ([op] + rest)[1..] == rest;
  }

  lemma StoreStep(was: Options, mid: Options, now: Options, op: Operation, rest: seq<Operation>)
    requires StoreTaken(mid, now, rest)
    requires if op.op != REPLACE_STORE_CAPS then mid == was
             else op.store.Some? && mid == was.(maxMessages := op.store.value.maxMessages,
                                                maxBytes := op.store.value.maxBytes,
                                                fullPolicy := op.store.value.fullPolicy)
    ensures StoreTaken(was, now, [op] + rest)
  {
    LastIndexBefore(op, rest, REPLACE_STORE_CAPS);
    hide LastIndex;
  }

  lemma HiddenStep(was: seq<string>, mid: seq<string>, now: seq<string>, op: Operation, rest: seq<Operation>)
    requires HiddenTaken(mid, now, rest)
    requires mid == if op.op != REPLACE_HIDE then was
                    else if op.hideExtensions.None? then [] else op.hideExtensions.value
    ensures HiddenTaken(was, now, [op] + rest)
  {
    LastIndexBefore(op, rest, REPLACE_HIDE);
    hide LastIndex;
  }

  lemma OneTakes(st: Config, op: Operation, rest: seq<Operation>, now: Config)
    requires ApplyOne(st, op).Ok? && Takes(ApplyOne(st, op).value, now, rest)
    ensures Takes(st, now, [op] + rest)
  {
    var mid := ApplyOne(st, op).value;
    StoreStep(st.store, mid.store, now.store, op, rest);
    HiddenStep(st.hideExtensions, mid.hideExtensions, now.hideExtensions, op, rest);
    LastIndexBefore(op, rest, REPLACE_AUTH);
    LastIndexBefore(op, rest, REPLACE_ADMISSION);
    LastIndexBefore(op, rest, REPLACE_BEHAVIOR);
    hide LastIndex, StoreTaken, HiddenTaken;
  }

  lemma {:induction false} LastOperationWins(st: Config, ops: seq<Operation>)
    requires ApplyOperations(st, ops).Ok?
    ensures Takes(st, ApplyOperations(st, ops).value, ops)
    decreases |ops|
  {
    hide ApplyOne;
    if ops != [] {
      hide Takes;
      LastOperationWins(ApplyOne(st, ops[0]).value, ops[1..]);
      OneTakes(st, ops[0], ops[1..], ApplyOperations(st, ops).value);
      assert [ops[0]] + ops[1..] == ops;
    }
  }

  /** Operations apply exactly when each is complete; whatever else is refused is a validation failure. */
  lemma {:induction false} OperationsApplyIffComplete(st: Config, ops: seq<Operation>)
    ensures ApplyOperations(st, ops).Ok? <==> forall i :: 0 <= i < |ops| ==> Complete(ops[i])
    ensures ApplyOperations(st, ops).Err? ==> ApplyOperations(st, ops).error.ValidationFailed?
    decreases |ops|
  {
    if ops != [] {
      assert ApplyOne(st, ops[0]).Ok? <==> Complete(ops[0]);
      hide ApplyOne, Complete;
      if ApplyOne(st, ops[0]).Ok? {
        OperationsApplyIffComplete(ApplyOne(st, ops[0]).value, ops[1..]);
      }
      assert forall i :: 0 <= i < |ops| ==> ops[i] == if i == 0 then ops[0] else ops[1..][i - 1];
    }
  }

  lemma NamesStoreIff(ops: seq<Operation>)
    ensures AnyReplaceStoreCaps(ops) <==> LastIndex(ops, REPLACE_STORE_CAPS) >= 0
  {
  }

  // ---------- a fresh Apply ----------

  /** The cache has no stored result for the request, nor another request under its key. */
  predicate Unanswered(c: Cache, req: ChangeIn) {
    var look := LookupResult(c, req.key, FingerprintOf(req));
    look.Miss? || (look.Hit? && look.entry.apply.None?)
  }

  /** The inbox is under these caps or may be brought there. */
  predicate CapsInstall(inbox: Inbox, caps: Caps, force: bool) {
    Fits(caps, inbox.mail) || caps.evictOldest || force
  }

  /** The state a request leads to from the active one, if its operations apply. */
  function Wanted(h: Host, req: ChangeIn): Result<Config, DomainError>
    requires h.active.Some?
  {
    ApplyOperations(h.active.value.canonical, req.operations)
  }

  /** Everything a request must satisfy on the active snapshot alone. */
  predicate Buildable(h: Host, req: ChangeIn, verdict: bool)
    requires h.active.Some?
  {
    req.expected == h.active.value.revision && Wanted(h, req).Ok? && ValidStore(Wanted(h, req).value.store) && verdict
  }

  lemma CandidateIffBuildable(h: Host, max: nat, req: ChangeIn, verdict: bool)
    requires HostOK(h, max)
    ensures BuildCandidate(h.active, req, verdict).Ok? <==> Buildable(h, req, verdict)
    ensures Buildable(h, req, verdict) ==>
              var next := BuildCandidate(h.active, req, verdict).value;
              next.canonical == Wanted(h, req).value && next.revision == Hash(next.canonical)
    ensures BuildCandidate(h.active, req, verdict).Err? ==>
              var e := BuildCandidate(h.active, req, verdict).error;
              if req.expected.Unset? || req.expected == h.active.value.revision then e.ValidationFailed?
              else e == RevisionConflict(h.active.value.revision)
  {
    OperationsApplyIffComplete(h.active.value.canonical, req.operations);
  }

  /**
   * An Apply that the cache does not answer succeeds exactly when it expects the active revision, its
   * operations are complete and lead to a state that compiles, and caps it names can be installed, both
   * on the inbox as it was when checked and as it has become.
   */
  lemma ApplySucceedsIff(h: Host, max: nat, req: ChangeIn, verdict: bool, between: seq<Op>)
    requires HostOK(h, max) && Unanswered(h.cache, req)
    ensures var r := ApplyStep(h, max, req, verdict, between).1;
            r.Ok? <==>
            Buildable(h, req, verdict) &&
            (LastIndex(req.operations, REPLACE_STORE_CAPS) >= 0 ==>
               var caps := CapsOf(Wanted(h, req).value.store);
               CapsInstall(h.inbox, caps, req.force) && CapsInstall(Run(h.inbox, between), caps, req.force))
  {
    hide AfterLookup, LookupResult, AfterStoreApply, Run, WellFormed, CacheOK, BuildCandidate, ApplyOperations, Total,
      AfterReplaceCaps, LastIndex;
    CandidateIffBuildable(h, max, req, verdict);
    NamesStoreIff(req.operations);
  }

  /** What it then installs: each part named, and caps with no more evicted than they need. */
  lemma ApplyInstallsWhatIsNamed(h: Host, max: nat, req: ChangeIn, verdict: bool, between: seq<Op>)
    requires HostOK(h, max) && Unanswered(h.cache, req)
    requires ApplyStep(h, max, req, verdict, between).1.Ok?
    ensures var t := ApplyStep(h, max, req, verdict, between).0;
            t.active.Some? && Takes(h.active.value.canonical, t.active.value.canonical, req.operations)
    ensures var t := ApplyStep(h, max, req, verdict, between).0;
            InboxTakes(Run(h.inbox, between), t.inbox, req.operations)
  {
    hide AfterLookup, LookupResult, AfterStoreApply, Run, WellFormed, CacheOK, BuildCandidate, ApplyOperations, Total,
      AfterReplaceCaps, InboxTakes, Takes;
    CandidateIffBuildable(h, max, req, verdict);
    LastOperationWins(h.active.value.canonical, req.operations);
    var next := BuildCandidate(h.active, req, verdict).value;
    InstallTakes(Run(h.inbox, between), h.active.value.canonical, next, req);
  }

  /** The inbox under the caps named last, with the newest messages that fit; untouched when none are named. */
  ghost predicate InboxTakes(mid: Inbox, now: Inbox, ops: seq<Operation>) {
    var i := LastIndex(ops, REPLACE_STORE_CAPS);
    if i < 0 then now == mid
    else
      ops[i].store.Some? && now.caps.maxMessages == ops[i].store.value.maxMessages &&
      now.caps.maxBytes == ops[i].store.value.maxBytes &&
      now.caps.evictOldest == (ops[i].store.value.fullPolicy == "evict_oldest") &&
      NewestThatFit(now.caps, mid.mail, now.mail)
  }

  lemma InstallTakes(mid: Inbox, was: Config, next: Snapshot, req: ChangeIn)
    requires Takes(was, next.canonical, req.operations) && ValidStore(next.canonical.store)
    requires InstallCaps(mid, next, req).Ok?
    ensures InboxTakes(mid, InstallCaps(mid, next, req).value, req.operations)
  {
    hide NewestThatFit, LastIndex, Total;
    NamesStoreIff(req.operations);
    ReplaceCapsKeepsTheNewest(mid, CapsOf(next.canonical.store), req.force);
  }

  // ---------- Plan foretells Apply ----------

  /**
   * A Plan and an Apply of one request on one host, neither answered by the cache: they succeed
   * together, name one candidate, and the plan warns of evictions exactly when the apply evicts.
   */
  lemma PlanForetellsApply(h: Host, max: nat, req: ChangeIn, verdict: bool)
    requires HostOK(h, max) && LookupResult(h.cache, req.key, FingerprintOf(req)).Miss?
    ensures var p, a := PlanStep(h, max, req, verdict).1, ApplyStep(h, max, req, verdict, []);
            (p.Ok? <==> a.1.Ok?) && (p.Err? ==> p.error == a.1.error) &&
            (p.Ok? ==> p.value == a.1.value.plan && (p.value.evicts <==> |a.0.inbox.mail| < |h.inbox.mail|))
  {
    hide AfterLookup, AfterStoreApply, AfterStorePlan, WellFormed, CacheOK, BuildCandidate, Total, AfterReplaceCaps,
      Next;
    assert Run(h.inbox, []) == h.inbox;
    CandidateIffBuildable(h, max, req, verdict);
    var next := BuildCandidate(h.active, req, verdict);
    if next.Ok? {
      ReplaceCapsKeepsTheNewest(h.inbox, CapsOf(next.value.canonical.store), req.force);
      InstallEvictsIff(h.inbox, next.value, req);
    }
  }

  lemma InstallEvictsIff(inbox: Inbox, next: Snapshot, req: ChangeIn)
    requires ValidStore(next.canonical.store)
    ensures CheckStoreCaps(inbox, next, req).Ok? <==> InstallCaps(inbox, next, req).Ok?
    ensures CheckStoreCaps(inbox, next, req).Err? ==>
              CheckStoreCaps(inbox, next, req).error == InstallCaps(inbox, next, req).error
    ensures CheckStoreCaps(inbox, next, req).Ok? ==>
              (CheckStoreCaps(inbox, next, req).value <==>
               |InstallCaps(inbox, next, req).value.mail| < |inbox.mail|)
  {
    hide Total;
    var caps := CapsOf(next.canonical.store);
    ReplaceCapsKeepsTheNewest(inbox, caps, req.force);
    assert inbox.mail[0..] == inbox.mail;
  }

  /** What a fresh answer tells is so: where it starts, where it leads, and whether that is off the bootstrap. */
  lemma AnswersTellTheTruth(h: Host, max: nat, req: ChangeIn, verdict: bool, between: seq<Op>)
    requires HostOK(h, max) && Unanswered(h.cache, req)
    requires ApplyStep(h, max, req, verdict, between).1.Ok?
    ensures var (t, r) := ApplyStep(h, max, req, verdict, between);
            var p := r.value.plan;
            t.active.Some? && t.bootstrap == h.bootstrap && r.value.applied &&
            r.value.generation == t.active.value.generation == h.active.value.generation + 1 &&
            r.value.runtime == p.candidate == t.active.value.revision == Hash(Wanted(h, req).value) &&
            p.previous == h.active.value.revision && p.operations == req.operations &&
            (p.drifted <==> Wanted(h, req).value != h.bootstrap.value.canonical)
  {
    hide AfterLookup, LookupResult, AfterStoreApply, Run, WellFormed, CacheOK, ApplyOperations, Total,
      AfterReplaceCaps, InstallCaps;
  }

  // ---------- Reset and Boot ----------

  /** The state a Reset goes back to: the file when there is a path, else the installed bootstrap. */
  predicate ComesFrom(c: Config, h: Host, env: ResetEnv) {
    if env.hasPath then env.file == Some(c) else h.bootstrap.Some? && h.bootstrap.value.canonical == c
  }

  /** A Reset succeeds exactly when that state is there and passes all checks, and then it is the active one. */
  lemma ResetInstallsTheSource(h: Host, max: nat, env: ResetEnv)
    requires HostOK(h, max)
    ensures var r := ResetStep(h, env);
            (r.1.Ok? <==>
               (exists c :: ComesFrom(c, h, env) && ValidStore(c.store)) && env.verdict && env.authOK && env.dirOK) &&
            (r.1.Ok? ==>
               r.0.active.Some? && ComesFrom(r.0.active.value.canonical, h, env) &&
               r.0.inbox.caps.maxMessages == r.0.active.value.canonical.store.maxMessages &&
               r.0.inbox.caps.maxBytes == r.0.active.value.canonical.store.maxBytes &&
               r.0.inbox.caps.evictOldest == (r.0.active.value.canonical.store.fullPolicy == "evict_oldest"))
  {
    var source := BootstrapSource(h.bootstrap, env);
    if source.Some? {
      assert ComesFrom(source.value, h, env);
    }
  }

  lemma BootInstallsTheFile(file: Option<Config>, verdict: bool)
    ensures Boot(file, verdict).Ok? <==> file.Some? && ValidStore(file.value.store) && verdict
    ensures Boot(file, verdict).Ok? ==>
              var h, c := Boot(file, verdict).value, file.value;
              h.active.Some? && h.active.value.canonical == c && h.bootstrap == h.active && h.previous.None? &&
              h.cache == [] && h.inbox.mail == [] && h.inbox.caps.maxMessages == c.store.maxMessages &&
              h.inbox.caps.maxBytes == c.store.maxBytes &&
              h.inbox.caps.evictOldest == (c.store.fullPolicy == "evict_oldest")
  {
  }
}
