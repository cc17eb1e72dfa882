/** The process-local service: snapshot pointers, inbox and idempotency cache changed in place. */
module App {
  import opened Prelude
  import opened InboxSpec
  import opened MemoryStore
  import opened Protocol
  import opened LruSpec
  import opened Idempotency
  import opened AppSpec

  /** Three pointers; Swap never touches the bootstrap. */
  class SnapshotStore {
    var active: Option<Snapshot>
    var previous: Option<Snapshot>
    var bootstrap: Option<Snapshot>

    constructor ()
      ensures active == None && previous == None && bootstrap == None
    {
      active, previous, bootstrap := None, None, None;
    }

    method Swap(next: Snapshot) returns (prev: Option<Snapshot>)
      modifies this
      ensures prev == old(active) && active == Some(next) && bootstrap == old(bootstrap)
      ensures previous == if prev.Some? then prev else old(previous)
    {
      prev := active;
      active := Some(next);
      if prev.Some? {
        previous := prev;
      }
    }

    method SetBootstrap(next: Snapshot)
      modifies this
      ensures bootstrap == Some(next) && active == old(active) && previous == old(previous)
    {
      bootstrap := Some(next);
    }

    method InstallBootstrap(next: Snapshot) returns (prev: Option<Snapshot>)
      modifies this
      ensures bootstrap == Some(next) && active == Some(next) && prev == old(active)
      ensures previous == if prev.Some? then prev else old(previous)
    {
      SetBootstrap(next);
      prev := Swap(next);
    }
  }

  class App {
    const snaps: SnapshotStore
    const inbox: Memory
    const idemp: IdempCache

    ghost function State(): Host
      reads snaps, inbox, idemp
    {
      Host(snaps.active, snaps.previous, snaps.bootstrap, inbox.State(), idemp.view)
    }

    ghost predicate Valid()
      reads this, snaps, inbox, inbox.disk, idemp, idemp.nodes
    {
      inbox.Valid() && idemp.Valid() && HostOK(State(), idemp.max)
    }

    /** What Boot leaves once the bootstrap document has compiled. */
    constructor (boot: Config, verdict: bool, disk: Spill.Disk, idempMax: int)
      requires Boot(Some(boot), verdict).Ok?
      requires forall p :: p in disk.files ==> p.dir != ""
      modifies disk
      ensures Valid() && State() == Boot(Some(boot), verdict).value
      ensures fresh(snaps) && fresh(inbox) && fresh(idemp) && inbox.disk == disk
    {
      var snap := Compile(boot, Unset, 0, verdict).value;
      var store := new SnapshotStore();
      var prev := store.InstallBootstrap(snap);
      var memory := new Memory(NormalizeOptions(snap.canonical.store).value, disk);
      var cache := new IdempCache(idempMax);
      snaps, inbox, idemp := store, memory, cache;
      new;
      BootStartsConsistent(Some(boot), verdict, idemp.max);
    }

    /** Reads occupancy and decides; the inbox is left alone. */
    method CheckStoreCaps(next: Snapshot, req: ChangeIn) returns (r: Result<bool, DomainError>)
      requires inbox.Valid() && ValidStore(next.canonical.store)
      ensures r == AppSpec.CheckStoreCaps(inbox.State(), next, req)
    {
      hide CellsOK, WellFormed;
      var spec := next.canonical.store;
      if !AnyReplaceStoreCaps(req.operations) {
        r := Ok(false);
      } else {
        var stats := inbox.GetStats();
        var over := stats.messageCount > spec.maxMessages || stats.bytes > spec.maxBytes;
        if !over {
          r := Ok(false);
        } else if spec.fullPolicy != EVICT_OLDEST && !req.force {
          r := Err(StoreOverNewCap);
        } else {
          r := Ok(true);
        }
      }
    }

    /** Replaces the caps on the inbox as it is by now, which may have become too full for them. */
    method InstallStoreCaps(next: Snapshot, req: ChangeIn) returns (r: Result<(), DomainError>)
      requires inbox.Valid() && ValidStore(next.canonical.store)
      modifies inbox, inbox.disk
      ensures inbox.Valid()
      ensures r.Ok? ==> InstallCaps(old(inbox.State()), next, req) == Ok(inbox.State())
      ensures r.Err? ==> InstallCaps(old(inbox.State()), next, req) == Err(r.error)
      ensures r.Err? ==> inbox.State() == old(inbox.State())
    {
      hide CellsOK, WellFormed;
      r := Ok(());
      if AnyReplaceStoreCaps(req.operations) {
        ValidStoreNormalizes(next.canonical.store);
        var done := inbox.ReplaceCaps(next.canonical.store, req.force);
        if done.Err? {
          r := Err(StoreOverNewCap);
        }
      }
    }

    method ForgetOnConflict(key: string, e: DomainError)
      requires idemp.Valid()
      modifies idemp, idemp.nodes
      ensures idemp.Valid() && idemp.view == Forget(old(idemp.view), key, e)
      ensures forall k :: 0 <= k < |idemp.nodes| ==> idemp.nodes[k] in old(idemp.nodes)
    {
      if e.RevisionConflict? {
        idemp.Evict(key);
      }
    }

    method PlanFresh(req: ChangeIn, verdict: bool) returns (r: Result<Plan, DomainError>)
      requires Valid()
      modifies idemp, idemp.nodes
      ensures inbox.Valid() && idemp.Valid()
      ensures State() == AppSpec.PlanFresh(old(State()), idemp.max, req, verdict).0
      ensures r == AppSpec.PlanFresh(old(State()), idemp.max, req, verdict).1
    {
      hide HostOK, AfterStorePlan, BuildCandidate, AppSpec.CheckStoreCaps, CellsOK, WellFormed, Maps,
        Shows, Distinct, Chain, Forget;
      var next := BuildCandidate(snaps.active, req, verdict);
      if next.Err? {
        ForgetOnConflict(req.key, next.error);
        r := Err(next.error);
      } else {
        assert ValidStore(next.value.canonical.store) by {
          CandidateStoreIsValid(snaps.active, req, verdict);
        }
        var evicts := CheckStoreCaps(next.value, req);
        if evicts.Err? {
          r := Err(evicts.error);
        } else {
          var p := PlanFrom(snaps.active, next.value, req.operations, evicts.value);
          idemp.StorePlan(req.key, FingerprintOf(req), p);
          r := Ok(p);
        }
      }
    }

    method Plan(req: ChangeIn, verdict: bool) returns (r: Result<Plan, DomainError>)
      requires Valid()
      modifies idemp, idemp.nodes
      ensures Valid()
      ensures State() == PlanStep(old(State()), idemp.max, req, verdict).0
      ensures r == PlanStep(old(State()), idemp.max, req, verdict).1
    {
      hide HostOK, AfterLookup, LookupResult, AppSpec.PlanFresh, CellsOK, WellFormed, Maps, Shows, Distinct, Chain;
      PlanKeepsHost(State(), idemp.max, req, verdict);
      LookupKeepsHost(State(), idemp.max, req.key, FingerprintOf(req));
      var look := idemp.Find(req.key, FingerprintOf(req));
      if look.Conflict? {
        r := Err(IdempotencyConflict);
      } else if look.Hit? && look.entry.plan.Some? {
        r := Ok(look.entry.plan.value);
      } else {
        r := PlanFresh(req, verdict);
      }
    }

    /** Apply up to the occupancy check. */
    method StartApply(req: ChangeIn, verdict: bool) returns (b: Begun)
      requires Valid()
      modifies idemp, idemp.nodes
      ensures Valid()
      ensures State() == AppSpec.StartApply(old(State()), req, verdict).0
      ensures b == AppSpec.StartApply(old(State()), req, verdict).1
      ensures b.Checked? ==> BuildCandidate(snaps.active, req, verdict) == Ok(b.next)
      ensures forall k :: 0 <= k < |idemp.nodes| ==> idemp.nodes[k] in old(idemp.nodes)
    {
      hide HostOK, AfterLookup, LookupResult, BuildCandidate, AppSpec.CheckStoreCaps, CellsOK, WellFormed, Maps, Shows,
        Distinct, Chain, Forget;
      StartKeepsHost(State(), idemp.max, req, verdict);
      var look := idemp.Find(req.key, FingerprintOf(req));
      if look.Conflict? {
        b := Done(Err(IdempotencyConflict));
      } else if look.Hit? && look.entry.apply.Some? {
        if snaps.active.None? {
          b := Done(Err(NoSnapshot));
        } else if look.entry.apply.value.runtime != snaps.active.value.revision {
          b := Done(Err(IdempotencyConflict));
        } else {
          b := Done(Ok(look.entry.apply.value));
        }
      } else {
        var next := BuildCandidate(snaps.active, req, verdict);
        if next.Err? {
          ForgetOnConflict(req.key, next.error);
          b := Done(Err(next.error));
        } else {
          assert ValidStore(next.value.canonical.store) by {
            CandidateStoreIsValid(snaps.active, req, verdict);
          }
          var evicts := CheckStoreCaps(next.value, req);
          b := if evicts.Err? then Done(Err(evicts.error)) else Checked(next.value, evicts.value);
        }
      }
    }

    /** Caps, swap, cache, on whatever the inbox has become since StartApply. */
    method FinishApply(req: ChangeIn, ghost verdict: bool, next: Snapshot, evicts: bool)
      returns (r: Result<ApplyResult, DomainError>)
      requires Valid() && BuildCandidate(snaps.active, req, verdict) == Ok(next)
      modifies snaps, idemp, idemp.nodes, inbox, inbox.disk
      ensures Valid()
      ensures State() == CommitCandidate(old(State()), idemp.max, req, next, evicts, old(inbox.State())).0
      ensures r == CommitCandidate(old(State()), idemp.max, req, next, evicts, old(inbox.State())).1
    {
      hide HostOK, AfterStoreApply, BuildCandidate, CellsOK, WellFormed, Maps, Shows, Distinct, Chain, InstallCaps;
      CommitInPlaceKeepsHost(State(), idemp.max, req, verdict, evicts);
      CandidateStoreIsValid(snaps.active, req, verdict);
      var done := InstallStoreCaps(next, req);
      if done.Err? {
        r := Err(done.error);
      } else {
        var prev := snaps.Swap(next);
        var res := ResultFrom(prev, next, req.operations, evicts);
        idemp.StoreApply(req.key, FingerprintOf(req), res);
        r := Ok(res);
      }
    }

    /** Both parts with nothing in between; ApplyIsStartThenCommit says what any calls in between make of it. */
    method Apply(req: ChangeIn, verdict: bool) returns (r: Result<ApplyResult, DomainError>)
      requires Valid()
      modifies snaps, idemp, idemp.nodes, inbox, inbox.disk
      ensures Valid()
      ensures State() == ApplyStep(old(State()), idemp.max, req, verdict, []).0
      ensures r == ApplyStep(old(State()), idemp.max, req, verdict, []).1
    {
      hide HostOK, AppSpec.StartApply, CommitCandidate, BuildCandidate, ApplyStep, CellsOK, WellFormed, Maps, Shows,
        Distinct, Chain;
      ApplyIsStartThenCommit(State(), idemp.max, req, verdict, []);
      assert Run(inbox.State(), []) == inbox.State();
      var b := StartApply(req, verdict);
      assert State().(inbox := inbox.State()) == State();
      match b {
        case Done(answer) => r := answer;
        case Checked(next, evicts) => r := FinishApply(req, verdict, next, evicts);
      }
    }

    /** Load, check, then wipe, swap and clear; nothing after the checks can fail. */
    method Reset(env: ResetEnv) returns (r: Result<ApplyResult, DomainError>)
      requires Valid()
      modifies snaps, idemp, inbox, inbox.disk
      ensures Valid()
      ensures State() == ResetStep(old(State()), env).0
      ensures r == ResetStep(old(State()), env).1
    {
      hide HostOK, CellsOK, WellFormed, Maps, Shows, Distinct, Chain;
      ResetKeepsHost(State(), idemp.max, env);
      var next := ResetCandidate(snaps.active, snaps.bootstrap, env);
      if next.Err? {
        r := Err(next.error);
      } else {
        var opts := NormalizeOptions(next.value.canonical.store).value;
        NormalizeIsIdempotent(opts);
        var done := inbox.ResetTo(opts);
        assert done.Ok?;
        var displaced := snaps.Swap(next.value);
        snaps.SetBootstrap(next.value);
        idemp.Clear();
        r := Ok(ResultFrom(displaced, next.value, [], false));
      }
    }
  }

  lemma CommitInPlaceKeepsHost(h: Host, max: nat, req: ChangeIn, verdict: bool, evicts: bool)
    requires HostOK(h, max) && max > 0 && BuildCandidate(h.active, req, verdict).Ok?
    ensures HostOK(CommitCandidate(h, max, req, BuildCandidate(h.active, req, verdict).value, evicts, h.inbox).0, max)
  {
    CommitKeepsHost(h, max, req, verdict, evicts, h.inbox);
  }

  lemma LookupKeepsHost(h: Host, max: nat, key: string, fp: Fingerprint)
    requires HostOK(h, max)
    ensures HostOK(h.(cache := AfterLookup(h.cache, key, fp)), max)
  {
    LookupKeepsCache(h.cache, max, key, fp);
  }

  lemma CandidateStoreIsValid(active: Option<Snapshot>, req: ChangeIn, verdict: bool)
    requires BuildCandidate(active, req, verdict).Ok?
    ensures ValidStore(BuildCandidate(active, req, verdict).value.canonical.store)
  {
  }
}
