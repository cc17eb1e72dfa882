/**
 * Desired state, snapshots, change requests and their results, with the pure steps between them:
 * operations on a state, compilation, and the caches' keys.
 */
module Protocol {
  import opened Prelude
  import opened MemoryStore

  /** The parts of the desired state a change can name; the other parts travel as opaque values. */
  datatype Config = Config(
    store: Options, auth: string, hideExtensions: seq<string>, admission: string, behavior: string, rest: string)

  /** A content hash: equal exactly when the canonical states are. `Unset` is the empty string. */
  datatype Revision = Unset | Hash(canonical: Config)

  datatype StoreCaps = StoreCaps(maxMessages: int, maxBytes: int, fullPolicy: string)

  datatype Operation = Operation(
    op: string, auth: Option<string>, store: Option<StoreCaps>, hideExtensions: Option<seq<string>>,
    admission: Option<string>, behavior: Option<string>)

  datatype Snapshot = Snapshot(canonical: Config, revision: Revision, bootstrapRevision: Revision, generation: nat)

  datatype ChangeIn = ChangeIn(
    expected: Revision, key: string, reason: string, force: bool, operations: seq<Operation>)

  /** An injective digest of everything in a request but its key. */
  datatype Fingerprint = Fingerprint(expected: Revision, force: bool, reason: string, operations: seq<Operation>)

  datatype Plan = Plan(
    previous: Revision, candidate: Revision, drifted: bool, evicts: bool, operations: seq<Operation>)

  datatype ApplyResult = ApplyResult(plan: Plan, applied: bool, generation: nat, runtime: Revision)

  datatype DomainError =
    | ValidationFailed(what: string)
    | RevisionConflict(current: Revision)
    | IdempotencyConflict
    | StoreOverNewCap
    | NoSnapshot

  function FingerprintOf(c: ChangeIn): Fingerprint {
    Fingerprint(c.expected, c.force, c.reason, c.operations)
  }

  predicate Drifted(s: Snapshot) {
    s.revision != s.bootstrapRevision
  }

  // ---------- operations ----------

  const REPLACE_AUTH := "replaceSMTPAuth"
  const REPLACE_STORE_CAPS := "replaceStoreCaps"
  const REPLACE_HIDE := "replaceHideExtensions"
  const REPLACE_ADMISSION := "replaceAdmission"
  const REPLACE_BEHAVIOR := "replaceSMTPBehavior"

  function ApplyOne(st: Config, op: Operation): Result<Config, DomainError> {
    if op.op == REPLACE_AUTH then
      if op.auth.None? then Err(ValidationFailed("missing auth")) else Ok(st.(auth := op.auth.value))
    else if op.op == REPLACE_STORE_CAPS then
      if op.store.None? then Err(ValidationFailed("missing store"))
      else Ok(st.(store := st.store.(maxMessages := op.store.value.maxMessages, maxBytes := op.store.value.maxBytes,
                                     fullPolicy := op.store.value.fullPolicy)))
    else if op.op == REPLACE_HIDE then
      Ok(st.(hideExtensions := if op.hideExtensions.None? then [] else op.hideExtensions.value))
    else if op.op == REPLACE_ADMISSION then
      if op.admission.None? then Err(ValidationFailed("missing admission"))
      else Ok(st.(admission := op.admission.value))
    else if op.op == REPLACE_BEHAVIOR then
      if op.behavior.None? then Err(ValidationFailed("missing behavior")) else Ok(st.(behavior := op.behavior.value))
    else Err(ValidationFailed("unknown operation"))
  }

  function ApplyOperations(st: Config, ops: seq<Operation>): Result<Config, DomainError>
    decreases |ops|
  {
    if ops == [] then Ok(st)
    else
      var r := ApplyOne(st, ops[0]);
      if r.Err? then r else ApplyOperations(r.value, ops[1..])
  }

  predicate AnyReplaceStoreCaps(ops: seq<Operation>) {
    exists i :: 0 <= i < |ops| && ops[i].op == REPLACE_STORE_CAPS
  }

  /** Only a replaceStoreCaps touches the store's part of the state. */
  lemma {:induction false} OtherOperationsLeaveStore(st: Config, ops: seq<Operation>)
    requires !AnyReplaceStoreCaps(ops) && ApplyOperations(st, ops).Ok?
    ensures ApplyOperations(st, ops).value.store == st.store
    decreases |ops|
  {
    if ops != [] {
      assert ops[0].op != REPLACE_STORE_CAPS;
      forall i | 0 <= i < |ops[1..]|
        ensures ops[1..][i].op != REPLACE_STORE_CAPS
      {
        assert ops[i + 1].op != REPLACE_STORE_CAPS;
      }
      OtherOperationsLeaveStore(ApplyOne(st, ops[0]).value, ops[1..]);
    }
  }

  // ---------- compilation ----------

  predicate ValidStore(o: Options) {
    o.maxMessages > 0 && o.maxBytes > 0 && o.fullPolicy in {"", REJECT, EVICT_OLDEST} && o.spillThreshold >= 0
  }

  lemma ValidStoreNormalizes(o: Options)
    requires ValidStore(o)
    ensures NormalizeOptions(o).Ok? && CapsOf(NormalizeOptions(o).value) == CapsOf(o)
  {
  }

  /** `verdict` is the outcome of the validation this model leaves out; it may depend on files. */
  function Compile(st: Config, bootRev: Revision, generation: nat, verdict: bool): Result<Snapshot, DomainError> {
    if ValidStore(st.store) && verdict then
      Ok(Snapshot(st, Hash(st), if bootRev.Unset? then Hash(st) else bootRev, generation))
    else Err(ValidationFailed("state"))
  }

  function CompileCandidate(st: Config, prev: Snapshot, verdict: bool): Result<Snapshot, DomainError> {
    Compile(st, if prev.bootstrapRevision.Unset? then prev.revision else prev.bootstrapRevision,
            prev.generation + 1, verdict)
  }
}
