/**
 * What any callers can do to one store from its construction on. An insertion, a read and a listing are
 * each several calls, between which every other call may come.
 */
module StoreRuns {
  import opened Prelude
  import opened InboxSpec
  import opened Paging
  import opened Spill
  import opened MemoryStore

  /** An insertion under way, with the epoch its caller captured before it began. */
  datatype Flight = Flight(ins: Insertion, epoch: nat)

  /** A read under way, or a listing. */
  datatype Reading =
    | Snapshot(id: Id, snap: Record)
    | Loaded(id: Id, loaded: Option<Message>)
    | Listed(recs: seq<Record>)

  datatype Query =
    | ById(id: Id)
    | InPage(f: Filter, cur: Cursor, limit: int)

  /** What a read is about: what it asked, the messages it found when it began, and where their files were. */
  datatype About = About(query: Query, messages: seq<Message>, dir: string)

  datatype Answer =
    | Got(markRead: bool, got: Result<Message, ReadError>)
    | Page(items: Option<seq<Message>>)

  datatype Call =
    | BeginInsert(msg: Message, now: Time, epoch: nat)
    | EndInsert(k: nat)
    | BeginGet(id: Id)
    | LoadGet(k: nat)
    | EndGet(k: nat, markRead: bool)
    | BeginList(f: Filter, cur: Cursor, limit: int)
    | LoadList(k: nat)
    | MarkRead(id: Id)
    | MarkAllRead
    | Delete(id: Id)
    | DeleteAll
    | Wipe
    | ResetTo(opts: Options)
    | ReplaceCaps(opts: Options, force: bool)

  // ---------- insertions in flight ----------

  ghost predicate Held(flight: seq<Flight>, id: Id) {
    exists k :: 0 <= k < |flight| && flight[k].ins.msg.id == id
  }

  lemma HeldAfterAppend(flight: seq<Flight>, f: Flight, id: Id)
    requires Held(flight, id) || f.ins.msg.id == id
    ensures Held(flight + [f], id)
  {
    assert (flight + [f])[|flight|] == f;
    if Held(flight, id) {
      var k :| 0 <= k < |flight| && flight[k].ins.msg.id == id;
      assert (flight + [f])[k].ins.msg.id == id;
    }
  }

  lemma HeldAfterRemove(flight: seq<Flight>, k: nat, id: Id)
    requires k < |flight| && Held(flight, id) && flight[k].ins.msg.id != id
    ensures Held(flight[..k] + flight[k + 1..], id)
  {
    var j :| 0 <= j < |flight| && flight[j].ins.msg.id == id;
    assert (flight[..k] + flight[k + 1..])[if j < k then j else j - 1].ins.msg.id == id;
  }

  /** The insertions in flight are the pending ones, each in its owner's hands. */
  ghost predicate Tracked(pending: map<Id, InFlight>, epoch: nat, dir: string, flight: seq<Flight>) {
    (forall k :: 0 <= k < |flight| ==>
       CarriedBy(pending, epoch, dir, flight[k].ins) && flight[k].epoch <= pending[flight[k].ins.msg.id].since) &&
    (forall id :: id in pending ==> Held(flight, id)) &&
    (forall i, j :: 0 <= i < j < |flight| ==> flight[i].ins.msg.id != flight[j].ins.msg.id)
  }

  lemma TrackedAfterAppend(before: map<Id, InFlight>, after: map<Id, InFlight>, epoch: nat, dir: string,
                           flight: seq<Flight>, f: Flight)
    requires Tracked(before, epoch, dir, flight) && CarriedBy(after, epoch, dir, f.ins)
    requires var id := f.ins.msg.id;
             id !in before && after == before[id := after[id]] && f.epoch <= after[id].since
    ensures Tracked(after, epoch, dir, flight + [f])
  {
    hide JobFor, Resident, Held;
    forall id | id in after
      ensures Held(flight + [f], id)
    {
      HeldAfterAppend(flight, f, id);
    }
  }

  lemma TrackedAfterRemove(before: map<Id, InFlight>, epoch: nat, dir: string, flight: seq<Flight>, k: nat)
    requires Tracked(before, epoch, dir, flight) && k < |flight|
    ensures Tracked(before - {flight[k].ins.msg.id}, epoch, dir, flight[..k] + flight[k + 1..])
  {
    hide JobFor, Resident, Held;
    var after := before - {flight[k].ins.msg.id};
    forall id | id in after
      ensures Held(flight[..k] + flight[k + 1..], id)
    {
      HeldAfterRemove(flight, k, id);
    }
    var less := flight[..k] + flight[k + 1..];
    assert forall j :: 0 <= j < |less| ==> less[j] == flight[if j < k then j else j + 1];
  }

  /** An insertion begun before a wipe is no longer current, so the wipe asks nothing new of it. */
  lemma StillTracked(c: Cells, epoch: nat, dir: string, flight: seq<Flight>)
    requires CellsOK(c) && Tracked(c.pending, c.epoch, c.dir, flight)
    requires epoch > c.epoch || (epoch == c.epoch && dir == c.dir)
    ensures Tracked(c.pending, epoch, dir, flight)
  {
    hide Sorted, DistinctIds, IndexOK, RecordsOK, FilesOK, Total, Held, JobFor;
    forall k | 0 <= k < |flight|
      ensures CarriedBy(c.pending, epoch, dir, flight[k].ins)
    {
      assert c.pending[flight[k].ins.msg.id].since <= c.epoch;
    }
  }

  /** Ids are handed out in ascending order, `first` before any call and `next` from now on. */
  ghost predicate Issued(mail: seq<Message>, pending: map<Id, InFlight>, leftovers: iset<Path>, first: Id, next: Id) {
    IdsWithin(mail, first, next) && (forall id :: id in pending ==> first <= id < next) &&
    (forall p :: p in leftovers ==> p.id < first)
  }

  ghost predicate Orderly(c: Cells, flight: seq<Flight>, first: Id, next: Id) {
    first <= next && Tracked(c.pending, c.epoch, c.dir, flight) && Issued(c.mail, c.pending, c.leftovers, first, next)
  }

  lemma NextIdIsFresh(store: Memory, flight: seq<Flight>, first: Id, next: Id)
    requires store.Valid() && Orderly(store.Now(), flight, first, next)
    ensures store.Fresh(next)
  {
    hide Sorted, DistinctIds, RecordsOK, PendingOK, Total, Tracked;
    var c := store.Now();
    CellsIndex(c, next);
    forall p | p in c.files
      ensures p.id != next
    {
      assert Accounted(p, c.byID, c.pending, c.leftovers);
    }
  }

  // ---------- messages that reads are about ----------

  /** `m`, seen earlier, is still under its id or gone, and nothing else can come to bear that id. */
  ghost predicate Knows(c: Cells, next: Id, m: Message) {
    StillThere(c.mail, m) && m.id !in c.pending && m.id < next && forall p :: p in c.leftovers ==> p.id != m.id
  }

  /** A step adds at most a pending id that is new and, to the mail, a message that was pending. */
  lemma KnowsStays(c: Cells, d: Cells, s: Inbox, op: Op, next: Id, after: Id, m: Message)
    requires Knows(c, next, m) && DistinctIds(c.mail) && s.mail == c.mail && next <= after
    requires d.mail == c.mail || (d.mail == Next(s, op).mail && (op.Commit? ==> op.msg.id in c.pending))
    requires d.leftovers == c.leftovers && forall id :: id in d.pending ==> id in c.pending || id >= next
    ensures Knows(d, after, m)
  {
    hide Next;
    if d.mail != c.mail && IndexOf(d.mail, m.id) < |d.mail| {
      var j := IndexOf(d.mail, m.id);
      var i := NextLeavesLetter(s, op, j);
      SameLetterSameId(s.mail[i], d.mail[j]);
      IndexOfUnique(s.mail, i);
    }
  }

  lemma SameLetterSameId(a: Message, b: Message)
    requires a.(read := false) == b.(read := false)
    ensures a.id == b.id
  {
    assert a.id == a.(read := false).id;
  }

  lemma PresentIsKnown(c: Cells, flight: seq<Flight>, first: Id, next: Id, m: Message)
    requires CellsOK(c) && Orderly(c, flight, first, next) && m in c.mail
    ensures Knows(c, next, m) && IndexOf(c.mail, m.id) < |c.mail|
  {
    hide RecordsOK, PendingOK, FilesOK, Total, Tracked;
    PresentIsSeen(c.mail, m);
    CellsIndex(c, m.id);
    var i := IndexOf(c.mail, m.id);
    assert first <= c.mail[i].id < next;
  }

  ghost predicate AllKnown(c: Cells, next: Id, g: About) {
    forall k :: 0 <= k < |g.messages| ==> Knows(c, next, g.messages[k])
  }

  ghost predicate RecordsFor(recs: seq<Record>, g: About) {
    |recs| == |g.messages| && forall k :: 0 <= k < |recs| ==> RecordFor(recs[k], g.messages[k], g.dir)
  }

  /** A read holds what its last step could take of its messages. */
  ghost predicate Follows(c: Cells, next: Id, r: Reading, g: About) {
    match r
    case Snapshot(id, snap) => RecordsFor([snap], g) && g.messages[0].id == id && AllKnown(c, next, g)
    case Loaded(id, loaded) =>
      |g.messages| == 1 && g.messages[0].id == id && (loaded.Some? ==> loaded.value == g.messages[0])
    case Listed(recs) => RecordsFor(recs, g) && AllKnown(c, next, g)
  }

  ghost predicate AllFollow(c: Cells, next: Id, readings: seq<Reading>, about: seq<About>) {
    |readings| == |about| && forall k :: 0 <= k < |readings| ==> Follows(c, next, readings[k], about[k])
  }

  lemma AllFollowStays(c: Cells, d: Cells, next: Id, after: Id, readings: seq<Reading>, about: seq<About>)
    requires AllFollow(c, next, readings, about) && forall m :: Knows(c, next, m) ==> Knows(d, after, m)
    ensures AllFollow(d, after, readings, about)
  {
    hide Knows, RecordsFor;
    forall k | 0 <= k < |readings|
      ensures Follows(d, after, readings[k], about[k])
    {
      assert Follows(c, next, readings[k], about[k]);
    }
  }

  /** An answer that is no error is its messages as they were, but for a read bit the caller asked to set. */
  ghost predicate Truthful(a: Answer, g: About) {
    match a
    case Got(markRead, got) =>
      got.Ok? ==> |g.messages| == 1 && got.value == g.messages[0].(read := markRead || g.messages[0].read)
    case Page(items) => items.Some? ==> items.value == g.messages
  }

  /** The messages are the answer to the query on `mail`. */
  ghost predicate Answers(mail: seq<Message>, g: About) {
    match g.query
    case ById(id) => var i := IndexOf(mail, id); i < |mail| && g.messages == [mail[i]]
    case InPage(f, cur, limit) => g.messages == PageOf(mail, f, cur, limit).items
  }

  /** There was a moment of the run at which the messages answered the query. */
  ghost predicate WasThere(start: Inbox, ops: seq<Op>, g: About) {
    exists n :: 0 <= n <= |ops| && Answers(Run(start, ops[..n]).mail, g)
  }

  ghost predicate AllWereThere(start: Inbox, ops: seq<Op>, about: seq<About>) {
    forall k :: 0 <= k < |about| ==> WasThere(start, ops, about[k])
  }

  lemma WasThereStays(start: Inbox, ops: seq<Op>, more: seq<Op>, g: About)
    requires WasThere(start, ops, g)
    ensures WasThere(start, ops + more, g)
  {
    hide Answers;
    var n :| 0 <= n <= |ops| && Answers(Run(start, ops[..n]).mail, g);
    assert (ops + more)[..n] == ops[..n];
  }

  lemma AllWereThereStays(start: Inbox, ops: seq<Op>, more: seq<Op>, about: seq<About>)
    requires AllWereThere(start, ops, about)
    ensures AllWereThere(start, ops + more, about)
  {
    hide WasThere;
    forall k | 0 <= k < |about|
      ensures WasThere(start, ops + more, about[k])
    {
      WasThereStays(start, ops, more, about[k]);
    }
  }

  lemma NowIsThere(start: Inbox, ops: seq<Op>, g: About)
    requires Answers(Run(start, ops).mail, g)
    ensures WasThere(start, ops, g)
  {
    hide Answers;
    assert ops[..|ops|] == ops;
  }

  // ---------- one call ----------

  /** What a call changed keeps track of the insertions, the ids and every message a read is about. */
  ghost predicate KeepsOrder(c: Cells, next: Id, d: Cells, flight: seq<Flight>, first: Id, after: Id) {
    Orderly(d, flight, first, after) && forall m :: Knows(c, next, m) ==> Knows(d, after, m)
  }

  lemma AllKnowsStays(c: Cells, d: Cells, s: Inbox, op: Op, next: Id, after: Id)
    requires DistinctIds(c.mail) && s.mail == c.mail && next <= after
    requires d.mail == c.mail || (d.mail == Next(s, op).mail && (op.Commit? ==> op.msg.id in c.pending))
    requires d.leftovers == c.leftovers && forall id :: id in d.pending ==> id in c.pending || id >= next
    ensures forall m :: Knows(c, next, m) ==> Knows(d, after, m)
  {
    hide Knows, Next, DistinctIds;
    forall m | Knows(c, next, m)
      ensures Knows(d, after, m)
    {
      KnowsStays(c, d, s, op, next, after, m);
    }
  }

  method Begin(store: Memory, flight: seq<Flight>, msg: Message, now: Time, epoch: nat, ghost first: Id, next: Id)
    returns (more: seq<Flight>)
    requires store.Valid() && Orderly(store.Now(), flight, first, next)
    modifies store, store.disk
    ensures store.Valid() && store.State() == old(store.State())
    ensures KeepsOrder(old(store.Now()), next, store.Now(), more, first, next + 1)
  {
    hide CellsOK, WellFormed, JobFor, Resident, Prepared, Tracked, Knows, CarriedBy;
    ghost var c := store.Now();
    NextIdIsFresh(store, flight, first, next);
    PreparedId(msg, next, now);
    var captured := if epoch <= store.epoch then epoch else store.epoch;
    var r := store.Prepare(msg, next, now);
    more := flight;
    if r.Ok? {
      more := flight + [Flight(r.value, captured)];
      TrackedAfterAppend(c.pending, store.pending, c.epoch, c.dir, flight, Flight(r.value, captured));
    }
    ValidIsDistinct(c);
    AllKnowsStays(c, store.Now(), old(store.State()), Op.DeleteAll, next, next + 1);
  }

  lemma ValidIsDistinct(c: Cells)
    requires CellsOK(c)
    ensures DistinctIds(c.mail)
  {
  }

  method End(store: Memory, flight: seq<Flight>, k: nat, ghost first: Id, ghost next: Id)
    returns (less: seq<Flight>, ghost done: seq<Op>)
    requires store.Valid() && Orderly(store.Now(), flight, first, next)
    modifies store, store.disk
    ensures store.Valid() && KeepsOrder(old(store.Now()), next, store.Now(), less, first, next)
    ensures store.State() == Run(old(store.State()), done) && LegalRun(old(store.State()), done)
  {
    hide CellsOK, WellFormed, JobFor, Resident, CanAccept, Knows, Accept, Held, Next, Legal;
    less, done := flight, [];
    ghost var c, was := store.Now(), store.State();
    ValidIsDistinct(c);
    if k < |flight| {
      ghost var op := Op.Commit(flight[k].epoch, flight[k].ins.msg);
      PendingIsAbsent(c, op.msg.id);
      var r := store.Commit(flight[k].epoch, flight[k].ins);
      less := flight[..k] + flight[k + 1..];
      TrackedAfterRemove(c.pending, c.epoch, c.dir, flight, k);
      hide Tracked;
      if r.Ok? {
        done := [op];
        RunOne(was, op);
        CommitIsNext(was, op);
        NextKeepsIdsWithin(was, op, first, next);
      }
      AllKnowsStays(c, store.Now(), was, op, next, next);
    }
  }

  lemma CommitIsNext(s: Inbox, op: Op)
    requires op.Commit? && CommitError(s, op.epoch, op.msg).None? && Absent(s.mail, op.msg.id)
    ensures Next(s, op) == Accept(s, op.msg) && Legal(s, op) && Accept(s, op.msg).epoch == s.epoch
  {
  }

  /** A call that leaves the pending insertions alone. */
  lemma StillInOrder(c: Cells, d: Cells, s: Inbox, flight: seq<Flight>, first: Id, next: Id, op: Op)
    requires CellsOK(c) && Orderly(c, flight, first, next) && s.epoch == c.epoch && s.mail == c.mail && !op.Commit?
    requires d.pending == c.pending && d.leftovers == c.leftovers && (d.dir == c.dir || d.epoch > c.epoch)
    requires (d.mail == s.mail && d.epoch == s.epoch) || (d.mail == Next(s, op).mail && d.epoch == Next(s, op).epoch)
    ensures KeepsOrder(c, next, d, flight, first, next)
  {
    ValidIsDistinct(c);
    hide CellsOK, Tracked, IdsWithin, Next, Knows, DistinctIds;
    NextKeepsIdsWithin(s, op, first, next);
    NextMovesEpoch(s, op);
    StillTracked(c, d.epoch, d.dir, flight);
    AllKnowsStays(c, d, s, op, next, next);
  }

  /** Any call that is no part of an insertion, a read or a listing. */
  method Other(store: Memory, ghost flight: seq<Flight>, call: Call, ghost first: Id, ghost next: Id)
    returns (ghost done: seq<Op>)
    requires store.Valid() && Orderly(store.Now(), flight, first, next)
    modifies store, store.disk
    ensures store.Valid() && KeepsOrder(old(store.Now()), next, store.Now(), flight, first, next)
    ensures store.State() == Run(old(store.State()), done) && LegalRun(old(store.State()), done)
  {
    hide CellsOK, WellFormed, Orderly, Knows, KeepsOrder, AfterReplaceCaps, AfterMarkRead, AfterDelete, AllRead;
    ghost var c, was := store.Now(), store.State();
    ghost var op := Op.DeleteAll;
    ghost var ran := true;
    match call {
      case MarkRead(id) =>
        var r := store.MarkRead(id);
        op := Op.MarkRead(id);
      case MarkAllRead =>
        var r := store.MarkAllRead();
        op := Op.MarkAllRead;
      case Delete(id) =>
        var r := store.Delete(id);
        op := Op.Delete(id);
      case DeleteAll =>
        var r := store.DeleteAll();
      case Wipe =>
        store.Wipe();
        op := Op.Wipe;
      case ResetTo(opts) =>
        var r := store.ResetTo(opts);
        op := Op.ResetTo(CapsOf(opts));
        ran := r.Ok?;
      case ReplaceCaps(opts, force) =>
        var r := store.ReplaceCaps(opts, force);
        op := Op.ReplaceCaps(CapsOf(opts), force);
        ran := r.Ok?;
      case _ =>
        ran := false;
    }
    done := if ran then [op] else [];
    RunOne(was, op);
    StillInOrder(c, store.Now(), was, flight, first, next, op);
  }

  // ---------- reads and listings, step by step ----------

  lemma KnownIsSeen(store: Memory, next: Id, m: Message)
    requires Knows(store.Now(), next, m)
    ensures store.Seen(m)
  {
  }

  method BeginGet(store: Memory, id: Id, ghost flight: seq<Flight>, ghost first: Id, ghost next: Id)
    returns (r: Option<Reading>, ghost g: About)
    requires store.Valid() && Orderly(store.Now(), flight, first, next)
    ensures r.Some? <==> !Absent(store.mail, id)
    ensures r.Some? ==> Follows(store.Now(), next, r.value, g) && g.query == ById(id) && Answers(store.mail, g)
  {
    hide CellsOK, WellFormed, RecordFor, Orderly, Knows;
    var snap := store.GetSnapshot(id);
    r, g := None, About(ById(id), [], "");
    if snap.Some? {
      r := Some(Snapshot(id, snap.value));
      g := About(ById(id), [store.mail[IndexOf(store.mail, id)]], store.spillDir);
      PresentIsKnown(store.Now(), flight, first, next, g.messages[0]);
    }
  }

  method LoadGet(store: Memory, r: Reading, ghost g: About, ghost next: Id) returns (l: Reading)
    requires store.Valid() && r.Snapshot? && Follows(store.Now(), next, r, g)
    ensures Follows(store.Now(), next, l, g)
    ensures l.Loaded? && (!Spilled(r.snap) ==> l.loaded.Some?)
  {
    hide CellsOK, WellFormed, RecordFor, Knows, Spilled;
    KnownIsSeen(store, next, g.messages[0]);
    var loaded := store.GetLoad(r.snap, g.messages[0], g.dir);
    l := Loaded(r.id, loaded);
  }

  method EndGet(store: Memory, r: Reading, ghost g: About, markRead: bool,
                ghost flight: seq<Flight>, ghost first: Id, ghost next: Id)
    returns (a: Answer, ghost done: seq<Op>)
    requires store.Valid() && Orderly(store.Now(), flight, first, next)
    requires r.Loaded? && Follows(store.Now(), next, r, g)
    modifies store
    ensures store.Valid() && KeepsOrder(old(store.Now()), next, store.Now(), flight, first, next)
    ensures store.State() == Run(old(store.State()), done) && LegalRun(old(store.State()), done)
    ensures Truthful(a, g)
  {
    hide CellsOK, WellFormed, Orderly, Knows, KeepsOrder, AfterMarkRead;
    ghost var c, was, op := store.Now(), store.State(), Op.MarkRead(r.id);
    var got := store.GetFinish(r.id, r.loaded, markRead);
    a := Got(markRead, got);
    done := if got.Ok? && markRead then [op] else [];
    RunOne(was, op);
    StillInOrder(c, store.Now(), was, flight, first, next, op);
  }

  method BeginList(store: Memory, f: Filter, cur: Cursor, limit: int,
                   ghost flight: seq<Flight>, ghost first: Id, ghost next: Id)
    returns (r: Reading, ghost g: About)
    requires store.Valid() && Orderly(store.Now(), flight, first, next)
    ensures Follows(store.Now(), next, r, g) && g.query == InPage(f, cur, limit) && Answers(store.mail, g)
  {
    hide CellsOK, WellFormed, RecordFor, Orderly, Knows, PageOf;
    var recs, after := store.Scan(f, cur, limit);
    ghost var chosen := PageOf(store.mail, f, cur, limit).items;
    r, g := Listed(recs), About(InPage(f, cur, limit), chosen, store.spillDir);
    forall k | 0 <= k < |chosen|
      ensures Knows(store.Now(), next, chosen[k])
    {
      PresentIsKnown(store.Now(), flight, first, next, chosen[k]);
    }
  }

  method LoadList(store: Memory, r: Reading, ghost g: About, ghost next: Id) returns (a: Answer)
    requires store.Valid() && r.Listed? && Follows(store.Now(), next, r, g)
    ensures Truthful(a, g) && a.Page?
  {
    hide CellsOK, WellFormed, RecordFor, Knows, Spilled;
    forall k | 0 <= k < |g.messages|
      ensures store.Seen(g.messages[k])
    {
      KnownIsSeen(store, next, g.messages[k]);
    }
    var items := store.LoadListed(r.recs, g.messages, g.dir);
    a := Answer.Page(items);
  }

  // ---------- what is on the disk ----------

  /** `p` is a spill file of a message in the inbox. */
  ghost predicate Live(store: Memory, p: Path)
    reads store
  {
    exists m :: m in store.mail && m.id in store.byID && Owns(store.byID[m.id], p)
  }

  /** `p` is a temporary of an insertion in flight. */
  ghost predicate Temporary(flight: seq<Flight>, p: Path) {
    exists k :: 0 <= k < |flight| && Names(flight[k].ins.job, p)
  }

  /** Every file is accounted for, and every file the inbox counts on is there with its bytes. */
  lemma DiskIsAccountedFor(store: Memory, flight: seq<Flight>)
    requires store.Valid() && Tracked(store.pending, store.epoch, store.spillDir, flight)
    ensures forall p :: p in store.disk.files ==> p in store.leftovers || Live(store, p) || Temporary(flight, p)
    ensures forall m, p :: m in store.mail && Owns(store.byID[m.id], p) ==>
              p in store.disk.files && store.disk.files[p] == Datum(m, p)
  {
    hide Sorted, DistinctIds, RecordFor, Total, PendingOK, JobFor;
    var c := store.Now();
    forall p | p in c.files && p !in c.leftovers
      ensures Live(store, p) || Temporary(flight, p)
    {
      assert Accounted(p, c.byID, c.pending, c.leftovers);
      if p.id in c.byID {
        assert p.id in IdSet(c.mail);
        var m :| m in c.mail && m.id == p.id;
        assert Owns(c.byID[m.id], p);
      } else {
        assert Held(flight, p.id);
        var k :| 0 <= k < |flight| && flight[k].ins.msg.id == p.id;
        assert p in JobPaths(flight[k].ins.job);
      }
    }
    forall m, p | m in c.mail && Owns(c.byID[m.id], p)
      ensures p in c.files && c.files[p] == Datum(m, p)
    {
      assert p in OwnedPaths(c.byID[m.id]);
    }
  }

  // ---------- every run ----------

  /** All that a run carries along: the callers' own records, and what is known of them. */
  datatype World = World(flight: seq<Flight>, readings: seq<Reading>, answers: seq<Answer>, next: Id)

  datatype Known = Known(about: seq<About>, of: seq<About>, ops: seq<Op>)

  ghost predicate AllTruthful(answers: seq<Answer>, of: seq<About>) {
    |answers| == |of| && forall k :: 0 <= k < |answers| ==> Truthful(answers[k], of[k])
  }

  ghost predicate Sound(c: Cells, s: Inbox, start: Inbox, first: Id, w: World, k: Known) {
    Orderly(c, w.flight, first, w.next) && AllFollow(c, w.next, w.readings, k.about) &&
    AllTruthful(w.answers, k.of) && AllWereThere(start, k.ops, k.about) && AllWereThere(start, k.ops, k.of) &&
    s == Run(start, k.ops) && LegalRun(start, k.ops)
  }

  lemma SoundAtFirst(c: Cells, s: Inbox, first: Id)
    requires c.pending == map[] && c.mail == [] && s.mail == [] && forall p :: p in c.leftovers ==> p.id < first
    ensures Sound(c, s, s, first, World([], [], [], first), Known([], [], []))
  {
  }

  /** The store did `done`. */
  lemma SoundAfter(c: Cells, s: Inbox, d: Cells, t: Inbox, start: Inbox, first: Id, w: World, k: Known,
                   flight: seq<Flight>, next: Id, done: seq<Op>)
    requires Sound(c, s, start, first, w, k) && KeepsOrder(c, w.next, d, flight, first, next)
    requires t == Run(s, done) && LegalRun(s, done)
    ensures Sound(d, t, start, first, w.(flight := flight, next := next), k.(ops := k.ops + done))
  {
    hide Run, LegalRun, Orderly, Knows, WasThere, AllWereThere, AllFollow, AllTruthful;
    RunConcat(start, k.ops, done);
    AllFollowStays(c, d, w.next, next, w.readings, k.about);
    AllWereThereStays(start, k.ops, done, k.about);
    AllWereThereStays(start, k.ops, done, k.of);
  }

  /** A read began. */
  lemma SoundWithReading(c: Cells, s: Inbox, start: Inbox, first: Id, w: World, k: Known, r: Reading, g: About)
    requires Sound(c, s, start, first, w, k) && Follows(c, w.next, r, g) && Answers(s.mail, g)
    ensures Sound(c, s, start, first, w.(readings := w.readings + [r]), k.(about := k.about + [g]))
  {
    hide Run, LegalRun, Orderly, Follows, WasThere, AllTruthful, Answers;
    NowIsThere(start, k.ops, g);
  }

  /** The `i`th read took a step. */
  lemma SoundWithLoaded(c: Cells, s: Inbox, start: Inbox, first: Id, w: World, k: Known, i: nat, r: Reading)
    requires Sound(c, s, start, first, w, k) && i < |w.readings| && Follows(c, w.next, r, k.about[i])
    ensures Sound(c, s, start, first, w.(readings := w.readings[i := r]), k)
  {
    hide Run, LegalRun, Orderly, Follows, AllWereThere, AllTruthful;
  }

  /** The `i`th read answered. */
  lemma SoundWithAnswer(c: Cells, s: Inbox, start: Inbox, first: Id, w: World, k: Known, i: nat, a: Answer)
    requires Sound(c, s, start, first, w, k) && i < |w.readings| && |k.about| == |w.readings|
    requires Truthful(a, k.about[i])
    ensures Sound(c, s, start, first, w.(answers := w.answers + [a]), k.(of := k.of + [k.about[i]]))
  {
    hide Run, LegalRun, Orderly, AllFollow, WasThere, Truthful;
  }

  lemma SoundMeans(c: Cells, s: Inbox, start: Inbox, first: Id, w: World, k: Known)
    requires Sound(c, s, start, first, w, k)
    ensures Orderly(c, w.flight, first, w.next) && |w.readings| == |k.about|
    ensures forall i :: 0 <= i < |w.readings| ==> Follows(c, w.next, w.readings[i], k.about[i])
  {
  }

  /** One call of any caller. A step of an insertion, a read or a listing that never began does nothing. */
  method Step(store: Memory, w: World, ghost k: Known, call: Call, ghost start: Inbox, ghost first: Id)
    returns (v: World, ghost l: Known)
    requires store.Valid() && Sound(store.Now(), store.State(), start, first, w, k)
    modifies store, store.disk
    ensures store.Valid() && Sound(store.Now(), store.State(), start, first, v, l)
  {
    hide CellsOK, WellFormed, Sound, Orderly, Follows, Knows, KeepsOrder, Truthful, Run, LegalRun, Answers;
    ghost var c, was := store.Now(), store.State();
    SoundMeans(c, was, start, first, w, k);
    v, l := w, k;
    match call {
      case BeginInsert(msg, now, epoch) =>
        var flight := Begin(store, w.flight, msg, now, epoch, first, w.next);
        RunNone(was);
        SoundAfter(c, was, store.Now(), store.State(), start, first, w, k, flight, w.next + 1, []);
        v, l := w.(flight := flight, next := w.next + 1), k.(ops := k.ops + []);
      case EndInsert(i) =>
        ghost var done;
        var flight;
        flight, done := End(store, w.flight, i, first, w.next);
        SoundAfter(c, was, store.Now(), store.State(), start, first, w, k, flight, w.next, done);
        v, l := w.(flight := flight), k.(ops := k.ops + done);
      case BeginGet(id) =>
        ghost var g;
        var r;
        r, g := BeginGet(store, id, w.flight, first, w.next);
        if r.Some? {
          SoundWithReading(c, was, start, first, w, k, r.value, g);
          v, l := w.(readings := w.readings + [r.value]), k.(about := k.about + [g]);
        }
      case LoadGet(i) =>
        if i < |w.readings| && w.readings[i].Snapshot? {
          var r := LoadGet(store, w.readings[i], k.about[i], w.next);
          SoundWithLoaded(c, was, start, first, w, k, i, r);
          v := w.(readings := w.readings[i := r]);
        }
      case EndGet(i, markRead) =>
        if i < |w.readings| && w.readings[i].Loaded? {
          ghost var done;
          var a;
          a, done := EndGet(store, w.readings[i], k.about[i], markRead, w.flight, first, w.next);
          SoundAfter(c, was, store.Now(), store.State(), start, first, w, k, w.flight, w.next, done);
          l := k.(ops := k.ops + done);
          SoundWithAnswer(store.Now(), store.State(), start, first, w, l, i, a);
          v, l := w.(answers := w.answers + [a]), l.(of := l.of + [k.about[i]]);
        }
      case BeginList(f, cur, limit) =>
        ghost var g;
        var r;
        r, g := BeginList(store, f, cur, limit, w.flight, first, w.next);
        SoundWithReading(c, was, start, first, w, k, r, g);
        v, l := w.(readings := w.readings + [r]), k.(about := k.about + [g]);
      case LoadList(i) =>
        if i < |w.readings| && w.readings[i].Listed? {
          var a := LoadList(store, w.readings[i], k.about[i], w.next);
          SoundWithAnswer(c, was, start, first, w, k, i, a);
          v, l := w.(answers := w.answers + [a]), k.(of := k.of + [k.about[i]]);
        }
      case _ =>
        ghost var done := Other(store, w.flight, call, first, w.next);
        SoundAfter(c, was, store.Now(), store.State(), start, first, w, k, w.flight, w.next, done);
        l := k.(ops := k.ops + done);
    }
  }

  lemma RunNone(s: Inbox)
    ensures Run(s, []) == s && LegalRun(s, [])
  {
  }

  /**
   * Any sequence of calls on a store made by its constructor. The ULIDs handed out are newer than those of
   * the files already on the disk. The inbox goes through the specification's steps `k.ops`, each read and
   * listing that succeeds answers as at one moment on the way, and every file on the disk has its owner.
   */
  method RunCalls(disk: Disk, opts: Options, calls: seq<Call>, first: Id)
    returns (store: Memory, w: World, ghost k: Known)
    requires NormalOptions(opts)
    requires forall p :: p in disk.files ==> p.dir != "" && p.id < first
    modifies disk
    ensures fresh(store) && store.disk == disk && store.Valid()
    ensures var start := Inbox(CapsOf(opts), 1, 0, 0, []);
            store.State() == Run(start, k.ops) && LegalRun(start, k.ops) && AllWereThere(start, k.ops, k.of)
    ensures AllTruthful(w.answers, k.of)
    ensures forall p :: p in disk.files ==>
              (p in old(disk.files) && p.dir != opts.spillDirectory) || Live(store, p) || Temporary(w.flight, p)
    ensures forall m, p :: m in store.mail && Owns(store.byID[m.id], p) ==>
              p in disk.files && disk.files[p] == Datum(m, p)
    ensures old(disk.files) == map[] && w.flight == [] && store.mail == [] ==> disk.files == map[]
  {
    hide CellsOK, WellFormed, Orderly, AllFollow, Run, LegalRun, NormalOptions;
    store := new Memory(opts, disk);
    ghost var start, before := store.State(), store.leftovers;
    w, k := World([], [], [], first), Known([], [], []);
    SoundAtFirst(store.Now(), start, first);
    var i := 0;
    while i < |calls|
      invariant 0 <= i <= |calls|
      invariant store.Valid() && store.disk == disk && fresh(store) && store.leftovers == before
      invariant Sound(store.Now(), store.State(), start, first, w, k)
    {
      w, k := Step(store, w, k, calls[i], start, first);
      i := i + 1;
    }
    OrderlyIsTracked(store.Now(), w.flight, first, w.next);
    DiskIsAccountedFor(store, w.flight);
  }

  lemma OrderlyIsTracked(c: Cells, flight: seq<Flight>, first: Id, next: Id)
    requires Orderly(c, flight, first, next)
    ensures Tracked(c.pending, c.epoch, c.dir, flight)
  {
  }
}
