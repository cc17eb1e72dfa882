/**
 * The process-local inbox: id index, order list, byte counter and spill files changed in place.
 * Every method is tied to the value-level operation of InboxSpec through `State()`. The unlocked
 * half of Insert (`Prepare`) and the locked half (`Commit`) are separate methods, so any sequence
 * of calls on one object is an interleaving of concurrent callers, and `Valid()` holds between them.
 */
module MemoryStore {
  import opened Prelude
  import opened InboxSpec
  import opened InboxLaws
  import opened Paging
  import opened Spill

  datatype Options = Options(
    maxMessages: int, maxBytes: int, fullPolicy: string, spillDirectory: string, spillThreshold: int)

  datatype OptionsError = BadMaxMessages | BadMaxBytes | UnknownPolicy

  const REJECT := "reject"
  const EVICT_OLDEST := "evict_oldest"
  const DEFAULT_SPILL_THRESHOLD := 262144

  function NormalizeOptions(o: Options): (r: Result<Options, OptionsError>)
    ensures r.Ok? <==> o.maxMessages > 0 && o.maxBytes > 0 && o.fullPolicy in {"", REJECT, EVICT_OLDEST}
    ensures r.Ok? ==> NormalOptions(r.value) && CapsOf(r.value) == CapsOf(o)
  {
    if o.maxMessages <= 0 then Err(BadMaxMessages)
    else if o.maxBytes <= 0 then Err(BadMaxBytes)
    else if o.fullPolicy !in {"", REJECT, EVICT_OLDEST} then Err(UnknownPolicy)
    else
      var p := if o.fullPolicy == "" then o.(fullPolicy := REJECT) else o;
      Ok(if p.spillDirectory != "" && p.spillThreshold <= 0 then p.(spillThreshold := DEFAULT_SPILL_THRESHOLD) else p)
  }

  predicate NormalOptions(o: Options) {
    o.maxMessages > 0 && o.maxBytes > 0 && o.fullPolicy in {REJECT, EVICT_OLDEST} &&
    (o.spillDirectory != "" ==> o.spillThreshold > 0)
  }

  /** Options that have passed once pass again unchanged, so an install after a check cannot fail. */
  lemma NormalizeIsIdempotent(o: Options)
    requires NormalOptions(o)
    ensures NormalizeOptions(o) == Ok(o)
  {
  }

  /** What passes keeps its caps and directory; a missing policy reads as reject, a missing threshold as the default. */
  lemma NormalizeFillsDefaults(o: Options)
    requires NormalizeOptions(o).Ok?
    ensures var n := NormalizeOptions(o).value;
            n.maxMessages == o.maxMessages && n.maxBytes == o.maxBytes && n.spillDirectory == o.spillDirectory &&
            n.fullPolicy == (if o.fullPolicy == "" then "reject" else o.fullPolicy) &&
            n.spillThreshold == if o.spillDirectory != "" && o.spillThreshold <= 0 then 262144 else o.spillThreshold
  {
  }

  function CapsOf(o: Options): Caps {
    Caps(o.maxMessages, o.maxBytes, o.fullPolicy == EVICT_OLDEST)
  }

  // ---------- the index ----------

  ghost predicate IndexOK(order: seq<Id>, byID: map<Id, Record>, mail: seq<Message>) {
    |order| == |mail| &&
    (forall i :: 0 <= i < |mail| ==> order[i] == mail[i].id) &&
    byID.Keys == IdSet(mail)
  }

  ghost function IdSet(mail: seq<Message>): set<Id> {
    set m | m in mail :: m.id
  }

  lemma IdSetConcat(a: seq<Message>, b: seq<Message>)
    ensures IdSet(a + b) == IdSet(a) + IdSet(b)
  {
    forall x
      ensures x in IdSet(a + b) <==> x in IdSet(a) || x in IdSet(b)
    {
      if x in IdSet(a) {
        var m :| m in a && m.id == x;
        assert m in a + b;
      }
      if x in IdSet(b) {
        var m :| m in b && m.id == x;
        assert m in a + b;
      }
    }
  }

  lemma IdSetAround(a: seq<Message>, m: Message, b: seq<Message>)
    ensures IdSet(a + [m] + b) == IdSet(a + b) + {m.id}
  {
    IdSetConcat(a + [m], b);
    IdSetConcat(a, [m]);
    IdSetConcat(a, b);
    assert IdSet([m]) == {m.id};
  }

  lemma {:induction false} IdSetSize(mail: seq<Message>)
    requires DistinctIds(mail)
    ensures |IdSet(mail)| == |mail|
  {
    if mail != [] {
      var n := |mail| - 1;
      IdSetSize(mail[..n]);
      assert mail == mail[..n] + [mail[n]] + [];
      IdSetAround(mail[..n], mail[n], []);
      assert mail[..n] + [] == mail[..n];
    }
  }

  lemma CountMatches(order: seq<Id>, byID: map<Id, Record>, mail: seq<Message>)
    requires IndexOK(order, byID, mail) && DistinctIds(mail)
    ensures |byID| == |order| == |mail|
  {
    IdSetSize(mail);
    assert |byID| == |byID.Keys|;
  }

  lemma RemovedIdIsGone(mail: seq<Message>, i: nat)
    requires DistinctIds(mail) && i < |mail|
    ensures mail[i].id !in IdSet(mail[..i] + mail[i + 1..])
  {
    var rest := mail[..i] + mail[i + 1..];
    assert forall k :: 0 <= k < |rest| ==> rest[k] == mail[if k < i then k else k + 1];
  }

  lemma IndexAfterRemove(order: seq<Id>, byID: map<Id, Record>, mail: seq<Message>, i: nat)
    requires IndexOK(order, byID, mail) && DistinctIds(mail) && i < |mail|
    ensures IndexOK(order[..i] + order[i + 1..], byID - {order[i]}, mail[..i] + mail[i + 1..])
  {
    hide IdSet;
    RemovedIdIsGone(mail, i);
    hide DistinctIds;
    SplitAround(mail, i);
    IdSetAround(mail[..i], mail[i], mail[i + 1..]);
  }

  lemma IndexAfterInsert(order: seq<Id>, byID: map<Id, Record>, mail: seq<Message>, p: nat, m: Message, rec: Record)
    requires IndexOK(order, byID, mail) && p <= |mail|
    ensures IndexOK(order[..p] + [m.id] + order[p..], byID[m.id := rec], mail[..p] + [m] + mail[p..])
  {
    var a, b := mail[..p], mail[p..];
    hide IdSet;
    assert IdSet(a + b) == IdSet(mail) by {
      assert a + b == mail;
    }
    IdSetAround(a, m, b);
  }

  // ---------- the disk ----------

  /** An insertion whose files are written and whose message is not indexed yet. */
  datatype InFlight = InFlight(msg: Message, paths: iset<Path>, since: nat)

  ghost predicate RecordsOK(byID: map<Id, Record>, mail: seq<Message>, files: map<Path, Bytes>, dir: string) {
    forall m :: m in mail ==>
      m.id in byID && RecordFor(byID[m.id], m, dir) && byID[m.id].resident == Resident(m) &&
      Backed(files, OwnedPaths(byID[m.id]), m)
  }

  /** A file belongs to a live record, to an insertion in flight, or was there before the store. */
  ghost predicate Accounted(p: Path, byID: map<Id, Record>, pending: map<Id, InFlight>, leftovers: iset<Path>) {
    if p.id in byID then Owns(byID[p.id], p)
    else if p.id in pending then p in pending[p.id].paths
    else p in leftovers
  }

  ghost predicate PendingOK(pending: map<Id, InFlight>, files: map<Path, Bytes>, epoch: nat, dir: string) {
    forall id :: id in pending ==>
      var f := pending[id];
      f.msg.id == id && f.since <= epoch && (forall p :: p in f.paths ==> p.id == id && p.dir != "") &&
      (f.since == epoch ==> Backed(files, f.paths, f.msg) && forall p :: p in f.paths ==> p.dir == dir)
  }

  ghost predicate FilesOK(
      files: map<Path, Bytes>, byID: map<Id, Record>, pending: map<Id, InFlight>, leftovers: iset<Path>) {
    forall p :: p in files ==> p.dir != "" && Accounted(p, byID, pending, leftovers)
  }

  lemma RecordsAfterOthers(byID: map<Id, Record>, mail: seq<Message>, before: map<Path, Bytes>, after: map<Path, Bytes>,
                           dir: string, id: Id)
    requires RecordsOK(byID, mail, before, dir) && OthersKept(before, after, id)
    requires Absent(mail, id)
    ensures RecordsOK(byID, mail, after, dir)
  {
    forall m | m in mail
      ensures Backed(after, OwnedPaths(byID[m.id]), m)
    {
      RecordPathsHaveId(byID[m.id], m, dir);
      assert m.id != id;
    }
  }

  lemma RecordsAfterRemove(byID: map<Id, Record>, mail: seq<Message>, before: map<Path, Bytes>, after: map<Path, Bytes>,
                           dir: string, i: nat)
    requires i < |mail| && DistinctIds(mail) && RecordsOK(byID, mail, before, dir)
    requires OthersKept(before, after, mail[i].id)
    ensures RecordsOK(byID - {mail[i].id}, mail[..i] + mail[i + 1..], after, dir)
  {
    var rest := mail[..i] + mail[i + 1..];
    forall m | m in rest
      ensures m in mail && m.id != mail[i].id
    {
      var k :| 0 <= k < |rest| && rest[k] == m;
      assert m == mail[if k < i then k else k + 1];
    }
    forall m | m in rest
      ensures Backed(after, OwnedPaths(byID[m.id]), m)
    {
      RecordPathsHaveId(byID[m.id], m, dir);
    }
  }

  lemma PendingAfterOthers(pending: map<Id, InFlight>, before: map<Path, Bytes>, after: map<Path, Bytes>,
                           epoch: nat, dir: string, id: Id)
    requires PendingOK(pending, before, epoch, dir) && OthersKept(before, after, id)
    requires id !in pending
    ensures PendingOK(pending, after, epoch, dir)
  {
  }

  /** The concrete fields with the ghost listing they stand for. */
  datatype Cells = Cells(order: seq<Id>, byID: map<Id, Record>, bytes: int, files: map<Path, Bytes>,
                         mail: seq<Message>, pending: map<Id, InFlight>, epoch: nat, dir: string, leftovers: iset<Path>)

  ghost predicate CellsOK(c: Cells) {
    Sorted(c.mail) && DistinctIds(c.mail) && c.bytes == Total(c.mail) &&
    IndexOK(c.order, c.byID, c.mail) && RecordsOK(c.byID, c.mail, c.files, c.dir) &&
    c.pending.Keys !! c.byID.Keys && PendingOK(c.pending, c.files, c.epoch, c.dir) &&
    FilesOK(c.files, c.byID, c.pending, c.leftovers)
  }

  function RemovedCells(c: Cells, i: nat, files: map<Path, Bytes>): Cells
    requires i < |c.order| && c.order[i] in c.byID && i < |c.mail|
  {
    c.(order := c.order[..i] + c.order[i + 1..], byID := c.byID - {c.order[i]},
       bytes := c.bytes - c.byID[c.order[i]].resident, files := files, mail := c.mail[..i] + c.mail[i + 1..])
  }

  lemma IndexHasRecord(c: Cells, i: nat)
    requires CellsOK(c) && i < |c.mail|
    ensures i < |c.order| && c.order[i] == c.mail[i].id && c.order[i] in c.byID
    ensures RecordFor(c.byID[c.order[i]], c.mail[i], c.dir)
    ensures c.byID[c.order[i]].resident == Resident(c.mail[i])
    ensures Backed(c.files, OwnedPaths(c.byID[c.order[i]]), c.mail[i])
    ensures c.order[i] !in c.pending
  {
    assert c.mail[i] in c.mail;
  }

  lemma RemoveKeepsCells(c: Cells, i: nat, files: map<Path, Bytes>)
    requires CellsOK(c) && i < |c.mail|
    requires c.order[i] in c.byID
    requires OthersKept(c.files, files, c.order[i])
    requires forall p :: p in files <==> p in c.files && !Owns(c.byID[c.order[i]], p)
    ensures CellsOK(RemovedCells(c, i, files))
    ensures RemovedCells(c, i, files).bytes >= 0
  {
    hide Sorted, DistinctIds, Total, IndexOK, RecordsOK, PendingOK, RecordFor, Backed, OthersKept;
    IndexHasRecord(c, i);
    IndexAfterRemove(c.order, c.byID, c.mail, i);
    RemovedKeepsOrder(c.mail, i);
    TotalWithout(c.mail, i);
    RecordsAfterRemove(c.byID, c.mail, c.files, files, c.dir, i);
    PendingAfterOthers(c.pending, c.files, files, c.epoch, c.dir, c.order[i]);
  }

  lemma CellsIndex(c: Cells, id: Id)
    requires CellsOK(c)
    ensures id in c.byID <==> IndexOf(c.mail, id) < |c.mail|
  {
    hide RecordsOK, PendingOK, FilesOK, Sorted, Total;
    var at := IndexOf(c.mail, id);
    if at < |c.mail| {
      assert id == c.mail[at].id;
    }
  }

  lemma IndexedPathsHaveId(c: Cells, i: nat)
    requires CellsOK(c) && i < |c.mail|
    ensures i < |c.order| && c.order[i] in c.byID && forall p :: Owns(c.byID[c.order[i]], p) ==> p.id == c.order[i]
  {
    hide CellsOK, RecordFor, Backed, Owns;
    IndexHasRecord(c, i);
    RecordPathsHaveId(c.byID[c.order[i]], c.mail[i], c.dir);
  }

  lemma FoundInOrder(c: Cells, id: Id, i: nat)
    requires CellsOK(c) && id in c.byID
    requires i <= |c.order| && (i < |c.order| ==> c.order[i] == id)
    requires forall j :: 0 <= j < i ==> c.order[j] != id
    ensures i < |c.mail| == |c.order| && i == IndexOf(c.mail, id)
  {
    hide RecordsOK, PendingOK, FilesOK, Sorted, Total;
    CellsIndex(c, id);
  }

  lemma RoomTest(caps: Caps, mail: seq<Message>, n: nat)
    ensures Room(caps, mail, n) <==> |mail| < caps.maxMessages && Total(mail) + n <= caps.maxBytes
  {
  }

  lemma TotalFrom(mail: seq<Message>, i: nat)
    requires i < |mail|
    ensures Total(mail[i..]) == Resident(mail[i]) + Total(mail[i + 1..])
  {
    assert mail[i..][1..] == mail[i + 1..];
  }

  lemma CellsFront(c: Cells)
    requires CellsOK(c) && |c.mail| > 0
    ensures |c.order| > 0 && IndexOf(c.mail, c.order[0]) == 0
  {
  }

  /** The files of a wiped directory are gone; insertions in flight are older than the new epoch. */
  lemma WipeKeepsCells(c: Cells, files: map<Path, Bytes>, dir: string)
    requires CellsOK(c)
    requires files == map p | p in c.files && p.dir != c.dir :: c.files[p]
    ensures CellsOK(c.(order := [], byID := map[], bytes := 0, files := files, mail := [],
                       epoch := c.epoch + 1, dir := dir))
  {
    hide RecordFor, Backed;
    assert IdSet([]) == {};
    forall p | p in files
      ensures Accounted(p, map[], c.pending, c.leftovers)
    {
      if p.id in c.byID {
        var m :| m in c.mail && m.id == p.id;
        RecordPathsHaveId(c.byID[m.id], m, c.dir);
        assert false;
      }
    }
  }

  ghost predicate FreshCells(c: Cells, id: Id) {
    Absent(c.mail, id) && id !in c.byID && id !in c.pending && NoFilesOf(c.files, id)
  }

  lemma PrepareKeepsCells(c: Cells, m: Message, files: map<Path, Bytes>, job: Job)
    requires CellsOK(c) && FreshCells(c, m.id)
    requires OthersKept(c.files, files, m.id) && JobFor(job, m, c.dir) && FilesAre(files, m.id, JobPaths(job), m)
    ensures CellsOK(c.(files := files, pending := c.pending[m.id := InFlight(m, JobPaths(job), c.epoch)]))
  {
    hide Sorted, DistinctIds, RecordFor, IndexOK, Total, Resident, RecordsOK;
    RecordsAfterOthers(c.byID, c.mail, c.files, files, c.dir, m.id);
    PendingAfterOthers(c.pending, c.files, files, c.epoch, c.dir, m.id);
    JobPathsHaveId(job, m, c.dir);
  }

  /** The insertion's temporaries have become its record's files. */
  lemma RenameKeepsCells(c: Cells, m: Message, files: map<Path, Bytes>, rec: Record)
    requires CellsOK(c) && Absent(c.mail, m.id) && m.id in c.pending
    requires OthersKept(c.files, files, m.id) && RecordFor(rec, m, c.dir) && FilesAre(files, m.id, OwnedPaths(rec), m)
    ensures CellsOK(c.(files := files, pending := c.pending[m.id := InFlight(m, OwnedPaths(rec), c.epoch)]))
  {
    hide Sorted, DistinctIds, RecordFor, IndexOK, Total;
    RecordsAfterOthers(c.byID, c.mail, c.files, files, c.dir, m.id);
    PendingAfterOthers(c.pending - {m.id}, c.files, files, c.epoch, c.dir, m.id);
    RecordPathsHaveId(rec, m, c.dir);
  }

  /** An insertion ends with no file of its own left. */
  lemma AbandonKeepsCells(c: Cells, id: Id, files: map<Path, Bytes>)
    requires CellsOK(c) && Absent(c.mail, id) && id in c.pending
    requires OthersKept(c.files, files, id) && NoFilesOf(files, id)
    ensures CellsOK(c.(files := files, pending := c.pending - {id}))
  {
    hide Sorted, DistinctIds, RecordFor, IndexOK, Total;
    RecordsAfterOthers(c.byID, c.mail, c.files, files, c.dir, id);
    PendingAfterOthers(c.pending - {id}, c.files, files, c.epoch, c.dir, id);
  }

  /** Indexing the record hands its files from the insertion to the inbox. */
  lemma IndexKeepsCells(c: Cells, m: Message, rec: Record, p: nat)
    requires CellsOK(c) && Absent(c.mail, m.id) && m.id in c.pending
    requires p == Position(c.mail, m)
    requires c.pending[m.id] == InFlight(m, OwnedPaths(rec), c.epoch)
    requires RecordFor(rec, m, c.dir) && rec.resident == Resident(m)
    ensures CellsOK(c.(order := c.order[..p] + [m.id] + c.order[p..], byID := c.byID[m.id := rec],
                       bytes := c.bytes + rec.resident, mail := Placed(c.mail, m), pending := c.pending - {m.id}))
  {
    IndexKeepsOrder(c, m, rec, p);
    FilesAfterIndex(c, m, rec);
    hide Sorted, DistinctIds, RecordFor, IndexOK, Total, Position, PendingOK, FilesOK;
    RecordsAfterIndex(c.byID, c.mail, c.files, c.dir, p, m, rec);
  }

  lemma FilesAfterIndex(c: Cells, m: Message, rec: Record)
    requires CellsOK(c) && m.id in c.pending
    requires c.pending[m.id] == InFlight(m, OwnedPaths(rec), c.epoch)
    ensures (c.pending - {m.id}).Keys !! c.byID[m.id := rec].Keys
    ensures PendingOK(c.pending - {m.id}, c.files, c.epoch, c.dir)
    ensures FilesOK(c.files, c.byID[m.id := rec], c.pending - {m.id}, c.leftovers)
    ensures Backed(c.files, OwnedPaths(rec), m)
  {
    hide Sorted, DistinctIds, RecordFor, IndexOK, Total, RecordsOK;
  }

  lemma RecordsAfterIndex(byID: map<Id, Record>, mail: seq<Message>, files: map<Path, Bytes>, dir: string,
                          p: nat, m: Message, rec: Record)
    requires RecordsOK(byID, mail, files, dir) && Absent(mail, m.id) && p <= |mail|
    requires RecordFor(rec, m, dir) && rec.resident == Resident(m) && Backed(files, OwnedPaths(rec), m)
    ensures RecordsOK(byID[m.id := rec], mail[..p] + [m] + mail[p..], files, dir)
  {
    hide RecordFor, Backed;
    var placed := mail[..p] + [m] + mail[p..];
    assert forall x :: x in placed ==> x == m || x in mail;
    forall x | x in mail
      ensures x.id != m.id
    {
      var k :| 0 <= k < |mail| && mail[k] == x;
    }
  }

  lemma IndexKeepsOrder(c: Cells, m: Message, rec: Record, p: nat)
    requires CellsOK(c) && Absent(c.mail, m.id) && p == Position(c.mail, m)
    ensures Sorted(Placed(c.mail, m)) && DistinctIds(Placed(c.mail, m))
    ensures Total(Placed(c.mail, m)) == Total(c.mail) + Resident(m)
    ensures IndexOK(c.order[..p] + [m.id] + c.order[p..], c.byID[m.id := rec], Placed(c.mail, m))
  {
    PlacedKeepsOrder(c.mail, m);
    IndexAfterInsert(c.order, c.byID, c.mail, p, m, rec);
  }

  /** With no insertion in flight the disk holds the live records' files, all of them, and nothing new besides. */
  lemma QuietDiskHoldsLiveFilesOnly(c: Cells)
    requires CellsOK(c) && c.pending == map[]
    ensures forall p :: p in c.files ==> p in c.leftovers || exists m :: m in c.mail && Owns(c.byID[m.id], p)
    ensures forall m, p :: m in c.mail && Owns(c.byID[m.id], p) ==> p in c.files && c.files[p] == Datum(m, p)
  {
    hide Sorted, DistinctIds, RecordFor, Total, PendingOK;
    forall p | p in c.files && p !in c.leftovers
      ensures exists m :: m in c.mail && Owns(c.byID[m.id], p)
    {
      assert Accounted(p, c.byID, c.pending, c.leftovers);
      assert p.id in IdSet(c.mail);
      var m :| m in c.mail && m.id == p.id;
      assert Owns(c.byID[m.id], p);
    }
    forall m, p | m in c.mail && Owns(c.byID[m.id], p)
      ensures p in c.files && c.files[p] == Datum(m, p)
    {
      assert p in OwnedPaths(c.byID[m.id]);
    }
  }

  function NormalizedSizes(atts: seq<Attachment>): seq<Attachment> {
    seq(|atts|, i requires 0 <= i < |atts| =>
                  if atts[i].size == 0 then atts[i].(size := |atts[i].data|) else atts[i])
  }

  /** What Insert stores: the parsed message with its id, arrival time and sizes filled in. */
  function Prepared(m: Message, id: Id, now: Time): Message {
    m.(id := id, receivedAt := if m.receivedAt == 0 then now else m.receivedAt,
       attachments := NormalizedSizes(m.attachments), size := |m.raw|)
  }

  /** Nothing a sender wrote is changed on the way in, and only what was missing is filled in. */
  lemma PreparedKeepsContent(m: Message, id: Id, now: Time)
    ensures var p := Prepared(m, id, now);
            p.id == id && p.raw == m.raw && p.text == m.text && p.html == m.html && p.subject == m.subject &&
            p.envelope == m.envelope && p.from == m.from && p.to == m.to && p.read == m.read && p.size == |m.raw| &&
            p.receivedAt == (if m.receivedAt == 0 then now else m.receivedAt) &&
            |p.attachments| == |m.attachments| &&
            forall i :: 0 <= i < |m.attachments| ==>
              p.attachments[i].data == m.attachments[i].data &&
              p.attachments[i].size ==
                if m.attachments[i].size == 0 then |m.attachments[i].data| else m.attachments[i].size
  {
  }

  /** An insertion between its two halves. */
  datatype Insertion = Insertion(msg: Message, resident: nat, job: Job)

  /** The insertion is pending with its own message and temporaries, and current unless a wipe came in between. */
  ghost predicate CarriedBy(pending: map<Id, InFlight>, epoch: nat, dir: string, ins: Insertion) {
    ins.msg.id in pending && ins.resident == Resident(ins.msg) &&
    pending[ins.msg.id].msg == ins.msg && pending[ins.msg.id].paths == JobPaths(ins.job) &&
    (pending[ins.msg.id].since == epoch ==> JobFor(ins.job, ins.msg, dir))
  }

  datatype ReadError = NotFound | Unreadable

  datatype Stats = Stats(messageCount: nat, bytes: int, unreadCount: nat, generation: nat, epoch: nat, evictions: nat)

  datatype CapsError = BadOptions(why: OptionsError) | OverCap

  datatype Listing = Listing(page: Page, generation: nat)

  lemma PendingIsAbsent(c: Cells, id: Id)
    requires CellsOK(c) && id in c.pending
    ensures Absent(c.mail, id)
  {
    hide Sorted, DistinctIds, RecordFor, Total, PendingOK, FilesOK, Backed;
    forall i | 0 <= i < |c.mail|
      ensures c.mail[i].id != id
    {
      assert c.mail[i] in c.mail;
    }
  }

  lemma CarriedFiles(c: Cells, ins: Insertion)
    requires CellsOK(c) && ins.msg.id in c.pending
    requires c.pending[ins.msg.id].msg == ins.msg && c.pending[ins.msg.id].paths == JobPaths(ins.job)
    ensures forall p :: Names(ins.job, p) ==> p.id == ins.msg.id
    ensures forall p :: p in c.files && p.id == ins.msg.id ==> Names(ins.job, p)
    ensures c.pending[ins.msg.id].since <= c.epoch
    ensures c.pending[ins.msg.id].since == c.epoch ==> FilesAre(c.files, ins.msg.id, JobPaths(ins.job), ins.msg)
  {
    hide Sorted, DistinctIds, RecordsOK, Total, IndexOK;
    assert forall p :: Names(ins.job, p) <==> p in c.pending[ins.msg.id].paths;
  }

  lemma PreparedId(m: Message, id: Id, now: Time)
    ensures Prepared(m, id, now).id == id
  {
  }

  lemma ReadRecord(rec: Record, m: Message, files: map<Path, Bytes>, dir: string)
    requires RecordFor(rec, m, dir) && Backed(files, OwnedPaths(rec), m)
    ensures var rec' := rec.(msg := rec.msg.(read := true));
            RecordFor(rec', m.(read := true), dir) && Backed(files, OwnedPaths(rec'), m.(read := true)) &&
            (forall p :: Owns(rec', p) <==> Owns(rec, p))
    ensures Resident(m.(read := true)) == Resident(m)
  {
  }

  lemma ReadRecords(c: Cells, id: Id, i: nat)
    requires CellsOK(c) && id in c.byID && i < |c.mail| && c.mail[i].id == id
    ensures RecordsOK(c.byID[id := c.byID[id].(msg := c.byID[id].msg.(read := true))],
                      c.mail[i := c.mail[i].(read := true)], c.files, c.dir)
  {
    hide RecordFor, Backed, IndexOK, PendingOK, FilesOK, Total, Sorted, Owns;
    IndexHasRecord(c, i);
    ReadRecord(c.byID[id], c.mail[i], c.files, c.dir);
    var mail' := c.mail[i := c.mail[i].(read := true)];
    forall m | m in mail'
      ensures m == mail'[i] || (m in c.mail && m.id != id)
    {
      var k :| 0 <= k < |mail'| && mail'[k] == m;
      if k != i {
        assert m == c.mail[k];
      }
    }
  }

  /** Flipping a read bit in index and listing alike. */
  lemma ReadKeepsCells(c: Cells, id: Id, i: nat)
    requires CellsOK(c) && id in c.byID && i < |c.mail| && c.mail[i].id == id
    ensures CellsOK(c.(byID := c.byID[id := c.byID[id].(msg := c.byID[id].msg.(read := true))],
                       mail := c.mail[i := c.mail[i].(read := true)]))
  {
    hide RecordFor, Backed, Resident;
    var rec := c.byID[id].(msg := c.byID[id].msg.(read := true));
    ReadRecords(c, id, i);
    ReadBitsKeepTotal(c.mail, c.mail[i := c.mail[i].(read := true)]);
    ReadIndex(c.order, c.byID, c.mail, i, rec);
    ReadFiles(c, id, rec);
    ReadOrder(c.mail, i);
    hide RecordsOK, Total, IndexOK, PendingOK, FilesOK, Sorted, DistinctIds;
  }

  lemma ReadOrder(mail: seq<Message>, i: nat)
    requires Sorted(mail) && DistinctIds(mail) && i < |mail|
    ensures Sorted(mail[i := mail[i].(read := true)]) && DistinctIds(mail[i := mail[i].(read := true)])
  {
  }

  lemma ReadFiles(c: Cells, id: Id, rec: Record)
    requires CellsOK(c) && id in c.byID && rec.rawSpill == c.byID[id].rawSpill && rec.attSpill == c.byID[id].attSpill
    ensures FilesOK(c.files, c.byID[id := rec], c.pending, c.leftovers)
    ensures c.pending.Keys !! c.byID[id := rec].Keys
  {
    hide RecordsOK, Total, IndexOK, PendingOK, Sorted, DistinctIds;
  }

  lemma ReadIndex(order: seq<Id>, byID: map<Id, Record>, mail: seq<Message>, i: nat, rec: Record)
    requires IndexOK(order, byID, mail) && i < |mail| && mail[i].id in byID
    ensures IndexOK(order, byID[mail[i].id := rec], mail[i := mail[i].(read := true)])
  {
    var mail' := mail[i := mail[i].(read := true)];
    forall x
      ensures x in IdSet(mail') <==> x in IdSet(mail)
    {
      if x in IdSet(mail) {
        var k :| 0 <= k < |mail| && mail[k].id == x;
        assert mail'[k] in mail';
      }
      if x in IdSet(mail') {
        var k :| 0 <= k < |mail'| && mail'[k].id == x;
        assert mail[k] in mail;
      }
    }
  }

  /** The scan tests the indexed copy; it tests the same fields. */
  lemma ShownMatches(shown: Message, m: Message, f: Filter)
    requires shown == m.(raw := shown.raw, attachments := shown.attachments)
    ensures Matches(shown, f) == Matches(m, f)
    ensures forall cur :: NewerThanCursor(shown, cur) == NewerThanCursor(m, cur)
  {
  }

  lemma ListStep(mail: seq<Message>, f: Filter, i: nat)
    requires i < |mail|
    ensures NewestFirst(mail[..i + 1], f) == (if Matches(mail[i], f) then [mail[i]] else []) + NewestFirst(mail[..i], f)
    ensures forall cur :: ResumeBelow(mail[..i + 1], cur) ==
                          if NewerThanCursor(mail[i], cur) then ResumeBelow(mail[..i], cur) else i + 1
  {
    assert mail[..i + 1][..i] == mail[..i];
  }

  /** A full page with more below it, and a page that took everything. */
  lemma CutFull(chosen: seq<Message>, below: seq<Message>, limit: int)
    requires |chosen| <= EffectiveLimit(limit)
    ensures below == [] ==> Cut(chosen + below, limit) == Page(chosen, None)
    ensures below != [] && |chosen| == EffectiveLimit(limit) ==>
              Cut(chosen + below, limit) == Page(chosen, Some(chosen[|chosen| - 1].id))
  {
    if below == [] {
      assert chosen + below == chosen;
    } else if |chosen| == EffectiveLimit(limit) {
      assert (chosen + below)[..|chosen|] == chosen;
    }
  }

  /** If the inbox has a message with this id, it is this message up to its read bit. */
  ghost predicate StillThere(mail: seq<Message>, m: Message) {
    IndexOf(mail, m.id) < |mail| ==> mail[IndexOf(mail, m.id)].(read := false) == m.(read := false)
  }

  lemma PresentIsSeen(mail: seq<Message>, m: Message)
    requires DistinctIds(mail) && m in mail
    ensures StillThere(mail, m) && IndexOf(mail, m.id) < |mail|
  {
    var k :| 0 <= k < |mail| && mail[k] == m;
    IndexOfUnique(mail, k);
  }

  lemma AcceptedIsThere(s: Inbox, m: Message)
    requires WellFormed(s) && CanAccept(s.caps, s.mail, Resident(m)) && Absent(s.mail, m.id)
    ensures var mail := Accept(s, m).mail; IndexOf(mail, m.id) < |mail| && mail[IndexOf(mail, m.id)] == m
  {
    hide Sorted, DistinctIds, CanAccept, Total;
    AcceptKeepsWellFormed(s, m);
    EvictForIsShortestPrefix(s, Resident(m));
    var k := EvictFor(s, Resident(m));
    var mail := Accept(s, m).mail;
    assert mail[Position(s.mail[k..], m)] == m;
    assert DistinctIds(mail);
    IndexOfUnique(mail, Position(s.mail[k..], m));
  }

  lemma NextIsDelete(s: Inbox, id: Id)
    ensures Next(s, Op.Delete(id)) == AfterDelete(s, id)
  {
  }

  /** Ids are not reused, so what a run leaves under an id is what was there before. */
  lemma {:induction false} RunsLeaveLetters(s: Inbox, ops: seq<Op>, id: Id)
    requires forall k :: 0 <= k < |ops| ==> !(ops[k].Commit? && ops[k].msg.id == id)
    requires IndexOf(Run(s, ops).mail, id) < |Run(s, ops).mail|
    ensures exists i :: 0 <= i < |s.mail| && StillThere(Run(s, ops).mail, s.mail[i]) && s.mail[i].id == id
    decreases |ops|
  {
    if ops == [] {
      assert StillThere(s.mail, s.mail[IndexOf(s.mail, id)]);
    } else {
      var t := Next(s, ops[0]);
      RunsLeaveLetters(t, ops[1..], id);
      var j :| 0 <= j < |t.mail| && StillThere(Run(t, ops[1..]).mail, t.mail[j]) && t.mail[j].id == id;
      var i := NextLeavesLetter(s, ops[0], j);
      assert StillThere(Run(s, ops).mail, s.mail[i]);
    }
  }

  /** Whatever ran since a snapshot: its message is the one under its id, or gone, and once gone stays gone. */
  lemma SnapshotStaysTrue(s: Inbox, m: Message, before: seq<Op>, after: seq<Op>)
    requires DistinctIds(s.mail) && m in s.mail
    requires forall k :: 0 <= k < |before| ==> !(before[k].Commit? && before[k].msg.id == m.id)
    requires forall k :: 0 <= k < |after| ==> !(after[k].Commit? && after[k].msg.id == m.id)
    ensures var t := Run(s, before);
            StillThere(t.mail, m) &&
            (IndexOf(Run(t, after).mail, m.id) < |Run(t, after).mail| ==> IndexOf(t.mail, m.id) < |t.mail|)
  {
    var t := Run(s, before);
    if IndexOf(t.mail, m.id) < |t.mail| {
      RunsLeaveLetters(s, before, m.id);
      var i :| 0 <= i < |s.mail| && StillThere(t.mail, s.mail[i]) && s.mail[i].id == m.id;
      var k :| 0 <= k < |s.mail| && s.mail[k] == m;
    }
    if IndexOf(Run(t, after).mail, m.id) < |Run(t, after).mail| {
      RunsLeaveLetters(t, after, m.id);
    }
  }

  lemma NextLeavesLetter(s: Inbox, op: Op, j: nat) returns (i: nat)
    requires j < |Next(s, op).mail| && !(op.Commit? && op.msg.id == Next(s, op).mail[j].id)
    ensures i < |s.mail| && s.mail[i].(read := false) == Next(s, op).mail[j].(read := false)
  {
    if op.Commit? && CommitError(s, op.epoch, op.msg).None? {
      i := AcceptAddsOne(s, op.msg, j);
    } else if op.Commit? {
      i := j;
    } else {
      i := NextKeepsLetters(s, op, j);
    }
  }

  /** The record names a file. */
  predicate Spilled(rec: Record) {
    rec.rawSpill.Some? || exists k :: 0 <= k < |rec.attSpill| && rec.attSpill[k].Some?
  }

  /** Without a spill directory nothing is spilled. */
  lemma NoDirectoryNothingSpilled(rec: Record, m: Message)
    requires RecordFor(rec, m, "")
    ensures !Spilled(rec)
  {
  }

  lemma NothingSpilledWithoutDirectory(store: Memory, m: Message)
    requires store.Valid() && m in store.mail
    ensures m.id in store.byID && (store.spillDir == "" ==> !Spilled(store.byID[m.id]))
  {
    hide Sorted, DistinctIds, Total, IndexOK, PendingOK, FilesOK, RecordFor, WellFormed, Spilled, Backed;
    var c := store.Now();
    assert RecordFor(c.byID[m.id], m, c.dir);
    if store.spillDir == "" {
      NoDirectoryNothingSpilled(c.byID[m.id], m);
    }
  }

  /** The attachment's file is on disk, if it was spilled. */
  predicate Present(rec: Record, files: map<Path, Bytes>, k: nat)
    requires k < |rec.msg.attachments|
  {
    |rec.msg.attachments[k].data| == 0 && k < |rec.attSpill| && rec.attSpill[k].Some? ==> rec.attSpill[k].value in files
  }

  lemma OwnedIsPresent(rec: Record, m: Message, dir: string, files: map<Path, Bytes>, p: Path)
    requires RecordFor(rec, m, dir) && Owns(rec, p)
    requires rec.rawSpill.Some? ==> rec.rawSpill.value in files
    requires forall k :: 0 <= k < |rec.msg.attachments| ==> Present(rec, files, k)
    ensures p in files && p.id == m.id
  {
    RecordPathsHaveId(rec, m, dir);
    if Some(p) in rec.attSpill {
      var k :| 0 <= k < |rec.attSpill| && rec.attSpill[k] == Some(p);
      assert Present(rec, files, k);
    }
  }

  /** A file that bears the id of a message in the inbox holds what that message has there. */
  lemma LiveFileHolds(c: Cells, m: Message, p: Path)
    requires CellsOK(c) && StillThere(c.mail, m) && IndexOf(c.mail, m.id) < |c.mail|
    requires p in c.files && p.id == m.id
    ensures c.files[p] == Datum(m, p)
  {
    hide Sorted, DistinctIds, Total, PendingOK, RecordFor, IdSet;
    CellsIndex(c, m.id);
    var now := c.mail[IndexOf(c.mail, m.id)];
    assert now in c.mail;
    assert Accounted(p, c.byID, c.pending, c.leftovers);
    assert p in OwnedPaths(c.byID[m.id]);
    assert now.raw == now.(read := false).raw && now.attachments == now.(read := false).attachments;
  }

  /** No file bears the id of a message that is gone. */
  lemma GoneHasNoFile(c: Cells, id: Id)
    requires CellsOK(c) && IndexOf(c.mail, id) == |c.mail| && id !in c.pending
    requires forall p :: p in c.leftovers ==> p.id != id
    ensures NoFilesOf(c.files, id)
  {
    hide Sorted, DistinctIds, Total, PendingOK, RecordsOK;
    CellsIndex(c, id);
    forall p | p in c.files
      ensures p.id != id
    {
      assert Accounted(p, c.byID, c.pending, c.leftovers);
    }
  }

  /** A snapshot's files that are still on disk hold what they held. */
  lemma PresentIsBacked(c: Cells, paths: iset<Path>, m: Message)
    requires CellsOK(c) && StillThere(c.mail, m)
    requires IndexOf(c.mail, m.id) == |c.mail| ==> m.id !in c.pending && forall p :: p in c.leftovers ==> p.id != m.id
    requires forall p :: p in paths ==> p in c.files && p.id == m.id
    ensures Backed(c.files, paths, m)
  {
    hide CellsOK, StillThere;
    if IndexOf(c.mail, m.id) == |c.mail| {
      GoneHasNoFile(c, m.id);
    } else {
      forall p | p in paths
        ensures c.files[p] == Datum(m, p)
      {
        LiveFileHolds(c, m, p);
      }
    }
  }

  /** Live records with the messages they stand for. */
  ghost predicate Picked(c: Cells, recs: seq<Record>, chosen: seq<Message>) {
    |recs| == |chosen| &&
    forall k :: 0 <= k < |recs| ==>
      RecordFor(recs[k], chosen[k], c.dir) && recs[k] in c.byID.Values && chosen[k] in c.mail
  }

  lemma NonePicked(c: Cells)
    ensures Picked(c, [], [])
  {
  }

  lemma PickedMore(c: Cells, recs: seq<Record>, chosen: seq<Message>, i: nat)
    requires CellsOK(c) && i < |c.mail| && Picked(c, recs, chosen)
    ensures i < |c.order| && c.order[i] in c.byID
    ensures Picked(c, recs + [c.byID[c.order[i]]], chosen + [c.mail[i]])
  {
    hide RecordFor, CellsOK;
    IndexHasRecord(c, i);
  }

  lemma PickedId(c: Cells, recs: seq<Record>, chosen: seq<Message>)
    requires Picked(c, recs, chosen) && recs != []
    ensures |recs| == |chosen| && recs[|recs| - 1].msg.id == chosen[|recs| - 1].id
  {
    assert RecordFor(recs[|recs| - 1], chosen[|recs| - 1], c.dir);
  }

  lemma IndexShown(c: Cells, i: nat)
    requires CellsOK(c) && i < |c.mail|
    ensures i < |c.order| && c.order[i] == c.mail[i].id && c.order[i] in c.byID
    ensures var shown := c.byID[c.order[i]].msg;
            shown == c.mail[i].(raw := shown.raw, attachments := shown.attachments)
  {
    IndexHasRecord(c, i);
  }

  lemma OrderIndex(c: Cells, i: nat)
    requires CellsOK(c) && i < |c.mail|
    ensures i < |c.order| && IndexOf(c.mail, c.order[i]) == i
  {
    IndexOfUnique(c.mail, i);
  }

  lemma OrderIds(c: Cells)
    requires CellsOK(c)
    ensures |c.order| == |c.mail| && forall i :: 0 <= i < |c.mail| ==> c.mail[i].id == c.order[i]
  {
  }

  lemma CellsFirst(c: Cells)
    requires CellsOK(c) && |c.mail| > 0
    ensures c.mail[0].id in c.byID && IndexOf(c.mail, c.mail[0].id) == 0
  {
    IndexHasRecord(c, 0);
  }

  lemma EmptyIsWellFormed(s: Inbox)
    requires s.mail == [] && Positive(s.caps)
    ensures WellFormed(s)
  {
  }

  /** Where the scan starts: everywhere, below the cursor's message, or below the first one it does not skip. */
  lemma ScanBounds(c: Cells, cur: Cursor)
    requires CellsOK(c)
    ensures |c.order| == |c.mail|
    ensures cur.Start? ==> Below(c.mail, cur) == |c.mail|
    ensures cur.Native? && cur.id in c.byID ==> Below(c.mail, cur) < |c.mail| && c.mail[Below(c.mail, cur)].id == cur.id
    ensures !(cur.Native? && cur.id in c.byID) ==> Below(c.mail, cur) == ResumeBelow(c.mail, cur)
  {
    if cur.Native? {
      CellsIndex(c, cur.id);
    }
  }

  lemma FoundAt(c: Cells, cur: Cursor, i: nat)
    requires CellsOK(c) && cur.Native? && i < |c.mail| && c.mail[i].id == cur.id
    ensures Below(c.mail, cur) == i
  {
    IndexOfUnique(c.mail, i);
  }

  lemma EmptyListing(mail: seq<Message>, f: Filter, cur: Cursor)
    ensures NewestFirst(mail[..0], f) == []
    ensures ResumeBelow(mail[..0], cur) == 0
  {
  }

  class Memory {
    var maxMessages: int
    var maxBytes: int
    var fullPolicy: string
    var spillDir: string
    var spillThreshold: int
    var epoch: nat
    var generation: nat
    var evictions: nat
    var bytes: int
    var byID: map<Id, Record>
    var order: seq<Id>
    const disk: Disk

    ghost var mail: seq<Message>           // the messages as inserted, oldest first
    ghost var pending: map<Id, InFlight>   // insertions between Prepare and Commit
    ghost const leftovers: iset<Path>      // spill files found in other directories at the start

    ghost function CapsNow(): Caps
      reads this
    {
      Caps(maxMessages, maxBytes, fullPolicy == EVICT_OLDEST)
    }

    ghost function State(): Inbox
      reads this
    {
      Inbox(CapsNow(), epoch, generation, evictions, mail)
    }

    ghost predicate Consistent()
      reads this, disk
    {
      Positive(CapsNow()) && CellsOK(Now())
    }

    ghost function Now(): Cells
      reads this, disk
    {
      Cells(order, byID, bytes, disk.files, mail, pending, epoch, spillDir, leftovers)
    }

    ghost predicate Valid()
      reads this, disk
    {
      Consistent() && WellFormed(State())
    }

    /** A ULID no message, insertion or file bears yet. */
    ghost predicate Fresh(id: Id)
      reads this, disk
    {
      Absent(mail, id) && id !in byID && id !in pending && NoFilesOf(disk.files, id)
    }

    constructor (opts: Options, disk: Disk)
      requires NormalOptions(opts)
      requires forall p :: p in disk.files ==> p.dir != ""
      modifies disk
      ensures Valid() && this.disk == disk && pending == map[]
      ensures State() == Inbox(CapsOf(opts), 1, 0, 0, [])
      ensures spillDir == opts.spillDirectory && spillThreshold == opts.spillThreshold
      ensures leftovers == iset p | p in old(disk.files) && p.dir != opts.spillDirectory
      ensures forall p :: p in disk.files <==> p in leftovers
    {
      maxMessages, maxBytes, fullPolicy := opts.maxMessages, opts.maxBytes, opts.fullPolicy;
      spillDir, spillThreshold := opts.spillDirectory, opts.spillThreshold;
      epoch, generation, evictions, bytes := 1, 0, 0, 0;
      byID, order := map[], [];
      this.disk := disk;
      mail, pending := [], map[];
      leftovers := iset p | p in disk.files && p.dir != opts.spillDirectory;
      new;
      if opts.spillDirectory != "" {
        disk.RemoveDir(opts.spillDirectory);
      }
    }

    // ---------- capacity ----------

    predicate FitsLocked(candidate: nat)
      reads this
    {
      |byID| < maxMessages && bytes + candidate <= maxBytes
    }

    predicate OccupancyOKLocked()
      reads this
    {
      |byID| <= maxMessages && bytes <= maxBytes
    }

    lemma Counted()
      requires Consistent()
      ensures |byID| == |order| == |mail| && bytes == Total(mail)
      ensures forall n: nat :: FitsLocked(n) <==> Room(CapsNow(), mail, n)
      ensures OccupancyOKLocked() <==> Under(CapsNow(), mail)
    {
      CountMatches(order, byID, mail);
    }

    // ---------- removal and eviction ----------

    method RemoveLocked(id: Id, eviction: bool)
      requires Consistent()
      modifies this, disk
      ensures Consistent()
      ensures var i := IndexOf(old(mail), id);
              if i == |old(mail)| then State() == old(State()) && disk.files == old(disk.files)
              else State() == Removed(old(State()), i).(evictions := old(evictions) + if eviction then 1 else 0)
      ensures spillDir == old(spillDir) && spillThreshold == old(spillThreshold)
      ensures pending == old(pending)
    {
      hide CellsOK;
      CellsIndex(Now(), id);
      if id in byID {
        var i := FindOrder(id);
        RemoveAt(i, eviction);
      }
    }

    method RemoveAt(i: nat, eviction: bool)
      requires Consistent() && i < |order| && i < |mail| && order[i] in byID
      modifies this, disk
      ensures Consistent()
      ensures State() == Removed(old(State()), i).(evictions := old(evictions) + if eviction then 1 else 0)
      ensures spillDir == old(spillDir) && spillThreshold == old(spillThreshold)
      ensures pending == old(pending)
    {
      hide CellsOK, RecordFor, Backed, Owns, OthersKept;
      var id := order[i];
      var rec := byID[id];
      ghost var was := Now();
      IndexedPathsHaveId(was, i);
      byID := byID - {id};
      order := order[..i] + order[i + 1..];
      bytes := bytes - rec.resident;
      if bytes < 0 {
        bytes := 0;
      }
      UnlinkRecord(disk, rec, id);
      RemoveKeepsCells(was, i, disk.files);
      mail := mail[..i] + mail[i + 1..];
      assert Now() == RemovedCells(was, i, disk.files);
      generation := generation + 1;
      if eviction {
        evictions := evictions + 1;
      }
    }

    method FindOrder(id: Id) returns (i: nat)
      requires Consistent() && id in byID
      ensures i < |mail| && i < |order| && order[i] == id && i == IndexOf(mail, id)
    {
      hide CellsOK;
      i := 0;
      while i < |order| && order[i] != id
        invariant 0 <= i <= |order|
        invariant forall j :: 0 <= j < i ==> order[j] != id
      {
        i := i + 1;
      }
      FoundInOrder(Now(), id, i);
    }

    /** The dry run: walks the order subtracting sizes, changing nothing. */
    method CanAcceptLocked(candidate: nat) returns (ok: bool)
      requires Consistent()
      ensures ok <==> CanAccept(CapsNow(), mail, candidate)
    {
      hide CellsOK, Total, Room;
      Counted();
      if FitsLocked(candidate) {
        return true;
      }
      if fullPolicy != EVICT_OLDEST {
        return false;
      }
      var left, count := bytes, |byID|;
      var i := 0;
      assert mail[0..] == mail;
      while i < |order|
        invariant 0 <= i <= |order| == |mail|
        invariant count == |mail| - i && left == Total(mail[i..])
        invariant forall j :: 0 <= j < i ==> !Room(CapsNow(), mail[j..], candidate)
      {
        RoomTest(CapsNow(), mail[i..], candidate);
        if count < maxMessages && left + candidate <= maxBytes {
          return true;
        }
        IndexHasRecord(Now(), i);
        TotalFrom(mail, i);
        var rec := byID[order[i]];
        left := left - rec.resident;
        if left < 0 {
          left := 0;
        }
        count := count - 1;
        i := i + 1;
      }
      RoomTest(CapsNow(), mail[i..], candidate);
      ok := count < maxMessages && left + candidate <= maxBytes;
    }

    /** Both eviction loops: drop the oldest until `count` and `limit` hold or nothing is left. */
    method EvictUntil(count: int, limit: int)
      requires Consistent()
      modifies this, disk
      ensures Consistent()
      ensures var k := Excess(old(mail), count, limit);
              k <= |old(mail)| &&
              State() == old(State()).(mail := old(mail)[k..], generation := old(generation) + k,
                                       evictions := old(evictions) + k)
      ensures spillDir == old(spillDir) && spillThreshold == old(spillThreshold)
      ensures pending == old(pending)
    {
      hide CellsOK, IndexOf;
      ghost var k: nat := 0;
      assert mail[0..] == mail;
      Counted();
      while |order| > 0 && !(|byID| <= count && bytes <= limit)
        invariant Consistent()
        invariant k <= |old(mail)| && mail == old(mail)[k..]
        invariant |byID| == |order| == |mail| && bytes == Total(mail)
        invariant State() == old(State()).(mail := mail, generation := old(generation) + k,
                                           evictions := old(evictions) + k)
        invariant spillDir == old(spillDir) && spillThreshold == old(spillThreshold)
        invariant pending == old(pending)
        invariant Excess(old(mail), count, limit) == k + Excess(mail, count, limit)
        decreases |order|
      {
        CellsFront(Now());
        assert mail[..0] + mail[1..] == mail[1..] == old(mail)[k + 1..];
        RemoveLocked(order[0], true);
        k := k + 1;
        Counted();
      }
    }

    /** The late ErrFull of the eviction loop cannot happen once the dry run has accepted. */
    method EvictUntilFitsLocked(candidate: nat) returns (ok: bool)
      requires Consistent()
      modifies this, disk
      ensures Consistent()
      ensures var k := EvictFor(old(State()), candidate);
              k <= |old(mail)| &&
              State() == old(State()).(mail := old(mail)[k..], generation := old(generation) + k,
                                       evictions := old(evictions) + k)
      ensures spillDir == old(spillDir) && spillThreshold == old(spillThreshold) && pending == old(pending)
      ensures ok <==> Room(CapsNow(), mail, candidate)
      ensures CanAccept(old(CapsNow()), old(mail), candidate) ==> ok
    {
      hide CellsOK, CanAccept, Room;
      EvictUntil(maxMessages - 1, maxBytes - candidate);
      Counted();
      ok := FitsLocked(candidate);
      if CanAccept(old(CapsNow()), old(mail), candidate) {
        EvictForIsShortestPrefix(old(State()), candidate);
      }
    }

    method EvictUntilUnderCapsLocked() returns (ok: bool)
      requires Consistent()
      modifies this, disk
      ensures Consistent() && ok
      ensures var k := Excess(old(mail), maxMessages, maxBytes);
              k <= |old(mail)| &&
              State() == old(State()).(mail := old(mail)[k..], generation := old(generation) + k,
                                       evictions := old(evictions) + k)
      ensures spillDir == old(spillDir) && spillThreshold == old(spillThreshold) && pending == old(pending)
    {
      hide CellsOK;
      ExcessIsLeast(mail, maxMessages, maxBytes);
      EvictUntil(maxMessages, maxBytes);
      Counted();
      ok := OccupancyOKLocked();
    }

    // ---------- insert ----------

    /** What the caller of the locked half holds: its own insertion, not yet indexed. */
    ghost predicate Carries(ins: Insertion)
      reads this
    {
      CarriedBy(pending, epoch, spillDir, ins)
    }

    /** The unlocked half of Insert: size check against maxBytes, then temporaries. */
    method Prepare(msg: Message, id: Id, now: Time) returns (r: Result<Insertion, InsertError>)
      requires Valid() && Fresh(id)
      modifies this, disk
      ensures Valid() && State() == old(State())
      ensures spillDir == old(spillDir) && spillThreshold == old(spillThreshold)
      ensures r == Err(TooLarge) <==> Resident(Prepared(msg, id, now)) > maxBytes
      ensures r.Err? ==> disk.files == old(disk.files) && pending == old(pending) && r.error in {TooLarge, SpillFailed}
      ensures r.Ok? ==> r.value.msg == Prepared(msg, id, now) && Carries(r.value) && Absent(mail, id)
      ensures r.Ok? ==> pending == old(pending)[id := pending[id]] && pending[id].since == epoch
    {
      hide CellsOK, WellFormed, OthersKept, FilesAre;
      var m := Prepared(msg, id, now);
      var candidate := Resident(m);
      if candidate > maxBytes {
        return Err(TooLarge);
      }
      ghost var was := Now();
      var job := WriteSpillTemps(disk, spillDir, spillThreshold, m);
      if job.Err? {
        return Err(SpillFailed);
      }
      PrepareKeepsCells(was, m, disk.files, job.value);
      pending := pending[id := InFlight(m, JobPaths(job.value), epoch)];
      return Ok(Insertion(m, candidate, job.value));
    }

    /** Where the new id goes: before the first message it precedes. */
    method InsertPosition(m: Message) returns (pos: nat)
      requires Consistent()
      ensures pos == Position(mail, m) && pos <= |order|
    {
      hide CellsOK;
      pos := |order|;
      var i := 0;
      Counted();
      while i < |order|
        invariant 0 <= i <= |order| == |mail| && pos == |order|
        invariant forall j :: 0 <= j < i ==> !Older(m, mail[j])
      {
        IndexShown(Now(), i);
        var other := byID[order[i]].msg;
        if m.receivedAt < other.receivedAt || (m.receivedAt == other.receivedAt && m.id < order[i]) {
          pos := i;
          break;
        }
        i := i + 1;
      }
    }

    /** The deferred cleanup of a failed insert. */
    method Abandon(job: Job, id: Id, ghost m: Message)
      requires Consistent() && id in pending
      requires forall p :: Names(job, p) ==> p.id == id
      requires forall p :: p in disk.files && p.id == id ==> Names(job, p)
      modifies this`pending, disk
      ensures Consistent() && pending == old(pending) - {id} && NoFilesOf(disk.files, id)
    {
      hide CellsOK, OthersKept;
      ghost var was := Now();
      PendingIsAbsent(was, id);
      var gone := UnlinkSpillJob(disk, job, id, m);
      AbandonKeepsCells(was, id, disk.files);
      pending := pending - {id};
    }

    /** Renames the insertion's temporaries into its record's files, or ends the insertion. */
    method CommitFiles(ins: Insertion) returns (ok: bool, rec: Record)
      requires Consistent() && Carries(ins) && pending[ins.msg.id].since == epoch
      modifies this`pending, disk
      ensures Consistent()
      ensures ok ==> pending == old(pending)[ins.msg.id := InFlight(ins.msg, OwnedPaths(rec), epoch)]
      ensures ok ==> RecordFor(rec, ins.msg, spillDir) && rec.resident == Resident(ins.msg)
      ensures !ok ==> pending == old(pending) - {ins.msg.id} && NoFilesOf(disk.files, ins.msg.id)
    {
      hide CellsOK, OthersKept, FilesAre, RecordFor, JobFor;
      var m, id := ins.msg, ins.msg.id;
      ghost var was := Now();
      PendingIsAbsent(was, id);
      CarriedFiles(was, ins);
      var job;
      ok, rec, job := CommitSpill(disk, Resided(m), ins.job, m, spillDir);
      if ok {
        RenameKeepsCells(was, m, disk.files, rec);
        pending := pending[id := InFlight(m, OwnedPaths(rec), epoch)];
      } else {
        ghost var half := disk.files;
        var gone := UnlinkSpillJob(disk, job, id, m);
        OthersKeptTrans(was.files, half, disk.files, id);
        AbandonKeepsCells(was, id, disk.files);
        pending := pending - {id};
      }
    }

    /** Index, order, byte counter and generation take in a committed record. */
    method IndexLocked(m: Message, rec: Record)
      requires Consistent() && m.id in pending && pending[m.id] == InFlight(m, OwnedPaths(rec), epoch)
      requires RecordFor(rec, m, spillDir) && rec.resident == Resident(m)
      modifies this
      ensures Consistent() && pending == old(pending) - {m.id}
      ensures spillDir == old(spillDir) && spillThreshold == old(spillThreshold)
      ensures State() == old(State()).(mail := Placed(old(mail), m), generation := old(generation) + 1)
    {
      hide CellsOK, RecordFor, Placed, Position, Backed, Owns, Resident;
      var pos := InsertPosition(m);
      PendingIsAbsent(Now(), m.id);
      IndexKeepsCells(Now(), m, rec, pos);
      byID := byID[m.id := rec];
      order := order[..pos] + [m.id] + order[pos..];
      bytes := bytes + rec.resident;
      mail := Placed(mail, m);
      pending := pending - {m.id};
      generation := generation + 1;
    }

    /** The locked half of Insert. */
    method Commit(epoch: nat, ins: Insertion) returns (r: Result<nat, InsertError>)
      requires Valid() && Carries(ins) && epoch <= pending[ins.msg.id].since
      modifies this, disk
      ensures Valid() && pending == old(pending) - {ins.msg.id}
      ensures spillDir == old(spillDir) && spillThreshold == old(spillThreshold)
      ensures r.Ok? ==> CommitError(old(State()), epoch, ins.msg).None? && r.value == generation
      ensures r.Ok? ==> State() == Accept(old(State()), ins.msg)
      ensures r.Err? ==> State() == old(State()) && NoFilesOf(disk.files, ins.msg.id)
      ensures CommitError(old(State()), epoch, ins.msg).Some? ==>
                r == Err(CommitError(old(State()), epoch, ins.msg).value)
      ensures r.Err? && CommitError(old(State()), epoch, ins.msg).None? ==> r.error == SpillFailed
    {
      hide CellsOK, WellFormed, CanAccept, Room, JobFor, RecordFor;
      var m, id := ins.msg, ins.msg.id;
      PendingIsAbsent(Now(), id);
      CarriedFiles(Now(), ins);
      if epoch != this.epoch {
        Abandon(ins.job, id, m);
        r := Err(StaleEpoch);
      } else {
        var ok := CanAcceptLocked(ins.resident);
        if !ok {
          Abandon(ins.job, id, m);
          r := Err(Full);
        } else {
          r := CommitAccepted(ins);
        }
      }
    }

    /** An insertion that passed its checks: rename the files, evict, index. */
    method CommitAccepted(ins: Insertion) returns (r: Result<nat, InsertError>)
      requires Valid() && Carries(ins) && pending[ins.msg.id].since == epoch
      requires CanAccept(CapsNow(), mail, Resident(ins.msg))
      modifies this, disk
      ensures Valid() && pending == old(pending) - {ins.msg.id}
      ensures spillDir == old(spillDir) && spillThreshold == old(spillThreshold)
      ensures r.Ok? ==> r.value == generation && State() == Accept(old(State()), ins.msg)
      ensures r.Err? ==> r.error == SpillFailed && State() == old(State()) && NoFilesOf(disk.files, ins.msg.id)
    {
      hide CellsOK, WellFormed, CanAccept, Room, JobFor, RecordFor, Placed, Excess, Resident, Backed, Owns;
      var m := ins.msg;
      PendingIsAbsent(Now(), m.id);
      var ok, rec := CommitFiles(ins);
      if ok {
        ok := EvictUntilFitsLocked(ins.resident);
        assert ok;
        IndexLocked(m, rec);
        assert State() == Accept(old(State()), m);
        AcceptKeepsWellFormed(old(State()), m);
        assert WellFormed(State());
        r := Ok(generation);
      } else {
        assert State() == old(State());
        r := Err(SpillFailed);
      }
    }

    /** Both halves with nothing in between. */
    method Insert(epoch: nat, msg: Message, id: Id, now: Time) returns (r: Result<nat, InsertError>)
      requires Valid() && Fresh(id) && epoch <= this.epoch
      modifies this, disk
      ensures Valid() && pending == old(pending)
      ensures spillDir == old(spillDir) && spillThreshold == old(spillThreshold)
      ensures var m := Prepared(msg, id, now);
              if Resident(m) > old(maxBytes) then r == Err(TooLarge)
              else if CommitError(old(State()), epoch, m).Some?
              then r == Err(CommitError(old(State()), epoch, m).value) || r == Err(SpillFailed)
              else r == Ok(generation) || r == Err(SpillFailed)
      ensures r.Ok? ==> State() == Accept(old(State()), Prepared(msg, id, now))
      ensures r.Err? ==> State() == old(State()) && NoFilesOf(disk.files, id)
    {
      hide CellsOK, WellFormed, CanAccept, Accept, JobFor, CommitError, Resident, Prepared;
      assert Prepared(msg, id, now).id == id by {
        PreparedId(msg, id, now);
      }
      var p := Prepare(msg, id, now);
      if p.Err? {
        return Err(p.error);
      }
      r := Commit(epoch, p.value);
    }

    // ---------- reads ----------

    /** Reads back what the record spilled; without a file it needs there is no answer. */
    method LoadSpill(rec: Record) returns (r: Option<Message>)
      ensures r.Some? ==> r.value == Loaded(rec, disk.files)
      ensures r.Some? && rec.rawSpill.Some? && |rec.msg.raw| == 0 ==> rec.rawSpill.value in disk.files
      ensures r.Some? ==> forall k :: 0 <= k < |rec.msg.attachments| ==> Present(rec, disk.files, k)
      ensures !Spilled(rec) ==> r.Some?
    {
      var m := rec.msg;
      var ok := true;
      if rec.rawSpill.Some? && |m.raw| == 0 {
        var b := disk.ReadFile(rec.rawSpill.value);
        ok := b.Some?;
        m := if ok then m.(raw := b.value) else m;
      }
      var atts := m.attachments;
      var i := 0;
      while ok && i < |atts|
        invariant 0 <= i <= |atts| == |rec.msg.attachments|
        invariant forall k :: 0 <= k < i ==> atts[k] == LoadedAttachment(rec, disk.files, k)
        invariant forall k :: 0 <= k < i ==> Present(rec, disk.files, k)
        invariant forall k :: i <= k < |atts| ==> atts[k] == rec.msg.attachments[k]
        invariant !Spilled(rec) ==> ok
        decreases ok, |atts| - i
      {
        if |atts[i].data| == 0 && i < |rec.attSpill| && rec.attSpill[i].Some? {
          var b := disk.ReadFile(rec.attSpill[i].value);
          ok := b.Some?;
          atts := if ok then atts[i := atts[i].(data := b.value)] else atts;
        }
        i := if ok then i + 1 else i;
      }
      r := if ok then Some(m.(attachments := atts)) else None;
    }

    /** The first locked step of Get. */
    method GetSnapshot(id: Id) returns (snap: Option<Record>)
      requires Valid()
      ensures snap.Some? <==> IndexOf(mail, id) < |mail|
      ensures snap.Some? ==> id in byID && snap.value == byID[id]
      ensures snap.Some? ==> RecordFor(snap.value, mail[IndexOf(mail, id)], spillDir)
    {
      hide CellsOK, RecordFor, Backed;
      CellsIndex(Now(), id);
      snap := None;
      if id in byID {
        ghost var i := IndexOf(mail, id);
        IndexHasRecord(Now(), i);
        snap := Some(byID[id]);
      }
    }

    /** `m`, seen earlier, is still under its id or gone with its files; nobody else bears the id. */
    ghost predicate Seen(m: Message)
      reads this
    {
      StillThere(mail, m) &&
      (IndexOf(mail, m.id) == |mail| ==> m.id !in pending && forall p :: p in leftovers ==> p.id != m.id)
    }

    /**
     * The unlocked read of Get, at any later time: `m` is the message as it was at the snapshot. The
     * record's files may be gone by then, but a read that succeeds gives back all of the message, and
     * one that needs no file succeeds.
     */
    method GetLoad(snap: Record, ghost m: Message, ghost dir: string) returns (r: Option<Message>)
      requires Valid() && RecordFor(snap, m, dir) && Seen(m)
      ensures r.Some? ==> r.value == m
      ensures !Spilled(snap) ==> r.Some?
    {
      hide CellsOK, Spilled;
      r := LoadSpill(snap);
      if r.Some? {
        forall p | Owns(snap, p)
          ensures p in disk.files && p.id == m.id
        {
          OwnedIsPresent(snap, m, dir, disk.files, p);
        }
        PresentIsBacked(Now(), OwnedPaths(snap), m);
        LoadedIsWhole(snap, disk.files, m, dir);
      }
    }

    /** The last locked step of Get: present, or gone in the meantime; and the read bit. */
    method GetFinish(id: Id, loaded: Option<Message>, markRead: bool) returns (r: Result<Message, ReadError>)
      requires Valid()
      modifies this
      ensures Valid() && pending == old(pending)
      ensures spillDir == old(spillDir) && spillThreshold == old(spillThreshold)
      ensures var there := IndexOf(old(mail), id) < |old(mail)|;
              if loaded.None? then r == Err(Unreadable) || (r == Err(NotFound) && !there)
              else if !there then r == Err(NotFound)
              else r == Ok(loaded.value.(read := markRead || loaded.value.read))
      ensures State() == if r.Ok? && markRead then AfterMarkRead(old(State()), id) else old(State())
    {
      hide CellsOK;
      CellsIndex(Now(), id);
      if loaded.None? {
        var missing: bool := *;
        r := Err(if missing && id !in byID then NotFound else Unreadable);
      } else if id !in byID {
        r := Err(NotFound);
      } else if markRead {
        SetRead(id, IndexOf(mail, id));
        r := Ok(loaded.value.(read := true));
      } else {
        r := Ok(loaded.value);
      }
    }

    /**
     * The three steps with nothing in between: what was inserted comes back whole, spilled or not;
     * markRead flips the stored bit and nothing else.
     */
    method Get(id: Id, markRead: bool) returns (r: Result<Message, ReadError>)
      requires Valid()
      modifies this
      ensures Valid() && pending == old(pending)
      ensures spillDir == old(spillDir) && spillThreshold == old(spillThreshold)
      ensures var i := IndexOf(old(mail), id);
              if i == |old(mail)| then r == Err(NotFound)
              else r == Err(Unreadable) || r == Ok(old(mail)[i].(read := markRead || old(mail)[i].read))
      ensures id in old(byID) && !Spilled(old(byID)[id]) ==> r.Ok?
      ensures State() == if r.Ok? && markRead then AfterMarkRead(old(State()), id) else old(State())
    {
      hide CellsOK, RecordFor, Spilled;
      CellsIndex(Now(), id);
      var snap := GetSnapshot(id);
      if snap.None? {
        r := Err(NotFound);
      } else {
        ghost var m := mail[IndexOf(mail, id)];
        var loaded := GetLoad(snap.value, m, spillDir);
        r := GetFinish(id, loaded, markRead);
      }
    }

    method SetRead(id: Id, ghost i: nat)
      requires Valid() && id in byID && i < |mail| && i == IndexOf(mail, id)
      modifies this
      ensures Valid() && pending == old(pending)
      ensures spillDir == old(spillDir) && spillThreshold == old(spillThreshold)
      ensures State() == AfterMarkRead(old(State()), id) && order == old(order)
    {
      hide CellsOK, WellFormed;
      ReadKeepsCells(Now(), id, i);
      ReadBitsKeepWellFormed(State(), AfterMarkRead(State(), id));
      byID := byID[id := byID[id].(msg := byID[id].msg.(read := true))];
      mail := mail[i := mail[i].(read := true)];
    }

    method MarkRead(id: Id) returns (found: bool)
      requires Valid()
      modifies this
      ensures Valid() && pending == old(pending)
      ensures spillDir == old(spillDir) && spillThreshold == old(spillThreshold)
      ensures found <==> IndexOf(old(mail), id) < |old(mail)|
      ensures State() == AfterMarkRead(old(State()), id)
      ensures |mail| == |old(mail)| && forall i :: 0 <= i < |mail| ==>
                mail[i] == if old(mail)[i].id == id then old(mail)[i].(read := true) else old(mail)[i]
    {
      hide CellsOK;
      WellFormedIsDistinct(State());
      CellsIndex(Now(), id);
      found := id in byID;
      if found {
        SetRead(id, IndexOf(mail, id));
      }
    }

    /** One page: the two parts below with nothing in between. */
    method List(f: Filter, cur: Cursor, limit: int) returns (r: Result<Listing, ReadError>)
      requires Valid()
      ensures r.Ok? ==> r.value == Listing(PageOf(mail, f, cur, limit), generation)
      ensures r.Err? ==> r.error == Unreadable
      ensures (forall id :: id in byID ==> !Spilled(byID[id])) ==> r.Ok?
    {
      hide CellsOK, PageOf, Matches, RecordFor, Backed, Spilled;
      var recs, next := Scan(f, cur, limit);
      ghost var chosen := PageOf(mail, f, cur, limit).items;
      forall k | 0 <= k < |recs|
        ensures RecordFor(recs[k], chosen[k], spillDir) && Seen(chosen[k])
      {
        PresentIsSeen(mail, chosen[k]);
      }
      var items := LoadListed(recs, chosen, spillDir);
      r := if items.None? then Err(Unreadable) else Ok(Listing(Page(items.value, next), generation));
    }

    /**
     * The unlocked part of List, at any later time: a page that loads is the messages as they were
     * listed, and one that needs no file loads.
     */
    method LoadListed(recs: seq<Record>, ghost chosen: seq<Message>, ghost dir: string)
      returns (r: Option<seq<Message>>)
      requires Valid() && |recs| == |chosen|
      requires forall k :: 0 <= k < |recs| ==> RecordFor(recs[k], chosen[k], dir) && Seen(chosen[k])
      ensures r.Some? ==> r.value == chosen
      ensures (forall k :: 0 <= k < |recs| ==> !Spilled(recs[k])) ==> r.Some?
    {
      hide CellsOK, RecordFor, Backed, Spilled, Seen, WellFormed;
      var items: seq<Message> := [];
      var ok := true;
      while ok && |items| < |recs|
        invariant |items| <= |recs| && (ok ==> items == chosen[..|items|])
        invariant (forall k :: 0 <= k < |recs| ==> !Spilled(recs[k])) ==> ok
        decreases ok, |recs| - |items|
      {
        var loaded := GetLoad(recs[|items|], chosen[|items|], dir);
        ok := loaded.Some?;
        items := if ok then items + [loaded.value] else items;
      }
      r := if ok then Some(items) else None;
    }

    /** The locked scan of List: which records the page takes and where the next one starts. */
    method Scan(f: Filter, cur: Cursor, limit: int) returns (recs: seq<Record>, next: Option<Id>)
      requires Valid()
      ensures next == PageOf(mail, f, cur, limit).next && Picked(Now(), recs, PageOf(mail, f, cur, limit).items)
    {
      hide CellsOK, Picked, Matches, Below, NewestFirst, ResumeBelow, NewerThanCursor, Cut, WellFormed, EffectiveLimit;
      var lim := EffectiveLimit(limit);
      var found := cur.Native? && cur.id in byID;
      var passed := cur.Start?;
      recs, next := [], None;
      ghost var chosen := [];
      ghost var n := Below(mail, cur);
      ScanBounds(Now(), cur);
      NonePicked(Now());
      var i := |order|;
      assert mail[..|mail|] == mail;
      while i > 0
        invariant 0 <= i <= |order| == |mail|
        invariant next.None? && |recs| == |chosen| <= lim && Picked(Now(), recs, chosen)
        invariant !passed ==> n <= i && chosen == []
        invariant !passed && found ==> n < i
        invariant passed ==> i <= n && NewestFirst(mail[..n], f) == chosen + NewestFirst(mail[..i], f)
        invariant !passed && !found ==> n == ResumeBelow(mail[..i], cur)
      {
        i := i - 1;
        IndexShown(Now(), i);
        ListStep(mail, f, i);
        var id := order[i];
        var rec := byID[id];
        ShownMatches(rec.msg, mail[i], f);
        if !passed {
          if found && id == cur.id {
            passed := true;
            FoundAt(Now(), cur, i);
            assert chosen + NewestFirst(mail[..i], f) == NewestFirst(mail[..i], f);
            continue;
          }
          if !found && !NewerThanCursor(rec.msg, cur) {
            passed := true;
          } else {
            continue;
          }
        }
        assert NewestFirst(mail[..n], f) == chosen + NewestFirst(mail[..i + 1], f);
        CutFull(chosen, NewestFirst(mail[..i + 1], f), limit);
        if !Matches(rec.msg, f) {
          continue;
        }
        if |recs| == lim {
          PickedId(Now(), recs, chosen);
          next := Some(recs[|recs| - 1].msg.id);
          return;
        }
        assert chosen + ([mail[i]] + NewestFirst(mail[..i], f)) == chosen + [mail[i]] + NewestFirst(mail[..i], f);
        PickedMore(Now(), recs, chosen, i);
        recs := recs + [rec];
        chosen := chosen + [mail[i]];
      }
      EmptyListing(mail, f, cur);
      CutFull(chosen, [], limit);
      assert passed ==> chosen + [] == chosen;
    }

    method GetStats() returns (st: Stats)
      requires Valid()
      ensures st == Stats(|mail|, Total(mail), CountUnread(mail), generation, epoch, evictions)
    {
      hide CellsOK, WellFormed, Total;
      Counted();
      var unread: nat := 0;
      var i := 0;
      while i < |order|
        invariant 0 <= i <= |order| == |mail|
        invariant unread == CountUnread(mail[..i])
      {
        IndexShown(Now(), i);
        assert mail[..i + 1][..i] == mail[..i];
        if !byID[order[i]].msg.read {
          unread := unread + 1;
        }
        i := i + 1;
      }
      assert mail[..i] == mail;
      st := Stats(|byID|, bytes, unread, generation, epoch, evictions);
    }

    method MarkAllRead() returns (n: nat)
      requires Valid()
      modifies this
      ensures Valid() && pending == old(pending)
      ensures spillDir == old(spillDir) && spillThreshold == old(spillThreshold)
      ensures n == CountUnread(old(mail))
      ensures State() == old(State()).(mail := AllRead(old(mail)))
    {
      hide CellsOK, WellFormed, IndexOf, Total, Resident;
      Counted();
      n := 0;
      var i := 0;
      ghost var was := mail;
      while i < |order|
        invariant Valid() && pending == old(pending)
        invariant spillDir == old(spillDir) && spillThreshold == old(spillThreshold)
        invariant order == old(order) && 0 <= i <= |order| == |mail| == |was|
        invariant n == CountUnread(was[..i])
        invariant State() == old(State()).(mail := mail)
        invariant forall k :: 0 <= k < |was| ==> mail[k] == if k < i then was[k].(read := true) else was[k]
      {
        IndexShown(Now(), i);
        OrderIndex(Now(), i);
        assert was[..i + 1][..i] == was[..i];
        if !byID[order[i]].msg.read {
          SetRead(order[i], i);
          n := n + 1;
        }
        i := i + 1;
      }
      assert was[..i] == was;
    }

    // ---------- deletes, wipes and caps ----------

    method Delete(id: Id) returns (found: bool)
      requires Valid()
      modifies this, disk
      ensures Valid() && pending == old(pending)
      ensures spillDir == old(spillDir) && spillThreshold == old(spillThreshold)
      ensures found <==> IndexOf(old(mail), id) < |old(mail)|
      ensures State() == AfterDelete(old(State()), id)
      ensures TakesOut(old(mail), id, mail) && (found ==> |mail| == |old(mail)| - 1)
    {
      hide CellsOK, WellFormed, TakesOut;
      CellsIndex(Now(), id);
      WellFormedIsDistinct(State());
      DeleteTakesOutTheNamed(State(), id);
      NextIsDelete(State(), id);
      DeleteKeepsWellFormed(State(), id);
      found := id in byID;
      if found {
        RemoveLocked(id, false);
      }
    }

    method DeleteAll() returns (n: nat)
      requires Valid()
      modifies this, disk
      ensures Valid() && pending == old(pending)
      ensures spillDir == old(spillDir) && spillThreshold == old(spillThreshold)
      ensures n == |old(mail)|
      ensures State() == old(State()).(mail := [], generation := old(generation) + |old(mail)|)
    {
      hide CellsOK, IndexOf;
      Counted();
      OrderIds(Now());
      n := |byID|;
      var ids := order;
      ghost var was := mail;
      var i := 0;
      assert was[0..] == was && ids[0..] == ids;
      while i < |ids|
        invariant 0 <= i <= |ids| == |was|
        invariant Consistent() && pending == old(pending)
        invariant spillDir == old(spillDir) && spillThreshold == old(spillThreshold)
        invariant State() == old(State()).(mail := was[i..], generation := old(generation) + i)
        invariant forall k :: 0 <= k < |was| ==> was[k].id == ids[k]
      {
        CellsFirst(Now());
        assert was[i..][..0] + was[i..][1..] == was[i + 1..];
        RemoveLocked(ids[i], false);
        i := i + 1;
      }
      assert was[i..] == [];
      assert Sorted(mail) && DistinctIds(mail);
    }

    /** Epoch and generation rise, index and spill directory empty out. */
    method WipeLocked(dir: string)
      requires Consistent()
      modifies this`byID, this`order, this`bytes, this`mail, this`epoch, this`generation, this`spillDir, disk
      ensures Consistent()
      ensures State() == AfterWipe(old(State())) && spillDir == dir
      ensures forall p :: p in disk.files ==> p.dir != old(spillDir) && p in old(disk.files)
    {
      hide CellsOK;
      ghost var was := Now();
      epoch := epoch + 1;
      generation := generation + 1;
      byID, order, bytes, mail := map[], [], 0, [];
      UnlinkAllSpill(was);
      WipeKeepsCells(was, disk.files, dir);
      spillDir := dir;
    }

    /** Without a spill directory there is nothing to unlink, and no file to be found either. */
    method UnlinkAllSpill(ghost was: Cells)
      requires CellsOK(was) && was.files == disk.files && was.dir == spillDir
      modifies disk
      ensures disk.files == map p | p in was.files && p.dir != spillDir :: was.files[p]
    {
      if spillDir != "" {
        disk.RemoveDir(spillDir);
      }
    }

    method Wipe()
      requires Valid()
      modifies this, disk
      ensures Valid() && pending == old(pending)
      ensures State() == AfterWipe(old(State()))
      ensures spillDir == old(spillDir) && spillThreshold == old(spillThreshold)
      ensures forall p :: p in disk.files ==> p.dir != spillDir
    {
      WipeLocked(spillDir);
    }

    method ResetTo(opts: Options) returns (r: Result<(), OptionsError>)
      requires Valid()
      modifies this, disk
      ensures Valid() && pending == old(pending)
      ensures r.Ok? <==> NormalizeOptions(opts).Ok?
      ensures r.Err? ==> State() == old(State()) && disk.files == old(disk.files) && spillDir == old(spillDir)
      ensures r.Ok? ==> State() == AfterWipe(old(State())).(caps := CapsOf(opts))
      ensures r.Ok? ==> spillDir == opts.spillDirectory
      ensures r.Ok? ==> spillThreshold == NormalizeOptions(opts).value.spillThreshold
      ensures r.Ok? ==> forall p :: p in disk.files ==> p.dir != old(spillDir) && p in old(disk.files)
    {
      hide CellsOK;
      var o := NormalizeOptions(opts);
      if o.Err? {
        return Err(o.error);
      }
      WipeLocked(o.value.spillDirectory);
      maxMessages := o.value.maxMessages;
      maxBytes := o.value.maxBytes;
      fullPolicy := o.value.fullPolicy;
      spillThreshold := o.value.spillThreshold;
      EmptyIsWellFormed(State());
      r := Ok(());
    }

    /** Installs new caps, evicting down to them, or refuses and changes nothing. */
    method ReplaceCaps(opts: Options, force: bool) returns (r: Result<(), CapsError>)
      requires Valid()
      modifies this, disk
      ensures Valid() && pending == old(pending)
      ensures spillDir == old(spillDir) && spillThreshold == old(spillThreshold)
      ensures NormalizeOptions(opts).Err? ==> r == Err(BadOptions(NormalizeOptions(opts).error))
      ensures NormalizeOptions(opts).Ok? ==>
                r == (if OverNewCap(old(State()), CapsOf(opts), force) then Err(OverCap) else Ok(()))
      ensures r.Err? ==> State() == old(State()) && disk.files == old(disk.files)
      ensures r.Ok? ==> State() == AfterReplaceCaps(old(State()), CapsOf(opts), force)
    {
      hide CellsOK, WellFormed;
      var o := NormalizeOptions(opts);
      if o.Err? {
        r := Err(BadOptions(o.error));
      } else {
        Counted();
        var over := |byID| > o.value.maxMessages || bytes > o.value.maxBytes;
        if over && o.value.fullPolicy != EVICT_OLDEST && !force {
          r := Err(OverCap);
        } else {
          ReplaceCapsKeepsWellFormed(State(), CapsOf(opts), force);
          maxMessages := o.value.maxMessages;
          maxBytes := o.value.maxBytes;
          fullPolicy := o.value.fullPolicy;
          if over {
            var ok := EvictUntilUnderCapsLocked();
            assert ok;
          } else {
            assert mail[0..] == mail;
          }
          r := Ok(());
        }
      }
    }
  }
}
