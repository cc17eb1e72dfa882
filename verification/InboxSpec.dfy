/**
 * The bounded inbox as a value. Class Memory (Memory.dfy) refines it: spill files,
 * the id index, the order list and the byte counter are concrete there and do not show here.
 */
module InboxSpec {
  import opened Prelude

  /** The 128-bit number a ULID spells; ULIDs have one length, so their text order is this order. */
  type Id = nat

  /** Nanoseconds since Go's zero time; 0 is `time.Time{}`. */
  type Time = nat

  datatype Envelope = Envelope(from: string, to: seq<string>, helo: string)

  datatype Attachment = Attachment(size: nat, data: Bytes)

  datatype Message = Message(
    id: Id, receivedAt: Time, envelope: Envelope, subject: string,
    from: seq<string>, to: seq<string>, text: Bytes, html: Bytes,
    raw: Bytes, size: nat, read: bool, attachments: seq<Attachment>)

  datatype Caps = Caps(maxMessages: int, maxBytes: int, evictOldest: bool)

  /** `mail` is listed oldest first. */
  datatype Inbox = Inbox(caps: Caps, epoch: nat, generation: nat, evictions: nat, mail: seq<Message>)

  datatype InsertError = TooLarge | StaleEpoch | Full | SpillFailed

  // ---------- sizes ----------

  function AttachmentBytes(atts: seq<Attachment>): nat {
    if atts == [] then 0
    else (if |atts[0].data| > 0 then |atts[0].data| else atts[0].size) + AttachmentBytes(atts[1..])
  }

  function Resident(m: Message): nat {
    (if |m.raw| == 0 then m.size else |m.raw|) + |m.text| + |m.html| + AttachmentBytes(m.attachments)
  }

  function Total(mail: seq<Message>): nat {
    if mail == [] then 0 else Resident(mail[0]) + Total(mail[1..])
  }

  lemma {:induction false} TotalConcat(a: seq<Message>, b: seq<Message>)
    ensures Total(a + b) == Total(a) + Total(b)
  {
    if a == [] {
      assert a + b == b;
    } else {
      TotalConcat(a[1..], b);
      assert (a + b)[1..] == a[1..] + b;
    }
  }

  lemma TotalOne(m: Message)
    ensures Total([m]) == Resident(m)
  {
    assert Total([m]) == Resident(m) + Total([m][1..]);
  }

  // ---------- order ----------

  /** The store's order: by arrival, then by id. */
  predicate Older(a: Message, b: Message) {
    a.receivedAt < b.receivedAt || (a.receivedAt == b.receivedAt && a.id < b.id)
  }

  ghost predicate Sorted(mail: seq<Message>) {
    forall i, j :: 0 <= i < j < |mail| ==> Older(mail[i], mail[j])
  }

  ghost predicate Absent(mail: seq<Message>, id: Id) {
    forall i :: 0 <= i < |mail| ==> mail[i].id != id
  }

  ghost predicate DistinctIds(mail: seq<Message>) {
    forall i, j :: 0 <= i < j < |mail| ==> mail[i].id != mail[j].id
  }

  /** First position whose message id is `id`, or the length when there is none. */
  function IndexOf(mail: seq<Message>, id: Id): (i: nat)
    ensures i <= |mail|
    ensures i < |mail| ==> mail[i].id == id
    ensures forall j :: 0 <= j < i ==> mail[j].id != id
  {
    if mail == [] || mail[0].id == id then 0
    else 1 + IndexOf(mail[1..], id)
  }

  /** How many leading messages the new one does not precede. */
  function Position(mail: seq<Message>, m: Message): (p: nat)
    ensures p <= |mail|
    ensures p < |mail| ==> Older(m, mail[p])
    ensures forall j :: 0 <= j < p ==> !Older(m, mail[j])
  {
    if mail == [] || Older(m, mail[0]) then 0 else 1 + Position(mail[1..], m)
  }

  function Placed(mail: seq<Message>, m: Message): seq<Message> {
    var p := Position(mail, m);
    mail[..p] + [m] + mail[p..]
  }

  // ---------- capacity ----------

  predicate Holds(mail: seq<Message>, count: int, bytes: int) {
    |mail| <= count && Total(mail) <= bytes
  }

  predicate Room(caps: Caps, mail: seq<Message>, n: nat) {
    Holds(mail, caps.maxMessages - 1, caps.maxBytes - n)
  }

  predicate Under(caps: Caps, mail: seq<Message>) {
    Holds(mail, caps.maxMessages, caps.maxBytes)
  }

  predicate Positive(caps: Caps) {
    caps.maxMessages > 0 && caps.maxBytes > 0
  }

  /** Messages to drop from the old end before `count` and `bytes` hold (all of them if they never do). */
  function Excess(mail: seq<Message>, count: int, bytes: int): nat {
    if mail == [] || Holds(mail, count, bytes) then 0 else 1 + Excess(mail[1..], count, bytes)
  }

  lemma {:induction false} ExcessIsLeast(mail: seq<Message>, count: int, bytes: int)
    ensures Excess(mail, count, bytes) <= |mail|
    ensures Excess(mail, count, bytes) < |mail| ==> Holds(mail[Excess(mail, count, bytes)..], count, bytes)
    ensures forall j :: 0 <= j < Excess(mail, count, bytes) ==> !Holds(mail[j..], count, bytes)
    ensures 0 <= count && 0 <= bytes ==> Holds(mail[Excess(mail, count, bytes)..], count, bytes)
  {
    if mail == [] || Holds(mail, count, bytes) {
      assert mail[0..] == mail;
    } else {
      var k := Excess(mail[1..], count, bytes);
      ExcessIsLeast(mail[1..], count, bytes);
      assert mail[1..][k..] == mail[1 + k..];
      forall j | 0 <= j < 1 + k
        ensures !Holds(mail[j..], count, bytes)
      {
        if j == 0 {
          assert mail[0..] == mail;
        } else {
          assert mail[1..][j - 1..] == mail[j..];
        }
      }
    }
  }

  /** Under reject the candidate must fit as it is; under evict_oldest some suffix must have room. */
  ghost predicate CanAccept(caps: Caps, mail: seq<Message>, n: nat) {
    Room(caps, mail, n) ||
    (caps.evictOldest && exists k :: 0 <= k <= |mail| && Room(caps, mail[k..], n))
  }

  /** Under evict_oldest exactly the candidates larger than maxBytes are refused. */
  lemma EvictOldestRefusesOnlyOversize(caps: Caps, mail: seq<Message>, n: nat)
    requires Positive(caps) && caps.evictOldest
    ensures CanAccept(caps, mail, n) <==> n <= caps.maxBytes
  {
    assert mail[|mail|..] == [];
    assert Total([]) == 0;
    assert Room(caps, mail[|mail|..], n) <==> n <= caps.maxBytes;
  }

  lemma CanAcceptMeansRoomForOne(caps: Caps, mail: seq<Message>, n: nat)
    requires CanAccept(caps, mail, n)
    ensures 0 <= caps.maxMessages - 1 && 0 <= caps.maxBytes - n
  {
  }

  function EvictFor(s: Inbox, n: nat): nat {
    Excess(s.mail, s.caps.maxMessages - 1, s.caps.maxBytes - n)
  }

  /** The eviction loop removes the shortest oldest prefix that makes room, and always finds one. */
  lemma EvictForIsShortestPrefix(s: Inbox, n: nat)
    requires CanAccept(s.caps, s.mail, n)
    ensures EvictFor(s, n) <= |s.mail|
    ensures Room(s.caps, s.mail[EvictFor(s, n)..], n)
    ensures forall j :: 0 <= j < EvictFor(s, n) ==> !Room(s.caps, s.mail[j..], n)
    ensures Room(s.caps, s.mail, n) ==> EvictFor(s, n) == 0
  {
    CanAcceptMeansRoomForOne(s.caps, s.mail, n);
    hide CanAccept, Total;
    ExcessIsLeast(s.mail, s.caps.maxMessages - 1, s.caps.maxBytes - n);
  }

  // ---------- operations ----------

  datatype Op =
    | Commit(epoch: nat, msg: Message)
    | Delete(id: Id)
    | DeleteAll
    | MarkRead(id: Id)
    | MarkAllRead
    | Wipe
    | ResetTo(caps: Caps)
    | ReplaceCaps(newCaps: Caps, force: bool)

  ghost function CommitError(s: Inbox, epoch: nat, m: Message): Option<InsertError> {
    if epoch != s.epoch then Some(StaleEpoch)
    else if !CanAccept(s.caps, s.mail, Resident(m)) then Some(Full)
    else None
  }

  /** Evict, place, count: an insert that has passed the epoch and capacity checks. */
  ghost function Accept(s: Inbox, m: Message): Inbox
    requires CanAccept(s.caps, s.mail, Resident(m))
  {
    EvictForIsShortestPrefix(s, Resident(m));
    var k := EvictFor(s, Resident(m));
    s.(mail := Placed(s.mail[k..], m), generation := s.generation + k + 1, evictions := s.evictions + k)
  }

  function Removed(s: Inbox, i: nat): Inbox
    requires i < |s.mail|
  {
    s.(mail := s.mail[..i] + s.mail[i + 1..], generation := s.generation + 1)
  }

  function AfterDelete(s: Inbox, id: Id): Inbox {
    var i := IndexOf(s.mail, id);
    if i == |s.mail| then s else Removed(s, i)
  }

  function AfterMarkRead(s: Inbox, id: Id): Inbox {
    var i := IndexOf(s.mail, id);
    if i == |s.mail| then s else s.(mail := s.mail[i := s.mail[i].(read := true)])
  }

  function AllRead(mail: seq<Message>): seq<Message> {
    seq(|mail|, i requires 0 <= i < |mail| => mail[i].(read := true))
  }

  function CountUnread(mail: seq<Message>): nat {
    if mail == [] then 0
    else CountUnread(mail[..|mail| - 1]) + if mail[|mail| - 1].read then 0 else 1
  }

  function AfterWipe(s: Inbox): Inbox {
    s.(mail := [], epoch := s.epoch + 1, generation := s.generation + 1)
  }

  predicate OverNewCap(s: Inbox, caps: Caps, force: bool) {
    !Under(caps, s.mail) && !caps.evictOldest && !force
  }

  ghost function AfterReplaceCaps(s: Inbox, caps: Caps, force: bool): Inbox {
    if OverNewCap(s, caps, force) then s
    else
      var k := Excess(s.mail, caps.maxMessages, caps.maxBytes);
      ExcessIsLeast(s.mail, caps.maxMessages, caps.maxBytes);
      s.(caps := caps, mail := s.mail[k..], generation := s.generation + k, evictions := s.evictions + k)
  }

  ghost function Next(s: Inbox, op: Op): Inbox {
    match op
    case Commit(epoch, m) => if CommitError(s, epoch, m).Some? then s else Accept(s, m)
    case Delete(id) => AfterDelete(s, id)
    case DeleteAll => s.(mail := [], generation := s.generation + |s.mail|)
    case MarkRead(id) => AfterMarkRead(s, id)
    case MarkAllRead => s.(mail := AllRead(s.mail))
    case Wipe => AfterWipe(s)
    case ResetTo(caps) => AfterWipe(s).(caps := caps)
    case ReplaceCaps(caps, force) => AfterReplaceCaps(s, caps, force)
  }

  /** Ids are fresh and installed caps have passed normalizeOptions. */
  ghost predicate Legal(s: Inbox, op: Op) {
    match op
    case Commit(_, m) => Absent(s.mail, m.id)
    case ResetTo(caps) => Positive(caps)
    case ReplaceCaps(caps, _) => Positive(caps)
    case _ => true
  }

  ghost predicate WellFormed(s: Inbox) {
    Positive(s.caps) && Sorted(s.mail) && DistinctIds(s.mail) && Under(s.caps, s.mail)
  }

  lemma WellFormedIsDistinct(s: Inbox)
    requires WellFormed(s)
    ensures DistinctIds(s.mail)
  {
  }

  // ---------- what every operation keeps ----------

  lemma DropOldest(mail: seq<Message>, k: nat)
    requires k <= |mail| && Sorted(mail) && DistinctIds(mail)
    ensures Sorted(mail[k..]) && DistinctIds(mail[k..])
    ensures Total(mail) == Total(mail[..k]) + Total(mail[k..])
  {
    assert mail == mail[..k] + mail[k..];
    TotalConcat(mail[..k], mail[k..]);
  }

  lemma TotalAround(a: seq<Message>, m: Message, b: seq<Message>)
    ensures Total(a + [m] + b) == Total(a + b) + Resident(m)
  {
    TotalConcat(a + [m], b);
    TotalConcat(a, [m]);
    TotalConcat(a, b);
    TotalOne(m);
  }

  lemma PositionSplits(mail: seq<Message>, m: Message)
    requires Sorted(mail) && Absent(mail, m.id)
    ensures forall i :: 0 <= i < Position(mail, m) ==> Older(mail[i], m)
    ensures forall j :: Position(mail, m) <= j < |mail| ==> Older(m, mail[j])
  {
    var p := Position(mail, m);
    forall j | p <= j < |mail|
      ensures Older(m, mail[j])
    {
      assert Older(m, mail[p]);
    }
  }

  /** Placing a fresh message keeps the listing sorted and adds exactly that message. */
  lemma PlacedKeepsOrder(mail: seq<Message>, m: Message)
    requires Sorted(mail) && DistinctIds(mail) && Absent(mail, m.id)
    ensures Sorted(Placed(mail, m)) && DistinctIds(Placed(mail, m))
    ensures |Placed(mail, m)| == |mail| + 1
    ensures Total(Placed(mail, m)) == Total(mail) + Resident(m)
  {
    var p := Position(mail, m);
    PositionSplits(mail, m);
    assert mail == mail[..p] + mail[p..];
    TotalAround(mail[..p], m, mail[p..]);
    forall i, j | 0 <= i < j <= |mail|
      ensures Older(Placed(mail, m)[i], Placed(mail, m)[j]) && Placed(mail, m)[i].id != Placed(mail, m)[j].id
    {
      PlacedPair(mail, m, i, j);
    }
  }

  lemma PlacedPair(mail: seq<Message>, m: Message, i: nat, j: nat)
    requires Sorted(mail) && DistinctIds(mail) && Absent(mail, m.id) && i < j <= |mail|
    ensures Older(Placed(mail, m)[i], Placed(mail, m)[j]) && Placed(mail, m)[i].id != Placed(mail, m)[j].id
  {
    hide Older;
    var p := Position(mail, m);
    var placed := Placed(mail, m);
    PositionSplits(mail, m);
    assert placed[i] == (if i < p then mail[i] else if i == p then m else mail[i - 1]);
    assert placed[j] == (if j < p then mail[j] else if j == p then m else mail[j - 1]);
  }

  lemma PlacedAddsOne(mail: seq<Message>, m: Message)
    ensures multiset(Placed(mail, m)) == multiset(mail) + multiset{m}
  {
    var p := Position(mail, m);
    assert mail == mail[..p] + mail[p..];
  }

  lemma TotalWithout(mail: seq<Message>, i: nat)
    requires i < |mail|
    ensures Total(mail) == Total(mail[..i] + mail[i + 1..]) + Resident(mail[i])
  {
    SplitAround(mail, i);
    TotalAround(mail[..i], mail[i], mail[i + 1..]);
  }

  lemma RemovedKeepsOrder(mail: seq<Message>, i: nat)
    requires i < |mail| && Sorted(mail) && DistinctIds(mail)
    ensures Sorted(mail[..i] + mail[i + 1..]) && DistinctIds(mail[..i] + mail[i + 1..])
  {
    var rest := mail[..i] + mail[i + 1..];
    assert forall a :: 0 <= a < |rest| ==> rest[a] == mail[if a < i then a else a + 1];
  }

  /** Same messages in the same places; only read bits may differ. */
  ghost predicate SameMail(a: seq<Message>, b: seq<Message>) {
    |a| == |b| && forall i :: 0 <= i < |a| ==> a[i].(read := false) == b[i].(read := false)
  }

  lemma {:induction false} ReadBitsKeepTotal(a: seq<Message>, b: seq<Message>)
    requires SameMail(a, b)
    ensures Total(a) == Total(b)
  {
    if a != [] {
      assert a[0].(read := false) == b[0].(read := false);
      forall i | 0 <= i < |a| - 1
        ensures a[1..][i].(read := false) == b[1..][i].(read := false)
      {
        assert a[i + 1].(read := false) == b[i + 1].(read := false);
      }
      ReadBitsKeepTotal(a[1..], b[1..]);
    }
  }

  lemma AcceptKeepsWellFormed(s: Inbox, m: Message)
    requires WellFormed(s) && Absent(s.mail, m.id)
    requires CanAccept(s.caps, s.mail, Resident(m))
    ensures WellFormed(Accept(s, m))
  {
    var k := EvictFor(s, Resident(m));
    EvictForIsShortestPrefix(s, Resident(m));
    var kept := s.mail[k..];
    DropOldest(s.mail, k);
    assert Absent(kept, m.id);
    PlacedKeepsOrder(kept, m);
  }

  lemma DeleteKeepsWellFormed(s: Inbox, id: Id)
    requires WellFormed(s)
    ensures WellFormed(AfterDelete(s, id))
  {
    var i := IndexOf(s.mail, id);
    if i < |s.mail| {
      RemovedKeepsOrder(s.mail, i);
      TotalWithout(s.mail, i);
    }
  }

  lemma ReadBitsKeepWellFormed(s: Inbox, t: Inbox)
    requires WellFormed(s) && t.caps == s.caps && SameMail(s.mail, t.mail)
    ensures WellFormed(t)
  {
    ReadBitsKeepTotal(s.mail, t.mail);
    forall i | 0 <= i < |s.mail|
      ensures s.mail[i].id == t.mail[i].id && s.mail[i].receivedAt == t.mail[i].receivedAt
    {
      assert s.mail[i].(read := false) == t.mail[i].(read := false);
    }
  }

  lemma ReplaceCapsKeepsWellFormed(s: Inbox, caps: Caps, force: bool)
    requires WellFormed(s) && Positive(caps)
    ensures WellFormed(AfterReplaceCaps(s, caps, force))
  {
    if !OverNewCap(s, caps, force) {
      var k := Excess(s.mail, caps.maxMessages, caps.maxBytes);
      ExcessIsLeast(s.mail, caps.maxMessages, caps.maxBytes);
      DropOldest(s.mail, k);
    }
  }

  /** Order, distinctness and both caps survive every operation. */
  lemma NextKeepsWellFormed(s: Inbox, op: Op)
    requires WellFormed(s) && Legal(s, op)
    ensures WellFormed(Next(s, op))
  {
    match op
    case Commit(epoch, m) => if CommitError(s, epoch, m).None? { AcceptKeepsWellFormed(s, m); }
    case Delete(id) => DeleteKeepsWellFormed(s, id);
    case MarkRead(id) => ReadBitsKeepWellFormed(s, Next(s, op));
    case MarkAllRead => ReadBitsKeepWellFormed(s, Next(s, op));
    case ReplaceCaps(caps, force) => ReplaceCapsKeepsWellFormed(s, caps, force);
    case _ =>
  }

  // ---------- runs ----------

  ghost function Run(s: Inbox, ops: seq<Op>): Inbox
    decreases |ops|
  {
    if ops == [] then s else Run(Next(s, ops[0]), ops[1..])
  }

  ghost predicate LegalRun(s: Inbox, ops: seq<Op>)
    decreases |ops|
  {
    ops == [] || (Legal(s, ops[0]) && LegalRun(Next(s, ops[0]), ops[1..]))
  }

  lemma {:induction false} RunKeepsWellFormed(s: Inbox, ops: seq<Op>)
    requires WellFormed(s) && LegalRun(s, ops)
    ensures WellFormed(Run(s, ops))
    decreases |ops|
  {
    if ops != [] {
      NextKeepsWellFormed(s, ops[0]);
      RunKeepsWellFormed(Next(s, ops[0]), ops[1..]);
    }
  }

  // ---------- where the messages of the next state come from ----------

  predicate Wipes(op: Op) {
    op.Wipe? || op.ResetTo?
  }

  /** Operations other than inserts only drop messages and set read bits. */
  lemma NextKeepsLetters(s: Inbox, op: Op, j: nat) returns (i: nat)
    requires !op.Commit? && j < |Next(s, op).mail|
    ensures i < |s.mail| && s.mail[i].(read := false) == Next(s, op).mail[j].(read := false)
    ensures s.mail[i].id == Next(s, op).mail[j].id && s.mail[i].envelope == Next(s, op).mail[j].envelope
    ensures s.mail[i].raw == Next(s, op).mail[j].raw
    ensures !Wipes(op) && Next(s, op).epoch == s.epoch
  {
    hide Resident, Total, Excess, IndexOf, Holds, CanAccept, Placed;
    match op
    case Delete(id) =>
      var d := IndexOf(s.mail, id);
      i := if d < |s.mail| && d <= j then j + 1 else j;
    case ReplaceCaps(caps, force) =>
      ExcessIsLeast(s.mail, caps.maxMessages, caps.maxBytes);
      i := if OverNewCap(s, caps, force) then j else j + Excess(s.mail, caps.maxMessages, caps.maxBytes);
    case _ => i := j;
  }

  lemma AcceptAddsOne(s: Inbox, m: Message, j: nat) returns (i: nat)
    requires CanAccept(s.caps, s.mail, Resident(m)) && j < |Accept(s, m).mail|
    ensures Accept(s, m).mail[j] == m || (i < |s.mail| && Accept(s, m).mail[j] == s.mail[i])
  {
    var k := EvictFor(s, Resident(m));
    EvictForIsShortestPrefix(s, Resident(m));
    var p := Position(s.mail[k..], m);
    i := if j < p then k + j else if j > p then k + j - 1 else 0;
  }

  lemma NextMovesEpoch(s: Inbox, op: Op)
    requires !op.Commit?
    ensures Next(s, op).epoch == s.epoch + if Wipes(op) then 1 else 0
    ensures Wipes(op) ==> Next(s, op).mail == []
  {
    hide Resident, Total, Excess;
  }

  ghost predicate IdsWithin(mail: seq<Message>, first: Id, next: Id) {
    forall j :: 0 <= j < |mail| ==> first <= mail[j].id < next
  }

  lemma NextKeepsIdsWithin(s: Inbox, op: Op, first: Id, next: Id)
    requires IdsWithin(s.mail, first, next) && (op.Commit? ==> first <= op.msg.id < next)
    ensures IdsWithin(Next(s, op).mail, first, next)
  {
    hide Resident, Total, CanAccept, EvictFor, Placed, AfterReplaceCaps, AfterDelete, AfterMarkRead;
    forall j | 0 <= j < |Next(s, op).mail|
      ensures first <= Next(s, op).mail[j].id < next
    {
      if !op.Commit? {
        var i := NextKeepsLetters(s, op, j);
      } else if CommitError(s, op.epoch, op.msg).None? {
        var i := AcceptAddsOne(s, op.msg, j);
      }
    }
  }

  lemma RunOne(s: Inbox, op: Op)
    ensures Run(s, [op]) == Next(s, op) && (LegalRun(s, [op]) <==> Legal(s, op))
  {
    assert [op][1..] == [];
    assert Run(Next(s, op), []) == Next(s, op);
    assert LegalRun(Next(s, op), []);
  }

  lemma {:induction false} RunConcat(s: Inbox, a: seq<Op>, b: seq<Op>)
    ensures Run(s, a + b) == Run(Run(s, a), b)
    ensures LegalRun(s, a + b) <==> LegalRun(s, a) && LegalRun(Run(s, a), b)
    decreases |a|
  {
    hide Next, Legal;
    if a == [] {
      assert a + b == b;
    } else {
      assert (a + b)[0] == a[0] && (a + b)[1..] == a[1..] + b;
      RunConcat(Next(s, a[0]), a[1..], b);
    }
  }

  /** The generation never falls, and it stands still only while order and membership do. */
  lemma NextMovesGeneration(s: Inbox, op: Op)
    ensures s.generation <= Next(s, op).generation
    ensures s.generation == Next(s, op).generation ==> SameMail(s.mail, Next(s, op).mail)
  {
    match op
    case ReplaceCaps(caps, force) =>
      if !OverNewCap(s, caps, force) {
        ExcessIsLeast(s.mail, caps.maxMessages, caps.maxBytes);
        assert s.mail[0..] == s.mail;
      }
    case _ =>
  }

  /** Two states of one run with the same generation hold the same mail in the same order. */
  lemma {:induction false} EqualGenerationEqualMail(s: Inbox, ops: seq<Op>)
    ensures s.generation <= Run(s, ops).generation
    ensures s.generation == Run(s, ops).generation ==> SameMail(s.mail, Run(s, ops).mail)
    decreases |ops|
  {
    if ops != [] {
      var t := Next(s, ops[0]);
      NextMovesGeneration(s, ops[0]);
      EqualGenerationEqualMail(t, ops[1..]);
      if s.generation == Run(s, ops).generation {
        forall i | 0 <= i < |s.mail|
          ensures s.mail[i].(read := false) == Run(s, ops).mail[i].(read := false)
        {
          assert s.mail[i].(read := false) == t.mail[i].(read := false);
        }
      }
    }
  }
}
