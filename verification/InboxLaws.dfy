/** What each operation does to the inbox, message by message, said without the operations' own definitions. */
module InboxLaws {
  import opened Prelude
  import opened InboxSpec

  // ---------- what a message weighs ----------

  function Concat(parts: seq<Attachment>): Bytes {
    if parts == [] then [] else parts[0].data + Concat(parts[1..])
  }

  /** All the bytes a message holds. */
  function Contents(m: Message): Bytes {
    m.raw + m.text + m.html + Concat(m.attachments)
  }

  /** Nothing claims a size without the bytes. */
  predicate Whole(m: Message) {
    (m.raw == [] ==> m.size == 0) && forall i :: 0 <= i < |m.attachments| ==> WholePart(m.attachments[i])
  }

  predicate WholePart(a: Attachment) {
    a.data == [] ==> a.size == 0
  }

  /** What is left of a message in memory once its parts are on disk, with their sizes. */
  predicate StubOf(stub: Message, m: Message) {
    stub.text == m.text && stub.html == m.html && |stub.attachments| == |m.attachments| &&
    (stub.raw == m.raw || (stub.raw == [] && stub.size == |m.raw|)) && (m.raw == [] ==> stub.size == m.size) &&
    forall i :: 0 <= i < |m.attachments| ==> StubPart(stub.attachments[i], m.attachments[i])
  }

  predicate StubPart(stub: Attachment, a: Attachment) {
    stub == a || (stub.data == [] && stub.size == |a.data| && a.data != [])
  }

  lemma {:induction false} PartsWeighTheirBytes(parts: seq<Attachment>)
    requires forall i :: 0 <= i < |parts| ==> WholePart(parts[i])
    ensures AttachmentBytes(parts) == |Concat(parts)|
  {
    if parts != [] {
      PartsWeighTheirBytes(parts[1..]);
    }
  }

  /** A message in memory weighs as many bytes as it holds. */
  lemma ResidentCountsContents(m: Message)
    requires Whole(m)
    ensures Resident(m) == |Contents(m)|
  {
    PartsWeighTheirBytes(m.attachments);
  }

  lemma {:induction false} StubPartsWeighTheSame(stubs: seq<Attachment>, parts: seq<Attachment>)
    requires |stubs| == |parts| && forall i :: 0 <= i < |parts| ==> StubPart(stubs[i], parts[i])
    ensures AttachmentBytes(stubs) == AttachmentBytes(parts)
  {
    if parts != [] {
      assert StubPart(stubs[0], parts[0]);
      StubPartsWeighTheSame(stubs[1..], parts[1..]);
    }
  }

  /** Moving parts to disk does not make a message lighter: the byte cap counts them wherever they are. */
  lemma SpillingKeepsWeight(stub: Message, m: Message)
    requires StubOf(stub, m)
    ensures Resident(stub) == Resident(m)
  {
    StubPartsWeighTheSame(stub.attachments, m.attachments);
  }

  // ---------- order ----------

  /** The oldest arrival comes first; messages of one moment come in the order of their ids. */
  lemma OldestFirst(s: Inbox, i: nat, j: nat)
    requires WellFormed(s) && i < j < |s.mail|
    ensures s.mail[i].receivedAt <= s.mail[j].receivedAt
    ensures s.mail[i].receivedAt == s.mail[j].receivedAt ==> s.mail[i].id < s.mail[j].id
  {
    assert Older(s.mail[i], s.mail[j]);
  }

  // ---------- operations ----------

  /** `b` is `a` without the message of this id: nothing else is gone, changed or moved. */
  ghost predicate TakesOut(a: seq<Message>, id: Id, b: seq<Message>) {
    Absent(b, id) &&
    (b == a || exists i :: 0 <= i < |a| && a[i].id == id && b == a[..i] + a[i + 1..])
  }

  lemma DeleteTakesOutTheNamed(s: Inbox, id: Id)
    requires DistinctIds(s.mail)
    ensures var t := Next(s, Op.Delete(id));
            TakesOut(s.mail, id, t.mail) &&
            t == s.(mail := t.mail, generation := s.generation + if Absent(s.mail, id) then 0 else 1)
  {
    var t, i := Next(s, Op.Delete(id)), IndexOf(s.mail, id);
    if i < |s.mail| {
      forall j | 0 <= j < |t.mail|
        ensures t.mail[j].id != id
      {
        assert t.mail[j] == s.mail[if j < i then j else j + 1];
      }
    }
  }

  lemma MemberAround(a: seq<Message>, i: nat, m: Message)
    requires i < |a|
    ensures m in a <==> m in a[..i] + a[i + 1..] || m == a[i]
  {
    SplitAround(a, i);
    assert m in a[..i] + [a[i]] + a[i + 1..] <==> m in a[..i] || m == a[i] || m in a[i + 1..];
  }

  /** So every message of another id is still there, in the old order. */
  lemma TakesOutKeepsOthers(a: seq<Message>, id: Id, b: seq<Message>, m: Message)
    requires TakesOut(a, id, b)
    ensures m in b <==> m in a && m.id != id
    ensures Sorted(a) && DistinctIds(a) ==> Sorted(b)
  {
    hide Sorted, DistinctIds;
    if b != a {
      var i :| 0 <= i < |a| && a[i].id == id && b == a[..i] + a[i + 1..];
      MemberAround(a, i, m);
      if Sorted(a) && DistinctIds(a) {
        RemovedKeepsOrder(a, i);
      }
    }
  }

  lemma MarkReadSetsTheNamedBit(s: Inbox, id: Id)
    requires DistinctIds(s.mail)
    ensures var t := Next(s, Op.MarkRead(id));
            t == s.(mail := t.mail) && |t.mail| == |s.mail| &&
            forall i :: 0 <= i < |s.mail| ==>
              t.mail[i] == if s.mail[i].id == id then s.mail[i].(read := true) else s.mail[i]
  {
  }

  lemma MarkAllReadSetsEveryBit(s: Inbox)
    ensures var t := Next(s, Op.MarkAllRead);
            t == s.(mail := t.mail) && |t.mail| == |s.mail| &&
            forall i :: 0 <= i < |s.mail| ==> t.mail[i] == s.mail[i].(read := true)
  {
  }

  /** The unread count counts the messages whose bit is not set. */
  lemma {:induction false} UnreadIsCounted(mail: seq<Message>)
    ensures CountUnread(mail) == |set i | 0 <= i < |mail| && !mail[i].read|
  {
    var here := set i | 0 <= i < |mail| && !mail[i].read;
    if mail == [] {
      assert here == {};
    } else {
      var n := |mail| - 1;
      var front := mail[..n];
      UnreadIsCounted(front);
      var below := set i | 0 <= i < |front| && !front[i].read;
      assert here == below + if mail[n].read then {} else {n};
    }
  }

  /** Three ways to empty the inbox, told apart by their counters. */
  lemma EmptyingCounts(s: Inbox, caps: Caps)
    ensures Next(s, Op.DeleteAll) == Inbox(s.caps, s.epoch, s.generation + |s.mail|, s.evictions, [])
    ensures Next(s, Op.Wipe) == Inbox(s.caps, s.epoch + 1, s.generation + 1, s.evictions, [])
    ensures Next(s, Op.ResetTo(caps)) == Inbox(caps, s.epoch + 1, s.generation + 1, s.evictions, [])
  {
  }

  /** The limits as the caps state them. */
  predicate Fits(caps: Caps, mail: seq<Message>) {
    |mail| <= caps.maxMessages && Total(mail) <= caps.maxBytes
  }

  /** `kept` messages from the new end, as many as the caps allow. */
  ghost predicate NewestThatFit(caps: Caps, mail: seq<Message>, kept: seq<Message>) {
    |kept| <= |mail| && kept == mail[|mail| - |kept|..] && Fits(caps, kept) &&
    forall k :: 0 <= k < |mail| - |kept| ==> !Fits(caps, mail[k..])
  }

  /** New caps that the inbox exceeds need force or evict_oldest; then the newest messages that fit stay. */
  lemma ReplaceCapsKeepsTheNewest(s: Inbox, caps: Caps, force: bool)
    requires Positive(caps)
    ensures var t := Next(s, Op.ReplaceCaps(caps, force));
            if !Fits(caps, s.mail) && !force && !caps.evictOldest then t == s
            else
              var gone := |s.mail| - |t.mail|;
              NewestThatFit(caps, s.mail, t.mail) &&
              t == Inbox(caps, s.epoch, s.generation + gone, s.evictions + gone, t.mail)
  {
    ExcessIsLeast(s.mail, caps.maxMessages, caps.maxBytes);
    var t := Next(s, Op.ReplaceCaps(caps, force));
    if Fits(caps, s.mail) || force || caps.evictOldest {
      forall k | 0 <= k < |s.mail| - |t.mail|
        ensures !Fits(caps, s.mail[k..])
      {
        assert !Holds(s.mail[k..], caps.maxMessages, caps.maxBytes);
      }
    }
  }

  /** Whether an insertion may evict others to make room, the message itself has to fit. */
  predicate HasRoom(s: Inbox, m: Message) {
    if s.caps.evictOldest then Resident(m) <= s.caps.maxBytes
    else |s.mail| < s.caps.maxMessages && Total(s.mail) + Resident(m) <= s.caps.maxBytes
  }

  /** An insertion of another epoch changes nothing, nor does one without room; which of the two is said first. */
  lemma CommitRefusals(s: Inbox, epoch: nat, m: Message)
    requires WellFormed(s)
    ensures CommitError(s, epoch, m) ==
            if epoch != s.epoch then Some(StaleEpoch) else if HasRoom(s, m) then None else Some(Full)
    ensures CommitError(s, epoch, m).Some? ==> Next(s, Op.Commit(epoch, m)) == s
  {
    if s.caps.evictOldest {
      EvictOldestRefusesOnlyOversize(s.caps, s.mail, Resident(m));
    }
  }

  predicate Overfull(caps: Caps, mail: seq<Message>, m: Message) {
    |mail| + 1 > caps.maxMessages || Total(mail) + Resident(m) > caps.maxBytes
  }

  /** Dropping the `gone` oldest messages makes room for the new one and dropping fewer does not; reject drops none. */
  ghost predicate MakesRoom(caps: Caps, mail: seq<Message>, m: Message, gone: int) {
    0 <= gone <= |mail| && !Overfull(caps, mail[gone..], m) && (gone > 0 ==> caps.evictOldest) &&
    forall k :: 0 <= k < gone ==> Overfull(caps, mail[k..], m)
  }

  lemma EvictionMakesRoom(s: Inbox, m: Message)
    requires CanAccept(s.caps, s.mail, Resident(m))
    ensures MakesRoom(s.caps, s.mail, m, EvictFor(s, Resident(m)))
  {
    hide Total, Resident;
    EvictForIsShortestPrefix(s, Resident(m));
  }

  lemma AcceptPlaces(s: Inbox, m: Message)
    requires WellFormed(s) && Absent(s.mail, m.id) && CanAccept(s.caps, s.mail, Resident(m))
    ensures var t, k := Accept(s, m), EvictFor(s, Resident(m));
            k <= |s.mail| && |t.mail| == |s.mail| - k + 1 && Sorted(t.mail) &&
            multiset(t.mail) == multiset(s.mail[k..]) + multiset{m} &&
            t == s.(mail := t.mail, generation := s.generation + k + 1, evictions := s.evictions + k)
  {
    AcceptKeepsWellFormed(s, m);
    hide Total, CanAccept, Resident, Sorted, DistinctIds, EvictFor;
    EvictForIsShortestPrefix(s, Resident(m));
    PlacedAddsOne(s.mail[EvictFor(s, Resident(m))..], m);
  }

  /** An accepted message joins the newest messages that leave room for it, at its place by arrival. */
  lemma CommitAdds(s: Inbox, epoch: nat, m: Message)
    requires WellFormed(s) && Absent(s.mail, m.id) && CommitError(s, epoch, m).None?
    ensures var t := Next(s, Op.Commit(epoch, m));
            var gone := |s.mail| + 1 - |t.mail|;
            MakesRoom(s.caps, s.mail, m, gone) && Sorted(t.mail) &&
            multiset(t.mail) == multiset(s.mail[gone..]) + multiset{m} &&
            t == s.(mail := t.mail, generation := s.generation + gone + 1, evictions := s.evictions + gone)
  {
    hide CanAccept, Resident, Accept, EvictFor, WellFormed, MakesRoom, Sorted;
    EvictionMakesRoom(s, m);
    AcceptPlaces(s, m);
  }
}
