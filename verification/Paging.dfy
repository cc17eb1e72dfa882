/**
 * List pages and cursor walks over a run of the inbox. A REST cursor is (id, generation);
 * the handler refuses it when the page it reads is at another generation.
 */
module Paging {
  import opened Prelude
  import opened InboxSpec
  import opened Text

  const DEFAULT_LIST_LIMIT := 50
  const MAX_LIST_LIMIT := 200

  /** Nanoseconds from Go's zero time to the Unix epoch. */
  const UNIX_EPOCH: nat := 62135596800 * 1000000000

  datatype Filter = Filter(
    to: string, from: string, subject: string, subjectContains: string,
    unread: Option<bool>, after: Time, before: Time)

  /** `Native` is an id the store handed out; `Foreign` is text that is not a ULID. */
  datatype Cursor = Start | Native(id: Id) | Foreign(text: string)

  datatype Page = Page(items: seq<Message>, next: Option<Id>)

  // ---------- filters ----------

  predicate ContainsFold(hay: string, needle: string) {
    exists i :: 0 <= i <= |hay| && Lower(needle) <= Lower(hay)[i..]
  }

  predicate HasAddress(envelope: seq<string>, headers: seq<string>, want: string) {
    var w := Lower(Trim(want));
    w == "" || (exists a :: a in envelope && Lower(Trim(a)) == w) || (exists a :: a in headers && Lower(a) == w)
  }

  predicate Matches(m: Message, f: Filter) {
    (f.subject != "" ==> m.subject == f.subject) &&
    (f.subjectContains != "" ==> ContainsFold(m.subject, f.subjectContains)) &&
    (f.to != "" ==> HasAddress(m.envelope.to, m.to, f.to)) &&
    (f.from != "" ==> HasAddress(if m.envelope.from == "" then [] else [m.envelope.from], m.from, f.from)) &&
    (f.unread.Some? ==> m.read != f.unread.value) &&
    (f.after != 0 ==> m.receivedAt > f.after) &&
    (f.before != 0 ==> m.receivedAt < f.before)
  }

  // ---------- one page ----------

  function EffectiveLimit(limit: int): (n: nat)
    ensures 0 < n <= MAX_LIST_LIMIT
  {
    if limit <= 0 then DEFAULT_LIST_LIMIT else if limit > MAX_LIST_LIMIT then MAX_LIST_LIMIT else limit
  }

  /** The millisecond stamp in the top 48 bits of a ULID. */
  function UlidTime(id: Id): Time {
    UNIX_EPOCH + (id / 0x1_0000_0000_0000_0000_0000) * 1000000
  }

  /** Whether the scan skips `m` on its way to a cursor that is no longer in the inbox. */
  predicate NewerThanCursor(m: Message, cur: Cursor) {
    match cur
    case Start => false
    case Native(id) => m.receivedAt > UlidTime(id) || (m.receivedAt == UlidTime(id) && m.id > id)
    case Foreign(_) => true  // compared with the zero time, which every stored message is after
  }

  /** Messages from the old end up to the newest one the cursor does not skip. */
  function ResumeBelow(mail: seq<Message>, cur: Cursor): (n: nat)
    ensures n <= |mail|
  {
    if mail == [] || !NewerThanCursor(mail[|mail| - 1], cur) then |mail|
    else ResumeBelow(mail[..|mail| - 1], cur)
  }

  /** The page is cut from `mail[..Below(mail, cur)]`. */
  function Below(mail: seq<Message>, cur: Cursor): (n: nat)
    ensures n <= |mail|
  {
    if cur.Native? && IndexOf(mail, cur.id) < |mail| then IndexOf(mail, cur.id)
    else ResumeBelow(mail, cur)
  }

  function NewestFirst(mail: seq<Message>, f: Filter): seq<Message> {
    if mail == [] then []
    else
      var last := mail[|mail| - 1];
      (if Matches(last, f) then [last] else []) + NewestFirst(mail[..|mail| - 1], f)
  }

  function Cut(rest: seq<Message>, limit: int): Page {
    var n := EffectiveLimit(limit);
    if |rest| <= n then Page(rest, None) else Page(rest[..n], Some(rest[n - 1].id))
  }

  function PageOf(mail: seq<Message>, f: Filter, cur: Cursor, limit: int): Page {
    Cut(NewestFirst(mail[..Below(mail, cur)], f), limit)
  }

  // ---------- what a listing is ----------

  /** The listing holds exactly the matching messages, newest first. */
  lemma {:induction false} NewestFirstIsExact(mail: seq<Message>, f: Filter)
    requires Sorted(mail)
    ensures forall m :: m in NewestFirst(mail, f) <==> m in mail && Matches(m, f)
    ensures forall i, j :: 0 <= i < j < |NewestFirst(mail, f)| ==>
              Older(NewestFirst(mail, f)[j], NewestFirst(mail, f)[i])
    ensures |NewestFirst(mail, f)| <= |mail|
  {
    if mail != [] {
      var front, last := mail[..|mail| - 1], mail[|mail| - 1];
      NewestFirstIsExact(front, f);
      assert mail == front + [last];
      assert forall m :: m in front ==> Older(m, last);
    }
  }

  /** Where the j-th listed message sits, the rest of the listing is the listing of what is below it. */
  lemma {:induction false} ListingBelow(mail: seq<Message>, f: Filter, j: nat) returns (i: nat)
    requires j < |NewestFirst(mail, f)|
    ensures i < |mail| && mail[i] == NewestFirst(mail, f)[j]
    ensures NewestFirst(mail[..i], f) == NewestFirst(mail, f)[j + 1..]
  {
    hide Matches;
    var front, last := mail[..|mail| - 1], mail[|mail| - 1];
    if Matches(last, f) && j == 0 {
      i := |mail| - 1;
    } else {
      var d := if Matches(last, f) then 1 else 0;
      i := ListingBelow(front, f, j - d);
      assert front[..i] == mail[..i];
      assert NewestFirst(mail, f)[j + 1..] == NewestFirst(front, f)[j - d + 1..];
    }
  }

  lemma IndexOfUnique(mail: seq<Message>, i: nat)
    requires i < |mail| && DistinctIds(mail)
    ensures IndexOf(mail, mail[i].id) == i
  {
  }

  /** A page and the listing its own cursor leads to make up the whole. */
  lemma PageThenRest(mail: seq<Message>, f: Filter, n: nat, limit: int)
    requires n <= |mail| && DistinctIds(mail)
    ensures var whole := NewestFirst(mail[..n], f);
            var page := Cut(whole, limit);
            (page.next.None? ==> page.items == whole) &&
            (page.next.Some? ==>
               |page.items| == EffectiveLimit(limit) &&
               IndexOf(mail, page.next.value) < |mail| &&
               Below(mail, Native(page.next.value)) == IndexOf(mail, page.next.value) &&
               whole == page.items + NewestFirst(mail[..IndexOf(mail, page.next.value)], f))
  {
    var whole := NewestFirst(mail[..n], f);
    var lim := EffectiveLimit(limit);
    if |whole| > lim {
      var i := ListingBelow(mail[..n], f, lim - 1);
      assert mail[..n][i] == mail[i];
      IndexOfUnique(mail, i);
      assert mail[..n][..i] == mail[..i];
      assert whole == whole[..lim] + whole[lim..];
    }
  }

  // ---------- read bits ----------

  lemma {:induction false} ListingIgnoresReadBits(a: seq<Message>, b: seq<Message>, f: Filter)
    requires SameMail(a, b) && f.unread.None?
    ensures SameMail(NewestFirst(a, f), NewestFirst(b, f))
  {
    if a != [] {
      var n := |a| - 1;
      assert a[n].(read := false) == b[n].(read := false);
      assert Matches(a[n], f) == Matches(b[n], f);
      SameMailPrefix(a, b, n);
      ListingIgnoresReadBits(a[..n], b[..n], f);
    }
  }

  lemma SameMailPrefix(a: seq<Message>, b: seq<Message>, n: nat)
    requires SameMail(a, b) && n <= |a|
    ensures SameMail(a[..n], b[..n])
  {
    forall i | 0 <= i < n
      ensures a[..n][i].(read := false) == b[..n][i].(read := false)
    {
      assert a[i].(read := false) == b[i].(read := false);
    }
  }

  lemma SameMailSameIndex(a: seq<Message>, b: seq<Message>, id: Id)
    requires SameMail(a, b)
    ensures IndexOf(a, id) == IndexOf(b, id)
  {
    var i, j := IndexOf(a, id), IndexOf(b, id);
    if i < |a| { assert a[i].(read := false) == b[i].(read := false); }
    if j < |b| { assert a[j].(read := false) == b[j].(read := false); }
  }

  lemma SameMailTrans(a: seq<Message>, b: seq<Message>, c: seq<Message>)
    requires SameMail(a, b) && SameMail(b, c)
    ensures SameMail(a, c)
  {
    forall i | 0 <= i < |a|
      ensures a[i].(read := false) == c[i].(read := false)
    {
      assert a[i].(read := false) == b[i].(read := false);
    }
  }

  lemma SameMailJoin(a: seq<Message>, b: seq<Message>, c: seq<Message>, d: seq<Message>)
    requires SameMail(a, b) && SameMail(c, d)
    ensures SameMail(a + c, b + d)
  {
  }

  // ---------- walks ----------

  /** Operations of other callers, then one page request. */
  datatype Request = Request(ops: seq<Op>, limit: int)

  datatype WalkResult = Complete(items: seq<Message>) | CursorStale | Unfinished

  /** A client follows cursors from `s`; `gen` is the generation in the cursor it holds. */
  ghost function Walk(s: Inbox, f: Filter, cur: Cursor, gen: Option<nat>, reqs: seq<Request>): WalkResult
    decreases |reqs|
  {
    if reqs == [] then Unfinished
    else
      var t := Run(s, reqs[0].ops);
      var page := PageOf(t.mail, f, cur, reqs[0].limit);
      if gen.Some? && gen.value != t.generation then CursorStale
      else if page.next.None? then Complete(page.items)
      else
        var rest := Walk(t, f, Native(page.next.value), Some(t.generation), reqs[1..]);
        if rest.Complete? then Complete(page.items + rest.items) else rest
  }

  ghost predicate LegalWalk(s: Inbox, reqs: seq<Request>)
    decreases |reqs|
  {
    reqs == [] || (LegalRun(s, reqs[0].ops) && LegalWalk(Run(s, reqs[0].ops), reqs[1..]))
  }

  predicate Marks(op: Op) {
    op.MarkRead? || op.MarkAllRead?
  }

  /** Nothing is marked read before any of the pages. */
  predicate MarksNothing(reqs: seq<Request>) {
    forall k :: 0 <= k < |reqs| ==> Unmarked(reqs[k].ops)
  }

  predicate Unmarked(ops: seq<Op>) {
    forall i :: 0 <= i < |ops| ==> !Marks(ops[i])
  }

  lemma NextUnmarkedKeepsMail(s: Inbox, op: Op)
    requires !Marks(op) && Next(s, op).generation == s.generation
    ensures Next(s, op).mail == s.mail
  {
    if op.ReplaceCaps? {
      ExcessIsLeast(s.mail, op.newCaps.maxMessages, op.newCaps.maxBytes);
      assert s.mail[0..] == s.mail;
    }
  }

  /** While nothing is marked read, the generation stands still only while the inbox does, read bits and all. */
  lemma {:induction false} RunUnmarkedKeepsMail(s: Inbox, ops: seq<Op>)
    requires Unmarked(ops) && Run(s, ops).generation == s.generation
    ensures Run(s, ops).mail == s.mail
    decreases |ops|
  {
    if ops != [] {
      var t := Next(s, ops[0]);
      NextMovesGeneration(s, ops[0]);
      EqualGenerationEqualMail(t, ops[1..]);
      NextUnmarkedKeepsMail(s, ops[0]);
      RunUnmarkedKeepsMail(t, ops[1..]);
    }
  }

  // ---------- read bits that change during a walk ----------

  /** Reading only ever sets bits. */
  ghost predicate ReadsGrow(a: seq<Message>, b: seq<Message>) {
    SameMail(a, b) && forall i :: 0 <= i < |a| ==> (a[i].read ==> b[i].read)
  }

  lemma NextReadsGrow(s: Inbox, op: Op)
    requires Next(s, op).generation == s.generation
    ensures ReadsGrow(s.mail, Next(s, op).mail)
  {
    NextMovesGeneration(s, op);
    if !Marks(op) {
      NextUnmarkedKeepsMail(s, op);
    }
  }

  lemma ReadsGrowTrans(a: seq<Message>, b: seq<Message>, c: seq<Message>)
    requires ReadsGrow(a, b) && ReadsGrow(b, c)
    ensures ReadsGrow(a, c)
  {
    SameMailTrans(a, b, c);
  }

  lemma {:induction false} RunReadsGrow(s: Inbox, ops: seq<Op>)
    requires Run(s, ops).generation == s.generation
    ensures ReadsGrow(s.mail, Run(s, ops).mail)
    decreases |ops|
  {
    hide ReadsGrow;
    if ops == [] {
      ReadsGrowRefl(s.mail);
    } else {
      var t := Next(s, ops[0]);
      NextMovesGeneration(s, ops[0]);
      EqualGenerationEqualMail(t, ops[1..]);
      NextReadsGrow(s, ops[0]);
      RunReadsGrow(t, ops[1..]);
      ReadsGrowTrans(s.mail, t.mail, Run(s, ops).mail);
    }
  }

  lemma ReadsGrowRefl(a: seq<Message>)
    ensures ReadsGrow(a, a)
  {
  }

  /** Nothing that the rest of the filter matches has been marked read in between. */
  ghost predicate Settled(a: seq<Message>, b: seq<Message>, f: Filter)
    requires |a| == |b|
  {
    forall j :: 0 <= j < |a| && Matches(a[j], f.(unread := None)) && b[j].read ==> a[j].read
  }

  /** How many more messages one listing has than another that sees more of them read. */
  function Lead(f: Filter, before: nat, after: nat): int {
    if f.unread == Some(true) then before - after else after - before
  }

  lemma {:induction false} ListingSize(a: seq<Message>, b: seq<Message>, f: Filter)
    requires ReadsGrow(a, b) && f.unread.Some?
    ensures Lead(f, |NewestFirst(a, f)|, |NewestFirst(b, f)|) >= 0
    ensures |NewestFirst(a, f)| == |NewestFirst(b, f)| <==> Settled(a, b, f)
    ensures Settled(a, b, f) ==> SameMail(NewestFirst(b, f), NewestFirst(a, f))
  {
    hide Matches, Settled, SameMail, ReadsGrow;
    ReadsGrowSize(a, b, f);
    if a != [] {
      var n := |a| - 1;
      ReadsGrowSnoc(a, b);
      ListingSize(a[..n], b[..n], f);
      LastMatches(a[n], b[n], f);
      SettledSnoc(a, b, f);
      PrependShown(a[n], b[n], Matches(a[n], f), Matches(b[n], f), NewestFirst(a[..n], f), NewestFirst(b[..n], f));
    }
  }

  lemma ReadsGrowSize(a: seq<Message>, b: seq<Message>, f: Filter)
    requires ReadsGrow(a, b)
    ensures |a| == |b| && (a == [] ==> SameMail(a, b) && Settled(a, b, f))
  {
  }

  lemma ReadsGrowSnoc(a: seq<Message>, b: seq<Message>)
    requires ReadsGrow(a, b) && a != []
    ensures var n := |a| - 1;
            |b| == |a| && ReadsGrow(a[..n], b[..n]) && (a[n].read ==> b[n].read) &&
            a[n].(read := false) == b[n].(read := false)
  {
  }

  lemma PrependShown(x: Message, y: Message, inA: bool, inB: bool, p: seq<Message>, q: seq<Message>)
    requires x.(read := false) == y.(read := false)
    ensures var a, b := (if inA then [x] else []) + p, (if inB then [y] else []) + q;
            |a| == |p| + (if inA then 1 else 0) && |b| == |q| + (if inB then 1 else 0) &&
            (inA == inB && SameMail(q, p) ==> SameMail(b, a))
  {
  }

  lemma LastMatches(x: Message, y: Message, f: Filter)
    requires x.(read := false) == y.(read := false) && f.unread.Some?
    ensures Matches(x, f) <==> Matches(x, f.(unread := None)) && x.read != f.unread.value
    ensures Matches(y, f) <==> Matches(x, f.(unread := None)) && y.read != f.unread.value
  {
    var z := x.(read := false);
    assert x == z.(read := x.read) && y == z.(read := y.read);
  }

  lemma SettledSnoc(a: seq<Message>, b: seq<Message>, f: Filter)
    requires |a| == |b| > 0
    ensures var n := |a| - 1;
            Settled(a, b, f) <==>
            Settled(a[..n], b[..n], f) && (Matches(a[n], f.(unread := None)) && b[n].read ==> a[n].read)
  {
  }

  /**
   * Before each further page of a walk, nothing that it still has to list was marked read: neither
   * what its earlier pages have listed nor what the rest of the filter does not match is looked at.
   */
  ghost predicate Undisturbed(s: Inbox, f: Filter, id: Id, reqs: seq<Request>)
    decreases |reqs|
  {
    reqs == [] ||
    var t := Run(s, reqs[0].ops);
    var n := IndexOf(s.mail, id);
    var page := PageOf(t.mail, f, Native(id), reqs[0].limit);
    n <= |t.mail| && Settled(s.mail[..n], t.mail[..n], f) &&
    (page.next.Some? ==> Undisturbed(t, f, page.next.value, reqs[1..]))
  }

  /** The same from the first page on, before which anything may happen. */
  ghost predicate UndisturbedWalk(s: Inbox, f: Filter, reqs: seq<Request>) {
    reqs == [] ||
    var first := Run(s, reqs[0].ops);
    var page := PageOf(first.mail, f, Start, reqs[0].limit);
    page.next.Some? ==> Undisturbed(first, f, page.next.value, reqs[1..])
  }

  lemma SameMailRefl(a: seq<Message>)
    ensures SameMail(a, a)
  {
  }

  /** What a walk from a live cursor returned, against the listing below that cursor at the cursor's state. */
  ghost predicate Faithful(items: seq<Message>, listing: seq<Message>, f: Filter, undisturbed: bool, unmarked: bool) {
    (f.unread.None? || undisturbed ==> SameMail(items, listing)) &&
    (f.unread.Some? ==> Lead(f, |listing|, |items|) >= 0 && (|items| == |listing| <==> undisturbed)) &&
    (unmarked ==> items == listing)
  }

  /** Faithful to the listing at one state, and that listing to the one at an earlier state. */
  lemma FaithfulEarlier(items: seq<Message>, now: seq<Message>, was: seq<Message>, f: Filter,
                        settled: bool, undisturbed: bool, unmarked: bool, before: bool)
    requires Faithful(items, now, f, undisturbed, unmarked) && (before ==> unmarked && now == was)
    requires f.unread.None? ==> SameMail(now, was)
    requires f.unread.Some? ==> Lead(f, |was|, |now|) >= 0 && (|was| == |now| <==> settled)
    requires f.unread.Some? && settled ==> SameMail(now, was)
    ensures Faithful(items, was, f, settled && undisturbed, before)
  {
    if f.unread.None? || (settled && undisturbed) {
      SameMailTrans(items, now, was);
    }
  }

  /**
   * From a live cursor, a walk that completes returns the listing below that cursor exactly when its
   * filter does not test the read bit or the mail it still had to list stayed undisturbed.
   */
  lemma {:induction false} WalkFromCursor(s: Inbox, f: Filter, id: Id, reqs: seq<Request>)
    requires WellFormed(s) && LegalWalk(s, reqs) && IndexOf(s.mail, id) < |s.mail|
    requires Walk(s, f, Native(id), Some(s.generation), reqs).Complete?
    ensures var items := Walk(s, f, Native(id), Some(s.generation), reqs).items;
            var listing := NewestFirst(s.mail[..IndexOf(s.mail, id)], f);
            Faithful(items, listing, f, Undisturbed(s, f, id, reqs), MarksNothing(reqs)) &&
            (SameMail(items, listing) <==> f.unread.None? || Undisturbed(s, f, id, reqs)) &&
            (MarksNothing(reqs) ==> items == listing)
    decreases |reqs|, 0
  {
    hide WellFormed, PageOf, NewestFirst, Below, IndexOf, Unmarked, ReadsGrow, Settled;
    var t := Run(s, reqs[0].ops);
    EqualGenerationEqualMail(s, reqs[0].ops);
    RunKeepsWellFormed(s, reqs[0].ops);
    RunReadsGrow(s, reqs[0].ops);
    var n := IndexOf(s.mail, id);
    SameMailSameIndex(s.mail, t.mail, id);
    CursorBelow(t.mail, id);
    PageFromState(t, f, n, reqs[0].limit, Native(id), reqs[1..]);
    ListingsCompare(s.mail, t.mail, f, n);
    if MarksNothing(reqs) {
      RunUnmarkedKeepsMail(s, reqs[0].ops);
    }
    var page := PageOf(t.mail, f, Native(id), reqs[0].limit);
    var items := Walk(s, f, Native(id), Some(s.generation), reqs).items;
    FaithfulEarlier(items, NewestFirst(t.mail[..n], f), NewestFirst(s.mail[..n], f), f,
                    Settled(s.mail[..n], t.mail[..n], f),
                    page.next.None? || Undisturbed(t, f, page.next.value, reqs[1..]),
                    page.next.None? || MarksNothing(reqs[1..]), MarksNothing(reqs));
  }

  lemma ListingsCompare(a: seq<Message>, b: seq<Message>, f: Filter, n: nat)
    requires ReadsGrow(a, b) && n <= |a|
    ensures |b| == |a|
    ensures f.unread.None? ==> SameMail(NewestFirst(b[..n], f), NewestFirst(a[..n], f))
    ensures f.unread.Some? ==>
              Lead(f, |NewestFirst(a[..n], f)|, |NewestFirst(b[..n], f)|) >= 0 &&
              (|NewestFirst(a[..n], f)| == |NewestFirst(b[..n], f)| <==> Settled(a[..n], b[..n], f)) &&
              (Settled(a[..n], b[..n], f) ==> SameMail(NewestFirst(b[..n], f), NewestFirst(a[..n], f)))
  {
    SameMailPrefix(a, b, n);
    hide NewestFirst;
    if f.unread.None? {
      ListingIgnoresReadBits(a[..n], b[..n], f);
      SameMailSym(NewestFirst(a[..n], f), NewestFirst(b[..n], f));
    } else {
      ListingSize(a[..n], b[..n], f);
    }
  }

  lemma CursorBelow(mail: seq<Message>, id: Id)
    requires IndexOf(mail, id) < |mail|
    ensures Below(mail, Native(id)) == IndexOf(mail, id)
  {
  }

  lemma SameMailSym(a: seq<Message>, b: seq<Message>)
    requires SameMail(a, b)
    ensures SameMail(b, a)
  {
    forall i | 0 <= i < |a|
      ensures b[i].(read := false) == a[i].(read := false)
    {
      assert a[i].(read := false) == b[i].(read := false);
    }
  }

  /** One page read at `t`, and the walk that continues from its cursor. */
  lemma {:induction false} PageFromState(t: Inbox, f: Filter, n: nat, limit: int, cur: Cursor, reqs: seq<Request>)
    requires WellFormed(t) && LegalWalk(t, reqs)
    requires n <= |t.mail| && Below(t.mail, cur) == n
    ensures var page := PageOf(t.mail, f, cur, limit);
            var listing := NewestFirst(t.mail[..n], f);
            (page.next.None? ==> Faithful(page.items, listing, f, true, true)) &&
            (page.next.Some? ==>
               var rest := Walk(t, f, Native(page.next.value), Some(t.generation), reqs);
               rest.Complete? ==>
                 Faithful(page.items + rest.items, listing, f, Undisturbed(t, f, page.next.value, reqs),
                          MarksNothing(reqs)))
    decreases |reqs|, 1
  {
    var page := PageOf(t.mail, f, cur, limit);
    PageThenRest(t.mail, f, n, limit);
    SameMailRefl(page.items);
    hide NewestFirst, Unmarked, IndexOf, Undisturbed;
    if page.next.Some? {
      var rest := Walk(t, f, Native(page.next.value), Some(t.generation), reqs);
      if rest.Complete? {
        WalkFromCursor(t, f, page.next.value, reqs);
        var below := NewestFirst(t.mail[..IndexOf(t.mail, page.next.value)], f);
        if SameMail(rest.items, below) {
          SameMailJoin(page.items, page.items, rest.items, below);
        }
      }
    }
  }

  /**
   * Every walk that completes returns, newest first and with no gap or repeat, exactly the messages
   * that match at the state its first page was read, whatever other callers did between pages, if and
   * only if its filter does not test the read bit or what it still had to list stayed undisturbed; and
   * it returns them to the last bit when nothing was marked read.
   */
  lemma CursorWalkIsExact(s: Inbox, f: Filter, reqs: seq<Request>)
    requires WellFormed(s) && LegalWalk(s, reqs) && Walk(s, f, Start, None, reqs).Complete?
    ensures var first := Run(s, reqs[0].ops);
            var items := Walk(s, f, Start, None, reqs).items;
            Sorted(first.mail) &&
            (SameMail(items, NewestFirst(first.mail, f)) <==> f.unread.None? || UndisturbedWalk(s, f, reqs)) &&
            (MarksNothing(reqs[1..]) ==> items == NewestFirst(first.mail, f))
  {
    var first := Run(s, reqs[0].ops);
    RunKeepsWellFormed(s, reqs[0].ops);
    assert first.mail[..|first.mail|] == first.mail;
    assert first.mail == [] || !NewerThanCursor(first.mail[|first.mail| - 1], Start);
    PageFromState(first, f, |first.mail|, reqs[0].limit, Start, reqs[1..]);
  }

  // ---------- filters that test the read bit ----------

  /** Newest first, and each item is one of `mail` up to its read bit. */
  ghost predicate DescendsIn(items: seq<Message>, mail: seq<Message>) {
    (forall i, j :: 0 <= i < j < |items| ==> Older(items[j], items[i])) &&
    (forall k :: 0 <= k < |items| ==> Listed(items[k], mail))
  }

  ghost predicate Listed(m: Message, mail: seq<Message>) {
    exists i :: 0 <= i < |mail| && mail[i].(read := false) == m.(read := false)
  }

  lemma ListingDescends(mail: seq<Message>, f: Filter)
    requires Sorted(mail)
    ensures DescendsIn(NewestFirst(mail, f), mail)
  {
    NewestFirstIsExact(mail, f);
    forall k | 0 <= k < |NewestFirst(mail, f)|
      ensures Listed(NewestFirst(mail, f)[k], mail)
    {
      assert NewestFirst(mail, f)[k] in mail;
    }
  }

  lemma DescendsInSame(items: seq<Message>, a: seq<Message>, b: seq<Message>)
    requires DescendsIn(items, a) && SameMail(a, b)
    ensures DescendsIn(items, b)
  {
    forall k | 0 <= k < |items|
      ensures Listed(items[k], b)
    {
      assert Listed(items[k], a);
      var i :| 0 <= i < |a| && a[i].(read := false) == items[k].(read := false);
      assert b[i].(read := false) == items[k].(read := false);
    }
  }

  /** A page cut at `mail[i]` followed by items from below `mail[i]` still descends. */
  lemma DescendsJoin(page: seq<Message>, rest: seq<Message>, mail: seq<Message>, i: nat, n: nat)
    requires i < n <= |mail| && Sorted(mail)
    requires page != [] && page[|page| - 1] == mail[i]
    requires DescendsIn(page, mail[..n]) && DescendsIn(rest, mail[..i])
    ensures DescendsIn(page + rest, mail[..n])
  {
    forall k | 0 <= k < |rest|
      ensures Listed(rest[k], mail[..n]) && Older(rest[k], mail[i])
    {
      var x :| 0 <= x < i && mail[..i][x].(read := false) == rest[k].(read := false);
      assert mail[..n][x] == mail[x];
      assert Older(mail[x], mail[i]);
    }
    forall a, b | 0 <= a < b < |page + rest|
      ensures Older((page + rest)[b], (page + rest)[a])
    {
      if a < |page| <= b {
        assert Older(rest[b - |page|], page[|page| - 1]);
        assert a < |page| - 1 ==> Older(page[|page| - 1], page[a]);
      }
    }
  }

  lemma DescendsPrefix(items: seq<Message>, mail: seq<Message>, k: nat)
    requires DescendsIn(items, mail) && k <= |items|
    ensures DescendsIn(items[..k], mail)
  {
  }

  /** A page with a successor ends at the message its cursor names. */
  lemma PageDescends(t: Inbox, f: Filter, n: nat, limit: int) returns (i: nat)
    requires WellFormed(t) && n <= |t.mail|
    ensures var page := Cut(NewestFirst(t.mail[..n], f), limit);
            DescendsIn(page.items, t.mail[..n]) &&
            (page.next.Some? ==>
               i < n && page.items != [] && page.items[|page.items| - 1] == t.mail[i] &&
               page.next.value == t.mail[i].id && IndexOf(t.mail, t.mail[i].id) == i)
  {
    var listing := NewestFirst(t.mail[..n], f);
    var lim := EffectiveLimit(limit);
    assert DescendsIn(listing, t.mail[..n]) by { ListingDescends(t.mail[..n], f); }
    i := 0;
    if |listing| > lim {
      i := ListingBelow(t.mail[..n], f, lim - 1);
      assert t.mail[..n][i] == t.mail[i];
      IndexOfUnique(t.mail, i);
      DescendsPrefix(listing, t.mail[..n], lim);
    }
  }

  /** From a live cursor at `t.mail[i]`, what a completed walk returns lies below it and descends. */
  lemma {:induction false} WalkBelowDescends(t: Inbox, f: Filter, i: nat, reqs: seq<Request>)
    requires WellFormed(t) && LegalWalk(t, reqs) && i < |t.mail|
    requires Walk(t, f, Native(t.mail[i].id), Some(t.generation), reqs).Complete?
    ensures DescendsIn(Walk(t, f, Native(t.mail[i].id), Some(t.generation), reqs).items, t.mail[..i])
    decreases |reqs|, 0
  {
    var id := t.mail[i].id;
    var u := Run(t, reqs[0].ops);
    EqualGenerationEqualMail(t, reqs[0].ops);
    RunKeepsWellFormed(t, reqs[0].ops);
    IndexOfUnique(t.mail, i);
    SameMailSameIndex(t.mail, u.mail, id);
    WalkDescends(u, f, i, reqs[0].limit, Native(id), reqs[1..]);
    SameMailPrefix(t.mail, u.mail, i);
    SameMailSym(t.mail[..i], u.mail[..i]);
    DescendsInSame(Walk(t, f, Native(id), Some(t.generation), reqs).items, u.mail[..i], t.mail[..i]);
  }

  lemma {:induction false} WalkDescends(t: Inbox, f: Filter, n: nat, limit: int, cur: Cursor, reqs: seq<Request>)
    requires WellFormed(t) && LegalWalk(t, reqs)
    requires n <= |t.mail| && Below(t.mail, cur) == n
    ensures var page := PageOf(t.mail, f, cur, limit);
            (page.next.None? ==> DescendsIn(page.items, t.mail[..n])) &&
            (page.next.Some? ==>
               var rest := Walk(t, f, Native(page.next.value), Some(t.generation), reqs);
               rest.Complete? ==> DescendsIn(page.items + rest.items, t.mail[..n]))
    decreases |reqs|, 1
  {
    var page := PageOf(t.mail, f, cur, limit);
    var i := PageDescends(t, f, n, limit);
    if page.next.Some? {
      var rest := Walk(t, f, Native(page.next.value), Some(t.generation), reqs);
      if rest.Complete? {
        WalkBelowDescends(t, f, i, reqs);
        DescendsJoin(page.items, rest.items, t.mail, i, n);
      }
    }
  }

  /** Whatever the filter tests, a walk that completes never repeats a message and never leaves the order. */
  lemma CursorWalkNeverRepeats(s: Inbox, f: Filter, reqs: seq<Request>)
    requires WellFormed(s) && LegalWalk(s, reqs)
    requires Walk(s, f, Start, None, reqs).Complete?
    ensures DescendsIn(Walk(s, f, Start, None, reqs).items, Run(s, reqs[0].ops).mail)
  {
    var first := Run(s, reqs[0].ops);
    RunKeepsWellFormed(s, reqs[0].ops);
    assert first.mail[..|first.mail|] == first.mail;
    assert first.mail == [] || !NewerThanCursor(first.mail[|first.mail| - 1], Start);
    WalkDescends(first, f, |first.mail|, reqs[0].limit, Start, reqs[1..]);
  }

  function Plain(id: Id): Message {
    Message(id, id, Envelope("", [], ""), "", [], [], [], [], [], 0, false, [])
  }

  const UNREAD_ONLY := Filter("", "", "", "", Some(true), 0, 0)

  /**
   * A disturbed walk: marking mail read moves no generation, so a walk over unread mail can mix two
   * states and equal the listing of neither.
   */
  lemma UnreadWalkMixesStates()
    ensures var s := Inbox(Caps(10, 10, false), 1, 3, 0, [Plain(1), Plain(2), Plain(3)]);
            var reqs := [Request([], 1), Request([MarkRead(3), MarkRead(1)], 1)];
            WellFormed(s) && LegalWalk(s, reqs) &&
            Walk(s, UNREAD_ONLY, Start, None, reqs) == Complete([Plain(3), Plain(2)]) &&
            NewestFirst(s.mail, UNREAD_ONLY) == [Plain(3), Plain(2), Plain(1)] &&
            NewestFirst(Run(s, [MarkRead(3)]).mail, UNREAD_ONLY) == [Plain(2), Plain(1)] &&
            NewestFirst(Run(s, [MarkRead(3), MarkRead(1)]).mail, UNREAD_ONLY) == [Plain(2)]
  {
    var s := Inbox(Caps(10, 10, false), 1, 3, 0, [Plain(1), Plain(2), Plain(3)]);
    var t := s.(mail := [Plain(1), Plain(2), Plain(3).(read := true)]);
    var u := s.(mail := [Plain(1).(read := true), Plain(2), Plain(3).(read := true)]);
    hide Walk, PageOf, NewestFirst, Matches, Next, IndexOf, WellFormed, LegalWalk, Run, LegalRun, Plain;
    ThreeAreWellFormed(s);
    TwoMarks(s, t, u);
    RunTwo(s, MarkRead(3), MarkRead(1));
    MarkReadIsLegal(s);
    MixedWalk(s, u, [MarkRead(3), MarkRead(1)]);
    UnreadListings();
  }

  lemma MarkReadIsLegal(s: Inbox)
    ensures Legal(s, MarkRead(3)) && Legal(Next(s, MarkRead(3)), MarkRead(1))
  {
  }

  lemma UnreadListings()
    ensures NewestFirst([Plain(1), Plain(2), Plain(3)], UNREAD_ONLY) == [Plain(3), Plain(2), Plain(1)]
    ensures NewestFirst([Plain(1), Plain(2), Plain(3).(read := true)], UNREAD_ONLY) == [Plain(2), Plain(1)]
    ensures NewestFirst([Plain(1).(read := true), Plain(2), Plain(3).(read := true)], UNREAD_ONLY) == [Plain(2)]
  {
    hide NewestFirst, Matches;
    ListThree(Plain(1), Plain(2), Plain(3));
    ListThree(Plain(1), Plain(2), Plain(3).(read := true));
    ListThree(Plain(1).(read := true), Plain(2), Plain(3).(read := true));
  }

  lemma ThreeAreWellFormed(s: Inbox)
    requires s.mail == [Plain(1), Plain(2), Plain(3)] && s.caps == Caps(10, 10, false)
    ensures WellFormed(s)
  {
    FirstPage(Plain(1), Plain(2), Plain(3));
  }

  lemma TwoMarks(s: Inbox, t: Inbox, u: Inbox)
    requires s.mail == [Plain(1), Plain(2), Plain(3)]
    requires t == s.(mail := [Plain(1), Plain(2), Plain(3).(read := true)])
    requires u == s.(mail := [Plain(1).(read := true), Plain(2), Plain(3).(read := true)])
    ensures Next(s, MarkRead(3)) == t && Next(t, MarkRead(1)) == u
  {
    ThreeIndexes(Plain(1), Plain(2), Plain(3));
    ThreeIndexes(Plain(1), Plain(2), Plain(3).(read := true));
    hide IndexOf;
  }

  lemma MixedWalk(s: Inbox, u: Inbox, ops: seq<Op>)
    requires s.mail == [Plain(1), Plain(2), Plain(3)]
    requires u == s.(mail := [Plain(1).(read := true), Plain(2), Plain(3).(read := true)])
    requires Run(s, ops) == u && LegalRun(s, ops)
    ensures var reqs := [Request([], 1), Request(ops, 1)];
            LegalWalk(s, reqs) && Walk(s, UNREAD_ONLY, Start, None, reqs) == Complete([Plain(3), Plain(2)])
  {
    var last := [Request(ops, 1)];
    var reqs := [Request([], 1), Request(ops, 1)];
    assert reqs[1..] == last && last[1..] == [];
    FirstPage(Plain(1), Plain(2), Plain(3));
    LastPage(Plain(1).(read := true), Plain(2), Plain(3).(read := true));
    assert LegalWalk(u, []) && LegalWalk(s, last) && Run(s, []) == s;
    assert Walk(s, UNREAD_ONLY, Native(3), Some(s.generation), last) == Complete([Plain(2)]);
    assert [Plain(3)] + [Plain(2)] == [Plain(3), Plain(2)];
  }

  lemma RunTwo(s: Inbox, p: Op, q: Op)
    ensures Run(s, [p]) == Next(s, p)
    ensures Run(s, [p, q]) == Next(Next(s, p), q)
    ensures LegalRun(s, [p, q]) == (Legal(s, p) && Legal(Next(s, p), q))
  {
    assert [p, q][1..] == [q] && [p][1..] == [q][1..] == [];
    assert Run(Next(s, p), [q]) == Run(Next(Next(s, p), q), []);
    assert LegalRun(Next(s, p), [q]) == Legal(Next(s, p), q);
  }

  lemma FirstPage(a: Message, b: Message, c: Message)
    requires a == Plain(1) && b == Plain(2) && c == Plain(3)
    ensures PageOf([a, b, c], UNREAD_ONLY, Start, 1) == Page([c], Some(3))
    ensures Total([a, b, c]) == 0
  {
    ListThree(a, b, c);
    assert [a, b, c][..3] == [a, b, c];
    assert [a, b, c] == [a] + [b] + [c];
    TotalConcat([a] + [b], [c]);
    TotalConcat([a], [b]);
    TotalOne(a);
    TotalOne(b);
    TotalOne(c);
  }

  lemma LastPage(a: Message, b: Message, c: Message)
    requires a == Plain(1).(read := true) && b == Plain(2) && c == Plain(3).(read := true)
    ensures PageOf([a, b, c], UNREAD_ONLY, Native(3), 1) == Page([b], None)
  {
    ListThree(a, b, c);
    ThreeIndexes(a, b, c);
    assert [a, b, c][..2] == [a, b];
  }

  lemma ListLast(front: seq<Message>, last: Message, f: Filter)
    ensures NewestFirst(front + [last], f) == (if Matches(last, f) then [last] else []) + NewestFirst(front, f)
  {
    assert (front + [last])[..|front|] == front;
  }

  function Shown(m: Message): seq<Message> {
    if m.read then [] else [m]
  }

  lemma ListUnread(front: seq<Message>, last: Message)
    requires last == Plain(last.id).(read := last.read)
    ensures NewestFirst(front + [last], UNREAD_ONLY) == Shown(last) + NewestFirst(front, UNREAD_ONLY)
  {
    assert Matches(last, UNREAD_ONLY) == !last.read;
    hide Matches, NewestFirst;
    ListLast(front, last, UNREAD_ONLY);
  }

  lemma ListThree(a: Message, b: Message, c: Message)
    requires a == Plain(1).(read := a.read) && b == Plain(2).(read := b.read) && c == Plain(3).(read := c.read)
    ensures NewestFirst([a, b, c], UNREAD_ONLY) == Shown(c) + (Shown(b) + Shown(a))
    ensures NewestFirst([a, b], UNREAD_ONLY) == Shown(b) + Shown(a)
  {
    NoneListed();
    hide Matches, NewestFirst, Plain, Shown;
    PlainId(1, a);
    PlainId(2, b);
    PlainId(3, c);
    ListUnread([], a);
    ListUnread([a], b);
    ListUnread([a, b], c);
    assert [] + [a] == [a] && [a] + [b] == [a, b] && [a, b] + [c] == [a, b, c];
    assert Shown(a) + [] == Shown(a);
  }

  lemma PlainId(id: Id, m: Message)
    requires m == Plain(id).(read := m.read)
    ensures m.id == id
  {
  }

  lemma NoneListed()
    ensures NewestFirst([], UNREAD_ONLY) == []
  {
  }

  lemma ThreeIndexes(a: Message, b: Message, c: Message)
    requires a.id == 1 && b.id == 2 && c.id == 3
    ensures IndexOf([a, b, c], 1) == 0 && IndexOf([a, b, c], 3) == 2
  {
    assert [a, b, c][1..] == [b, c];
    assert [b, c][1..] == [c];
    assert IndexOf([c], 3) == 0;
    assert IndexOf([b, c], 3) == 1;
  }
}
