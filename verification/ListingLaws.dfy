/** What the filters, the page size and a cursor mean to a reader of the inbox. */
module ListingLaws {
  import opened Prelude
  import opened InboxSpec
  import opened Text
  import opened Paging

  // ---------- filters ----------

  const ANY := Filter("", "", "", "", None, 0, 0)

  /** The tests of a filter are independent: a message passes all of them or fails one on its own. */
  lemma TestsAreIndependent(m: Message, f: Filter)
    ensures Matches(m, f) <==>
            Matches(m, ANY.(to := f.to)) && Matches(m, ANY.(from := f.from)) &&
            Matches(m, ANY.(subject := f.subject)) && Matches(m, ANY.(subjectContains := f.subjectContains)) &&
            Matches(m, ANY.(unread := f.unread)) && Matches(m, ANY.(after := f.after)) &&
            Matches(m, ANY.(before := f.before))
    ensures Matches(m, ANY)
  {
    hide HasAddress, ContainsFold;
  }

  /** Any moment splits the inbox in three: what came after it, what came before it, and what came then. */
  lemma MomentSplits(m: Message, t: Time)
    requires t != 0
    ensures Matches(m, ANY.(after := t)) <==> t < m.receivedAt
    ensures Matches(m, ANY.(before := t)) <==> !Matches(m, ANY.(after := t)) && m.receivedAt != t
  {
  }

  /** Each message is unread or not, and a filter asks for one of the two. */
  lemma UnreadSplits(m: Message)
    ensures Matches(m, ANY.(unread := Some(true))) <==> !m.read
    ensures Matches(m, ANY.(unread := Some(false))) <==> m.read
  {
  }

  /** Equal up to case. */
  predicate SameFold(a: string, b: string) {
    |a| == |b| && forall i :: 0 <= i < |a| ==> LowerChar(a[i]) == LowerChar(b[i])
  }

  lemma LowerTellsFold(a: string, b: string)
    ensures Lower(a) == Lower(b) <==> SameFold(a, b)
  {
    if Lower(a) == Lower(b) {
      forall i | 0 <= i < |a|
        ensures LowerChar(a[i]) == LowerChar(b[i])
      {
        assert Lower(a)[i] == Lower(b)[i];
      }
    }
  }

  /** The text stands in `hay` at `i`, up to case. */
  predicate StandsAt(hay: string, needle: string, i: nat) {
    i + |needle| <= |hay| && forall k :: 0 <= k < |needle| ==> LowerChar(hay[i + k]) == LowerChar(needle[k])
  }

  lemma PrefixTellsPlace(hay: string, needle: string, i: nat)
    requires i <= |hay|
    ensures Lower(needle) <= Lower(hay)[i..] <==> StandsAt(hay, needle, i)
  {
    if Lower(needle) <= Lower(hay)[i..] {
      forall k | 0 <= k < |needle|
        ensures LowerChar(hay[i + k]) == LowerChar(needle[k])
      {
        assert Lower(needle)[k] == Lower(hay)[i..][k];
      }
    }
  }

  /** A subject contains a text when it stands somewhere in it up to case; the exact test is by the letter. */
  lemma SubjectTests(m: Message, text: string)
    requires text != ""
    ensures Matches(m, ANY.(subjectContains := text)) <==> exists i :: StandsAt(m.subject, text, i)
    ensures Matches(m, ANY.(subject := text)) <==> m.subject == text
  {
    forall i: nat | i <= |m.subject|
      ensures Lower(text) <= Lower(m.subject)[i..] <==> StandsAt(m.subject, text, i)
    {
      PrefixTellsPlace(m.subject, text, i);
    }
  }

  /** One of the envelope's or of the header's addresses, up to case and the blanks around the envelope's. */
  ghost predicate IsAmong(want: string, envelope: seq<string>, headers: seq<string>) {
    (exists a :: a in envelope && SameFold(Trim(a), Trim(want))) ||
    (exists a :: a in headers && SameFold(a, Trim(want)))
  }

  lemma AddressTests(m: Message, want: string)
    requires Trim(want) != ""
    ensures Matches(m, ANY.(to := want)) <==> IsAmong(want, m.envelope.to, m.to)
    ensures Matches(m, ANY.(from := want)) <==>
            IsAmong(want, if m.envelope.from == "" then [] else [m.envelope.from], m.from)
  {
    AddressFound(m.envelope.to, m.to, want);
    AddressFound(if m.envelope.from == "" then [] else [m.envelope.from], m.from, want);
    hide HasAddress, IsAmong;
    TrimEmpty();
  }

  lemma TrimEmpty()
    ensures Trim("") == ""
  {
  }

  lemma AddressFound(envelope: seq<string>, headers: seq<string>, want: string)
    requires Trim(want) != ""
    ensures HasAddress(envelope, headers, want) <==> IsAmong(want, envelope, headers)
  {
    hide Trim, SameFold, Lower;
    assert |Lower(Trim(want))| == |Trim(want)| by { LowerKeepsSize(Trim(want)); }
    forall a
      ensures Lower(Trim(a)) == Lower(Trim(want)) <==> SameFold(Trim(a), Trim(want))
      ensures Lower(a) == Lower(Trim(want)) <==> SameFold(a, Trim(want))
    {
      LowerTellsFold(Trim(a), Trim(want));
      LowerTellsFold(a, Trim(want));
    }
  }

  lemma LowerKeepsSize(s: string)
    ensures |Lower(s)| == |s|
  {
  }

  /** So mail is found by each address it was sent to. */
  lemma FoundByItsRecipients(m: Message, a: string)
    requires a in m.envelope.to && Trim(a) != ""
    ensures Matches(m, ANY.(to := a))
  {
    AddressTests(m, a);
    assert SameFold(Trim(a), Trim(a));
  }

  // ---------- pages ----------

  /** Fifty unless the request says how many, and never more than two hundred. */
  lemma PageSize(mail: seq<Message>, f: Filter, cur: Cursor, limit: int)
    ensures var page, rest := PageOf(mail, f, cur, limit), NewestFirst(mail[..Below(mail, cur)], f);
            var size := if limit <= 0 then 50 else if limit <= 200 then limit else 200;
            (page.next.Some? <==> |rest| > size) &&
            |page.items| == (if |rest| > size then size else |rest|) && page.items == rest[..|page.items|]
  {
    hide NewestFirst, Below;
  }

  // ---------- cursors ----------

  /** In the listing's order, the message comes after the cursor's. */
  predicate After(m: Message, at: Time, id: Id) {
    m.receivedAt < at || (m.receivedAt == at && m.id <= id)
  }

  /** A ULID made in the millisecond `ms` of Unix time is stamped with it, whatever its other 80 bits are. */
  lemma StampOfUlid(ms: nat, random: nat)
    requires random < 0x1_0000_0000_0000_0000_0000
    ensures UlidTime(ms * 0x1_0000_0000_0000_0000_0000 + random) == UNIX_EPOCH + ms * 1000000
  {
  }

  lemma {:induction false} ResumeSplits(mail: seq<Message>, id: Id)
    requires Sorted(mail)
    ensures forall i :: 0 <= i < |mail| ==> (i < ResumeBelow(mail, Native(id)) <==> After(mail[i], UlidTime(id), id))
  {
    hide UlidTime;
    if mail != [] {
      var n := |mail| - 1;
      ResumeSplits(mail[..n], id);
      forall i | 0 <= i < |mail|
        ensures i < ResumeBelow(mail, Native(id)) <==> After(mail[i], UlidTime(id), id)
      {
        if i < n {
          assert mail[..n][i] == mail[i] && Older(mail[i], mail[n]);
        }
      }
    }
  }

  /**
   * A cursor whose message is gone still marks a place: the listing resumes with what was received no
   * later than its ULID's stamp, and any matching message of that kind is listed.
   */
  lemma LostCursorResumes(mail: seq<Message>, f: Filter, id: Id, m: Message)
    requires Sorted(mail) && Absent(mail, id)
    ensures m in NewestFirst(mail[..Below(mail, Native(id))], f) <==>
            m in mail && Matches(m, f) && After(m, UlidTime(id), id)
  {
    hide Matches, UlidTime, After;
    var n := Below(mail, Native(id));
    ResumeSplits(mail, id);
    assert Sorted(mail[..n]);
    NewestFirstIsExact(mail[..n], f);
    if m in mail {
      var i :| 0 <= i < |mail| && mail[i] == m;
      if i < n {
        assert mail[..n][i] == m;
      }
    }
    if m in mail[..n] {
      var i :| 0 <= i < n && mail[..n][i] == m;
      assert mail[i] == m;
    }
  }

  /** A live cursor marks its own message: what follows is what the order puts after it. */
  lemma LiveCursorResumes(mail: seq<Message>, f: Filter, i: nat, m: Message)
    requires Sorted(mail) && DistinctIds(mail) && i < |mail|
    ensures m in NewestFirst(mail[..Below(mail, Native(mail[i].id))], f) <==>
            m in mail && Matches(m, f) && Older(m, mail[i])
  {
    hide Matches;
    IndexOfUnique(mail, i);
    NewestFirstIsExact(mail[..i], f);
    if m in mail {
      var j :| 0 <= j < |mail| && mail[j] == m;
      if j < i {
        assert mail[..i][j] == m;
      }
    }
    if m in mail[..i] {
      var j :| 0 <= j < i && mail[..i][j] == m;
      assert mail[j] == m;
    }
  }

  // ---------- a walk on a quiet inbox ----------

  /** The generation stands still before each of the pages. */
  ghost predicate Quiet(s: Inbox, reqs: seq<Request>)
    decreases |reqs|
  {
    reqs == [] || (Run(s, reqs[0].ops).generation == s.generation && Quiet(Run(s, reqs[0].ops), reqs[1..]))
  }

  /** No cursor goes stale while the generation stands still, and enough requests see the walk through. */
  lemma {:induction false} QuietWalkCompletes(s: Inbox, f: Filter, cur: Cursor, reqs: seq<Request>)
    requires WellFormed(s) && LegalWalk(s, reqs) && Quiet(s, reqs)
    requires cur.Start? || (cur.Native? && IndexOf(s.mail, cur.id) < |s.mail|)
    ensures var w := Walk(s, f, cur, Some(s.generation), reqs);
            !w.CursorStale? && (|reqs| > Below(s.mail, cur) ==> w.Complete?)
    decreases |reqs|
  {
    if reqs != [] {
      var t := Run(s, reqs[0].ops);
      RunKeepsWellFormed(s, reqs[0].ops);
      WellFormedIsDistinct(t);
      EqualGenerationEqualMail(s, reqs[0].ops);
      SamePlace(s.mail, t.mail, cur);
      hide WellFormed, LegalRun, Run, NewestFirst, Cut, Below, IndexOf;
      var n := Below(t.mail, cur);
      PageThenRest(t.mail, f, n, reqs[0].limit);
      var page := PageOf(t.mail, f, cur, reqs[0].limit);
      if page.next.Some? {
        CursorGoesDown(t.mail, f, n, reqs[0].limit);
        QuietWalkCompletes(t, f, Native(page.next.value), reqs[1..]);
      }
    }
  }

  lemma SamePlace(a: seq<Message>, b: seq<Message>, cur: Cursor)
    requires SameMail(a, b) && (cur.Start? || (cur.Native? && IndexOf(a, cur.id) < |a|))
    ensures Below(a, cur) == Below(b, cur)
    ensures cur.Native? ==> IndexOf(b, cur.id) < |b|
  {
    if cur.Native? {
      SameMailSameIndex(a, b, cur.id);
    }
  }

  lemma CursorGoesDown(mail: seq<Message>, f: Filter, n: nat, limit: int)
    requires n <= |mail| && DistinctIds(mail)
    ensures var page := Cut(NewestFirst(mail[..n], f), limit);
            page.next.Some? ==> Below(mail, Native(page.next.value)) < n
  {
    var whole := NewestFirst(mail[..n], f);
    var lim := EffectiveLimit(limit);
    if |whole| > lim {
      var i := ListingBelow(mail[..n], f, lim - 1);
      assert mail[..n][i] == mail[i];
      IndexOfUnique(mail, i);
    }
  }
}
