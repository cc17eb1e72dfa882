/** The MailDev-compatible listing: native pages joined under a page budget. */
module Compat {
  import opened Prelude
  import opened InboxSpec
  import opened Paging
  import opened MemoryStore

  const LIST_PAGE := 200

  function ListPageBudget(maxMessages: int): (pages: int)
    ensures pages > 0
  {
    var m := if maxMessages <= 0 then 1000 else maxMessages;
    (m + LIST_PAGE - 1) / LIST_PAGE + 1
  }

  /** One page past the inbox: the budget of a store's own cap always covers what it can hold. */
  lemma BudgetCoversInbox(s: Inbox, f: Filter)
    requires WellFormed(s)
    ensures |NewestFirst(s.mail, f)| < LIST_PAGE * ListPageBudget(s.caps.maxMessages)
  {
    NewestFirstIsExact(s.mail, f);
  }

  /** A page of the compat size from a cursor at `mail[n]` and what remains below its own cursor. */
  lemma PageStep(mail: seq<Message>, f: Filter, cur: Cursor)
    requires DistinctIds(mail)
    ensures var page := PageOf(mail, f, cur, LIST_PAGE);
            var listing := NewestFirst(mail[..Below(mail, cur)], f);
            (page.next.None? ==> page.items == listing && |listing| <= LIST_PAGE) &&
            (page.next.Some? ==>
               |page.items| == LIST_PAGE && cur != Native(page.next.value) &&
               listing == page.items + NewestFirst(mail[..Below(mail, Native(page.next.value))], f) &&
               |listing| > LIST_PAGE)
  {
    var n := Below(mail, cur);
    PageThenRest(mail, f, n, LIST_PAGE);
    var listing := NewestFirst(mail[..n], f);
    if |listing| > LIST_PAGE {
      var i := ListingBelow(mail[..n], f, LIST_PAGE - 1);
      assert mail[..n][i] == mail[i];
      IndexOfUnique(mail, i);
    }
  }

  function Newest(listing: seq<Message>, held: nat): seq<Message> {
    if |listing| <= held then listing else listing[..held]
  }

  lemma NewestOfParts(out: seq<Message>, rest: seq<Message>, held: nat)
    ensures |out + rest| <= held ==> Newest(out + rest, held) == out + rest
    ensures |out| == held ==> Newest(out + rest, held) == out
  {
    if |out| == held {
      assert (out + rest)[..held] == out;
      assert rest == [] ==> out + rest == out;
    }
  }

  /**
   * Joins pages until one has no successor. With the budget of any cap the result is the newest part
   * of the listing, as many messages as the budget's pages hold; nothing is skipped or repeated.
   */
  method ListAll(store: Memory, f: Filter, maxMessages: int) returns (r: Result<seq<Message>, ReadError>)
    requires store.Valid()
    ensures r.Ok? ==>
              r.value == Newest(NewestFirst(store.mail, f), LIST_PAGE * ListPageBudget(maxMessages))
    ensures r.Ok? && maxMessages == store.maxMessages ==> r.value == NewestFirst(store.mail, f)
    ensures r.Err? ==> r.error == Unreadable
    ensures (forall id :: id in store.byID ==> !Spilled(store.byID[id])) ==> r.Ok?
  {
    hide PageOf, CellsOK, ListPageBudget, WellFormed, NewestFirst, Below, DistinctIds, Newest, Spilled;
    var maxPages := ListPageBudget(maxMessages);
    if maxMessages == store.maxMessages {
      BudgetCoversInbox(store.State(), f);
      NewestOfParts(NewestFirst(store.mail, f), [], LIST_PAGE * maxPages);
      assert NewestFirst(store.mail, f) + [] == NewestFirst(store.mail, f);
    }
    var out: seq<Message> := [];
    var cursor := Start;
    ghost var whole := NewestFirst(store.mail, f);
    StartCoversAll(store.mail, f);
    assert DistinctIds(store.mail) by {
      WellFormedIsDistinct(store.State());
    }
    var page := 0;
    while page < maxPages
      invariant 0 <= page <= maxPages && |out| == LIST_PAGE * page
      invariant whole == out + NewestFirst(store.mail[..Below(store.mail, cursor)], f)
    {
      PageStep(store.mail, f, cursor);
      var res := store.List(f, cursor, LIST_PAGE);
      if res.Err? {
        return Err(res.error);
      }
      out := out + res.value.page.items;
      NewestOfParts(out, [], LIST_PAGE * maxPages);
      assert res.value.page.next.None? ==> out + [] == out == whole;
      if res.value.page.next.None? || Native(res.value.page.next.value) == cursor {
        return Ok(out);
      }
      cursor := Native(res.value.page.next.value);
      page := page + 1;
    }
    NewestOfParts(out, NewestFirst(store.mail[..Below(store.mail, cursor)], f), LIST_PAGE * maxPages);
    return Ok(out);
  }

  lemma StartCoversAll(mail: seq<Message>, f: Filter)
    ensures NewestFirst(mail[..Below(mail, Start)], f) == NewestFirst(mail, f)
  {
    assert mail == [] || !NewerThanCursor(mail[|mail| - 1], Start);
    assert mail[..|mail|] == mail;
  }
}
