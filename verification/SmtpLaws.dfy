/**
 * What gets which reply, in the client's own terms: each command is accepted exactly when the
 * conversation so far and the policy it meets allow it.
 */
module SmtpLaws {
  import opened Prelude
  import opened InboxSpec
  import opened SmtpSpec

  /** The conversation shows the TLS and the login the policy asks for. */
  predicate PolicyMet(history: seq<Exchange>, p: Policy) {
    (p.startTLS && p.tlsRequired ==> SeenUpgraded(history)) && (p.plainLogin ==> SeenAuthed(history))
  }

  /** A name has been given and no transaction is open. */
  predicate AtRest(history: seq<Exchange>) {
    GivenName(history) != "" && OpenTransaction(history).NoTransaction?
  }

  /** `x` is the next exchange of the conversation, in session `b`. */
  ghost predicate Follows(b: Sess, history: seq<Exchange>, x: Exchange) {
    Reached(b, history) && Expected(b, x.input) && Sane(x.policy, x.input) &&
    Step(b, x.policy, x.input).replies == x.replies
  }

  lemma SessionShows(b: Sess, history: seq<Exchange>)
    requires Reached(b, history)
    ensures b.phase == Helloed <==> AtRest(history)
    ensures b.phase == InMail || b.phase == InRcpt <==> OpenTransaction(history).Sending?
    ensures OpenTransaction(history).Sending? ==>
              OpenTransaction(history).to == b.rcpt && (b.phase == InRcpt <==> b.rcpt != [])
    ensures b.tls == SeenUpgraded(history) && b.authed == SeenAuthed(history)
    ensures forall p :: PolicyOK(b, p) <==> PolicyMet(history, p)
  {
    ReachedAgrees(b, history);
    hide OpenTransaction, GivenName, SeenUpgraded, SeenAuthed;
  }

  // ---------- acceptance, and the reason for a refusal ----------

  lemma HelloAcceptedIff(b: Sess, history: seq<Exchange>, x: Exchange)
    requires Follows(b, history, x) && x.input.Hello?
    ensures Accepted(x) <==> x.input.domain != "" && !Errs(x.policy, if x.input.ehlo then EHLO else HELO)
  {
  }

  lemma RsetAcceptedIff(b: Sess, history: seq<Exchange>, x: Exchange)
    requires Follows(b, history, x) && x.input.Rset?
    ensures Accepted(x) <==> !Errs(x.policy, RSET)
  {
  }

  lemma MailAcceptedIff(b: Sess, history: seq<Exchange>, x: Exchange)
    requires Follows(b, history, x) && x.input.Mail?
    ensures Accepted(x) <==>
            AtRest(history) && !Errs(x.policy, MAIL) && PolicyMet(history, x.policy) && x.input.mail.Some? &&
            (x.input.mail.value.size.Some? ==> x.input.mail.value.size.value <= x.policy.maxMessageBytes)
    ensures !Accepted(x) ==>
              x.replies == [if !AtRest(history) then 503
                            else if Errs(x.policy, MAIL) then x.policy.overrides[MAIL]
                            else if !PolicyMet(history, x.policy) then 530
                            else if x.input.mail.None? then 501 else 552]
  {
    SessionShows(b, history);
    hide OpenTransaction, GivenName, SeenUpgraded, SeenAuthed, PolicyOK, PolicyMet, AtRest, Reached;
  }

  lemma RcptAcceptedIff(b: Sess, history: seq<Exchange>, x: Exchange)
    requires Follows(b, history, x) && x.input.Rcpt?
    ensures Accepted(x) <==>
            OpenTransaction(history).Sending? && !Errs(x.policy, RCPT) && PolicyMet(history, x.policy) &&
            x.input.path.Some? && |OpenTransaction(history).to| < x.policy.maxRecipients
    ensures !Accepted(x) ==>
              x.replies == [if OpenTransaction(history).NoTransaction? then 503
                            else if Errs(x.policy, RCPT) then x.policy.overrides[RCPT]
                            else if !PolicyMet(history, x.policy) then 530
                            else if x.input.path.None? then 501 else 452]
  {
    SessionShows(b, history);
    hide OpenTransaction, GivenName, SeenUpgraded, SeenAuthed, PolicyOK, PolicyMet, AtRest, Reached;
  }

  lemma DataAcceptedIff(b: Sess, history: seq<Exchange>, x: Exchange)
    requires Follows(b, history, x) && x.input.DataBegin?
    ensures Accepted(x) <==>
            OpenTransaction(history).Sending? && OpenTransaction(history).to != [] && !Errs(x.policy, DATA) &&
            PolicyMet(history, x.policy) && x.input.gate.Admitted?
    ensures !Accepted(x) ==>
              x.replies == [if OpenTransaction(history).NoTransaction? || OpenTransaction(history).to == [] then 503
                            else if Errs(x.policy, DATA) then x.policy.overrides[DATA]
                            else if !PolicyMet(history, x.policy) then 530
                            else if x.input.gate.TooManyInFlight? then 421 else 452]
  {
    SessionShows(b, history);
    hide OpenTransaction, GivenName, SeenUpgraded, SeenAuthed, PolicyOK, PolicyMet, AtRest, Reached;
  }

  /** A login counts from here on exactly when it was wanted, in order, not yet done, and accepted. */
  lemma LoggedInIff(b: Sess, history: seq<Exchange>, x: Exchange)
    requires Follows(b, history, x) && x.input.Auth?
    ensures Step(b, x.policy, x.input).sess.authed <==>
            SeenAuthed(history) ||
            (x.policy.plainLogin && (x.policy.startTLS && x.policy.tlsRequired ==> SeenUpgraded(history)) &&
             AtRest(history) && !Errs(x.policy, AUTH) && x.input.verdict.AuthAccepted?)
  {
    SessionShows(b, history);
    hide OpenTransaction, GivenName, SeenUpgraded, SeenAuthed, PolicyOK, PolicyMet, AtRest, Reached;
  }

  /** TLS is up from here on exactly when it was, or was offered, in order, and the handshake went through. */
  lemma UpgradedIff(b: Sess, history: seq<Exchange>, x: Exchange)
    requires Follows(b, history, x) && x.input.StartTls?
    ensures Step(b, x.policy, x.input).sess.tls <==>
            SeenUpgraded(history) ||
            (x.policy.startTLS && AtRest(history) && !Errs(x.policy, STARTTLS) && !Closes(x.policy, STARTTLS) &&
             x.input.handshake.Upgraded?)
  {
    SessionShows(b, history);
    hide OpenTransaction, GivenName, SeenUpgraded, SeenAuthed, PolicyOK, PolicyMet, AtRest, Reached;
  }

  /**
   * The end of DATA without an override: a refusal is for good exactly when the message or a line of it is
   * too large; 452 says that the inbox is full, and every other refusal can be tried again.
   */
  lemma RefusalTellsWhetherToRetry(b: Sess, history: seq<Exchange>, x: Exchange)
    requires Follows(b, history, x) && x.input.DataEnd? && !Errs(x.policy, DATA_END) && !x.input.read.Disconnected?
    ensures |x.replies| == 1
    ensures x.replies[0] >= 500 <==>
            x.input.read.MessageTooLarge? || x.input.read.DiscardBudget? || x.input.read.LineTooLong? ||
            x.input.insert == Err(TooLarge)
    ensures x.input.read.Body? ==> (x.replies[0] == 452 <==> x.input.insert == Err(Full))
    ensures Step(b, x.policy, x.input).keep ==> !x.input.read.DiscardBudget?
  {
    hide Reached;
  }

  /** What ends a session without a QUIT: a configured verb, a failed read, or a failed upgrade. */
  lemma KeptOpenIff(b: Sess, history: seq<Exchange>, x: Exchange)
    requires Follows(b, history, x)
    requires x.input.Hello? || x.input.Mail? || x.input.Rcpt? || x.input.Rset? || x.input.DataBegin?
    ensures var v := match x.input
                     case Hello(_, ehlo) => if ehlo then EHLO else HELO
                     case Mail(_) => MAIL
                     case Rcpt(_) => RCPT
                     case Rset => RSET
                     case _ => DATA;
            (Accepted(x) ==> (Step(b, x.policy, x.input).keep <==> x.policy.closeAfter != Some(v))) &&
            (!Accepted(x) && !Errs(x.policy, v) ==> Step(b, x.policy, x.input).keep)
  {
    hide OpenTransaction, GivenName, SeenUpgraded, SeenAuthed, PolicyOK, Reached;
  }

  // ---------- recipients ----------

  lemma {:induction false} ReachedBefore(s: Sess, history: seq<Exchange>, k: nat) returns (b: Sess)
    requires Reached(s, history) && k < |history|
    ensures Follows(b, history[..k], history[k])
    decreases |history|
  {
    var n := |history| - 1;
    b :| Reached(b, history[..n]) && Leads(b, history[n], s);
    if k < n {
      b := ReachedBefore(b, history[..n], k);
      assert history[..n][..k] == history[..k];
    }
  }

  /** In every conversation, an accepted RCPT had fewer recipients before it than its policy allows. */
  lemma AcceptedRcptHadRoom(s: Sess, history: seq<Exchange>, k: nat)
    requires Reached(s, history) && k < |history| && history[k].input.Rcpt? && Accepted(history[k])
    ensures OpenTransaction(history[..k]).Sending?
    ensures |OpenTransaction(history[..k]).to| < history[k].policy.maxRecipients
  {
    var b := ReachedBefore(s, history, k);
    RcptAcceptedIff(b, history[..k], history[k]);
  }

  /** So a transaction never has more recipients than the policies its conversation met allow. */
  lemma {:induction false} RecipientsWithinLimit(s: Sess, history: seq<Exchange>, n: nat)
    requires Reached(s, history) && forall k :: 0 <= k < |history| ==> history[k].policy.maxRecipients <= n
    ensures OpenTransaction(history).Sending? ==> |OpenTransaction(history).to| <= n
    decreases |history|
  {
    hide GivenName, SeenUpgraded, SeenAuthed, Step, Sane;
    if history != [] {
      var k := |history| - 1;
      var front := history[..k];
      var b: Sess :| Reached(b, front) && Leads(b, history[k], s);
      RecipientsWithinLimit(b, front, n);
      if history[k].input.Rcpt? && Accepted(history[k]) {
        AcceptedRcptHadRoom(s, history, k);
      }
      hide Reached, OpenTransaction, Accepted, Upgrades;
      assert front + [history[k]] == history;
      OneMore(front, history[k]);
      TransactionGrows(OpenTransaction(front), history[k]);
    }
  }

  lemma TransactionGrows(before: Transaction, x: Exchange)
    ensures var t := NextTransaction(before, x);
            t.Sending? ==>
              t.to == [] || t == before ||
              (before.Sending? && x.input.Rcpt? && Accepted(x) && |t.to| == |before.to| + 1)
  {
  }
}
