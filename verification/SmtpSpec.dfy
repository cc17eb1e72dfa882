/**
 * One SMTP session as a value: the command order of section 4.1.4 of RFC 5321 under a live policy with
 * reply overrides, and the state reset of section 4.2 of RFC 3207. DATA is two steps, so that other
 * sessions can run while a message is being received.
 */
module SmtpSpec {
  import opened Prelude
  import opened InboxSpec
  import opened Codec

  datatype Verb =
    GREETING | HELO | EHLO | MAIL | RCPT | DATA | DATA_END | RSET | NOOP | VRFY | AUTH | STARTTLS | UNKNOWN

  datatype AdmissionSpec = AdmissionSpec(
    maxSessions: int, maxSessionsPerIP: int, maxInFlightData: int, maxInFlightDataBytes: int)

  /** The policy a command reads. `overrides` holds the codes of the reply lines that parse. */
  datatype Policy = Policy(
    startTLS: bool, tlsRequired: bool, plainLogin: bool, maxMessageBytes: int, maxRecipients: int,
    admission: AdmissionSpec, overrides: map<Verb, int>, closeAfter: Option<Verb>)

  datatype Phase = Greeting | Helloed | InMail | InRcpt

  datatype Sess = Sess(
    phase: Phase, helo: string, from: string, rcpt: seq<string>, declaredSize: int, sizeSet: bool,
    tls: bool, authed: bool, receiving: bool)

  datatype MailArg = MailArg(path: string, size: Option<int>)

  datatype GateVerdict = Admitted | TooManyInFlight | NoByteBudget

  /** The exchange after AUTH: challenges sent, then its end. */
  datatype AuthVerdict = AuthAccepted | AuthRefused(code: int) | AuthDropped(overlong: bool)

  datatype TlsVerdict = NoCertificate | HandshakeFailed | Upgraded

  /** A command with its arguments parsed and the answers of the outside world it will need. */
  datatype Input =
    | Hello(domain: string, ehlo: bool)
    | Mail(mail: Option<MailArg>)
    | Rcpt(path: Option<string>)
    | DataBegin(gate: GateVerdict)
    | DataEnd(read: DataResult, insert: Result<nat, InsertError>)
    | Rset
    | Auth(challenges: nat, verdict: AuthVerdict)
    | StartTls(handshake: TlsVerdict)
    | Noop
    | Vrfy
    | Help
    | NotImplemented
    | Unrecognized
    | Overlong
    | Quit

  datatype Outcome = Outcome(sess: Sess, replies: seq<int>, keep: bool)

  const FRESH := Sess(Greeting, "", "", [], 0, false, false, false, false)

  // ---------- replies ----------

  predicate Errs(p: Policy, v: Verb) {
    v in p.overrides && p.overrides[v] >= 400
  }

  predicate Closes(p: Policy, v: Verb) {
    p.closeAfter == Some(v)
  }

  function Keyed(p: Policy, v: Verb, code: int): int {
    if v in p.overrides then p.overrides[v] else code
  }

  function Reply(s: Sess, code: int): Outcome {
    Outcome(s, [code], true)
  }

  /** A configured success line may replace the default; closeAfterVerb ends the session after it. */
  function KeyedReply(s: Sess, p: Policy, v: Verb, code: int): Outcome {
    Outcome(s, [Keyed(p, v, code)], !Closes(p, v))
  }

  function TlsMissing(s: Sess, p: Policy): bool {
    p.startTLS && p.tlsRequired && !s.tls
  }

  predicate PolicyOK(s: Sess, p: Policy) {
    !TlsMissing(s, p) && (p.plainLogin ==> s.authed)
  }

  // ---------- resets ----------

  function ResetTxn(s: Sess): Sess {
    s.(from := "", rcpt := [], declaredSize := 0, sizeSet := false)
  }

  function ResetToHelloed(s: Sess): Sess {
    ResetTxn(s).(phase := if s.helo != "" then Helloed else Greeting)
  }

  function ResetAfterTLS(s: Sess): Sess {
    ResetTxn(s).(helo := "", authed := false, tls := true, phase := Greeting)
  }

  // ---------- commands ----------

  function StepHello(s: Sess, p: Policy, domain: string, ehlo: bool): Outcome {
    var v := if ehlo then EHLO else HELO;
    if domain == "" then Reply(s, 501)
    else if Errs(p, v) then KeyedReply(s, p, v, 250)
    else KeyedReply(ResetTxn(s).(helo := domain, phase := Helloed), p, v, 250)
  }

  function StepMail(s: Sess, p: Policy, arg: Option<MailArg>): Outcome {
    if s.phase != Helloed then Reply(s, 503)
    else if Errs(p, MAIL) then KeyedReply(s, p, MAIL, 250)
    else if !PolicyOK(s, p) then Reply(s, 530)
    else if arg.None? then Reply(s, 501)
    else if arg.value.size.Some? && arg.value.size.value > p.maxMessageBytes then Reply(s, 552)
    else
      KeyedReply(s.(from := arg.value.path, rcpt := [], phase := InMail,
                    declaredSize := if arg.value.size.Some? then arg.value.size.value else 0,
                    sizeSet := arg.value.size.Some?), p, MAIL, 250)
  }

  function StepRcpt(s: Sess, p: Policy, path: Option<string>): Outcome {
    if s.phase != InMail && s.phase != InRcpt then Reply(s, 503)
    else if Errs(p, RCPT) then KeyedReply(s, p, RCPT, 250)
    else if !PolicyOK(s, p) then Reply(s, 530)
    else if path.None? then Reply(s, 501)
    else if |s.rcpt| >= p.maxRecipients then Reply(s, 452)
    else KeyedReply(s.(rcpt := s.rcpt + [path.value], phase := InRcpt), p, RCPT, 250)
  }

  /** DATA up to its reservation. */
  predicate DataAllowed(s: Sess, p: Policy) {
    s.phase == InRcpt && s.rcpt != [] && !Errs(p, DATA) && PolicyOK(s, p)
  }

  function StepDataBegin(s: Sess, p: Policy, gate: GateVerdict): Outcome {
    if s.phase != InRcpt || s.rcpt == [] then Reply(s, 503)
    else if Errs(p, DATA) then KeyedReply(s, p, DATA, 354)
    else if !PolicyOK(s, p) then Reply(s, 530)
    else match gate
      case TooManyInFlight => Reply(s, 421)
      case NoByteBudget => Reply(s, 452)
      case Admitted => KeyedReply(s.(receiving := !Closes(p, DATA)), p, DATA, 354)
  }

  /** Whether the end of DATA reaches the store, and whether the store takes the message. */
  predicate Inserts(p: Policy, i: Input) {
    i.DataEnd? && i.read.Body? && !Errs(p, DATA_END)
  }

  predicate Stores(p: Policy, i: Input) {
    Inserts(p, i) && i.insert.Ok?
  }

  function InsertErrorCode(e: InsertError): int {
    match e
    case StaleEpoch => 451
    case Full => 452
    case TooLarge => 552
    case SpillFailed => 451
  }

  function StepDataEnd(s: Sess, p: Policy, read: DataResult, insert: Result<nat, InsertError>): Outcome {
    var t := ResetToHelloed(s).(receiving := false);
    match read
    case MessageTooLarge => Reply(t, 552)
    case DiscardBudget => Outcome(t, [552], false)
    case LineTooLong => Reply(t, 500)
    case Disconnected => Outcome(t, [], false)
    case Body(_) =>
      if Errs(p, DATA_END) then KeyedReply(t, p, DATA_END, 250)
      else if insert.Err? then Reply(t, InsertErrorCode(insert.error))
      else KeyedReply(t, p, DATA_END, 250)
  }

  function StepRset(s: Sess, p: Policy): Outcome {
    if Errs(p, RSET) then KeyedReply(s, p, RSET, 250)
    else KeyedReply(ResetTxn(s).(phase := if s.phase == Greeting then Greeting else Helloed), p, RSET, 250)
  }

  function AuthExchange(s: Sess, p: Policy, challenges: nat, verdict: AuthVerdict): Outcome {
    var asked := seq(challenges, _ => 334);
    match verdict
    case AuthDropped(overlong) => Outcome(s, if overlong then asked + [500] else asked, false)
    case AuthRefused(code) => Outcome(s, asked + [code], true)
    case AuthAccepted => Outcome(s.(authed := true), asked + [Keyed(p, AUTH, 235)], !Closes(p, AUTH))
  }

  function StepAuth(s: Sess, p: Policy, challenges: nat, verdict: AuthVerdict): Outcome {
    if !p.plainLogin then Reply(s, 502)
    else if TlsMissing(s, p) then Reply(s, 530)
    else if s.phase != Helloed then Reply(s, 503)
    else if s.authed then Reply(s, 503)
    else if Errs(p, AUTH) then KeyedReply(s, p, AUTH, 235)
    else AuthExchange(s, p, challenges, verdict)
  }

  function StepStartTls(s: Sess, p: Policy, handshake: TlsVerdict): Outcome {
    if !p.startTLS then Reply(s, 502)
    else if s.tls then Reply(s, 503)
    else if s.phase != Helloed then Reply(s, 503)
    else if Errs(p, STARTTLS) then KeyedReply(s, p, STARTTLS, 220)
    else if handshake == NoCertificate then Reply(s, 454)
    else if Closes(p, STARTTLS) || handshake == HandshakeFailed then Outcome(s, [Keyed(p, STARTTLS, 220)], false)
    else Outcome(ResetAfterTLS(s), [Keyed(p, STARTTLS, 220)], true)
  }

  /** Commands are read between messages, the end of DATA while one is being received. */
  predicate Expected(s: Sess, i: Input) {
    s.receiving <==> i.DataEnd?
  }

  function Step(s: Sess, p: Policy, i: Input): Outcome
    requires Expected(s, i)
  {
    match i
    case Hello(domain, ehlo) => StepHello(s, p, domain, ehlo)
    case Mail(arg) => StepMail(s, p, arg)
    case Rcpt(path) => StepRcpt(s, p, path)
    case DataBegin(gate) => StepDataBegin(s, p, gate)
    case DataEnd(read, insert) => StepDataEnd(s, p, read, insert)
    case Rset => StepRset(s, p)
    case Auth(challenges, verdict) => StepAuth(s, p, challenges, verdict)
    case StartTls(handshake) => StepStartTls(s, p, handshake)
    case Noop => KeyedReply(s, p, NOOP, 250)
    case Vrfy => KeyedReply(s, p, VRFY, 252)
    case Help => Reply(s, 214)
    case NotImplemented => Reply(s, 502)
    case Unrecognized => KeyedReply(s, p, UNKNOWN, 500)
    case Overlong => Outcome(s, [500], false)
    case Quit => Outcome(s, [221], false)
  }

  // ---------- what a client sees ----------

  /** One exchange: the policy in force, the command, the reply codes. */
  datatype Exchange = Exchange(policy: Policy, input: Input, replies: seq<int>)

  predicate Accepted(x: Exchange) {
    |x.replies| > 0 && x.replies[|x.replies| - 1] < 400
  }

  /** An override never uses a code outside 200..599, and an AUTH refusal is a 4xx or 5xx reply. */
  predicate Sane(p: Policy, i: Input) {
    (forall v :: v in p.overrides ==> 200 <= p.overrides[v] <= 599) &&
    (i.Auth? && i.verdict.AuthRefused? ==> i.verdict.code >= 400)
  }

  datatype Transaction = NoTransaction | Sending(from: string, to: seq<string>)

  predicate Upgrades(x: Exchange) {
    x.input.StartTls? && Accepted(x) && x.input.handshake.Upgraded?
  }

  function NextTransaction(before: Transaction, x: Exchange): Transaction {
    if Upgrades(x) || x.input.DataEnd? || ((x.input.Hello? || x.input.Rset?) && Accepted(x)) then NoTransaction
    else if x.input.Mail? && Accepted(x) && x.input.mail.Some? then Sending(x.input.mail.value.path, [])
    else if x.input.Rcpt? && Accepted(x) && x.input.path.Some? && before.Sending? then
      Sending(before.from, before.to + [x.input.path.value])
    else before
  }

  /**
   * The mail transaction a client has open, told from commands and reply codes alone: the sender of the
   * last accepted MAIL and the accepted recipients since, unless an accepted HELO, EHLO, RSET or
   * STARTTLS, or the end of a DATA, came in between.
   */
  function OpenTransaction(history: seq<Exchange>): Transaction {
    if history == [] then NoTransaction
    else NextTransaction(OpenTransaction(history[..|history| - 1]), history[|history| - 1])
  }

  /** The name given in the last accepted HELO or EHLO since the last TLS upgrade. */
  function GivenName(history: seq<Exchange>): string {
    if history == [] then ""
    else
      var x := history[|history| - 1];
      if Upgrades(x) then ""
      else if x.input.Hello? && Accepted(x) then x.input.domain
      else GivenName(history[..|history| - 1])
  }

  predicate SeenUpgraded(history: seq<Exchange>) {
    history != [] && (Upgrades(history[|history| - 1]) || SeenUpgraded(history[..|history| - 1]))
  }

  /** A login accepted since the last upgrade. */
  predicate SeenAuthed(history: seq<Exchange>) {
    history != [] &&
    var x := history[|history| - 1];
    !Upgrades(x) &&
    ((x.input.Auth? && Accepted(x) && x.input.verdict.AuthAccepted?) || SeenAuthed(history[..|history| - 1]))
  }

  lemma OneMore(history: seq<Exchange>, x: Exchange)
    ensures OpenTransaction(history + [x]) == NextTransaction(OpenTransaction(history), x)
    ensures GivenName(history + [x]) ==
            if Upgrades(x) then "" else if x.input.Hello? && Accepted(x) then x.input.domain else GivenName(history)
    ensures SeenUpgraded(history + [x]) <==> Upgrades(x) || SeenUpgraded(history)
    ensures SeenAuthed(history + [x]) <==>
            !Upgrades(x) && ((x.input.Auth? && Accepted(x) && x.input.verdict.AuthAccepted?) || SeenAuthed(history))
  {
    assert (history + [x])[..|history|] == history;
  }

  // ---------- reachable sessions ----------

  /** `s` is what a session has become after `history`, all of whose exchanges kept it open. */
  ghost predicate Reached(s: Sess, history: seq<Exchange>)
    decreases |history|
  {
    if history == [] then s == FRESH
    else
      var x := history[|history| - 1];
      exists b: Sess :: Reached(b, history[..|history| - 1]) && Leads(b, x, s)
  }

  ghost predicate Leads(b: Sess, x: Exchange, s: Sess) {
    Expected(b, x.input) && Sane(x.policy, x.input) && Step(b, x.policy, x.input) == Outcome(s, x.replies, true)
  }

  ghost predicate AgreesTransaction(s: Sess, history: seq<Exchange>) {
    (s.phase == InMail || s.phase == InRcpt <==> OpenTransaction(history).Sending?) &&
    (OpenTransaction(history).Sending? ==>
       OpenTransaction(history) == Sending(s.from, s.rcpt) && (s.phase == InRcpt <==> s.rcpt != [])) &&
    (s.receiving ==> s.phase == InRcpt)
  }

  ghost predicate AgreesIdentity(s: Sess, history: seq<Exchange>) {
    s.helo == GivenName(history) && (s.phase == Greeting <==> s.helo == "") &&
    s.tls == SeenUpgraded(history) && s.authed == SeenAuthed(history)
  }

  /** The session's fields are what the client's own record of the conversation says. */
  ghost predicate Agrees(s: Sess, history: seq<Exchange>) {
    AgreesTransaction(s, history) && AgreesIdentity(s, history)
  }

  /** The codes the session chooses itself are below 400 exactly where it accepts. */
  lemma KeyedCode(p: Policy, i: Input, v: Verb, code: int)
    requires Sane(p, i)
    ensures Errs(p, v) ==> Keyed(p, v, code) >= 400
    ensures !Errs(p, v) && code < 400 ==> Keyed(p, v, code) < 400
  {
  }

  lemma StepAgreesTransaction(b: Sess, history: seq<Exchange>, x: Exchange)
    requires Agrees(b, history) && Expected(b, x.input) && Sane(x.policy, x.input)
    requires Step(b, x.policy, x.input).keep && Step(b, x.policy, x.input).replies == x.replies
    ensures AgreesTransaction(Step(b, x.policy, x.input).sess, history + [x])
  {
    OneMore(history, x);
    hide OpenTransaction, GivenName, SeenUpgraded, SeenAuthed, PolicyOK, TlsMissing;
    var p, i := x.policy, x.input;
    match i
    case Hello(domain, ehlo) => KeyedCode(p, i, if ehlo then EHLO else HELO, 250);
    case Mail(arg) => KeyedCode(p, i, MAIL, 250);
    case Rcpt(path) => KeyedCode(p, i, RCPT, 250);
    case Rset => KeyedCode(p, i, RSET, 250);
    case StartTls(_) => KeyedCode(p, i, STARTTLS, 220);
    case _ =>
  }

  lemma StepAgreesIdentity(b: Sess, history: seq<Exchange>, x: Exchange)
    requires Agrees(b, history) && Expected(b, x.input) && Sane(x.policy, x.input)
    requires Step(b, x.policy, x.input).keep && Step(b, x.policy, x.input).replies == x.replies
    ensures AgreesIdentity(Step(b, x.policy, x.input).sess, history + [x])
  {
    OneMore(history, x);
    hide OpenTransaction, NextTransaction, GivenName, SeenUpgraded, SeenAuthed, PolicyOK, TlsMissing;
    var p, i := x.policy, x.input;
    match i
    case Hello(domain, ehlo) => KeyedCode(p, i, if ehlo then EHLO else HELO, 250);
    case StartTls(_) => KeyedCode(p, i, STARTTLS, 220);
    case Auth(challenges, verdict) => KeyedCode(p, i, AUTH, 235);
    case _ =>
  }

  lemma StepAgrees(b: Sess, history: seq<Exchange>, x: Exchange)
    requires Agrees(b, history) && Expected(b, x.input) && Sane(x.policy, x.input)
    requires Step(b, x.policy, x.input).keep && Step(b, x.policy, x.input).replies == x.replies
    ensures Agrees(Step(b, x.policy, x.input).sess, history + [x])
  {
    hide Agrees, Step;
    StepAgreesTransaction(b, history, x);
    StepAgreesIdentity(b, history, x);
    AgreesBoth(Step(b, x.policy, x.input).sess, history + [x]);
  }

  lemma AgreesBoth(s: Sess, history: seq<Exchange>)
    requires AgreesTransaction(s, history) && AgreesIdentity(s, history)
    ensures Agrees(s, history)
  {
  }

  lemma {:induction false} ReachedAgrees(s: Sess, history: seq<Exchange>)
    requires Reached(s, history)
    ensures Agrees(s, history)
    decreases |history|
  {
    if history != [] {
      var front, x := history[..|history| - 1], history[|history| - 1];
      var b: Sess :| Reached(b, front) && Leads(b, x, s);
      ReachedAgrees(b, front);
      StepAgrees(b, front, x);
      assert front + [x] == history;
    }
  }

  // ---------- what a session promises ----------

  lemma ReceivingStarts(b: Sess, p: Policy, i: Input)
    requires Expected(b, i) && Step(b, p, i).sess.receiving && Step(b, p, i).keep
    ensures i.DataBegin? && PolicyOK(Step(b, p, i).sess, p)
  {
    hide PolicyOK;
    if i.DataBegin? {
      PolicyIgnoresReceiving(b, p, true);
    }
  }

  lemma PolicyIgnoresReceiving(b: Sess, p: Policy, r: bool)
    ensures PolicyOK(b.(receiving := r), p) <==> PolicyOK(b, p)
  {
  }

  /** While a message is being received, the last exchange was the DATA that its policy allowed. */
  lemma ReceivingIsAllowed(s: Sess, history: seq<Exchange>)
    requires Reached(s, history) && s.receiving
    ensures history != [] && history[|history| - 1].input.DataBegin?
    ensures PolicyOK(s, history[|history| - 1].policy)
  {
    hide Step, PolicyOK;
    var x := history[|history| - 1];
    var b: Sess :| Reached(b, history[..|history| - 1]) && Leads(b, x, s);
    ReceivingStarts(b, x.policy, x.input);
  }

  /**
   * For every conversation: the message a session hands over has exactly the sender of the last
   * accepted MAIL and the recipients accepted since, in order, under the last accepted name; and when
   * the DATA's policy demands TLS or a login, the conversation shows the upgrade or, since it, the login.
   */
  lemma EnvelopeIsOpenTransaction(s: Sess, history: seq<Exchange>)
    requires Reached(s, history) && s.receiving
    ensures OpenTransaction(history) == Sending(s.from, s.rcpt) && s.rcpt != [] && s.helo == GivenName(history) != ""
    ensures var p := history[|history| - 1].policy;
            (p.startTLS && p.tlsRequired ==> SeenUpgraded(history)) && (p.plainLogin ==> SeenAuthed(history))
  {
    ReachedAgrees(s, history);
    ReceivingIsAllowed(s, history);
  }

  /** The reply to the end of DATA is below 400 exactly when the message was stored; there is at most one. */
  lemma FinalReplyTellsStorage(s: Sess, p: Policy, i: Input)
    requires Expected(s, i) && i.DataEnd? && Sane(p, i)
    ensures var o := Step(s, p, i);
            |o.replies| <= 1 && !o.sess.receiving &&
            (Stores(p, i) <==> |o.replies| == 1 && o.replies[0] < 400)
  {
  }
}
