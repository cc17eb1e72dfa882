/**
 * Many sessions over one admission gate and one inbox, interleaved step by step. A step takes at most
 * one lock, of the gate or of the inbox, so a run is any order in which their locks can be taken.
 */
module Server {
  import opened Prelude
  import opened InboxSpec
  import opened Codec
  import opened SmtpSpec
  import opened SmtpLaws
  import opened Gate

  /** The store's epoch a DATA captured, and when (see System.clock). */
  datatype Begun = Begun(epoch: nat, at: nat)

  /** What DATA took at the gate, under which policy, and what it captured once it had. */
  datatype Hold = Hold(reserve: nat, policy: Policy, start: Option<Begun>)

  /** `closing`: the session has ended and only its deferred releases are left to run. */
  datatype Conn = Conn(ip: Option<Address>, sess: Sess, history: seq<Exchange>, hold: Option<Hold>, closing: bool)

  /** Where a stored message came from; kept only to state what is proved. */
  datatype Origin = Origin(begun: nat, history: seq<Exchange>, body: Bytes)

  /** `clock` counts steps; `lastWipe` is the clock just after the last wipe. */
  datatype System = System(
    gate: GateState, conns: seq<Conn>, inbox: Inbox, origins: map<Id, Origin>, clock: nat, lastWipe: nat)

  datatype Event =
    | Connect(ip: Option<Address>, admission: AdmissionSpec)
    | Command(conn: nat, policy: Policy, input: Input)
    | DataReserve(conn: nat, policy: Policy)
    | DataStart(conn: nat)
    | DataFinish(conn: nat, policy: Policy, read: DataResult, parsed: Message, refused: Option<InsertError>)
    | ReleaseData(conn: nat)
    | Disconnect(conn: nat)
    | Close(conn: nat)
    | InboxOp(op: Op)

  function Start(inbox: Inbox): System {
    System(EMPTY_GATE, [], inbox, map[], 0, 0)
  }

  // ---------- steps ----------

  /** A session that goes on takes its new state; one that does not is left to its deferred releases. */
  function Settled(c: Conn, p: Policy, i: Input, hold: Option<Hold>): Conn
    requires Expected(c.sess, i)
  {
    var o := Step(c.sess, p, i);
    if o.keep then c.(sess := o.sess, history := c.history + [Exchange(p, i, o.replies)], hold := hold)
    else c.(hold := hold, closing := true)
  }

  function Reservation(c: Conn, p: Policy): nat {
    ReserveBytes(c.sess.declaredSize, c.sess.sizeSet, p.maxMessageBytes)
  }

  /** DATA up to the gate: a refusal is answered at once, an admission first looks at the store. */
  function ReserveData(s: System, k: nat, p: Policy): System
    requires k < |s.conns| && !s.conns[k].sess.receiving
  {
    var c := s.conns[k];
    var n := Reservation(c, p);
    var v := ReserveVerdict(s.gate, n, p.admission);
    if DataAllowed(c.sess, p) && v.Admitted? then
      s.(gate := Reserved(s.gate, n), conns := s.conns[k := c.(hold := Some(Hold(n, p, None)))])
    else
      s.(conns := s.conns[k := Settled(c, p, DataBegin(v), c.hold)])
  }

  /** The epoch is read and DATA answered. */
  function StartData(s: System, k: nat): System
    requires k < |s.conns| && !s.conns[k].sess.receiving && s.conns[k].hold.Some?
  {
    var c := s.conns[k];
    var h := c.hold.value;
    var started := h.(start := Some(Begun(s.inbox.epoch, s.clock)));
    s.(conns := s.conns[k := Settled(c, h.policy, DataBegin(Admitted), Some(started))])
  }

  predicate Captured(c: Conn) {
    c.hold.Some? && c.hold.value.start.Some?
  }

  /** The message handed to the store carries the session's envelope and the bytes received, however they parse. */
  function Enveloped(c: Conn, parsed: Message, read: DataResult): Message {
    parsed.(envelope := Envelope(c.sess.from, c.sess.rcpt, c.sess.helo), raw := BodyOf(read))
  }

  function BodyOf(read: DataResult): Bytes {
    if read.Body? then read.bytes else []
  }

  /** `refused` is the unlocked phase's own refusal; the locked phase decides on the inbox it finds. */
  ghost function InsertVerdict(s: Inbox, epoch: nat, m: Message, refused: Option<InsertError>)
    : Result<nat, InsertError>
  {
    if refused.Some? then Err(refused.value)
    else
      var e := CommitError(s, epoch, m);
      if e.Some? then Err(e.value) else Ok(m.id)
  }

  ghost function EndInput(s: System, k: nat, read: DataResult, parsed: Message, refused: Option<InsertError>): Input
    requires k < |s.conns| && Captured(s.conns[k])
  {
    var c := s.conns[k];
    DataEnd(read, InsertVerdict(s.inbox, c.hold.value.start.value.epoch, Enveloped(c, parsed, read), refused))
  }

  ghost function FinishData(s: System, k: nat, p: Policy, read: DataResult, parsed: Message,
                            refused: Option<InsertError>): System
    requires k < |s.conns| && s.conns[k].sess.receiving && Captured(s.conns[k])
  {
    var c := s.conns[k];
    var m := Enveloped(c, parsed, read);
    var i := EndInput(s, k, read, parsed, refused);
    var t := s.(conns := s.conns[k := Settled(c, p, i, c.hold)]);
    if Stores(p, i) then
      var origin := Origin(c.hold.value.start.value.at, c.history, BodyOf(read));
      t.(inbox := Accept(s.inbox, m), origins := s.origins[m.id := origin])
    else t
  }

  /**
   * Sessions read commands unless they are receiving or closing; what the program defers runs after the
   * command that deferred it; ids are fresh; inserts come from sessions only.
   */
  ghost predicate Enabled(s: System, e: Event) {
    match e
    case Connect(_, _) => true
    case InboxOp(op) => !op.Commit? && Legal(s.inbox, op)
    case _ =>
      e.conn < |s.conns| &&
      var c := s.conns[e.conn];
      match e
      case Command(_, p, i) =>
        !c.closing && c.hold.None? && !i.DataBegin? && !i.DataEnd? && !c.sess.receiving && Sane(p, i)
      case DataReserve(_, p) => !c.closing && c.hold.None? && !c.sess.receiving && Sane(p, DataBegin(Admitted))
      case DataStart(_) => !c.closing && c.hold.Some? && c.hold.value.start.None? && !c.sess.receiving
      case DataFinish(_, p, read, parsed, refused) =>
        !c.closing && Captured(c) && c.sess.receiving && Absent(s.inbox.mail, parsed.id) &&
        Sane(p, DataBegin(Admitted))
      case ReleaseData(_) => Captured(c) && (c.closing || !c.sess.receiving)
      case Disconnect(_) => !c.closing && c.hold.None?
      case Close(_) => c.closing && c.hold.None?
  }

  ghost function Effect(s: System, e: Event): System
    requires Enabled(s, e)
  {
    match e
    case Connect(ip, ad) =>
      if Refuses(s.gate, ip, ad) then s
      else s.(gate := Entered(s.gate, ip), conns := s.conns + [Conn(ip, FRESH, [], None, false)])
    case Command(k, p, i) => s.(conns := s.conns[k := Settled(s.conns[k], p, i, None)])
    case DataReserve(k, p) => ReserveData(s, k, p)
    case DataStart(k) => StartData(s, k)
    case DataFinish(k, p, read, parsed, refused) => FinishData(s, k, p, read, parsed, refused)
    case ReleaseData(k) =>
      s.(gate := Released(s.gate, s.conns[k].hold.value.reserve), conns := s.conns[k := s.conns[k].(hold := None)])
    case Disconnect(k) => s.(conns := s.conns[k := s.conns[k].(closing := true)])
    case Close(k) => s.(gate := Left(s.gate, s.conns[k].ip), conns := s.conns[..k] + s.conns[k + 1..])
    case InboxOp(op) => s.(inbox := Next(s.inbox, op), lastWipe := if Wipes(op) then s.clock + 1 else s.lastWipe)
  }

  ghost function After(s: System, e: Event): System
    requires Enabled(s, e)
  {
    Effect(s, e).(clock := s.clock + 1)
  }

  ghost predicate EnabledRun(s: System, events: seq<Event>)
    decreases |events|
  {
    events == [] || (Enabled(s, events[0]) && EnabledRun(After(s, events[0]), events[1..]))
  }

  ghost function RunOf(s: System, events: seq<Event>): System
    requires EnabledRun(s, events)
    decreases |events|
  {
    if events == [] then s else RunOf(After(s, events[0]), events[1..])
  }

  // ---------- the gate's books ----------

  /** What the gate keeps count of. */
  datatype Measure = Everyone | FromAddress(ip: Address) | Receiving | ReservedBytes

  function Weigh(m: Measure, c: Conn): nat {
    match m
    case Everyone => 1
    case FromAddress(ip) => if c.ip == Some(ip) then 1 else 0
    case Receiving => if c.hold.Some? then 1 else 0
    case ReservedBytes => if c.hold.Some? then c.hold.value.reserve else 0
  }

  function Sum(m: Measure, conns: seq<Conn>): nat {
    if conns == [] then 0 else Sum(m, conns[..|conns| - 1]) + Weigh(m, conns[|conns| - 1])
  }

  /** What the gate's counters say about a measure. */
  function Counted(g: GateState, m: Measure): nat {
    match m
    case Everyone => g.sessions
    case FromAddress(ip) => PerIP(g, ip)
    case Receiving => g.inflight
    case ReservedBytes => g.reserved
  }

  lemma {:induction false} SumConcat(m: Measure, a: seq<Conn>, b: seq<Conn>)
    ensures Sum(m, a + b) == Sum(m, a) + Sum(m, b)
    decreases |b|
  {
    if b == [] {
      assert a + b == a;
    } else {
      var front := b[..|b| - 1];
      assert (a + b)[..|a + b| - 1] == a + front;
      SumConcat(m, a, front);
    }
  }

  lemma SumOne(m: Measure, c: Conn)
    ensures Sum(m, [c]) == Weigh(m, c)
  {
    assert Sum(m, [c][..0]) == 0;
  }

  /** The sum split around one session. */
  lemma SumAround(m: Measure, conns: seq<Conn>, k: nat, c: Conn)
    requires k < |conns|
    ensures Sum(m, conns) == Sum(m, conns[..k] + conns[k + 1..]) + Weigh(m, conns[k])
    ensures Sum(m, conns[k := c]) == Sum(m, conns[..k] + conns[k + 1..]) + Weigh(m, c)
  {
    var a, b := conns[..k], conns[k + 1..];
    assert conns == a + [conns[k]] + b;
    assert conns[k := c] == a + [c] + b;
    SumConcat(m, a + [conns[k]], b);
    SumConcat(m, a, [conns[k]]);
    SumConcat(m, a + [c], b);
    SumConcat(m, a, [c]);
    SumConcat(m, a, b);
    SumOne(m, conns[k]);
    SumOne(m, c);
  }

  /** The counters are the sums over the open sessions, and no address is listed with a zero. */
  ghost predicate Balanced(s: System) {
    (forall m :: Counted(s.gate, m) == Sum(m, s.conns)) &&
    (forall ip :: ip in s.gate.perIP ==> s.gate.perIP[ip] > 0)
  }

  /** Replacing one session moves the counter by the difference of the two weights. */
  lemma ReplacedCounts(s: System, m: Measure, k: nat, c: Conn, g: GateState)
    requires Counted(s.gate, m) == Sum(m, s.conns) && k < |s.conns|
    requires Weigh(m, s.conns[k]) <= Counted(s.gate, m) ==>
             Counted(g, m) == Counted(s.gate, m) - Weigh(m, s.conns[k]) + Weigh(m, c)
    ensures Counted(g, m) == Sum(m, s.conns[k := c])
  {
    SumAround(m, s.conns, k, c);
  }

  lemma SameWeightCounts(s: System, m: Measure, k: nat, c: Conn)
    requires Counted(s.gate, m) == Sum(m, s.conns) && k < |s.conns|
    requires c.ip == s.conns[k].ip && c.hold == s.conns[k].hold
    ensures Counted(s.gate, m) == Sum(m, s.conns[k := c])
  {
    SumAround(m, s.conns, k, c);
  }

  lemma ClosedCounts(s: System, m: Measure, k: nat)
    requires Counted(s.gate, m) == Sum(m, s.conns) && k < |s.conns| && s.conns[k].hold.None?
    ensures Counted(Left(s.gate, s.conns[k].ip), m) == Sum(m, s.conns[..k] + s.conns[k + 1..])
  {
    SumAround(m, s.conns, k, s.conns[k]);
  }

  /** A step of one session that leaves the gate and its own hold alone. */
  lemma QuietCounts(s: System, e: Event, m: Measure)
    requires Enabled(s, e) && Counted(s.gate, m) == Sum(m, s.conns)
    requires e.Command? || e.DataFinish? || e.Disconnect?
    ensures Counted(After(s, e).gate, m) == Sum(m, After(s, e).conns)
  {
    hide Step, Next, Legal, Accept, InsertVerdict, DataAllowed, ReserveVerdict, ReserveBytes, Sane, Sum, Refuses,
      Stores, Counted;
    SameWeightCounts(s, m, e.conn, After(s, e).conns[e.conn]);
  }

  lemma ConnectCounts(s: System, ip: Option<Address>, m: Measure)
    requires Counted(s.gate, m) == Sum(m, s.conns)
    ensures Counted(Entered(s.gate, ip), m) == Sum(m, s.conns + [Conn(ip, FRESH, [], None, false)])
  {
    SumConcat(m, s.conns, [Conn(ip, FRESH, [], None, false)]);
    SumOne(m, Conn(ip, FRESH, [], None, false));
  }

  lemma ReserveCounts(s: System, k: nat, p: Policy, m: Measure)
    requires k < |s.conns| && !s.conns[k].sess.receiving && s.conns[k].hold.None?
    requires Counted(s.gate, m) == Sum(m, s.conns)
    ensures var t := ReserveData(s, k, p); Counted(t.gate, m) == Sum(m, t.conns)
  {
    hide Step, DataAllowed, ReserveVerdict, ReserveBytes, Sum;
    var t := ReserveData(s, k, p);
    ReplacedCounts(s, m, k, t.conns[k], t.gate);
  }

  lemma StartCounts(s: System, k: nat, m: Measure)
    requires k < |s.conns| && !s.conns[k].sess.receiving && s.conns[k].hold.Some?
    requires Counted(s.gate, m) == Sum(m, s.conns)
    ensures var t := StartData(s, k); t.gate == s.gate && Counted(t.gate, m) == Sum(m, t.conns)
  {
    hide Step, Sum;
    var t := StartData(s, k);
    ReplacedCounts(s, m, k, t.conns[k], t.gate);
  }

  lemma ReleaseCounts(s: System, k: nat, m: Measure)
    requires k < |s.conns| && s.conns[k].hold.Some? && Counted(s.gate, m) == Sum(m, s.conns)
    ensures Counted(Released(s.gate, s.conns[k].hold.value.reserve), m) ==
            Sum(m, s.conns[k := s.conns[k].(hold := None)])
  {
    ReplacedCounts(s, m, k, s.conns[k].(hold := None), Released(s.gate, s.conns[k].hold.value.reserve));
  }

  lemma StepCounts(s: System, e: Event, m: Measure)
    requires Enabled(s, e) && Counted(s.gate, m) == Sum(m, s.conns)
    ensures Counted(After(s, e).gate, m) == Sum(m, After(s, e).conns)
  {
    hide Step, Next, Legal, Accept, InsertVerdict, DataAllowed, ReserveVerdict, ReserveBytes, Sane, Sum, Refuses,
      Stores, Counted, ReserveData, StartData, Released, Left, Entered;
    match e
    case Connect(ip, _) => ConnectCounts(s, ip, m);
    case InboxOp(_) =>
    case Close(k) => ClosedCounts(s, m, k);
    case ReleaseData(k) => ReleaseCounts(s, k, m);
    case DataReserve(k, p) => ReserveCounts(s, k, p, m);
    case DataStart(k) => StartCounts(s, k, m);
    case _ => QuietCounts(s, e, m);
  }

  lemma StepListsNoZero(s: System, e: Event)
    requires Enabled(s, e) && forall ip :: ip in s.gate.perIP ==> s.gate.perIP[ip] > 0
    ensures forall ip :: ip in After(s, e).gate.perIP ==> After(s, e).gate.perIP[ip] > 0
  {
    hide Step, Next, Legal, Accept, InsertVerdict, DataAllowed, ReserveVerdict, ReserveBytes, Sane, Refuses, Stores;
  }

  lemma StepBalances(s: System, e: Event)
    requires Balanced(s) && Enabled(s, e)
    ensures Balanced(After(s, e))
  {
    hide After, Enabled, Counted, Sum;
    forall m
      ensures Counted(After(s, e).gate, m) == Sum(m, After(s, e).conns)
    {
      StepCounts(s, e, m);
    }
    StepListsNoZero(s, e);
  }

  // ---------- admission caps ----------

  /** The four caps; a cap of zero or less is no cap. */
  ghost predicate WithinCaps(g: GateState, ad: AdmissionSpec) {
    (ad.maxSessions > 0 ==> g.sessions <= ad.maxSessions) &&
    (ad.maxSessionsPerIP > 0 ==> forall ip :: PerIP(g, ip) <= ad.maxSessionsPerIP) &&
    (ad.maxInFlightData > 0 ==> g.inflight <= ad.maxInFlightData) &&
    (ad.maxInFlightDataBytes > 0 ==> g.reserved <= ad.maxInFlightDataBytes)
  }

  predicate UsesAdmission(e: Event, ad: AdmissionSpec) {
    (e.Connect? ==> e.admission == ad) && (e.DataReserve? ==> e.policy.admission == ad)
  }

  lemma EnteredStaysWithin(g: GateState, ip: Option<Address>, ad: AdmissionSpec)
    requires WithinCaps(g, ad) && !Refuses(g, ip, ad)
    ensures WithinCaps(Entered(g, ip), ad)
  {
    forall x
      ensures ad.maxSessionsPerIP > 0 ==> PerIP(Entered(g, ip), x) <= ad.maxSessionsPerIP
    {
      assert PerIP(Entered(g, ip), x) == PerIP(g, x) + if ip == Some(x) then 1 else 0;
    }
  }

  lemma StepKeepsCaps(s: System, e: Event, ad: AdmissionSpec)
    requires Enabled(s, e) && UsesAdmission(e, ad) && WithinCaps(s.gate, ad)
    ensures WithinCaps(After(s, e).gate, ad)
  {
    hide Step, Next, Legal, Accept, InsertVerdict, DataAllowed, ReserveBytes, Sane, Settled, Stores;
    match e
    case Connect(ip, _) =>
      if !Refuses(s.gate, ip, ad) {
        EnteredStaysWithin(s.gate, ip, ad);
      }
    case DataReserve(_, _) => assert forall ip :: PerIP(After(s, e).gate, ip) == PerIP(s.gate, ip);
    case ReleaseData(_) => assert forall ip :: PerIP(After(s, e).gate, ip) == PerIP(s.gate, ip);
    case Close(k) => assert forall ip :: PerIP(Left(s.gate, s.conns[k].ip), ip) <= PerIP(s.gate, ip);
    case _ =>
  }

  // ---------- where stored messages come from ----------

  /** `m` carries the envelope of a session that was receiving after `o.history`. */
  ghost predicate Delivered(m: Message, o: Origin) {
    exists sess: Sess ::
      Reached(sess, o.history) && sess.receiving && m.envelope == Envelope(sess.from, sess.rcpt, sess.helo)
  }

  ghost predicate ConnOK(s: System, c: Conn) {
    Reached(c.sess, c.history) &&
    (c.sess.receiving && !c.closing ==> Captured(c)) &&
    (c.hold.Some? && c.hold.value.start.None? ==> Sane(c.hold.value.policy, DataBegin(Admitted))) &&
    (Captured(c) ==>
       var b := c.hold.value.start.value;
       b.epoch <= s.inbox.epoch && (b.epoch == s.inbox.epoch ==> s.lastWipe <= b.at))
  }

  ghost predicate MailOK(s: System, m: Message) {
    m.id in s.origins && Delivered(m, s.origins[m.id]) && s.lastWipe <= s.origins[m.id].begun &&
    m.raw == s.origins[m.id].body
  }

  ghost predicate Traced(s: System) {
    s.lastWipe <= s.clock &&
    (forall k :: 0 <= k < |s.conns| ==> ConnOK(s, s.conns[k])) &&
    (forall j :: 0 <= j < |s.inbox.mail| ==> MailOK(s, s.inbox.mail[j]))
  }

  lemma SettledStaysReached(c: Conn, p: Policy, i: Input, hold: Option<Hold>)
    requires Reached(c.sess, c.history) && Expected(c.sess, i) && Sane(p, i)
    ensures Reached(Settled(c, p, i, hold).sess, Settled(c, p, i, hold).history)
  {
    hide Step, Sane;
    var d := Settled(c, p, i, hold);
    var o := Step(c.sess, p, i);
    if o.keep {
      var x := Exchange(p, i, o.replies);
      assert d.history[..|d.history| - 1] == c.history && d.history[|d.history| - 1] == x;
      assert Reached(c.sess, d.history[..|d.history| - 1]) && Leads(c.sess, x, d.sess);
    }
  }

  /** Only the admitted DATA makes a session receive. */
  lemma SettledReceives(c: Conn, p: Policy, i: Input, hold: Option<Hold>)
    requires Expected(c.sess, i) && !Settled(c, p, i, hold).closing && Settled(c, p, i, hold).sess.receiving
    ensures i.DataBegin? && i.gate.Admitted? && DataAllowed(c.sess, p)
  {
    hide PolicyOK;
  }

  /** The new state of the session an event is about. */
  lemma StepTracesConn(s: System, e: Event)
    requires Traced(s) && Enabled(s, e) && !e.Connect? && !e.InboxOp? && !e.Close?
    ensures ConnOK(After(s, e), After(s, e).conns[e.conn])
  {
    hide Step, Reached, EvictFor, Placed, CommitError, Sane, DataAllowed, ReserveVerdict, ReserveBytes, Settled, MailOK;
    var c := s.conns[e.conn];
    match e
    case Command(k, p, i) =>
      SettledStaysReached(c, p, i, None);
      SettledKeepsHold(c, p, i, None);
    case DataReserve(k, p) =>
      var v := ReserveVerdict(s.gate, Reservation(c, p), p.admission);
      SaneData(p, DataBegin(v));
      SettledStaysReached(c, p, DataBegin(v), c.hold);
      SettledKeepsHold(c, p, DataBegin(v), c.hold);
    case DataStart(k) =>
      var p := c.hold.value.policy;
      var h := Some(c.hold.value.(start := Some(Begun(s.inbox.epoch, s.clock))));
      SettledStaysReached(c, p, DataBegin(Admitted), h);
      SettledKeepsHold(c, p, DataBegin(Admitted), h);
    case DataFinish(k, p, read, parsed, refused) =>
      var i := EndInput(s, k, read, parsed, refused);
      SaneData(p, i);
      SettledStaysReached(c, p, i, c.hold);
      SettledKeepsHold(c, p, i, c.hold);
    case _ =>
  }

  lemma SaneData(p: Policy, i: Input)
    requires Sane(p, DataBegin(Admitted)) && !i.Auth?
    ensures Sane(p, i)
  {
  }

  lemma SettledKeepsHold(c: Conn, p: Policy, i: Input, hold: Option<Hold>)
    requires Expected(c.sess, i)
    ensures Settled(c, p, i, hold).hold == hold
    ensures Settled(c, p, i, hold).sess.receiving && !Settled(c, p, i, hold).closing ==>
              i.DataBegin? && i.gate.Admitted? && DataAllowed(c.sess, p)
  {
    hide Step, DataAllowed;
    if Settled(c, p, i, hold).sess.receiving && !Settled(c, p, i, hold).closing {
      SettledReceives(c, p, i, hold);
    }
  }

  /** Every other session keeps what it had. */
  lemma OthersStayOK(s: System, t: System, c: Conn)
    requires ConnOK(s, c) && s.lastWipe <= s.clock
    requires (t.inbox.epoch == s.inbox.epoch && t.lastWipe == s.lastWipe) || t.inbox.epoch == s.inbox.epoch + 1
    ensures ConnOK(t, c)
  {
    hide Reached;
  }

  lemma StepMovesEpoch(s: System, e: Event)
    requires Enabled(s, e)
    ensures var t := After(s, e);
            (t.inbox.epoch == s.inbox.epoch && t.lastWipe == s.lastWipe) || t.inbox.epoch == s.inbox.epoch + 1
  {
    hide Step, Next, Legal, CommitError, EvictFor, Placed, Sane, Settled, DataAllowed, ReserveVerdict, Refuses, Stores;
    if e.InboxOp? {
      NextMovesEpoch(s.inbox, e.op);
    }
  }

  lemma StepTracesConns(s: System, e: Event)
    requires Traced(s) && Enabled(s, e)
    ensures forall k :: 0 <= k < |After(s, e).conns| ==> ConnOK(After(s, e), After(s, e).conns[k])
  {
    StepMovesEpoch(s, e);
    var t := After(s, e);
    hide ConnOK, MailOK, Step, Next, Legal, CommitError, EvictFor, Placed, Sane, Settled, DataAllowed, ReserveVerdict,
      ReserveBytes, Refuses, Stores;
    if !e.Connect? && !e.InboxOp? && !e.Close? {
      StepTracesConn(s, e);
    }
    forall k | 0 <= k < |t.conns|
      ensures ConnOK(t, t.conns[k])
    {
      if e.Connect? && k == |s.conns| {
        NewConnOK(t, e.ip);
      } else if e.Close? && k >= e.conn {
        OthersStayOK(s, t, s.conns[k + 1]);
      } else if e.Connect? || e.InboxOp? || e.Close? || k != e.conn {
        OthersStayOK(s, t, s.conns[k]);
      }
    }
  }

  lemma NewConnOK(s: System, ip: Option<Address>)
    ensures ConnOK(s, Conn(ip, FRESH, [], None, false))
  {
    assert Reached(FRESH, []);
  }

  lemma SameLetterOK(s: System, t: System, a: Message, b: Message)
    requires MailOK(s, a) && a.id == b.id && a.envelope == b.envelope && a.raw == b.raw && s.lastWipe == t.lastWipe
    requires a.id in s.origins ==> a.id in t.origins && t.origins[a.id] == s.origins[a.id]
    ensures MailOK(t, b)
  {
    hide Reached;
  }

  lemma StoredLetterOK(s: System, t: System, c: Conn, m: Message)
    requires ConnOK(s, c) && Captured(c) && c.sess.receiving && c.hold.value.start.value.epoch == s.inbox.epoch
    requires t.lastWipe == s.lastWipe && m.envelope == Envelope(c.sess.from, c.sess.rcpt, c.sess.helo)
    requires m.id in t.origins && t.origins[m.id] == Origin(c.hold.value.start.value.at, c.history, m.raw)
    ensures MailOK(t, m)
  {
    hide Reached;
  }

  /** The inbox holds what it held before, except the message a finished DATA may have added. */
  lemma FinishTracesMail(s: System, e: Event, j: nat)
    requires Traced(s) && Enabled(s, e) && e.DataFinish? && j < |After(s, e).inbox.mail|
    ensures MailOK(After(s, e), After(s, e).inbox.mail[j])
  {
    hide ConnOK, MailOK, Step, Next, Legal, CanAccept, EvictFor, Placed, Sane, Settled, DataAllowed, Reached;
    var t, c := After(s, e), s.conns[e.conn];
    var m, i := Enveloped(c, e.parsed, e.read), EndInput(s, e.conn, e.read, e.parsed, e.refused);
    if Stores(e.policy, i) {
      var k := AcceptAddsOne(s.inbox, m, j);
      if t.inbox.mail[j] == m {
        StoredLetterOK(s, t, c, m);
      } else {
        SameLetterOK(s, t, s.inbox.mail[k], t.inbox.mail[j]);
      }
    } else {
      SameLetterOK(s, t, s.inbox.mail[j], t.inbox.mail[j]);
    }
  }

  lemma StepTracesMail(s: System, e: Event, j: nat)
    requires Traced(s) && Enabled(s, e) && j < |After(s, e).inbox.mail|
    ensures MailOK(After(s, e), After(s, e).inbox.mail[j])
  {
    hide ConnOK, MailOK, Step, Next, Legal, CanAccept, EvictFor, Placed, Sane, Settled, DataAllowed, Reached,
      ReserveVerdict, ReserveBytes, Refuses, Stores;
    var t := After(s, e);
    if e.DataFinish? {
      FinishTracesMail(s, e, j);
    } else if e.InboxOp? {
      NextMovesEpoch(s.inbox, e.op);
      var i := NextKeepsLetters(s.inbox, e.op, j);
      SameLetterOK(s, t, s.inbox.mail[i], t.inbox.mail[j]);
    } else {
      SameLetterOK(s, t, s.inbox.mail[j], t.inbox.mail[j]);
    }
  }

  lemma StepTraces(s: System, e: Event)
    requires Traced(s) && Enabled(s, e)
    ensures Traced(After(s, e))
  {
    hide ConnOK, MailOK, Step, Next, Legal, CanAccept, EvictFor, Placed, Sane, Settled, DataAllowed, Reached,
      ReserveVerdict, ReserveBytes, Refuses, Stores;
    StepTracesConns(s, e);
    forall j | 0 <= j < |After(s, e).inbox.mail|
      ensures MailOK(After(s, e), After(s, e).inbox.mail[j])
    {
      StepTracesMail(s, e, j);
    }
  }

  lemma StepKeepsInbox(s: System, e: Event)
    requires WellFormed(s.inbox) && Enabled(s, e)
    ensures WellFormed(After(s, e).inbox)
  {
    hide WellFormed, Step, Next, CanAccept, EvictFor, Placed, Sane, Settled, DataAllowed, Resident;
    match e
    case InboxOp(op) => NextKeepsWellFormed(s.inbox, op);
    case DataFinish(k, p, read, parsed, refused) =>
      var m := Enveloped(s.conns[k], parsed, read);
      if Stores(p, EndInput(s, k, read, parsed, refused)) {
        AcceptKeepsWellFormed(s.inbox, m);
      }
    case _ =>
  }

  // ---------- every run ----------

  ghost predicate Sound(s: System) {
    Balanced(s) && Traced(s) && WellFormed(s.inbox)
  }

  lemma {:induction false} RunsStaySound(s: System, events: seq<Event>)
    requires Sound(s) && EnabledRun(s, events)
    ensures Sound(RunOf(s, events))
    decreases |events|
  {
    hide Balanced, Traced, WellFormed, Enabled, After;
    if events != [] {
      StepBalances(s, events[0]);
      StepTraces(s, events[0]);
      StepKeepsInbox(s, events[0]);
      RunsStaySound(After(s, events[0]), events[1..]);
    }
  }

  lemma StartIsSound(inbox: Inbox)
    requires WellFormed(inbox) && inbox.mail == []
    ensures Sound(Start(inbox))
  {
    hide WellFormed;
    assert forall m :: Sum(m, []) == 0;
  }

  /**
   * For every interleaving: the gate's four counts are the open sessions, the open sessions of each
   * address, the messages in flight and the bytes they reserved; no address is listed with a zero, and
   * the addresses' counts and the sessions without one make up the sessions.
   */
  lemma GateBooksAreExact(inbox: Inbox, events: seq<Event>)
    requires WellFormed(inbox) && inbox.mail == [] && EnabledRun(Start(inbox), events)
    ensures var s := RunOf(Start(inbox), events);
            s.gate.sessions == |s.conns| &&
            (forall ip :: PerIP(s.gate, ip) == Sum(FromAddress(ip), s.conns)) &&
            (forall ip :: ip in s.gate.perIP ==> s.gate.perIP[ip] > 0) &&
            s.gate.sessions == AddressTotal(s.gate.perIP) + WithoutAddress(s.conns) &&
            s.gate.inflight == Sum(Receiving, s.conns) && s.gate.reserved == Sum(ReservedBytes, s.conns)
  {
    hide Traced, WellFormed, Enabled, After;
    StartIsSound(inbox);
    RunsStaySound(Start(inbox), events);
    var s := RunOf(Start(inbox), events);
    EveryoneCountsOne(s.conns);
    assert Counted(s.gate, Everyone) == Sum(Everyone, s.conns);
    assert Counted(s.gate, Receiving) == Sum(Receiving, s.conns);
    assert Counted(s.gate, ReservedBytes) == Sum(ReservedBytes, s.conns);
    forall ip
      ensures PerIP(s.gate, ip) == Sum(FromAddress(ip), s.conns)
    {
      assert Counted(s.gate, FromAddress(ip)) == Sum(FromAddress(ip), s.conns);
    }
    AddressesAddUp(s.gate.perIP, s.conns);
  }

  function WithoutAddress(conns: seq<Conn>): nat {
    if conns == [] then 0 else WithoutAddress(conns[..|conns| - 1]) + if conns[|conns| - 1].ip.None? then 1 else 0
  }

  /** The sum of a map's values. */
  ghost function AddressTotal(m: map<Address, nat>): nat {
    if m == map[] then 0
    else
      var ip :| ip in m;
      m[ip] + AddressTotal(m - {ip})
  }

  /** It does not matter which key is taken first. */
  lemma {:induction false} AddressTotalWithout(m: map<Address, nat>, ip: Address)
    requires ip in m
    ensures AddressTotal(m) == m[ip] + AddressTotal(m - {ip})
    decreases |m|
  {
    var first :| first in m && AddressTotal(m) == m[first] + AddressTotal(m - {first});
    if first != ip {
      AddressTotalWithout(m - {first}, ip);
      AddressTotalWithout(m - {ip}, first);
      assert m - {first} - {ip} == m - {ip} - {first};
    }
  }

  lemma AddressTotalUpdated(m: map<Address, nat>, ip: Address, n: nat)
    ensures AddressTotal(m[ip := n]) == AddressTotal(m - {ip}) + n
  {
    AddressTotalWithout(m[ip := n], ip);
    assert m[ip := n] - {ip} == m - {ip};
  }

  /** `m` counts the sessions of each address and lists no other address. */
  ghost predicate CountsAddresses(m: map<Address, nat>, conns: seq<Conn>) {
    (forall ip :: (if ip in m then m[ip] else 0) == Sum(FromAddress(ip), conns)) && forall ip :: ip in m ==> m[ip] > 0
  }

  /** Counts of each address add up to the sessions that have one. */
  lemma {:induction false} AddressesAddUp(m: map<Address, nat>, conns: seq<Conn>)
    requires CountsAddresses(m, conns)
    ensures AddressTotal(m) + WithoutAddress(conns) == |conns|
    decreases |conns|
  {
    if conns == [] {
      assert forall ip :: Sum(FromAddress(ip), conns) == 0;
      assert m == map[];
    } else {
      var front, c := conns[..|conns| - 1], conns[|conns| - 1];
      if c.ip.None? {
        forall ip
          ensures Sum(FromAddress(ip), conns) == Sum(FromAddress(ip), front)
        {
        }
        AddressesAddUp(m, front);
      } else {
        var ip := c.ip.value;
        var n := Sum(FromAddress(ip), front);
        var less := if n == 0 then m - {ip} else m[ip := n];
        forall x
          ensures (if x in less then less[x] else 0) == Sum(FromAddress(x), front)
        {
          assert (if x in m then m[x] else 0) == Sum(FromAddress(x), conns);
        }
        AddressesAddUp(less, front);
        assert m[ip] == n + 1 by {
          assert (if ip in m then m[ip] else 0) == Sum(FromAddress(ip), conns);
        }
        AddressTotalWithout(m, ip);
        AddressTotalUpdated(m, ip, n);
      }
    }
  }

  lemma {:induction false} EveryoneCountsOne(conns: seq<Conn>)
    ensures Sum(Everyone, conns) == |conns|
    decreases |conns|
  {
    if conns != [] {
      EveryoneCountsOne(conns[..|conns| - 1]);
    }
  }

  /** No release ever meets its clamp: what it gives back is there to be given back. */
  lemma NoClampFires(s: System, e: Event)
    requires Sound(s) && Enabled(s, e)
    ensures e.ReleaseData? ==>
              s.gate.inflight >= 1 && s.gate.reserved >= s.conns[e.conn].hold.value.reserve
    ensures e.Close? ==>
              s.gate.sessions >= 1 && (s.conns[e.conn].ip.Some? ==> PerIP(s.gate, s.conns[e.conn].ip.value) >= 1)
  {
    hide Traced, WellFormed;
    if e.ReleaseData? {
      var c := s.conns[e.conn];
      SumAround(Receiving, s.conns, e.conn, c);
      SumAround(ReservedBytes, s.conns, e.conn, c);
      assert Counted(s.gate, Receiving) == Sum(Receiving, s.conns);
      assert Counted(s.gate, ReservedBytes) == Sum(ReservedBytes, s.conns);
    } else if e.Close? {
      var c := s.conns[e.conn];
      SumAround(Everyone, s.conns, e.conn, c);
      assert Counted(s.gate, Everyone) == Sum(Everyone, s.conns);
      if c.ip.Some? {
        var m := FromAddress(c.ip.value);
        SumAround(m, s.conns, e.conn, c);
        assert Counted(s.gate, m) == Sum(m, s.conns);
      }
    }
  }

  /** Under one admission spec the four caps hold in every state of every run. */
  lemma {:induction false} RunsStayWithinCaps(s: System, events: seq<Event>, ad: AdmissionSpec)
    requires EnabledRun(s, events) && WithinCaps(s.gate, ad)
    requires forall k :: 0 <= k < |events| ==> UsesAdmission(events[k], ad)
    ensures WithinCaps(RunOf(s, events).gate, ad)
    decreases |events|
  {
    hide WithinCaps, Enabled, After;
    if events != [] {
      StepKeepsCaps(s, events[0], ad);
      RunsStayWithinCaps(After(s, events[0]), events[1..], ad);
    }
  }

  /**
   * For every interleaving of sessions, wipes and resets: each stored message was begun after the last
   * wipe, is the body its session received, carries the transaction its session's conversation had open,
   * and, when the policy of its DATA asked for TLS or a login, comes from a conversation that shows them.
   */
  lemma StoredMailIsAccountedFor(inbox: Inbox, events: seq<Event>, m: Message)
    requires WellFormed(inbox) && inbox.mail == [] && EnabledRun(Start(inbox), events)
    requires m in RunOf(Start(inbox), events).inbox.mail
    ensures var s := RunOf(Start(inbox), events);
            m.id in s.origins && s.lastWipe <= s.origins[m.id].begun && m.raw == s.origins[m.id].body &&
            var h := s.origins[m.id].history;
            h != [] && h[|h| - 1].input.DataBegin? && m.envelope.to != [] &&
            OpenTransaction(h) == Sending(m.envelope.from, m.envelope.to) && GivenName(h) == m.envelope.helo &&
            var p := h[|h| - 1].policy;
            (p.startTLS && p.tlsRequired ==> SeenUpgraded(h)) && (p.plainLogin ==> SeenAuthed(h))
  {
    hide Reached, Balanced, WellFormed, Enabled, After, ConnOK;
    StartIsSound(inbox);
    RunsStaySound(Start(inbox), events);
    var s := RunOf(Start(inbox), events);
    var j :| 0 <= j < |s.inbox.mail| && s.inbox.mail[j] == m;
    assert MailOK(s, s.inbox.mail[j]);
    var o := s.origins[m.id];
    var sess: Sess :|
      Reached(sess, o.history) && sess.receiving && m.envelope == Envelope(sess.from, sess.rcpt, sess.helo);
    ReceivingIsAllowed(sess, o.history);
    EnvelopeIsOpenTransaction(sess, o.history);
  }

  /** And no stored message has more recipients than the policies its conversation met allow. */
  lemma StoredMailWithinRecipientLimit(inbox: Inbox, events: seq<Event>, m: Message, n: nat)
    requires WellFormed(inbox) && inbox.mail == [] && EnabledRun(Start(inbox), events)
    requires m in RunOf(Start(inbox), events).inbox.mail
    requires var s := RunOf(Start(inbox), events);
             m.id in s.origins ==>
               forall k :: 0 <= k < |s.origins[m.id].history| ==>
                 s.origins[m.id].history[k].policy.maxRecipients <= n
    ensures |m.envelope.to| <= n
  {
    hide Reached, Balanced, WellFormed, Enabled, After, ConnOK, OpenTransaction;
    StartIsSound(inbox);
    RunsStaySound(Start(inbox), events);
    var s := RunOf(Start(inbox), events);
    var j :| 0 <= j < |s.inbox.mail| && s.inbox.mail[j] == m;
    assert MailOK(s, s.inbox.mail[j]);
    var o := s.origins[m.id];
    var sess: Sess :|
      Reached(sess, o.history) && sess.receiving && m.envelope == Envelope(sess.from, sess.rcpt, sess.helo);
    EnvelopeIsOpenTransaction(sess, o.history);
    RecipientsWithinLimit(sess, o.history, n);
  }

  /** The client is told below 400 exactly when its message is in the inbox afterwards; otherwise nothing changed. */
  lemma ReplyTellsInbox(s: System, e: Event)
    requires Enabled(s, e) && e.DataFinish?
    ensures var i := EndInput(s, e.conn, e.read, e.parsed, e.refused);
            var replies := Step(s.conns[e.conn].sess, e.policy, i).replies;
            var m := Enveloped(s.conns[e.conn], e.parsed, e.read);
            |replies| <= 1 &&
            (if |replies| == 1 && replies[0] < 400
             then m in After(s, e).inbox.mail
             else After(s, e).inbox == s.inbox && !(exists j :: 0 <= j < |s.inbox.mail| && s.inbox.mail[j] == m))
  {
    hide Step, Next, Legal, CanAccept, EvictFor, Settled, DataAllowed, Reached;
    var c := s.conns[e.conn];
    var i := EndInput(s, e.conn, e.read, e.parsed, e.refused);
    var m := Enveloped(c, e.parsed, e.read);
    SaneData(e.policy, i);
    FinalReplyTellsStorage(c.sess, e.policy, i);
    if Stores(e.policy, i) {
      var k := EvictFor(s.inbox, Resident(m));
      EvictForIsShortestPrefix(s.inbox, Resident(m));
      assert After(s, e).inbox.mail[Position(s.inbox.mail[k..], m)] == m;
    }
  }
}
