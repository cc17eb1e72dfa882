/** The session object: its fields change command by command, over the shared gate and store. */
module Session {
  import opened Prelude
  import opened InboxSpec
  import opened Codec
  import opened SmtpSpec
  import opened Gate
  import opened MemoryStore

  class Session {
    var state: Phase
    var helo: string
    var from: string
    var rcpt: seq<string>
    var declaredSize: int
    var sizeSet: bool
    var tls: bool
    var authed: bool
    var sent: seq<int>   // the reply codes written so far
    const gate: AdmissionGate
    const store: Memory

    ghost function View(): Sess
      reads this
    {
      Sess(state, helo, from, rcpt, declaredSize, sizeSet, tls, authed, false)
    }

    /** The session and what it wrote are what the step says. */
    ghost predicate Did(before: Sess, wrote: seq<int>, o: Outcome, keep: bool)
      reads this
    {
      View() == o.sess.(receiving := false) && sent == wrote + o.replies && keep == o.keep
    }

    constructor (gate: AdmissionGate, store: Memory)
      ensures View() == FRESH && sent == [] && this.gate == gate && this.store == store
    {
      state, helo, from, rcpt := Greeting, "", "", [];
      declaredSize, sizeSet, tls, authed, sent := 0, false, false, false, [];
      this.gate := gate;
      this.store := store;
    }

    // ---------- replies ----------

    method Reply(code: int)
      modifies this`sent
      ensures sent == old(sent) + [code]
    {
      sent := sent + [code];
    }

    method ReplyKeyed(p: Policy, v: Verb, code: int) returns (keep: bool)
      modifies this`sent
      ensures sent == old(sent) + [Keyed(p, v, code)] && keep == !Closes(p, v)
    {
      var c := code;
      if v in p.overrides {
        c := p.overrides[v];
      }
      Reply(c);
      keep := p.closeAfter != Some(v);
    }

    method ApplyErrorOverride(p: Policy, v: Verb) returns (handled: bool, keep: bool)
      modifies this`sent
      ensures handled == Errs(p, v)
      ensures if handled then sent == old(sent) + [Keyed(p, v, 250)] && keep == !Closes(p, v)
              else sent == old(sent) && keep
    {
      if v !in p.overrides || p.overrides[v] < 400 {
        handled, keep := false, true;
      } else {
        Reply(p.overrides[v]);
        handled, keep := true, p.closeAfter != Some(v);
      }
    }

    method CheckPolicy(p: Policy) returns (ok: bool)
      modifies this`sent
      ensures ok == PolicyOK(View(), p) && sent == old(sent) + if ok then [] else [530]
    {
      ok := true;
      if p.startTLS && p.tlsRequired && !tls {
        Reply(530);
        ok := false;
      } else if p.plainLogin && !authed {
        Reply(530);
        ok := false;
      }
    }

    // ---------- resets ----------

    method ResetTransaction()
      modifies this`from, this`rcpt, this`declaredSize, this`sizeSet
      ensures View() == ResetTxn(old(View()))
    {
      from, rcpt, declaredSize, sizeSet := "", [], 0, false;
    }

    method ResetToHello()
      modifies this`from, this`rcpt, this`declaredSize, this`sizeSet, this`state
      ensures View() == ResetToHelloed(old(View()))
    {
      ResetTransaction();
      state := if helo != "" then Helloed else Greeting;
    }

    method ResetAfterUpgrade()
      modifies this
      ensures View() == ResetAfterTLS(old(View())) && sent == old(sent)
    {
      ResetTransaction();
      helo, authed, tls, state := "", false, true, Greeting;
    }

    // ---------- commands ----------

    method CmdHello(p: Policy, domain: string, ehlo: bool) returns (keep: bool)
      modifies this
      ensures Did(old(View()), old(sent), Step(old(View()), p, Hello(domain, ehlo)), keep)
    {
      var verb := if ehlo then EHLO else HELO;
      if domain == "" {
        Reply(501);
        keep := true;
      } else {
        var handled;
        handled, keep := ApplyErrorOverride(p, verb);
        if !handled {
          ResetTransaction();
          helo, state := domain, Helloed;
          keep := ReplyKeyed(p, verb, 250);
        }
      }
    }

    method CmdMail(p: Policy, arg: Option<MailArg>) returns (keep: bool)
      modifies this
      ensures Did(old(View()), old(sent), Step(old(View()), p, Mail(arg)), keep)
    {
      keep := true;
      if state != Helloed {
        Reply(503);
      } else {
        var handled;
        handled, keep := ApplyErrorOverride(p, MAIL);
        if !handled {
          var ok := CheckPolicy(p);
          if ok {
            if arg.None? {
              Reply(501);
            } else if arg.value.size.Some? && arg.value.size.value > p.maxMessageBytes {
              Reply(552);
            } else {
              from, sizeSet := arg.value.path, arg.value.size.Some?;
              declaredSize := if arg.value.size.Some? then arg.value.size.value else 0;
              rcpt, state := [], InMail;
              keep := ReplyKeyed(p, MAIL, 250);
            }
          }
        }
      }
    }

    method CmdRcpt(p: Policy, path: Option<string>) returns (keep: bool)
      modifies this
      ensures Did(old(View()), old(sent), Step(old(View()), p, Rcpt(path)), keep)
    {
      keep := true;
      if state != InMail && state != InRcpt {
        Reply(503);
      } else {
        var handled;
        handled, keep := ApplyErrorOverride(p, RCPT);
        if !handled {
          var ok := CheckPolicy(p);
          if ok {
            if path.None? {
              Reply(501);
            } else if |rcpt| >= p.maxRecipients {
              Reply(452);
            } else {
              rcpt, state := rcpt + [path.value], InRcpt;
              keep := ReplyKeyed(p, RCPT, 250);
            }
          }
        }
      }
    }

    method CmdRset(p: Policy) returns (keep: bool)
      modifies this
      ensures Did(old(View()), old(sent), Step(old(View()), p, Rset), keep)
    {
      var handled;
      handled, keep := ApplyErrorOverride(p, RSET);
      if !handled {
        ResetTransaction();
        if state != Greeting {
          state := Helloed;
        }
        keep := ReplyKeyed(p, RSET, 250);
      }
    }

    /** The exchange an AUTH has begun, and its end. */
    method FinishAuth(p: Policy, challenges: nat, verdict: AuthVerdict) returns (keep: bool)
      modifies this`sent, this`authed
      ensures Did(old(View()), old(sent), AuthExchange(old(View()), p, challenges, verdict), keep)
    {
      sent := sent + seq(challenges, _ => 334);
      keep := true;
      match verdict {
        case AuthDropped(overlong) =>
          if overlong {
            Reply(500);
          }
          keep := false;
        case AuthRefused(code) =>
          Reply(code);
        case AuthAccepted =>
          authed := true;
          keep := ReplyKeyed(p, AUTH, 235);
      }
    }

    /** `challenges` 334 lines went out before the exchange ended in `verdict`. */
    method CmdAuth(p: Policy, challenges: nat, verdict: AuthVerdict) returns (keep: bool)
      modifies this
      ensures Did(old(View()), old(sent), Step(old(View()), p, Auth(challenges, verdict)), keep)
    {
      hide AuthExchange;
      keep := true;
      if !p.plainLogin {
        Reply(502);
      } else if p.startTLS && p.tlsRequired && !tls {
        Reply(530);
      } else if state != Helloed {
        Reply(503);
      } else if authed {
        Reply(503);
      } else {
        var handled;
        handled, keep := ApplyErrorOverride(p, AUTH);
        if !handled {
          keep := FinishAuth(p, challenges, verdict);
        }
      }
    }

    method CmdStartTls(p: Policy, handshake: TlsVerdict) returns (keep: bool)
      modifies this
      ensures Did(old(View()), old(sent), Step(old(View()), p, StartTls(handshake)), keep)
    {
      keep := true;
      if !p.startTLS {
        Reply(502);
      } else if tls || state != Helloed {
        Reply(503);
      } else {
        var handled;
        handled, keep := ApplyErrorOverride(p, STARTTLS);
        if !handled {
          if handshake == NoCertificate {
            Reply(454);
          } else {
            keep := ReplyKeyed(p, STARTTLS, 220);
            if keep {
              if handshake == HandshakeFailed {
                keep := false;
              } else {
                ResetAfterUpgrade();
              }
            }
          }
        }
      }
    }

    /** Every command but DATA. */
    method Dispatch(p: Policy, i: Input) returns (keep: bool)
      requires !i.DataBegin? && !i.DataEnd?
      modifies this
      ensures Did(old(View()), old(sent), Step(old(View()), p, i), keep)
    {
      hide StepHello, StepMail, StepRcpt, StepRset, StepAuth, StepStartTls;
      keep := true;
      match i {
        case Hello(domain, ehlo) => keep := CmdHello(p, domain, ehlo);
        case Mail(arg) => keep := CmdMail(p, arg);
        case Rcpt(path) => keep := CmdRcpt(p, path);
        case Rset => keep := CmdRset(p);
        case Auth(challenges, verdict) => keep := CmdAuth(p, challenges, verdict);
        case StartTls(handshake) => keep := CmdStartTls(p, handshake);
        case Noop => keep := ReplyKeyed(p, NOOP, 250);
        case Vrfy => keep := ReplyKeyed(p, VRFY, 252);
        case Help => Reply(214);
        case NotImplemented => Reply(502);
        case Unrecognized =>
          var handled;
          handled, keep := ApplyErrorOverride(p, UNKNOWN);
          if !handled {
            keep := ReplyKeyed(p, UNKNOWN, 500);
          }
        case Overlong =>
          Reply(500);
          keep := false;
        case Quit =>
          Reply(221);
          keep := false;
      }
    }

    // ---------- DATA ----------

    /** Reads the body up to its lone dot, keeping at most `max` bytes of it. */
    method ReadData(rd: Reader, max: int) returns (r: DataResult)
      requires rd.Valid()
      modifies rd`pos
      ensures rd.Valid()
      ensures var o := Collect(old(rd.Rest()), max, [], 0, false); r == o.result && rd.pos == old(rd.pos) + o.consumed
    {
      hide ReadResult, Consumed, Unstuff;
      ghost var start := rd.pos;
      ghost var whole := Collect(rd.Rest(), max, [], 0, false);
      var buf: Bytes := [];
      var discarded, over, done := 0, false, false;
      r := Disconnected;
      while !done
        invariant rd.Valid() && start <= rd.pos && discarded >= 0
        invariant !done ==>
                    var o := Collect(rd.Rest(), max, buf, discarded, over);
                    whole.result == o.result && start + whole.consumed == rd.pos + o.consumed
        invariant done ==> r == whole.result && rd.pos == start + whole.consumed
        decreases !done, |rd.input| - rd.pos
      {
        ghost var before := rd.pos;
        ghost var rest := rd.Rest();
        CollectConsumes(rest);
        var line := rd.ReadDataLine();
        assert rest[Consumed(rest)..] == rd.Rest();
        match line {
          case TooLong => r, done := LineTooLong, true;
          case Eof => r, done := Disconnected, true;
          case UnexpectedEof => r, done := Disconnected, true;
          case Line(text) =>
            var (body, end) := Unstuff(text);
            var need := |body| + 2;
            if end {
              r, done := if over then MessageTooLarge else Body(buf), true;
            } else if over {
              discarded := discarded + need;
              if discarded > DISCARD_SLACK {
                r, done := DiscardBudget, true;
              }
            } else if |buf| + need > max {
              over, discarded := true, discarded + need;
            } else {
              buf := buf + body + CRLF;
            }
        }
      }
    }

    /** DATA up to its reply. `going`: a body follows, and EndData will give the reservation back. */
    method BeginData(p: Policy) returns (going: bool, keep: bool, epoch: nat, reserve: nat, max: int)
      requires gate.Valid()
      modifies this, gate
      ensures gate.Valid() && reserve == ReserveBytes(old(declaredSize), old(sizeSet), p.maxMessageBytes)
      ensures max == p.maxMessageBytes
      ensures var v := ReserveVerdict(old(gate.State()), reserve, p.admission);
              Did(old(View()), old(sent), Step(old(View()), p, DataBegin(v)), keep) &&
              (going <==> DataAllowed(old(View()), p) && v.Admitted? && keep) &&
              (going <==> Step(old(View()), p, DataBegin(v)).sess.receiving)
      ensures gate.State() == if going then Reserved(old(gate.State()), reserve) else old(gate.State())
      ensures epoch == store.epoch
    {
      hide ReserveBytes, PolicyOK, TlsMissing, StepHello, StepMail, StepRcpt, StepDataEnd, StepRset, StepAuth,
        StepStartTls;
      going, keep, epoch, max := false, true, store.epoch, p.maxMessageBytes;
      reserve := ReserveBytes(declaredSize, sizeSet, p.maxMessageBytes);
      if state != InRcpt || |rcpt| == 0 {
        Reply(503);
      } else {
        var handled;
        handled, keep := ApplyErrorOverride(p, DATA);
        if !handled {
          var ok := CheckPolicy(p);
          if ok {
            var v := gate.ReserveData(reserve, p.admission);
            match v {
              case TooManyInFlight => Reply(421);
              case NoByteBudget => Reply(452);
              case Admitted =>
                keep := ReplyKeyed(p, DATA, 354);
                going := keep;
                if !going {
                  gate.ReleaseData(reserve);
                }
            }
          }
        }
      }
    }

    /** The message built from a body: parsed content, the bytes received, this session's envelope. */
    ghost function Letter(parse: Bytes -> Message, raw: Bytes, now: Time): Message
      reads this
    {
      parse(raw).(raw := raw, receivedAt := now, envelope := Envelope(from, rcpt, helo), size := |raw|)
    }

    /** The end of a DATA whose body was not delivered. */
    method RefuseBody(p: Policy, read: DataResult, ghost insert: Result<nat, InsertError>) returns (keep: bool)
      requires !read.Body?
      modifies this
      ensures Did(old(View()), old(sent), StepDataEnd(old(View()), p, read, insert), keep)
    {
      match read {
        case MessageTooLarge => Reply(552);
        case DiscardBudget => Reply(552);
        case LineTooLong => Reply(500);
        case Disconnected =>
      }
      ResetToHello();
      keep := !read.DiscardBudget? && !read.Disconnected?;
    }

    /** The end of a DATA whose body arrived: store it unless an override forbids, and say so. */
    method Deliver(p: Policy, msg: Message, epoch: nat, id: Id, now: Time)
      returns (keep: bool, insert: Result<nat, InsertError>)
      requires store.Valid() && store.Fresh(id) && epoch <= store.epoch
      modifies this, store, store.disk
      ensures store.Valid()
      ensures forall raw :: Did(old(View()), old(sent), StepDataEnd(old(View()), p, Body(raw), insert), keep)
      ensures insert.Ok? ==> !Errs(p, DATA_END) && CommitError(old(store.State()), epoch, Prepared(msg, id, now)).None?
      ensures store.State() == if insert.Ok? then Accept(old(store.State()), Prepared(msg, id, now))
                               else old(store.State())
      ensures store.spillDir == old(store.spillDir)
    {
      hide CommitError, Accept, Prepared, CellsOK, WellFormed, CanAccept;
      insert := Err(StaleEpoch);
      var handled;
      handled, keep := ApplyErrorOverride(p, DATA_END);
      if !handled {
        insert := store.Insert(epoch, msg, id, now);
        if insert.Err? {
          Reply(InsertErrorCode(insert.error));
        } else {
          keep := ReplyKeyed(p, DATA_END, 250);
        }
      }
      ResetToHello();
    }

    /**
     * From the body to the final reply, under the limit and the epoch BeginData captured and the policy
     * now in force. Whatever happens, the reservation is given back and the transaction forgotten;
     * `insert` is the store's answer.
     */
    method EndData(p: Policy, rd: Reader, max: int, epoch: nat, reserve: nat,
                   parse: Bytes -> Message, id: Id, now: Time)
      returns (keep: bool, insert: Result<nat, InsertError>)
      requires gate.Valid() && rd.Valid() && store.Valid() && store.Fresh(id) && epoch <= store.epoch
      modifies this, gate, store, store.disk, rd`pos
      ensures gate.Valid() && store.Valid() && rd.Valid()
      ensures gate.State() == Released(old(gate.State()), reserve)
      ensures rd.pos == old(rd.pos) + Collect(old(rd.Rest()), max, [], 0, false).consumed
      ensures var read := Collect(old(rd.Rest()), max, [], 0, false).result;
              Did(old(View()), old(sent), StepDataEnd(old(View()), p, read, insert), keep) &&
              (insert.Ok? ==> Stores(p, DataEnd(read, insert)))
      ensures insert.Ok? ==>
                var raw := Collect(old(rd.Rest()), max, [], 0, false).result.bytes;
                var m := Prepared(old(Letter(parse, raw, now)), id, now);
                CommitError(old(store.State()), epoch, m).None? && store.State() == Accept(old(store.State()), m)
      ensures insert.Err? ==> store.State() == old(store.State())
      ensures store.spillDir == old(store.spillDir)
    {
      hide CommitError, Accept, Collect, Prepared, CellsOK, WellFormed, CanAccept, Step, StepDataEnd;
      insert := Err(StaleEpoch);
      var read := ReadData(rd, max);
      if read.Body? {
        var raw := read.bytes;
        var msg := parse(raw).(raw := raw, receivedAt := now, envelope := Envelope(from, rcpt, helo), size := |raw|);
        keep, insert := Deliver(p, msg, epoch, id, now);
        assert Did(old(View()), old(sent), StepDataEnd(old(View()), p, Body(raw), insert), keep);
        assert Did(old(View()), old(sent), StepDataEnd(old(View()), p, read, insert), keep);
      } else {
        keep := RefuseBody(p, read, insert);
        assert Did(old(View()), old(sent), StepDataEnd(old(View()), p, read, insert), keep);
      }
      gate.ReleaseData(reserve);
    }
  }

  // ---------- from the wire to the reader of the inbox ----------

  /** What is stored from a body bears it, with the session's envelope. */
  lemma PreparedLetter(m: Message, raw: Bytes, now: Time, envelope: Envelope, id: Id)
    ensures var l := Prepared(m.(raw := raw, receivedAt := now, envelope := envelope, size := |raw|), id, now);
            l.id == id && l.raw == raw && l.envelope == envelope && l.size == |raw|
  {
  }

  /**
   * Lines sent through DATA, then read back from the inbox: a message that is stored fitted the limit, and
   * getting it gives the lines as the client had them before stuffing. Only a spill file can keep it from
   * being read.
   */
  method SendThenGet(s: Session, p: Policy, rd: Reader, max: nat, epoch: nat, reserve: nat, parse: Bytes -> Message,
                     id: Id, now: Time, ghost lines: seq<Bytes>, ghost tail: Bytes)
    returns (insert: Result<nat, InsertError>, got: Result<Message, ReadError>)
    requires s.gate.Valid() && rd.Valid() && s.store.Valid() && s.store.Fresh(id) && epoch <= s.store.epoch
    requires rd.Rest() == Encode(lines) + tail && forall l :: l in lines ==> Sendable(l)
    modifies s, s.gate, s.store, s.store.disk, rd`pos
    ensures rd.Valid() && (insert.Ok? ==> |Joined(lines)| <= max && rd.Rest() == tail)
    ensures insert.Ok? && got.Ok? ==>
              got.value.id == id && got.value.raw == Joined(lines) && got.value.size == |Joined(lines)| &&
              got.value.envelope == Envelope(old(s.from), old(s.rcpt), old(s.helo))
    ensures insert.Ok? ==> got.Ok? || got == Err(Unreadable)
    ensures insert.Ok? && s.store.spillDir == "" ==> got.Ok?
    ensures insert.Err? ==> got == Err(NotFound)
  {
    hide CommitError, Accept, Collect, Prepared, CellsOK, WellFormed, CanAccept, Step, StepDataEnd, Encode, Joined;
    StuffedLinesComeBack(lines, tail, max);
    ghost var was := s.store.State();
    ghost var letter := Prepared(s.Letter(parse, Joined(lines), now), id, now);
    PreparedLetter(parse(Joined(lines)), Joined(lines), now, Envelope(s.from, s.rcpt, s.helo), id);
    var keep;
    keep, insert := s.EndData(p, rd, max, epoch, reserve, parse, id, now);
    if insert.Ok? {
      MayAccept(was, epoch, letter);
      AcceptedIsThere(was, letter);
      NothingSpilledWithoutDirectory(s.store, letter);
    } else {
      AbsentHasNoIndex(was.mail, id);
    }
    got := s.store.Get(id, false);
  }

  lemma MayAccept(s: Inbox, epoch: nat, m: Message)
    requires CommitError(s, epoch, m).None?
    ensures CanAccept(s.caps, s.mail, Resident(m))
  {
  }

  lemma AbsentHasNoIndex(mail: seq<Message>, id: Id)
    requires Absent(mail, id)
    ensures IndexOf(mail, id) == |mail|
  {
  }

  /** A line that is read moves the reader. */
  lemma CollectConsumes(rest: Bytes)
    ensures Consumed(rest) <= |rest| && (ReadResult(rest, MAX_DATA_LINE).Line? ==> Consumed(rest) > 0)
  {
  }
}
