/** When the server turns a session or a message away, in terms of the sessions that are open. */
module GateLaws {
  import opened Prelude
  import opened SmtpSpec
  import opened Gate
  import opened Server

  /** The open sessions of one address, and those that hold a reservation. */
  function SessionsFrom(conns: seq<Conn>, ip: Address): set<int> {
    set k | 0 <= k < |conns| && conns[k].ip == Some(ip)
  }

  function Holding(conns: seq<Conn>): set<int> {
    set k | 0 <= k < |conns| && conns[k].hold.Some?
  }

  lemma OneMoreFrom(conns: seq<Conn>, ip: Address)
    requires conns != []
    ensures var n := |conns| - 1;
            |SessionsFrom(conns, ip)| == |SessionsFrom(conns[..n], ip)| + if conns[n].ip == Some(ip) then 1 else 0
  {
    var n := |conns| - 1;
    assert SessionsFrom(conns, ip) == SessionsFrom(conns[..n], ip) + if conns[n].ip == Some(ip) then {n} else {};
  }

  lemma OneMoreHolding(conns: seq<Conn>)
    requires conns != []
    ensures var n := |conns| - 1; |Holding(conns)| == |Holding(conns[..n])| + if conns[n].hold.Some? then 1 else 0
  {
    var n := |conns| - 1;
    assert Holding(conns) == Holding(conns[..n]) + if conns[n].hold.Some? then {n} else {};
  }

  lemma {:induction false} AddressSumCounts(conns: seq<Conn>, ip: Address)
    ensures Sum(FromAddress(ip), conns) == |SessionsFrom(conns, ip)|
  {
    if conns == [] {
      assert SessionsFrom(conns, ip) == {};
    } else {
      hide SessionsFrom;
      AddressSumCounts(conns[..|conns| - 1], ip);
      OneMoreFrom(conns, ip);
    }
  }

  lemma {:induction false} HoldingSumCounts(conns: seq<Conn>)
    ensures Sum(Receiving, conns) == |Holding(conns)|
  {
    if conns == [] {
      assert Holding(conns) == {};
    } else {
      hide Holding;
      HoldingSumCounts(conns[..|conns| - 1]);
      OneMoreHolding(conns);
    }
  }

  lemma Booked(s: System, m: Measure)
    requires Sound(s)
    ensures Counted(s.gate, m) == Sum(m, s.conns)
  {
    hide Traced, Sum, Counted;
  }

  /**
   * In every sound state a connection is refused exactly when as many sessions are open as the policy
   * allows, in all or from its address; otherwise it becomes the newest session.
   */
  lemma ConnectRefusedIff(s: System, ip: Option<Address>, ad: AdmissionSpec)
    requires Sound(s)
    ensures var full := (ad.maxSessions > 0 && |s.conns| >= ad.maxSessions) ||
                        (ip.Some? && ad.maxSessionsPerIP > 0 &&
                         |SessionsFrom(s.conns, ip.value)| >= ad.maxSessionsPerIP);
            (Refuses(s.gate, ip, ad) <==> full) &&
            After(s, Connect(ip, ad)).conns ==
              if full then s.conns else s.conns + [Conn(ip, FRESH, [], None, false)]
  {
    EveryoneCountsOne(s.conns);
    Booked(s, Everyone);
    if ip.Some? {
      AddressSumCounts(s.conns, ip.value);
      Booked(s, FromAddress(ip.value));
    }
    hide Sound, Sum, SessionsFrom;
  }

  /** And a message is refused its reservation exactly when it would exceed a cap, the number first. */
  lemma ReservationRefusedIff(s: System, n: nat, ad: AdmissionSpec)
    requires Sound(s)
    ensures ReserveVerdict(s.gate, n, ad) ==
            if ad.maxInFlightData > 0 && |Holding(s.conns)| >= ad.maxInFlightData then TooManyInFlight
            else if ad.maxInFlightDataBytes > 0 && Sum(ReservedBytes, s.conns) + n > ad.maxInFlightDataBytes
            then NoByteBudget
            else Admitted
  {
    Booked(s, Receiving);
    Booked(s, ReservedBytes);
    HoldingSumCounts(s.conns);
    hide Sound, Sum, Holding;
  }

  /** A reservation is the declared size where that is within the limit, and the whole limit where nothing is known. */
  lemma ReservesWhatMayCome(declared: int, sizeSet: bool, max: int)
    requires max > 0
    ensures sizeSet && 0 < declared <= max ==> ReserveBytes(declared, sizeSet, max) == declared
    ensures !sizeSet || declared <= 0 || declared > max ==> ReserveBytes(declared, sizeSet, max) == max
  {
  }
}
