/** Admission: sessions, sessions per address, and the reservations of messages being received. */
module Gate {
  import opened Prelude
  import opened SmtpSpec

  type Address = string

  datatype GateState = GateState(sessions: nat, perIP: map<Address, nat>, inflight: nat, reserved: nat)

  const EMPTY_GATE := GateState(0, map[], 0, 0)

  function PerIP(g: GateState, ip: Address): nat {
    if ip in g.perIP then g.perIP[ip] else 0
  }

  /** `ip` is absent when the peer address is not a valid IP. */
  predicate Refuses(g: GateState, ip: Option<Address>, ad: AdmissionSpec) {
    (ad.maxSessions > 0 && g.sessions >= ad.maxSessions) ||
    (ip.Some? && ad.maxSessionsPerIP > 0 && PerIP(g, ip.value) >= ad.maxSessionsPerIP)
  }

  function Entered(g: GateState, ip: Option<Address>): GateState {
    g.(sessions := g.sessions + 1,
       perIP := if ip.Some? then g.perIP[ip.value := PerIP(g, ip.value) + 1] else g.perIP)
  }

  /** With the clamps the program has: a count that would go below zero stays at zero. */
  function Left(g: GateState, ip: Option<Address>): GateState {
    g.(sessions := if g.sessions > 0 then g.sessions - 1 else 0,
       perIP := if ip.None? then g.perIP
                else if PerIP(g, ip.value) <= 1 then g.perIP - {ip.value}
                else g.perIP[ip.value := PerIP(g, ip.value) - 1])
  }

  function ReserveVerdict(g: GateState, n: int, ad: AdmissionSpec): GateVerdict {
    if ad.maxInFlightData > 0 && g.inflight >= ad.maxInFlightData then TooManyInFlight
    else if ad.maxInFlightDataBytes > 0 && g.reserved + Max(n, 0) > ad.maxInFlightDataBytes then NoByteBudget
    else Admitted
  }

  function Reserved(g: GateState, n: int): GateState {
    g.(inflight := g.inflight + 1, reserved := g.reserved + Max(n, 0))
  }

  function Released(g: GateState, n: int): GateState {
    g.(inflight := if g.inflight > 0 then g.inflight - 1 else 0,
       reserved := if g.reserved > Max(n, 0) then g.reserved - Max(n, 0) else 0)
  }

  /** What DATA reserves: the declared size when there is one within the limit, the limit otherwise. */
  function ReserveBytes(declared: int, sizeSet: bool, max: int): (n: int)
    ensures n <= Max(max, 0) && n >= 0
    ensures max > 0 ==> n > 0
  {
    if max <= 0 then 0
    else if !sizeSet || declared <= 0 then max
    else if declared < max then declared else max
  }

  class AdmissionGate {
    var sessions: int
    var perIP: map<Address, int>
    var inflight: int
    var reserved: int

    ghost predicate Valid()
      reads this
    {
      sessions >= 0 && inflight >= 0 && reserved >= 0 && forall ip :: ip in perIP ==> perIP[ip] > 0
    }

    ghost function State(): GateState
      reads this
      requires Valid()
    {
      GateState(sessions, map ip | ip in perIP :: perIP[ip] as nat, inflight, reserved)
    }

    constructor ()
      ensures Valid() && State() == EMPTY_GATE
    {
      sessions, perIP, inflight, reserved := 0, map[], 0, 0;
    }

    method Acquire(ip: Option<Address>, ad: AdmissionSpec) returns (ok: bool)
      requires Valid()
      modifies this
      ensures Valid() && ok == !Refuses(old(State()), ip, ad)
      ensures State() == if ok then Entered(old(State()), ip) else old(State())
    {
      if ad.maxSessions > 0 && sessions >= ad.maxSessions {
        return false;
      }
      if ip.Some? && ad.maxSessionsPerIP > 0 {
        var n := if ip.value in perIP then perIP[ip.value] else 0;
        if n >= ad.maxSessionsPerIP {
          return false;
        }
      }
      sessions := sessions + 1;
      if ip.Some? {
        perIP := perIP[ip.value := (if ip.value in perIP then perIP[ip.value] else 0) + 1];
      }
      return true;
    }

    method Release(ip: Option<Address>)
      requires Valid()
      modifies this
      ensures Valid() && State() == Left(old(State()), ip)
    {
      if sessions > 0 {
        sessions := sessions - 1;
      }
      if ip.Some? {
        var n := (if ip.value in perIP then perIP[ip.value] else 0) - 1;
        if n <= 0 {
          perIP := perIP - {ip.value};
        } else {
          perIP := perIP[ip.value := n];
        }
      }
    }

    method ReserveData(n0: int, ad: AdmissionSpec) returns (v: GateVerdict)
      requires Valid()
      modifies this
      ensures Valid() && v == ReserveVerdict(old(State()), n0, ad)
      ensures State() == if v.Admitted? then Reserved(old(State()), n0) else old(State())
    {
      var n := if n0 < 0 then 0 else n0;
      if ad.maxInFlightData > 0 && inflight >= ad.maxInFlightData {
        v := TooManyInFlight;
      } else if ad.maxInFlightDataBytes > 0 && reserved + n > ad.maxInFlightDataBytes {
        v := NoByteBudget;
      } else {
        inflight := inflight + 1;
        reserved := reserved + n;
        v := Admitted;
      }
    }

    method ReleaseData(n0: int)
      requires Valid()
      modifies this
      ensures Valid() && State() == Released(old(State()), n0)
    {
      var n := if n0 < 0 then 0 else n0;
      if inflight > 0 {
        inflight := inflight - 1;
      }
      reserved := reserved - n;
      if reserved < 0 {
        reserved := 0;
      }
    }
  }
}
