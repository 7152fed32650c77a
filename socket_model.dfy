/**
 * An abstract TCP kernel: the environment `reserve` runs against. Nothing here
 * is code of the repository; it states the operating-system behaviour taken as given
 * that the reservation trick relies on.
 *
 * - A socket is created unbound, may get SO_REUSEADDR, is bound to an
 *   address, listens, connects or is accepted, and is closed.
 * - The state of an address (Free, Bound, Listening, TimeWait) is derived from
 *   the open sockets that hold it and from the set of addresses left in
 *   TIME_WAIT by an active close.
 * - A plain bind succeeds only on a Free address; with SO_REUSEADDR it also
 *   succeeds on an address in TimeWait; a held address refuses both.
 * - The ephemeral allocator hands out the first port of its candidate list
 *   whose address is Free: it never picks an address in TimeWait.
 * - Closing a connected socket whose peer is still open is the active close
 *   and leaves its local address in TIME_WAIT; closing the other end does not.
 *   TIME_WAIT never expires in the model (no clock).
 */
module SocketModel {
  import opened Wrappers

  type SockId = nat

  /** A port the kernel can hand out: 1 .. 65535. */
  type EphemeralPort = p: nat | 0 < p <= 65535 witness 1

  datatype Addr = Addr(ip: string, port: nat)

  datatype Errno = EADDRINUSE | EADDRNOTAVAIL | ECONNREFUSED

  /** What a kernel call can raise, or that it blocks forever. */
  datatype Fault =
    | SocketError(errno: Errno)  // socket.error: the only kind `reserve` catches
    | Overflow                   // OverflowError: bind() to a port above 65535
    | Blocked                    // the call never returns

  datatype SockState =
    | Unbound
    | BoundTo(local: Addr)
    | ListeningOn(local: Addr, backlog: nat, pending: seq<Addr>)  // pending: peers of completed handshakes
    | ConnectedTo(local: Addr, remote: Addr)
    | Closed

  datatype Sock = Sock(reuse: bool, state: SockState)

  datatype PortState = Free | Bound | Listening | TimeWait

  /** The fixed configuration: the host's own addresses and the ephemeral allocator's candidate order. */
  datatype Host = Host(localIps: set<string>, ephemeral: seq<EphemeralPort>)

  /** One kernel call, as recorded in the kernel's trace. */
  datatype Event =
    | Created(id: SockId)
    | ReuseSet(id: SockId)
    | BindTried(id: SockId, addr: Addr, verdict: Result<EphemeralPort, Fault>)
    | Listened(id: SockId, backlog: nat)
    | NameRead(id: SockId)
    | ConnectTried(id: SockId, addr: Addr)
    | Accepted(listener: SockId, conn: SockId)
    | Released(id: SockId)

  predicate Holds(st: SockState, a: Addr)
  {
    (st.BoundTo? || st.ListeningOn? || st.ConnectedTo?) && st.local == a
  }

  /** The state of address `a` given the socket table and the addresses in TIME_WAIT. */
  function AddrState(socks: map<SockId, Sock>, timeWait: set<Addr>, a: Addr): PortState
  {
    if exists id :: id in socks && socks[id].state.ListeningOn? && socks[id].state.local == a then Listening
    else if exists id :: id in socks && Holds(socks[id].state, a) then Bound
    else if a in timeWait then TimeWait
    else Free
  }

  /** The ephemeral allocator: the first candidate port whose address on `ip` is Free. */
  function FirstFree(socks: map<SockId, Sock>, timeWait: set<Addr>, ip: string, cands: seq<EphemeralPort>): Option<EphemeralPort>
  {
    if cands == [] then None
    else if AddrState(socks, timeWait, Addr(ip, cands[0])) == Free then Some(cands[0])
    else FirstFree(socks, timeWait, ip, cands[1..])
  }

  /** The allocator returns a Free candidate, and finds none only when no candidate is Free. */
  lemma {:induction false} FirstFreeSpec(socks: map<SockId, Sock>, timeWait: set<Addr>, ip: string, cands: seq<EphemeralPort>)
    ensures var r := FirstFree(socks, timeWait, ip, cands);
      && (r.Some? ==> r.value in cands && AddrState(socks, timeWait, Addr(ip, r.value)) == Free)
      && (r.None? <==> forall i :: 0 <= i < |cands| ==> AddrState(socks, timeWait, Addr(ip, cands[i])) != Free)
  {
    if cands != [] && AddrState(socks, timeWait, Addr(ip, cands[0])) != Free {
      FirstFreeSpec(socks, timeWait, ip, cands[1..]);
      assert forall i :: 1 <= i < |cands| ==> cands[i] == cands[1..][i - 1];
    }
  }

  /** What bind() to `a` by an unbound socket with the given SO_REUSEADDR flag yields: the bound port or the error. */
  function BindVerdict(h: Host, socks: map<SockId, Sock>, timeWait: set<Addr>, reuse: bool, a: Addr): Result<EphemeralPort, Fault>
  {
    if a.port > 65535 then Err(Overflow)
    else if a.ip !in h.localIps then Err(SocketError(EADDRNOTAVAIL))
    else if a.port == 0 then
      match FirstFree(socks, timeWait, a.ip, h.ephemeral)
      case None => Err(SocketError(EADDRINUSE))
      case Some(p) => Ok(p)
    else
      match AddrState(socks, timeWait, a)
      case Free => Ok(a.port)
      case TimeWait => if reuse then Ok(a.port) else Err(SocketError(EADDRINUSE))
      case _ => Err(SocketError(EADDRINUSE))
  }

  /**
   * A successful bind binds the requested port when it is not 0, on one of the
   * host's addresses, and only where the address was Free, or in TimeWait for
   * a socket with SO_REUSEADDR asking for that port explicitly.
   */
  lemma BindVerdictSpec(h: Host, socks: map<SockId, Sock>, timeWait: set<Addr>, reuse: bool, a: Addr)
    ensures var r := BindVerdict(h, socks, timeWait, reuse, a);
      && (r.Ok? && a.port != 0 ==> r.value == a.port)
      && (r.Ok? ==> a.ip in h.localIps && a.port <= 65535)
      && (r.Ok? ==>
            var st := AddrState(socks, timeWait, Addr(a.ip, r.value));
            st == Free || (st == TimeWait && reuse && a.port != 0))
  {
    FirstFreeSpec(socks, timeWait, a.ip, h.ephemeral);
  }

  /** The socket below `n` listening on `a`, searched from the highest id down. */
  function ListenerBelow(socks: map<SockId, Sock>, a: Addr, n: nat): (r: Option<SockId>)
    ensures r.Some? ==> r.value < n && r.value in socks && socks[r.value].state.ListeningOn? && socks[r.value].state.local == a
    ensures r.None? ==> forall id :: id < n && id in socks ==> !(socks[id].state.ListeningOn? && socks[id].state.local == a)
  {
    if n == 0 then None
    else if n - 1 in socks && socks[n - 1].state.ListeningOn? && socks[n - 1].state.local == a then Some(n - 1)
    else ListenerBelow(socks, a, n - 1)
  }

  /** Closing socket `id` is the active close: it is connected and its peer is still open. */
  predicate ActiveClose(socks: map<SockId, Sock>, id: SockId)
    requires id in socks
  {
    var st := socks[id].state;
    st.ConnectedTo? && exists j :: j in socks && j != id && socks[j].state == ConnectedTo(st.remote, st.local)
  }

  /** Replacing a socket that does not hold `a` by another that does not leaves the state of `a` unchanged. */
  lemma AddrStateIgnoresOthers(socks: map<SockId, Sock>, timeWait: set<Addr>, id: SockId, sock: Sock, a: Addr)
    requires !Holds(sock.state, a)
    requires id in socks ==> !Holds(socks[id].state, a)
    ensures AddrState(socks[id := sock], timeWait, a) == AddrState(socks, timeWait, a)
  {
    var socks' := socks[id := sock];
    forall j | j in socks'
      ensures Holds(socks'[j].state, a) <==> j in socks && j != id && Holds(socks[j].state, a)
    {
    }
    if exists j :: j in socks && Holds(socks[j].state, a) {
      var j :| j in socks && Holds(socks[j].state, a);
      assert j in socks' && Holds(socks'[j].state, a);
    }
  }

  /** A Free or TimeWait address is held by no socket of the table. */
  lemma UnheldWhenFreeOrTimeWait(socks: map<SockId, Sock>, timeWait: set<Addr>, a: Addr)
    requires AddrState(socks, timeWait, a) in {Free, TimeWait}
    ensures forall id :: id in socks ==> !Holds(socks[id].state, a)
  {
  }

  /** An address held by no socket and left in TIME_WAIT is in TimeWait. */
  lemma UnheldInTimeWait(socks: map<SockId, Sock>, timeWait: set<Addr>, a: Addr)
    requires forall id :: id in socks ==> !Holds(socks[id].state, a)
    requires a in timeWait
    ensures AddrState(socks, timeWait, a) == TimeWait
  {
  }

  /** The one listener on an address is the one connect() finds. */
  lemma ListenerFound(socks: map<SockId, Sock>, a: Addr, n: nat, s: SockId)
    requires s < n && s in socks && socks[s].state.ListeningOn? && socks[s].state.local == a
    requires forall id :: id in socks && id != s ==> !Holds(socks[id].state, a)
    ensures ListenerBelow(socks, a, n) == Some(s)
  {
  }

  /** A new unbound socket changes no bind verdict. */
  lemma VerdictIgnoresUnbound(h: Host, socks: map<SockId, Sock>, timeWait: set<Addr>, id: SockId, sockReuse: bool, reuse: bool, a: Addr)
    requires id !in socks
    ensures BindVerdict(h, socks[id := Sock(sockReuse, Unbound)], timeWait, reuse, a) == BindVerdict(h, socks, timeWait, reuse, a)
  {
    forall b: Addr
      ensures AddrState(socks[id := Sock(sockReuse, Unbound)], timeWait, b) == AddrState(socks, timeWait, b)
    {
      AddrStateIgnoresOthers(socks, timeWait, id, Sock(sockReuse, Unbound), b);
    }
    BindVerdictCongruent(h, socks[id := Sock(sockReuse, Unbound)], socks, timeWait, reuse, a);
  }

  /** The allocator's choice depends only on the states of the candidate addresses. */
  lemma {:induction false} FirstFreeCongruent(socks: map<SockId, Sock>, socks': map<SockId, Sock>, timeWait: set<Addr>, ip: string, cands: seq<EphemeralPort>)
    requires forall i :: 0 <= i < |cands| ==> AddrState(socks, timeWait, Addr(ip, cands[i])) == AddrState(socks', timeWait, Addr(ip, cands[i]))
    ensures FirstFree(socks, timeWait, ip, cands) == FirstFree(socks', timeWait, ip, cands)
  {
    if cands != [] {
      assert AddrState(socks, timeWait, Addr(ip, cands[0])) == AddrState(socks', timeWait, Addr(ip, cands[0]));
      forall i | 0 <= i < |cands[1..]|
        ensures AddrState(socks, timeWait, Addr(ip, cands[1..][i])) == AddrState(socks', timeWait, Addr(ip, cands[1..][i]))
      {
        assert cands[1..][i] == cands[i + 1];
      }
      FirstFreeCongruent(socks, socks', timeWait, ip, cands[1..]);
    }
  }

  /** A bind decision depends only on address states, so two tables that agree on them give the same verdict. */
  lemma BindVerdictCongruent(h: Host, socks: map<SockId, Sock>, socks': map<SockId, Sock>, timeWait: set<Addr>, reuse: bool, a: Addr)
    requires forall b :: AddrState(socks, timeWait, b) == AddrState(socks', timeWait, b)
    ensures BindVerdict(h, socks, timeWait, reuse, a) == BindVerdict(h, socks', timeWait, reuse, a)
  {
    FirstFreeCongruent(socks, socks', timeWait, a.ip, h.ephemeral);
  }

  /**
   * The guarantee the reservation sells: an address in TimeWait refuses a
   * plain bind with EADDRINUSE, admits a bind with SO_REUSEADDR, and is never
   * handed out by the ephemeral allocator.
   */
  lemma TimeWaitSemantics(h: Host, socks: map<SockId, Sock>, timeWait: set<Addr>, a: Addr, reuse: bool)
    requires AddrState(socks, timeWait, a) == TimeWait
    requires 0 < a.port <= 65535 && a.ip in h.localIps
    ensures BindVerdict(h, socks, timeWait, false, a) == Err(SocketError(EADDRINUSE))
    ensures BindVerdict(h, socks, timeWait, true, a) == Ok(a.port)
    ensures BindVerdict(h, socks, timeWait, reuse, Addr(a.ip, 0)) != Ok(a.port)
  {
    FirstFreeSpec(socks, timeWait, a.ip, h.ephemeral);
  }

  /** A Bound or Listening address refuses every bind, with or without SO_REUSEADDR. */
  lemma HeldAddressRefuses(h: Host, socks: map<SockId, Sock>, timeWait: set<Addr>, a: Addr, reuse: bool)
    requires AddrState(socks, timeWait, a) in {Bound, Listening}
    requires 0 < a.port <= 65535 && a.ip in h.localIps
    ensures BindVerdict(h, socks, timeWait, reuse, a) == Err(SocketError(EADDRINUSE))
    ensures BindVerdict(h, socks, timeWait, reuse, Addr(a.ip, 0)) != Ok(a.port)
  {
    FirstFreeSpec(socks, timeWait, a.ip, h.ephemeral);
  }

  /** The kernel: the socket table, the addresses in TIME_WAIT and a trace of every call. */
  class Kernel {
    const host: Host
    var socks: map<SockId, Sock>
    var nextId: SockId
    var timeWait: set<Addr>
    ghost var trace: seq<Event>

    ghost predicate Valid()
      reads this
    {
      forall id :: id in socks ==> id < nextId
    }

    constructor (host: Host)
      ensures Valid()
      ensures this.host == host && socks == map[] && timeWait == {} && trace == []
    {
      this.host := host;
      socks := map[];
      nextId := 0;
      timeWait := {};
      trace := [];
    }

    function StateOf(a: Addr): PortState
      reads this
    {
      AddrState(socks, timeWait, a)
    }

    function Verdict(reuse: bool, a: Addr): Result<EphemeralPort, Fault>
      reads this
    {
      BindVerdict(host, socks, timeWait, reuse, a)
    }

    predicate IsOpen(id: SockId)
      reads this
    {
      id in socks && socks[id].state != Closed
    }

    /** socket(): a new unbound socket without SO_REUSEADDR. */
    method Socket() returns (id: SockId)
      requires Valid()
      modifies this
      ensures Valid()
      ensures id == old(nextId) && nextId == id + 1 && id !in old(socks)
      ensures socks == old(socks)[id := Sock(false, Unbound)] && timeWait == old(timeWait)
      ensures trace == old(trace) + [Created(id)]
    {
      id := nextId;
      socks := socks[id := Sock(false, Unbound)];
      nextId := nextId + 1;
      trace := trace + [Created(id)];
    }

    /** setsockopt(SOL_SOCKET, SO_REUSEADDR, 1). */
    method SetReuseAddr(id: SockId)
      requires Valid() && IsOpen(id)
      modifies this
      ensures Valid()
      ensures socks == old(socks)[id := old(socks)[id].(reuse := true)]
      ensures nextId == old(nextId) && timeWait == old(timeWait)
      ensures trace == old(trace) + [ReuseSet(id)]
    {
      socks := socks[id := socks[id].(reuse := true)];
      trace := trace + [ReuseSet(id)];
    }

    /** bind(a) on an unbound socket: port 0 asks the ephemeral allocator. */
    method Bind(id: SockId, a: Addr) returns (r: Result<EphemeralPort, Fault>)
      requires Valid() && id in socks && socks[id].state == Unbound
      modifies this
      ensures Valid()
      ensures r == old(BindVerdict(host, socks, timeWait, socks[id].reuse, a))
      ensures socks == if r.Ok? then old(socks)[id := Sock(old(socks)[id].reuse, BoundTo(Addr(a.ip, r.value)))] else old(socks)
      ensures nextId == old(nextId) && timeWait == old(timeWait)
      ensures trace == old(trace) + [BindTried(id, a, r)]
    {
      r := BindVerdict(host, socks, timeWait, socks[id].reuse, a);
      if r.Ok? {
        socks := socks[id := Sock(socks[id].reuse, BoundTo(Addr(a.ip, r.value)))];
      }
      trace := trace + [BindTried(id, a, r)];
    }

    /** listen(backlog) on a bound socket. */
    method Listen(id: SockId, backlog: nat)
      requires Valid() && id in socks && socks[id].state.BoundTo?
      modifies this
      ensures Valid()
      ensures socks == old(socks)[id := Sock(old(socks)[id].reuse, ListeningOn(old(socks)[id].state.local, backlog, []))]
      ensures nextId == old(nextId) && timeWait == old(timeWait)
      ensures trace == old(trace) + [Listened(id, backlog)]
    {
      socks := socks[id := Sock(socks[id].reuse, ListeningOn(socks[id].state.local, backlog, []))];
      trace := trace + [Listened(id, backlog)];
    }

    /** getsockname() on a socket that holds an address. */
    method GetSockName(id: SockId) returns (a: Addr)
      requires Valid() && id in socks
      requires socks[id].state.BoundTo? || socks[id].state.ListeningOn? || socks[id].state.ConnectedTo?
      modifies this
      ensures Valid()
      ensures a == old(socks)[id].state.local
      ensures socks == old(socks) && nextId == old(nextId) && timeWait == old(timeWait)
      ensures trace == old(trace) + [NameRead(id)]
    {
      a := socks[id].state.local;
      trace := trace + [NameRead(id)];
    }

    /**
     * connect(a) from an unbound socket: the kernel binds it to a Free
     * ephemeral port on a.ip, then completes the handshake into the queue of
     * the listener on `a`.
     */
    method Connect(id: SockId, a: Addr) returns (r: Outcome<Fault>)
      requires Valid() && id in socks && socks[id].state == Unbound
      modifies this
      ensures Valid()
      ensures nextId == old(nextId) && timeWait == old(timeWait)
      ensures trace == old(trace) + [ConnectTried(id, a)]
      ensures
        var client := FirstFree(old(socks), old(timeWait), a.ip, host.ephemeral);
        var listener := ListenerBelow(old(socks), a, old(nextId));
        if client.None? then r == Fail(SocketError(EADDRNOTAVAIL)) && socks == old(socks)
        else if listener.None? then r == Fail(SocketError(ECONNREFUSED)) && socks == old(socks)
        else
          var l := old(socks)[listener.value];
          if |l.state.pending| >= l.state.backlog then r == Fail(Blocked) && socks == old(socks)
          else
            var me := Addr(a.ip, client.value);
            r == Pass &&
            socks == old(socks)[id := Sock(old(socks)[id].reuse, ConnectedTo(me, a))]
                               [listener.value := l.(state := l.state.(pending := l.state.pending + [me]))]
    {
      trace := trace + [ConnectTried(id, a)];
      var client := FirstFree(socks, timeWait, a.ip, host.ephemeral);
      if client.None? {
        return Fail(SocketError(EADDRNOTAVAIL));
      }
      var listener := ListenerBelow(socks, a, nextId);
      if listener.None? {
        return Fail(SocketError(ECONNREFUSED));
      }
      var l := socks[listener.value];
      if |l.state.pending| >= l.state.backlog {
        return Fail(Blocked);
      }
      var me := Addr(a.ip, client.value);
      socks := socks[id := Sock(socks[id].reuse, ConnectedTo(me, a))]
                    [listener.value := l.(state := l.state.(pending := l.state.pending + [me]))];
      r := Pass;
    }

    /** accept() on a listening socket: the oldest completed handshake becomes a new connected socket. */
    method Accept(id: SockId) returns (r: Result<SockId, Fault>)
      requires Valid() && id in socks && socks[id].state.ListeningOn?
      modifies this
      ensures Valid() && timeWait == old(timeWait)
      ensures
        var l := old(socks)[id];
        if l.state.pending == [] then
          r == Err(Blocked) && socks == old(socks) && nextId == old(nextId) && trace == old(trace)
        else
          r == Ok(old(nextId)) && nextId == old(nextId) + 1 && r.value !in old(socks) &&
          socks == old(socks)[id := l.(state := l.state.(pending := l.state.pending[1..]))]
                             [r.value := Sock(false, ConnectedTo(l.state.local, l.state.pending[0]))] &&
          trace == old(trace) + [Accepted(id, r.value)]
    {
      var l := socks[id];
      if l.state.pending == [] {
        return Err(Blocked);
      }
      var conn := nextId;
      socks := socks[id := l.(state := l.state.(pending := l.state.pending[1..]))]
                    [conn := Sock(false, ConnectedTo(l.state.local, l.state.pending[0]))];
      nextId := nextId + 1;
      trace := trace + [Accepted(id, conn)];
      r := Ok(conn);
    }

    /** close(): an active close of a connection leaves its local address in TIME_WAIT. */
    method Close(id: SockId)
      requires Valid() && id in socks
      modifies this
      ensures Valid()
      ensures socks == old(socks)[id := old(socks)[id].(state := Closed)]
      ensures timeWait == if old(ActiveClose(socks, id)) then old(timeWait) + {old(socks)[id].state.local} else old(timeWait)
      ensures nextId == old(nextId)
      ensures trace == old(trace) + [Released(id)]
    {
      if ActiveClose(socks, id) {
        timeWait := timeWait + {socks[id].state.local};
      }
      socks := socks[id := socks[id].(state := Closed)];
      trace := trace + [Released(id)];
    }
  }
}
