/**
 * The port reserver: `reserve(ip, port)` binds a listening socket (retrying on
 * port 0 when the preferred port is in use), connects to it, accepts the
 * connection and closes all three sockets, so that the accepted end's active
 * close leaves the port in TIME_WAIT: reserved against the ephemeral
 * allocator, yet open to an explicit bind with SO_REUSEADDR.
 *
 * The function is modelled along its `with` scopes: OpenListener is the part
 * before listen() (socket, setsockopt, the bind and its fallback);
 * ForceTimeWait is the rest of the scope of `s`, made of ListenAndConnect and
 * AcceptAndRelease, and ends with the close of `s`; Reserve puts them together
 * and closes `s` itself when the bind step raises.
 */
module Reserver {
  import opened Wrappers
  import opened SocketModel

  /** The default address. */
  const LOCALHOST := "127.0.0.1"

  /** The condition of the except clause: the first bind's failure that is retried on port 0. */
  predicate Retries(port: nat, first: Result<EphemeralPort, Fault>)
    ensures Retries(port, first) ==> first.Err? && first.error.SocketError? && port != 0
    ensures first.Ok? || first == Err(Overflow) || port == 0 ==> !Retries(port, first)
  {
    first.Err? && first.error == SocketError(EADDRINUSE) && port != 0
  }

  /**
   * The try/except around the first bind: the port socket `s` ends up bound
   * to, or the error that escapes. `fallback` is what the bind to port 0 yields.
   */
  function BindStep(port: nat, first: Result<EphemeralPort, Fault>, fallback: Result<EphemeralPort, Fault>): (r: Result<EphemeralPort, Fault>)
    ensures first.Ok? ==> r == first
    ensures r == first || r == fallback
    ensures r != first ==> first == Err(SocketError(EADDRINUSE)) && port != 0 && r == fallback
    ensures Retries(port, first) ==> r == fallback
  {
    if first.Ok? then first
    else if Retries(port, first) then fallback
    else first
  }

  /** Some candidate of the allocator other than the reserved port is Free: the connecting socket can get a port. */
  ghost predicate ClientPortAvailable(h: Host, socks: map<SockId, Sock>, timeWait: set<Addr>, ip: string, reserved: nat)
  {
    exists i :: 0 <= i < |h.ephemeral| && h.ephemeral[i] != reserved && AddrState(socks, timeWait, Addr(ip, h.ephemeral[i])) == Free
  }

  /** The calls up to the bind that sticks: socket(), setsockopt(), bind(), and bind() to port 0 when retried. */
  function OpeningTrace(s: SockId, ip: string, port: nat, first: Result<EphemeralPort, Fault>,
                        fallback: Result<EphemeralPort, Fault>): seq<Event>
  {
    [Created(s), ReuseSet(s), BindTried(s, Addr(ip, port), first)]
    + (if Retries(port, first) then [BindTried(s, Addr(ip, 0), fallback)] else [])
  }

  /**
   * The calls inside the scope of the bound socket `s`, up to (not including)
   * its close: `s2` is the connecting socket, `conn` the accepted one.
   */
  function HandshakeTrace(s: SockId, s2: SockId, conn: SockId, name: Addr, clientOk: bool): seq<Event>
  {
    [Listened(s, 1), NameRead(s), Created(s2), ConnectTried(s2, name)]
    + (if clientOk then [Accepted(s, conn), Released(conn), Released(s2)] else [Released(s2)])
  }

  /**
   * Every kernel call `reserve` makes, in order, for the listening socket `s`
   * (the connecting socket is s + 1, the accepted one s + 2); `clientOk` says
   * whether connect() succeeds.
   */
  function ReserveTrace(s: SockId, ip: string, port: nat, first: Result<EphemeralPort, Fault>,
                        fallback: Result<EphemeralPort, Fault>, clientOk: bool): (t: seq<Event>)
    ensures |t| == 4 + (if Retries(port, first) then 1 else 0)
                     + (if BindStep(port, first, fallback).Err? then 0 else if clientOk then 7 else 5)
    ensures t[..3] == [Created(s), ReuseSet(s), BindTried(s, Addr(ip, port), first)]
    ensures t[|t| - 1] == Released(s)
  {
    OpeningTrace(s, ip, port, first, fallback)
    + match BindStep(port, first, fallback)
      case Err(_) => [Released(s)]
      case Ok(p) => HandshakeTrace(s, s + 1, s + 2, Addr(ip, p), clientOk) + [Released(s)]
  }

  /**
   * A preferred port whose address is Free, or in TimeWait (`s` sets
   * SO_REUSEADDR), is bound by the first bind: no retry, and that port is the result.
   */
  lemma PreferredPortKept(h: Host, socks: map<SockId, Sock>, timeWait: set<Addr>, ip: string, port: nat)
    requires 0 < port <= 65535 && ip in h.localIps
    requires AddrState(socks, timeWait, Addr(ip, port)) in {Free, TimeWait}
    ensures var first := BindVerdict(h, socks, timeWait, true, Addr(ip, port));
      && first == Ok(port) && !Retries(port, first)
      && BindStep(port, first, BindVerdict(h, socks, timeWait, true, Addr(ip, 0))) == Ok(port)
  {
  }

  /**
   * A preferred port that another socket holds makes the first bind fail with
   * EADDRINUSE; it is retried on port 0, and the port that bind yields is a different one.
   */
  lemma HeldPortFallsBack(h: Host, socks: map<SockId, Sock>, timeWait: set<Addr>, ip: string, port: nat)
    requires 0 < port <= 65535 && ip in h.localIps
    requires AddrState(socks, timeWait, Addr(ip, port)) in {Bound, Listening}
    ensures var first := BindVerdict(h, socks, timeWait, true, Addr(ip, port));
      var fallback := BindVerdict(h, socks, timeWait, true, Addr(ip, 0));
      && Retries(port, first)
      && BindStep(port, first, fallback) == fallback
      && fallback != Ok(port)
  {
    HeldAddressRefuses(h, socks, timeWait, Addr(ip, port), true);
  }

  /** If the bind step succeeds, no socket holds the address it bound: it was Free or in TimeWait. */
  lemma BoundAddressUnheld(h: Host, socks: map<SockId, Sock>, timeWait: set<Addr>, ip: string, port: nat)
    requires
      var step := BindStep(port, BindVerdict(h, socks, timeWait, true, Addr(ip, port)), BindVerdict(h, socks, timeWait, true, Addr(ip, 0)));
      step.Ok?
    ensures
      var step := BindStep(port, BindVerdict(h, socks, timeWait, true, Addr(ip, port)), BindVerdict(h, socks, timeWait, true, Addr(ip, 0)));
      AddrState(socks, timeWait, Addr(ip, step.value)) in {Free, TimeWait}
      && forall id :: id in socks ==> !Holds(socks[id].state, Addr(ip, step.value))
  {
    var step := BindStep(port, BindVerdict(h, socks, timeWait, true, Addr(ip, port)), BindVerdict(h, socks, timeWait, true, Addr(ip, 0)));
    BindVerdictSpec(h, socks, timeWait, true, Addr(ip, port));
    BindVerdictSpec(h, socks, timeWait, true, Addr(ip, 0));
    UnheldWhenFreeOrTimeWait(socks, timeWait, Addr(ip, step.value));
  }

  /** A socket that holds at most the reserved address does not change whether a client port is available. */
  lemma ClientAvailabilityIgnores(h: Host, socks: map<SockId, Sock>, timeWait: set<Addr>, id: SockId, sock: Sock, ip: string, reserved: nat)
    requires forall a :: Holds(sock.state, a) ==> a == Addr(ip, reserved)
    requires id in socks ==> forall a :: Holds(socks[id].state, a) ==> a == Addr(ip, reserved)
    ensures ClientPortAvailable(h, socks[id := sock], timeWait, ip, reserved) == ClientPortAvailable(h, socks, timeWait, ip, reserved)
  {
    forall i | 0 <= i < |h.ephemeral| && h.ephemeral[i] != reserved
      ensures AddrState(socks[id := sock], timeWait, Addr(ip, h.ephemeral[i])) == AddrState(socks, timeWait, Addr(ip, h.ephemeral[i]))
    {
      AddrStateIgnoresOthers(socks, timeWait, id, sock, Addr(ip, h.ephemeral[i]));
    }
  }

  /** Once `s` listens on `name`, connect() obtains a client port exactly when one is available besides `name`. */
  lemma ClientPick(h: Host, socks: map<SockId, Sock>, timeWait: set<Addr>, s: SockId, s2: SockId, name: Addr)
    requires s in socks && s2 !in socks && socks[s].state == BoundTo(name)
    ensures
      var socks' := socks[s := socks[s].(state := ListeningOn(name, 1, []))][s2 := Sock(false, Unbound)];
      var pick := FirstFree(socks', timeWait, name.ip, h.ephemeral);
      && (pick.Some? <==> ClientPortAvailable(h, socks, timeWait, name.ip, name.port))
      && (pick.Some? ==> pick.value != name.port)
  {
    var listening := socks[s := socks[s].(state := ListeningOn(name, 1, []))];
    var socks' := listening[s2 := Sock(false, Unbound)];
    ClientAvailabilityIgnores(h, socks, timeWait, s, socks[s].(state := ListeningOn(name, 1, [])), name.ip, name.port);
    ClientAvailabilityIgnores(h, listening, timeWait, s2, Sock(false, Unbound), name.ip, name.port);
    FirstFreeSpec(socks', timeWait, name.ip, h.ephemeral);
    assert socks'[s].state.ListeningOn? && socks'[s].state.local == name;
    assert AddrState(socks', timeWait, name) == Listening;
  }

  /**
   * A successful reservation of (ip, reserved) keeps a client port available
   * for reserving it again: the older sockets are unchanged, the new ones are
   * closed, and only the reserved address entered TIME_WAIT, while the client
   * port connect() used was released by the passive close of `s2`.
   */
  lemma ClientPortSurvivesReserve(h: Host, socks: map<SockId, Sock>, timeWait: set<Addr>,
                                  socks': map<SockId, Sock>, timeWait': set<Addr>, ip: string, reserved: nat)
    requires ClientPortAvailable(h, socks, timeWait, ip, reserved)
    requires forall id :: id in socks ==> id in socks' && socks'[id] == socks[id]
    requires forall id :: id in socks' && id !in socks ==> socks'[id].state == Closed
    requires timeWait' == timeWait + {Addr(ip, reserved)}
    ensures ClientPortAvailable(h, socks', timeWait', ip, reserved)
  {
    var i :| 0 <= i < |h.ephemeral| && h.ephemeral[i] != reserved && AddrState(socks, timeWait, Addr(ip, h.ephemeral[i])) == Free;
    var a := Addr(ip, h.ephemeral[i]);
    UnheldWhenFreeOrTimeWait(socks, timeWait, a);
    assert forall id :: id in socks' ==> !Holds(socks'[id].state, a);
    assert AddrState(socks', timeWait', a) == Free;
  }

  /** While a client port is available on a local `ip`, a bind to port 0 there gets a port. */
  lemma FallbackFindsClientPort(h: Host, socks: map<SockId, Sock>, timeWait: set<Addr>, ip: string, reserved: nat, reuse: bool)
    requires ip in h.localIps
    requires ClientPortAvailable(h, socks, timeWait, ip, reserved)
    ensures BindVerdict(h, socks, timeWait, reuse, Addr(ip, 0)).Ok?
  {
    FirstFreeSpec(socks, timeWait, ip, h.ephemeral);
  }

  /**
   * Lines 34-43: create `s`, set SO_REUSEADDR, bind to (ip, port) and, when
   * that fails with EADDRINUSE for a non-zero port, bind to (ip, 0) instead.
   * Either error escapes; `s` is left open for the caller's scope to close.
   */
  method OpenListener(k: Kernel, ip: string, port: nat) returns (s: SockId, bound: Result<EphemeralPort, Fault>)
    requires k.Valid()
    modifies k
    ensures k.Valid()
    ensures
      var first := old(k.Verdict(true, Addr(ip, port)));
      var fallback := old(k.Verdict(true, Addr(ip, 0)));
      && bound == BindStep(port, first, fallback)
      && k.trace == old(k.trace) + OpeningTrace(s, ip, port, first, fallback)
    ensures s == old(k.nextId) && k.nextId == s + 1 && s !in old(k.socks)
    ensures k.socks == old(k.socks)[s := Sock(true, if bound.Ok? then BoundTo(Addr(ip, bound.value)) else Unbound)]
    ensures k.timeWait == old(k.timeWait)
  {
    ghost var socks0 := k.socks;
    s := k.Socket();
    k.SetReuseAddr(s);
    assert k.socks == socks0[s := Sock(true, Unbound)];
    VerdictIgnoresUnbound(k.host, socks0, k.timeWait, s, true, true, Addr(ip, port));
    VerdictIgnoresUnbound(k.host, socks0, k.timeWait, s, true, true, Addr(ip, 0));
    bound := k.Bind(s, Addr(ip, port));
    if bound.Err? {
      if bound.error == SocketError(EADDRINUSE) && port != 0 {
        bound := k.Bind(s, Addr(ip, 0));
      }
    }
  }

  /**
   * Lines 53-55, once `s2` is connected to the listening socket `s`: accept
   * the connection, close the accepted socket (the active close, which puts
   * the listener's address into TIME_WAIT) and then `s2`.
   */
  method AcceptAndRelease(k: Kernel, s: SockId, s2: SockId, ghost name: Addr, ghost client: Addr)
    requires k.Valid() && s in k.socks && s2 in k.socks && s != s2
    requires k.socks[s].state == ListeningOn(name, 1, [client])
    requires k.socks[s2].state == ConnectedTo(client, name)
    requires forall id :: id in k.socks && id != s && id != s2 ==> !Holds(k.socks[id].state, name)
    modifies k
    ensures k.Valid()
    ensures var conn := old(k.nextId);
      && k.nextId == conn + 1 && conn !in old(k.socks)
      && k.socks == old(k.socks)[s := old(k.socks[s]).(state := ListeningOn(name, 1, []))]
                                [conn := Sock(false, Closed)][s2 := old(k.socks[s2]).(state := Closed)]
      && k.timeWait == old(k.timeWait) + {name}
      && k.trace == old(k.trace) + [Accepted(s, conn), Released(conn), Released(s2)]
  {
    assert [client][1..] == [];
    var accepted := k.Accept(s);
    var conn := accepted.value;
    assert k.socks[s] == old(k.socks[s]).(state := ListeningOn(name, 1, []));
    assert k.socks[conn].state == ConnectedTo(name, client);
    assert k.socks[s2].state == ConnectedTo(client, name);
    k.Close(conn);
    assert !ActiveClose(k.socks, s2);
    k.Close(s2);
  }

  /**
   * Lines 45-52: listen(1) on the bound socket `s`, read its name and connect a
   * fresh socket `s2` to it. connect() succeeds exactly when the allocator has
   * a client port besides the listener's; `client` is then the address it got.
   */
  method ListenAndConnect(k: Kernel, s: SockId) returns (sockname: Addr, s2: SockId, connected: Outcome<Fault>, ghost client: Addr)
    requires k.Valid() && s in k.socks && k.socks[s].state.BoundTo?
    requires forall id :: id in k.socks && id != s ==> !Holds(k.socks[id].state, k.socks[s].state.local)
    modifies k
    ensures k.Valid()
    ensures sockname == old(k.socks[s].state.local)
    ensures s2 == old(k.nextId) && k.nextId == s2 + 1 && k.timeWait == old(k.timeWait)
    ensures k.trace == old(k.trace) + [Listened(s, 1), NameRead(s), Created(s2), ConnectTried(s2, sockname)]
    ensures
      var ok := ClientPortAvailable(k.host, old(k.socks), old(k.timeWait), sockname.ip, sockname.port);
      var listening := old(k.socks)[s := old(k.socks[s]).(state := ListeningOn(sockname, 1, []))];
      && (ok <==> connected.Pass?)
      && (!ok ==> connected == Fail(SocketError(EADDRNOTAVAIL)) && k.socks == listening[s2 := Sock(false, Unbound)])
      && (ok ==>
            && client != sockname
            && k.socks == listening[s2 := Sock(false, ConnectedTo(client, sockname))]
                                   [s := old(k.socks[s]).(state := ListeningOn(sockname, 1, [client]))])
  {
    ghost var socks0 := k.socks;
    ghost var name := k.socks[s].state.local;
    k.Listen(s, 1);
    sockname := k.GetSockName(s);
    s2 := k.Socket();
    assert k.socks == socks0[s := socks0[s].(state := ListeningOn(name, 1, []))][s2 := Sock(false, Unbound)];
    ClientPick(k.host, socks0, k.timeWait, s, s2, name);
    ListenerFound(k.socks, name, k.nextId, s);
    var pick := FirstFree(k.socks, k.timeWait, name.ip, k.host.ephemeral);
    client := if pick.Some? then Addr(name.ip, pick.value) else name;
    connected := k.Connect(s2, sockname);
    assert [] + [client] == [client];
  }

  /**
   * Lines 45-55, inside the scope of the bound socket `s`: listen(1), read the
   * name, connect a second socket to it, accept, and return the port of the
   * name, closing the accepted, the connecting and finally `s` itself on the
   * way out.
   */
  method ForceTimeWait(k: Kernel, s: SockId) returns (r: Result<nat, Fault>)
    requires k.Valid() && s in k.socks && k.socks[s].state.BoundTo?
    requires forall id :: id in k.socks && id != s ==> !Holds(k.socks[id].state, k.socks[s].state.local)
    modifies k
    ensures k.Valid()
    ensures
      var name := old(k.socks[s].state.local);
      var ok := ClientPortAvailable(k.host, old(k.socks), old(k.timeWait), name.ip, name.port);
      var n := old(k.nextId);
      var closed := old(k.socks)[s := old(k.socks[s]).(state := Closed)];
      && (ok ==>
            && r == Ok(name.port) && k.timeWait == old(k.timeWait) + {name} && k.nextId == n + 2
            && k.socks == closed[n := Sock(false, Closed)][n + 1 := Sock(false, Closed)])
      && (!ok ==>
            && r == Err(SocketError(EADDRNOTAVAIL)) && k.timeWait == old(k.timeWait) && k.nextId == n + 1
            && k.socks == closed[n := Sock(false, Closed)])
      && k.trace == old(k.trace) + HandshakeTrace(s, n, n + 1, name, ok) + [Released(s)]
  {
    var sockname, s2, connected, client := ListenAndConnect(k, s);
    if connected.Fail? {
      k.Close(s2);
      k.Close(s);
      return Err(connected.error);
    }
    AcceptAndRelease(k, s, s2, sockname, client);
    r := Ok(sockname.port);
    k.Close(s);
  }

  /**
   * `reserve(ip, port)`. The result is the port the listening socket was
   * bound to, and every error is the one the kernel raised. In this kernel
   * only bind() and connect() raise, so the error is the first bind's (when
   * not retried), the fallback bind's, or connect's.
   */
  method Reserve(k: Kernel, ip: string := LOCALHOST, port: nat := 0) returns (result: Result<EphemeralPort, Fault>)
    requires k.Valid()
    modifies k
    ensures k.Valid()
    ensures
      var first := old(k.Verdict(true, Addr(ip, port)));
      var fallback := old(k.Verdict(true, Addr(ip, 0)));
      var step := BindStep(port, first, fallback);
      var clientOk := step.Ok? && ClientPortAvailable(k.host, old(k.socks), old(k.timeWait), ip, step.value);
      && k.trace == old(k.trace) + ReserveTrace(old(k.nextId), ip, port, first, fallback, clientOk)
      && (step.Err? ==> result == step)
      && (step.Ok? ==> result == if clientOk then step else Err(SocketError(EADDRNOTAVAIL)))
    ensures k.timeWait == if result.Ok? then old(k.timeWait) + {Addr(ip, result.value)} else old(k.timeWait)
    ensures result.Ok? ==> k.StateOf(Addr(ip, result.value)) == TimeWait
    ensures forall id :: id in old(k.socks) ==> id in k.socks && k.socks[id] == old(k.socks[id])
    ensures forall id :: id in k.socks && id !in old(k.socks) ==> k.socks[id].state == Closed
  {
    ghost var socks0, tw0 := k.socks, k.timeWait;
    var s, bound := OpenListener(k, ip, port);
    if bound.Err? {
      k.Close(s);
      return bound;
    }
    ghost var name := Addr(ip, bound.value);
    BoundAddressUnheld(k.host, socks0, tw0, ip, port);
    ClientAvailabilityIgnores(k.host, socks0, tw0, s, Sock(true, BoundTo(name)), ip, bound.value);
    var r := ForceTimeWait(k, s);
    if r.Ok? {
      result := Ok(r.value);
      UnheldInTimeWait(k.socks, k.timeWait, name);
    } else {
      result := Err(r.error);
    }
  }
}
