/**
 * The repository's tests as verified clients of the model: each method plays
 * a test's calls against the kernel and its postcondition is the test's
 * assertions, for every kernel state in which the first `reserve` succeeds.
 * The test helpers `bind_naive` and `bind_reuse` leave their sockets open,
 * and so do these methods.
 */
module ReserveTests {
  import opened Wrappers
  import opened SocketModel
  import opened Reserver

  /** `bind_reuse(ip, port)`: a new socket with SO_REUSEADDR bound to (ip, port). */
  method BindReuse(k: Kernel, ip: string, port: nat) returns (sock: SockId, r: Result<EphemeralPort, Fault>)
    requires k.Valid()
    modifies k
    ensures k.Valid()
    ensures r == old(k.Verdict(true, Addr(ip, port)))
    ensures sock == old(k.nextId) && sock !in old(k.socks) && k.nextId == sock + 1
    ensures k.socks == old(k.socks)[sock := Sock(true, if r.Ok? then BoundTo(Addr(ip, r.value)) else Unbound)]
    ensures k.timeWait == old(k.timeWait)
  {
    ghost var socks0 := k.socks;
    VerdictIgnoresUnbound(k.host, socks0, k.timeWait, k.nextId, true, true, Addr(ip, port));
    sock := k.Socket();
    k.SetReuseAddr(sock);
    assert k.socks == socks0[sock := Sock(true, Unbound)];
    r := k.Bind(sock, Addr(ip, port));
  }

  /**
   * `assert_ip(ip)`, lines 30-40: after `reserve(ip)` a plain bind to the
   * reserved port fails with EADDRINUSE, and a bind with SO_REUSEADDR
   * succeeds and is named (ip, port).
   */
  method AssertIp(k: Kernel, ip: string) returns (port: Result<EphemeralPort, Fault>, naive: Result<EphemeralPort, Fault>,
                                                   reuse: Result<EphemeralPort, Fault>, sname: Addr)
    requires k.Valid()
    modifies k
    ensures k.Valid()
    ensures port.Ok? ==> naive == Err(SocketError(EADDRINUSE)) && reuse == Ok(port.value) && sname == Addr(ip, port.value)
  {
    BindVerdictSpec(k.host, k.socks, k.timeWait, true, Addr(ip, 0));
    port := Reserve(k, ip);
    if port.Err? {
      return port, port, port, Addr(ip, 0);
    }
    var p := port.value;
    TimeWaitSemantics(k.host, k.socks, k.timeWait, Addr(ip, p), false);
    // bind_naive(ip, port)
    VerdictIgnoresUnbound(k.host, k.socks, k.timeWait, k.nextId, false, false, Addr(ip, p));
    var plain := k.Socket();
    naive := k.Bind(plain, Addr(ip, p));
    // bind_reuse(ip, port), then getsockname()
    TimeWaitSemantics(k.host, k.socks, k.timeWait, Addr(ip, p), false);
    var sock;
    sock, reuse := BindReuse(k, ip, p);
    sname := k.GetSockName(sock);
  }

  /**
   * `test_preferred_port`, lines 52-58: reserving the port just reserved
   * gives that very port back, and it stays bindable with SO_REUSEADDR. The
   * second connect() finds a client port: the first one's was freed again.
   */
  method PreferredPort(k: Kernel) returns (port: Result<EphemeralPort, Fault>, port2: Result<EphemeralPort, Fault>,
                                           reuse: Result<EphemeralPort, Fault>)
    requires k.Valid()
    modifies k
    ensures k.Valid()
    ensures port.Ok? ==> port2 == port && reuse == Ok(port.value)
  {
    BindVerdictSpec(k.host, k.socks, k.timeWait, true, Addr(LOCALHOST, 0));
    ghost var socks0, tw0 := k.socks, k.timeWait;
    port := Reserve(k);
    if port.Err? {
      return port, port, port;
    }
    var p := port.value;
    ClientPortSurvivesReserve(k.host, socks0, tw0, k.socks, k.timeWait, LOCALHOST, p);
    PreferredPortKept(k.host, k.socks, k.timeWait, LOCALHOST, p);
    port2 := Reserve(k, LOCALHOST, p);
    TimeWaitSemantics(k.host, k.socks, k.timeWait, Addr(LOCALHOST, p), true);
    var sock;
    sock, reuse := BindReuse(k, LOCALHOST, p);
  }

  /**
   * `test_preferred_port_in_use`, lines 61-68: once a listener holds the
   * reserved port, reserving it again falls back to another port, which is
   * bindable with SO_REUSEADDR. The fallback bind always gets a port; only
   * the second connect() can fail, for want of a client port.
   */
  method PreferredPortInUse(k: Kernel) returns (port: Result<EphemeralPort, Fault>, held: Result<EphemeralPort, Fault>,
                                                port2: Result<EphemeralPort, Fault>, reuse: Result<EphemeralPort, Fault>)
    requires k.Valid()
    modifies k
    ensures k.Valid()
    ensures port.Ok? ==>
      && held == port
      && (port2.Ok? ==> port2.value != port.value && reuse == port2)
      && (port2.Err? ==> port2 == Err(SocketError(EADDRNOTAVAIL)))
  {
    BindVerdictSpec(k.host, k.socks, k.timeWait, true, Addr(LOCALHOST, 0));
    ghost var socks0, tw0 := k.socks, k.timeWait;
    port := Reserve(k);
    if port.Err? {
      return port, port, port, port;
    }
    var p := port.value;
    ClientPortSurvivesReserve(k.host, socks0, tw0, k.socks, k.timeWait, LOCALHOST, p);
    TimeWaitSemantics(k.host, k.socks, k.timeWait, Addr(LOCALHOST, p), true);
    ghost var socks1 := k.socks;
    var sock;
    sock, held := BindReuse(k, LOCALHOST, p);
    k.Listen(sock, 1);
    ghost var listener := Sock(true, ListeningOn(Addr(LOCALHOST, p), 1, []));
    assert k.socks == socks1[sock := listener];
    ClientAvailabilityIgnores(k.host, socks1, k.timeWait, sock, listener, LOCALHOST, p);
    FallbackFindsClientPort(k.host, k.socks, k.timeWait, LOCALHOST, p, true);
    assert k.socks[sock].state.ListeningOn? && k.socks[sock].state.local == Addr(LOCALHOST, p);
    HeldPortFallsBack(k.host, k.socks, k.timeWait, LOCALHOST, p);
    port2 := Reserve(k, LOCALHOST, p);
    if port2.Err? {
      return port, held, port2, port2;
    }
    UnheldWhenFreeOrTimeWait(k.socks, k.timeWait, Addr(LOCALHOST, port2.value));
    TimeWaitSemantics(k.host, k.socks, k.timeWait, Addr(LOCALHOST, port2.value), true);
    var sock2;
    sock2, reuse := BindReuse(k, LOCALHOST, port2.value);
  }
}
