/**
 * What the order of `reserve`'s kernel calls guarantees, stated on the trace
 * ReserveTrace it records: how many binds there are, that SO_REUSEADDR is set
 * before any bind, that listen(1) precedes connect() and connect() precedes
 * accept(), and that every socket opened is closed again, `s` last.
 */
module ReserveOrder {
  import opened Wrappers
  import opened SocketModel
  import opened Reserver

  /** The number of bind() calls in a trace. */
  function BindCount(t: seq<Event>): nat
  {
    if t == [] then 0 else (if t[0].BindTried? then 1 else 0) + BindCount(t[1..])
  }

  lemma {:induction false} BindCountAppend(a: seq<Event>, b: seq<Event>)
    ensures BindCount(a + b) == BindCount(a) + BindCount(b)
  {
    if a != [] {
      assert (a + b)[0] == a[0];
      assert (a + b)[1..] == a[1..] + b;
      BindCountAppend(a[1..], b);
      assert BindCount(a + b) == (if a[0].BindTried? then 1 else 0) + BindCount(a[1..] + b);
    } else {
      assert a + b == b;
    }
  }

  /** The sockets open after one more event: created and accepted ones open, released ones close. */
  function Apply(open: set<SockId>, e: Event): set<SockId>
  {
    match e
    case Created(id) => open + {id}
    case Accepted(_, conn) => open + {conn}
    case Released(id) => open - {id}
    case _ => open
  }

  /** The sockets open after replaying trace `t` from the open set `open`. */
  function OpenAfter(open: set<SockId>, t: seq<Event>): set<SockId>
    decreases |t|
  {
    if t == [] then open else OpenAfter(Apply(open, t[0]), t[1..])
  }

  lemma {:induction false} OpenAfterAppend(open: set<SockId>, a: seq<Event>, b: seq<Event>)
    ensures OpenAfter(open, a + b) == OpenAfter(OpenAfter(open, a), b)
    decreases |a|
  {
    if a != [] {
      assert (a + b)[0] == a[0];
      assert (a + b)[1..] == a[1..] + b;
      OpenAfterAppend(Apply(open, a[0]), a[1..], b);
      assert OpenAfter(open, a + b) == OpenAfter(Apply(open, a[0]), a[1..] + b);
    } else {
      assert a + b == b;
    }
  }

  lemma {:induction false} OpenAfterPair(open: set<SockId>, e: Event, f: Event)
    ensures OpenAfter(open, [e, f]) == Apply(Apply(open, e), f)
  {
    assert [e, f][1..] == [f];
    assert [f][1..] == [];
    assert OpenAfter(open, [e, f]) == OpenAfter(Apply(open, e), [f]);
    assert OpenAfter(Apply(open, e), [f]) == OpenAfter(Apply(Apply(open, e), f), []);
  }

  /** Every occurrence of `e` in `t` comes before every occurrence of `f`. */
  ghost predicate Before(t: seq<Event>, e: Event, f: Event)
  {
    forall i, j :: 0 <= i < |t| && 0 <= j < |t| && t[i] == e && t[j] == f ==> i < j
  }

  lemma BeforeAppend(a: seq<Event>, b: seq<Event>, e: Event, f: Event)
    requires e !in b && f !in a
    ensures Before(a + b, e, f)
  {
    assert forall k :: |a| <= k < |a + b| ==> (a + b)[k] == b[k - |a|];
    assert forall k :: 0 <= k < |a| ==> (a + b)[k] == a[k];
  }

  /** There is a second bind exactly when the except clause retries, so never more than two. */
  lemma {:induction false} BindAttempts(s: SockId, ip: string, port: nat, first: Result<EphemeralPort, Fault>,
                                        fallback: Result<EphemeralPort, Fault>, clientOk: bool)
    ensures BindCount(ReserveTrace(s, ip, port, first, fallback, clientOk)) == if Retries(port, first) then 2 else 1
  {
    var retry: seq<Event> := if Retries(port, first) then [BindTried(s, Addr(ip, 0), fallback)] else [];
    var rest := match BindStep(port, first, fallback)
      case Err(_) => [Released(s)]
      case Ok(p) => HandshakeTrace(s, s + 1, s + 2, Addr(ip, p), clientOk) + [Released(s)];
    var head := [Created(s), ReuseSet(s), BindTried(s, Addr(ip, port), first)];
    assert ReserveTrace(s, ip, port, first, fallback, clientOk) == head + (retry + rest);
    BindCountAppend(head, retry + rest);
    BindCountAppend(retry, rest);
    assert BindCount(head) == 1 by {
      assert head == [Created(s), ReuseSet(s)] + [BindTried(s, Addr(ip, port), first)];
      BindCountAppend([Created(s), ReuseSet(s)], [BindTried(s, Addr(ip, port), first)]);
      ZeroBinds([Created(s), ReuseSet(s)]);
      assert [BindTried(s, Addr(ip, port), first)][1..] == [];
    }
    assert BindCount(rest) == 0 by {
      NoBindsAfterOpening(s, ip, BindStep(port, first, fallback), clientOk);
    }
  }

  lemma {:induction false} NoBindsAfterOpening(s: SockId, ip: string, step: Result<EphemeralPort, Fault>, clientOk: bool)
    ensures BindCount(match step
                      case Err(_) => [Released(s)]
                      case Ok(p) => HandshakeTrace(s, s + 1, s + 2, Addr(ip, p), clientOk) + [Released(s)]) == 0
  {
    ZeroBinds([Released(s)]);
    if step.Ok? {
      ZeroBinds(HandshakeTrace(s, s + 1, s + 2, Addr(ip, step.value), clientOk) + [Released(s)]);
    }
  }

  lemma {:induction false} ZeroBinds(t: seq<Event>)
    requires forall i :: 0 <= i < |t| ==> !t[i].BindTried?
    ensures BindCount(t) == 0
  {
    if t != [] {
      assert forall i :: 0 <= i < |t[1..]| ==> t[1..][i] == t[i + 1];
      ZeroBinds(t[1..]);
    }
  }

  /** SO_REUSEADDR is set on `s` before every bind of `s`. */
  lemma ReuseBeforeBind(s: SockId, ip: string, port: nat, first: Result<EphemeralPort, Fault>,
                        fallback: Result<EphemeralPort, Fault>, clientOk: bool, a: Addr, v: Result<EphemeralPort, Fault>)
    ensures Before(ReserveTrace(s, ip, port, first, fallback, clientOk), ReuseSet(s), BindTried(s, a, v))
  {
    var t := ReserveTrace(s, ip, port, first, fallback, clientOk);
    var head := [Created(s), ReuseSet(s)];
    assert t == head + t[2..];
    BeforeAppend(head, t[2..], ReuseSet(s), BindTried(s, a, v));
  }

  /**
   * Once the bind step has succeeded, listen(1) and connect() happen, and
   * accept() too when connect() succeeds; listen(1) comes before connect(),
   * and connect() before accept().
   */
  lemma ListenConnectAccept(s: SockId, ip: string, port: nat, first: Result<EphemeralPort, Fault>,
                            fallback: Result<EphemeralPort, Fault>, clientOk: bool)
    requires BindStep(port, first, fallback).Ok?
    ensures var t := ReserveTrace(s, ip, port, first, fallback, clientOk);
      var name := Addr(ip, BindStep(port, first, fallback).value);
      && Listened(s, 1) in t
      && ConnectTried(s + 1, name) in t
      && (clientOk ==> Accepted(s, s + 2) in t)
      && Before(t, Listened(s, 1), ConnectTried(s + 1, name))
      && Before(t, ConnectTried(s + 1, name), Accepted(s, s + 2))
  {
    var t := ReserveTrace(s, ip, port, first, fallback, clientOk);
    var name := Addr(ip, BindStep(port, first, fallback).value);
    var opening := OpeningTrace(s, ip, port, first, fallback);
    var tail: seq<Event> := if clientOk then [Accepted(s, s + 2), Released(s + 2), Released(s + 1)] else [Released(s + 1)];
    assert t == opening + [Listened(s, 1), NameRead(s), Created(s + 1), ConnectTried(s + 1, name)] + tail + [Released(s)];
    assert t == (opening + [Listened(s, 1), NameRead(s), Created(s + 1)]) + ([ConnectTried(s + 1, name)] + tail + [Released(s)]);
    BeforeAppend(opening + [Listened(s, 1), NameRead(s), Created(s + 1)], [ConnectTried(s + 1, name)] + tail + [Released(s)],
                 Listened(s, 1), ConnectTried(s + 1, name));
    assert t == (opening + [Listened(s, 1), NameRead(s), Created(s + 1), ConnectTried(s + 1, name)]) + (tail + [Released(s)]);
    BeforeAppend(opening + [Listened(s, 1), NameRead(s), Created(s + 1), ConnectTried(s + 1, name)], tail + [Released(s)],
                 ConnectTried(s + 1, name), Accepted(s, s + 2));
    assert t[|opening|] == Listened(s, 1);
    assert t[|opening| + 3] == ConnectTried(s + 1, name);
    if clientOk {
      assert t[|opening| + 4] == Accepted(s, s + 2);
    }
  }

  /** `s` is closed by the last call and by no earlier one. */
  lemma ListenerClosedLast(s: SockId, ip: string, port: nat, first: Result<EphemeralPort, Fault>,
                           fallback: Result<EphemeralPort, Fault>, clientOk: bool)
    ensures var t := ReserveTrace(s, ip, port, first, fallback, clientOk);
      && t[|t| - 1] == Released(s)
      && Released(s) !in t[..|t| - 1]
  {
    var t := ReserveTrace(s, ip, port, first, fallback, clientOk);
    var opening := OpeningTrace(s, ip, port, first, fallback);
    var step := BindStep(port, first, fallback);
    var middle: seq<Event> := if step.Ok? then HandshakeTrace(s, s + 1, s + 2, Addr(ip, step.value), clientOk) else [];
    assert t == opening + middle + [Released(s)];
    assert t[..|t| - 1] == opening + middle;
  }

  lemma OpenAfterCons(open: set<SockId>, e: Event, t: seq<Event>)
    ensures OpenAfter(open, [e] + t) == OpenAfter(Apply(open, e), t)
  {
    assert ([e] + t)[0] == e;
    assert ([e] + t)[1..] == t;
  }

  /** The opening calls leave exactly `s` open besides what was open before. */
  lemma OpeningOpensListener(open: set<SockId>, s: SockId, ip: string, port: nat, first: Result<EphemeralPort, Fault>,
                             fallback: Result<EphemeralPort, Fault>)
    ensures OpenAfter(open, OpeningTrace(s, ip, port, first, fallback)) == open + {s}
  {
    var binds := [BindTried(s, Addr(ip, port), first)]
      + (if Retries(port, first) then [BindTried(s, Addr(ip, 0), fallback)] else []);
    assert OpeningTrace(s, ip, port, first, fallback) == [Created(s)] + ([ReuseSet(s)] + binds);
    OpenAfterCons(open, Created(s), [ReuseSet(s)] + binds);
    OpenAfterCons(open + {s}, ReuseSet(s), binds);
    OpenAfterUnaffected(open + {s}, binds);
  }

  /** The calls inside the scope of `s` close the connecting and the accepted socket they open. */
  lemma HandshakeClosesItsSockets(open: set<SockId>, s: SockId, s2: SockId, conn: SockId, name: Addr, clientOk: bool)
    requires s2 !in open && conn !in open && s2 != conn
    ensures OpenAfter(open, HandshakeTrace(s, s2, conn, name, clientOk)) == open
  {
    var tail: seq<Event> := if clientOk then [Accepted(s, conn), Released(conn), Released(s2)] else [Released(s2)];
    var connect := [ConnectTried(s2, name)] + tail;
    assert HandshakeTrace(s, s2, conn, name, clientOk) == [Listened(s, 1)] + ([NameRead(s)] + ([Created(s2)] + connect));
    OpenAfterCons(open, Listened(s, 1), [NameRead(s)] + ([Created(s2)] + connect));
    OpenAfterCons(open, NameRead(s), [Created(s2)] + connect);
    OpenAfterCons(open, Created(s2), connect);
    OpenAfterCons(open + {s2}, ConnectTried(s2, name), tail);
    if clientOk {
      assert tail == [Accepted(s, conn)] + ([Released(conn)] + ([Released(s2)] + []));
      OpenAfterCons(open + {s2}, Accepted(s, conn), [Released(conn)] + ([Released(s2)] + []));
      OpenAfterCons(open + {s2} + {conn}, Released(conn), [Released(s2)] + []);
      OpenAfterCons(open + {s2} + {conn} - {conn}, Released(s2), []);
      assert open + {s2} + {conn} - {conn} - {s2} == open;
    } else {
      assert tail == [Released(s2)] + [];
      OpenAfterCons(open + {s2}, Released(s2), []);
      assert open + {s2} - {s2} == open;
    }
  }

  /**
   * Every socket the trace opens (`s`, the connecting `s2`, the accepted
   * `sock`) is closed again on every path: replaying it leaves nothing open.
   */
  lemma {:induction false} NothingLeftOpen(s: SockId, ip: string, port: nat, first: Result<EphemeralPort, Fault>,
                                           fallback: Result<EphemeralPort, Fault>, clientOk: bool)
    ensures OpenAfter({}, ReserveTrace(s, ip, port, first, fallback, clientOk)) == {}
  {
    var opening := OpeningTrace(s, ip, port, first, fallback);
    var step := BindStep(port, first, fallback);
    var middle: seq<Event> := if step.Ok? then HandshakeTrace(s, s + 1, s + 2, Addr(ip, step.value), clientOk) else [];
    assert ReserveTrace(s, ip, port, first, fallback, clientOk) == opening + (middle + [Released(s)]);
    OpenAfterAppend({}, opening, middle + [Released(s)]);
    OpeningOpensListener({}, s, ip, port, first, fallback);
    assert {} + {s} == {s};
    OpenAfterAppend({s}, middle, [Released(s)]);
    if step.Ok? {
      HandshakeClosesItsSockets({s}, s, s + 1, s + 2, Addr(ip, step.value), clientOk);
    } else {
      assert OpenAfter({s}, middle) == {s};
    }
    OpenAfterCons({s}, Released(s), []);
    assert [Released(s)] + [] == [Released(s)];
    assert {s} - {s} == {};
  }

  /** Events that neither create, accept nor release leave the open set alone. */
  lemma {:induction false} OpenAfterUnaffected(open: set<SockId>, t: seq<Event>)
    requires forall i :: 0 <= i < |t| ==> t[i].BindTried?
    ensures OpenAfter(open, t) == open
  {
    if t != [] {
      assert forall i :: 0 <= i < |t[1..]| ==> t[1..][i] == t[i + 1];
      OpenAfterUnaffected(open, t[1..]);
    }
  }
}
