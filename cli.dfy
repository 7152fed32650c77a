/**
 * The argument precedence of the command-line entry point: the address to
 * reserve on and the preferred port that `main` hands to `reserve`.
 *
 * The parser's positional `port` is a string; a given one is non-empty, so it
 * is truthy even when it reads "0", and it is modelled as the number `int`
 * makes of it. The context port is an int, and Python's `or` skips it only
 * when it is 0, which `get_port_from_hash_key` never returns.
 */
module Cli {
  import opened Wrappers
  import opened PortHash
  import opened SocketModel
  import Reserver

  /** The parsed command line: `--context`, then the optional positionals `ip` and `port`. */
  datatype Args = Args(context: Option<string>, ip: Option<string>, port: Option<nat>)

  /** `get_port_from_hash_key(args.context) if args.context is not None else None`. */
  function ContextPort(sha1: seq<Byte> -> Digest, utf8: string -> seq<Byte>, context: Option<string>): (r: Option<nat>)
    ensures r.Some? <==> context.Some?
    ensures r.Some? ==> PORT_BASE <= r.value < PORT_BASE + PORT_SPAN
  {
    match context
    case None => None
    case Some(key) => Some(PortFromHashKey(sha1, utf8, key))
  }

  /** `args.ip or LOCALHOST`: an absent or empty address falls back to the default. */
  function ChosenIp(ip: Option<string>): (r: string)
    ensures r != []
    ensures ip.Some? && ip.value != [] ==> r == ip.value
    ensures ip.None? || ip.value == [] ==> r == Reserver.LOCALHOST == "127.0.0.1"
  {
    if ip.Some? && ip.value != [] then ip.value else Reserver.LOCALHOST
  }

  /** `args.port or port_from_context or 0`, with the truthiness of each operand written out. */
  function ChosenPort(port: Option<nat>, fromContext: Option<nat>): (r: nat)
    ensures port.Some? ==> r == port.value
    ensures port.None? && fromContext.Some? && fromContext.value != 0 ==> r == fromContext.value
    ensures port.None? && (fromContext.None? || fromContext.value == 0) ==> r == 0
  {
    if port.Some? then port.value
    else if fromContext.Some? && fromContext.value != 0 then fromContext.value
    else 0
  }

  /** The address and the preferred port `main` passes to `reserve`. */
  function ReserveArguments(sha1: seq<Byte> -> Digest, utf8: string -> seq<Byte>, args: Args): (r: (string, nat))
    ensures args.ip.Some? && args.ip.value != [] ==> r.0 == args.ip.value
    ensures args.ip.None? || args.ip.value == [] ==> r.0 == Reserver.LOCALHOST
    ensures args.port.Some? ==> r.1 == args.port.value
    ensures args.port.None? && args.context.Some? ==> PORT_BASE <= r.1 < PORT_BASE + PORT_SPAN
    ensures args.port.None? && args.context.None? ==> r.1 == 0
  {
    (ChosenIp(args.ip), ChosenPort(args.port, ContextPort(sha1, utf8, args.context)))
  }

  /**
   * The precedence: an explicit port wins (also an explicit 0), else the port
   * hashed from the context, else 0, which asks the kernel for any port.
   */
  lemma Precedence(sha1: seq<Byte> -> Digest, utf8: string -> seq<Byte>, args: Args)
    ensures var port := ReserveArguments(sha1, utf8, args).1;
      && (args.port.Some? ==> port == args.port.value)
      && (args.port.None? && args.context.Some? ==> port == PortFromHashKey(sha1, utf8, args.context.value))
      && (args.port.None? && args.context.None? ==> port == 0)
  {
  }

  /** The preferred port is 0 exactly when "0" was given or neither a port nor a context was. */
  lemma {:induction false} PortZeroExactly(sha1: seq<Byte> -> Digest, utf8: string -> seq<Byte>, args: Args)
    ensures ReserveArguments(sha1, utf8, args).1 == 0 <==> args.port == Some(0) || (args.port.None? && args.context.None?)
  {
    var fromContext := ContextPort(sha1, utf8, args.context);
    assert fromContext.Some? ==> fromContext.value != 0;
  }

  /** Without an explicit port, a context always yields a preferred port in [33000, 57999]. */
  lemma {:induction false} ContextPortInRange(sha1: seq<Byte> -> Digest, utf8: string -> seq<Byte>, args: Args)
    requires args.port.None? && args.context.Some?
    ensures 33000 <= ReserveArguments(sha1, utf8, args).1 <= 57999
  {
    var fromContext := ContextPort(sha1, utf8, args.context);
    assert fromContext.Some? && fromContext.value != 0;
  }

  /** The same context gives the same preferred port on every run: the hash key is stable. */
  lemma SameContextSamePort(sha1: seq<Byte> -> Digest, utf8: string -> seq<Byte>, args1: Args, args2: Args)
    requires args1.port.None? && args2.port.None? && args1.context == args2.context
    ensures ReserveArguments(sha1, utf8, args1).1 == ReserveArguments(sha1, utf8, args2).1
  {
  }

  /** Lines 85-96 without the printing: parse, hash the context, and reserve with the chosen arguments. */
  method ReserveFromArgs(k: Kernel, sha1: seq<Byte> -> Digest, utf8: string -> seq<Byte>, args: Args)
    returns (result: Result<EphemeralPort, Fault>)
    requires k.Valid()
    modifies k
    ensures k.Valid()
    ensures
      var (ip, port) := ReserveArguments(sha1, utf8, args);
      && (result.Ok? && port != 0 && old(k.StateOf(Addr(ip, port))) in {Free, TimeWait} ==> result.value == port)
      && (result.Ok? ==> k.StateOf(Addr(ip, result.value)) == TimeWait)
  {
    var (ip, port) := ReserveArguments(sha1, utf8, args);
    if 0 < port <= 65535 && ip in k.host.localIps && k.StateOf(Addr(ip, port)) in {Free, TimeWait} {
      Reserver.PreferredPortKept(k.host, k.socks, k.timeWait, ip, port);
    }
    result := Reserver.Reserve(k, ip, port);
  }
}
