# ephemeral-port-reserve, modelled in Dafny

`ephemeral_port_reserve` hands out a TCP port that other processes can bind
with SO_REUSEADDR, but that the kernel's ephemeral allocator will not reissue
for a while. `reserve(ip, port)` works as follows:
- It binds a listening socket `s` with SO_REUSEADDR. It first binds the
  preferred port; if that fails with EADDRINUSE on a non-zero port, it binds
  port 0 instead.
- It connects a second socket `s2` to `s` and accepts the connection as `sock`.
- It closes all three sockets. Closing `sock` first is the active close, so the
  listener's address ends up in TIME_WAIT.
- It returns the port that `getsockname()` reported.

The command-line entry point chooses the preferred port: an explicit `port`
wins, then the port hashed from `--context` by `get_port_from_hash_key`, then 0.
The default address is `LOCALHOST` (`127.0.0.1`).

The project has these modules:

- `Wrappers` (`wrappers.dfy`): the `Option`, `Result` and `Outcome` types.
- `PortHash` (`port_hash.dfy`): `get_port_from_hash_key`.
  - SHA-1 (section 6.1 of FIPS 180-4) and UTF-8 encoding are function
    parameters.
  - `hexdigest()` and `int(_, 16)` are modelled, so `33000 + h % 25000` is
    computed on the very number the source computes.
- `SocketModel` (`socket_model.dfy`): the operating system the code runs
  against, stated as an assumption. A `Kernel` class holds:
  - a socket table;
  - the set of addresses in TIME_WAIT;
  - the ephemeral allocator's candidate order;
  - a ghost trace of every call.

  An address's state (Free, Bound, Listening, TimeWait) is derived from them.
- `Reserver` (`reserver.dfy`): `reserve`, as methods on the kernel that follow
  the source's `with` scopes, and `LOCALHOST`.
- `ReserveOrder` (`reserve_order.dfy`): what the recorded call order
  guarantees:
  - the number of binds;
  - SO_REUSEADDR before bind;
  - listen before connect before accept;
  - nothing left open.
- `Cli` (`cli.dfy`): the argument precedence in `main`.
- `ReserveTests` (`reserve_tests.dfy`): the repository's three test scenarios
  as verified clients of the model.

The comment on `ephemeral_port_reserve.py` line 61 says the port lies between
33000 and 56000. The code returns `33000 + h % 25000`, which reaches 57999. The
model follows the code: `PortHash.CommentBoundExceeded` exhibits a digest that
yields 57999.

## Model

| member | source | states |
|---|---|---|
| PortHash.ParseHex | ephemeral_port_reserve.py:60 | on a string of bare hexadecimal digits, such as `hexdigest()` writes, `int(_, 16)` yields its base-16 value; an empty string or any other character gives None |
| PortHash.HexDigest | ephemeral_port_reserve.py:60 | `hexdigest()` writes two hexadecimal digits per digest byte, each of which `int(_, 16)` accepts |
| PortHash.HexRoundTrip | ephemeral_port_reserve.py:60 | parsing the hexadecimal digest with base 16 gives back the digest read as a big-endian unsigned integer |
| PortHash.DigestBelowLimit | ephemeral_port_reserve.py:60 | a 20-byte SHA-1 digest read as an integer lies below 2^160 |
| PortHash.HashNumber | ephemeral_port_reserve.py:60 | `hash_number` is the digest's big-endian value and lies below 2^160 |
| PortHash.PortFromDigest | ephemeral_port_reserve.py:62 | the port lies in [33000, 57999], and its offset from 33000 is the hash number modulo 25000 |
| PortHash.PortFromHashKey | ephemeral_port_reserve.py:58-62 | for every key, and whatever SHA-1 and UTF-8 functions are supplied, the port lies in [33000, 57999] |
| PortHash.PortDependsOnlyOnBytes | ephemeral_port_reserve.py:60 | keys with equal UTF-8 bytes give equal ports, so the mapping is deterministic |
| PortHash.PortRangeAttained | ephemeral_port_reserve.py:62 | every port of [33000, 57999] is produced by some digest, so the range is exact |
| PortHash.CommentBoundExceeded | ephemeral_port_reserve.py:61-62 | a digest yields 57999, beyond the 56000 that the comment names |
| SocketModel.FirstFreeSpec | ephemeral_port_reserve.py:41 | the allocator behind a bind to port 0 returns a Free candidate, and finds none exactly when no candidate is Free |
| SocketModel.BindVerdictSpec | ephemeral_port_reserve.py:37 | a successful bind binds the requested non-zero port on a local address. The address was Free, or in TimeWait for a reuse socket asking for it explicitly |
| SocketModel.TimeWaitSemantics | ephemeral_port_reserve.py:20-23 | an address in TimeWait refuses a plain bind with EADDRINUSE, admits an SO_REUSEADDR bind, and is never handed out for port 0 |
| SocketModel.HeldAddressRefuses | tests/ephemeral_port_test.py:64-66 | an address that a bound or listening socket holds refuses every bind, and the allocator never hands it out |
| SocketModel.Kernel.Socket | ephemeral_port_reserve.py:34 | a new unbound socket with a fresh id; the rest of the table is untouched |
| SocketModel.Kernel.SetReuseAddr | ephemeral_port_reserve.py:35 | only the socket's SO_REUSEADDR flag changes |
| SocketModel.Kernel.Bind | ephemeral_port_reserve.py:37 | the result is the bind verdict on the state before the call; on success the socket holds the bound address, and on failure nothing changes |
| SocketModel.Kernel.Listen | ephemeral_port_reserve.py:46 | the socket listens on its bound address with the given backlog and an empty queue |
| SocketModel.Kernel.GetSockName | ephemeral_port_reserve.py:48 | returns the socket's local address and changes no socket |
| SocketModel.Kernel.Connect | ephemeral_port_reserve.py:52 | Fails unless there is a Free client port (EADDRNOTAVAIL), a listener (ECONNREFUSED) and room in its backlog. On success the client is connected and queued at the listener |
| SocketModel.Kernel.Accept | ephemeral_port_reserve.py:53 | the oldest queued peer becomes a new connected socket, and the queue loses its head |
| SocketModel.Kernel.Close | ephemeral_port_reserve.py:54 | the socket is closed; its local address enters TIME_WAIT exactly when this is the active close of a live connection |
| Reserver.Retries | ephemeral_port_reserve.py:38-41 | the except clause retries only a `socket.error` for a non-zero port; a success, the OverflowError or a request for port 0 is never retried |
| Reserver.BindStep | ephemeral_port_reserve.py:36-43 | a successful first bind stands; the result is the first bind's or the fallback's, and the fallback replaces the first exactly when that failed with EADDRINUSE on a non-zero port |
| Reserver.ReserveTrace | ephemeral_port_reserve.py:34-55 | the call sequence opens with socket, setsockopt and the first bind, ends with the close of `s`, and its length counts the retry, the handshake and the accept |
| Reserver.PreferredPortKept | ephemeral_port_reserve.py:37 | a preferred port whose address is Free or in TimeWait is bound by the first bind, without a retry, and is the bound port |
| Reserver.HeldPortFallsBack | ephemeral_port_reserve.py:38-41 | a held preferred port fails with EADDRINUSE and is retried on port 0, and the fallback never yields the held port |
| Reserver.BoundAddressUnheld | ephemeral_port_reserve.py:36-43 | when the bind step succeeds, no other socket holds the bound address |
| Reserver.ClientPick | ephemeral_port_reserve.py:52 | once `s` listens, connect() gets a client port exactly when the allocator has a Free port other than the listener's |
| Reserver.ClientPortSurvivesReserve | tests/ephemeral_port_test.py:52-57 | after a successful reservation, the client port connect() needs is still available for reserving the same port again |
| Reserver.FallbackFindsClientPort | tests/ephemeral_port_test.py:61-66 | while a client port is available on a local address, a bind to port 0 there gets a port |
| Reserver.OpenListener | ephemeral_port_reserve.py:34-43 | the bound port or the escaping error is the try/except's result. The first bind is retried on port 0 exactly on EADDRINUSE for a non-zero port. The calls are socket, setsockopt, then the binds |
| Reserver.ListenAndConnect | ephemeral_port_reserve.py:46-52 | after listen(1) and getsockname(), connect() succeeds exactly when a client port is available; the client is then queued at `s` |
| Reserver.AcceptAndRelease | ephemeral_port_reserve.py:53-55 | accepting and closing `sock` and then `s2` puts exactly the listener's address into TIME_WAIT, and both sockets end closed |
| Reserver.ForceTimeWait | ephemeral_port_reserve.py:45-55 | the result is the getsockname port, or connect's EADDRNOTAVAIL. Every socket opened in the scope, and `s`, ends closed. Only the listener's address enters TIME_WAIT, and only if the handshake happened |
| Reserver.Reserve | ephemeral_port_reserve.py:19-55 | It records the exact call sequence, and a bind error that is not retried propagates unchanged. The returned port is `s`'s bound port, never 0, and is left in TimeWait. Older sockets are untouched; every new socket is closed |
| ReserveOrder.BindAttempts | ephemeral_port_reserve.py:36-43 | there are two binds exactly when the first failed with EADDRINUSE on a non-zero port, and one otherwise |
| ReserveOrder.ReuseBeforeBind | ephemeral_port_reserve.py:35-37 | SO_REUSEADDR is set on `s` before every bind of `s` |
| ReserveOrder.ListenConnectAccept | ephemeral_port_reserve.py:46-53 | after a successful bind step, listen(1) happens, before connect(), which comes before accept() |
| ReserveOrder.ListenerClosedLast | ephemeral_port_reserve.py:34 | `s` is closed by the last call and by no earlier one, on every path |
| ReserveOrder.OpeningOpensListener | ephemeral_port_reserve.py:34-43 | the opening calls leave exactly `s` open |
| ReserveOrder.HandshakeClosesItsSockets | ephemeral_port_reserve.py:51-55 | the calls inside the scope of `s` close the `s2` and `sock` they open, on both paths |
| ReserveOrder.NothingLeftOpen | ephemeral_port_reserve.py:34-55 | replaying the whole call sequence leaves no socket open, on every path |
| Cli.ContextPort | ephemeral_port_reserve.py:91 | a context port exists exactly when `--context` was given, and lies in [33000, 57999] |
| Cli.ChosenIp | ephemeral_port_reserve.py:94 | a non-empty given address is used, and an absent or empty one becomes LOCALHOST, which is `127.0.0.1` (line 16) |
| Cli.ChosenPort | ephemeral_port_reserve.py:95 | `args.port or port_from_context or 0`: a given port is used, else a non-zero context port, else 0 |
| Cli.ReserveArguments | ephemeral_port_reserve.py:93-96 | the arguments passed to `reserve`: the chosen address, and an explicit port, else a context port in [33000, 57999], else 0 |
| Cli.Precedence | ephemeral_port_reserve.py:95 | an explicit port wins, then the context port, then 0 |
| Cli.PortZeroExactly | ephemeral_port_reserve.py:95 | the preferred port is 0 exactly when "0" was given or neither a port nor a context was |
| Cli.ContextPortInRange | ephemeral_port_reserve.py:91-95 | without an explicit port, a context gives a preferred port in [33000, 57999] |
| Cli.SameContextSamePort | ephemeral_port_reserve.py:91 | the same context gives the same preferred port |
| Cli.ReserveFromArgs | ephemeral_port_reserve.py:93-96 | a Free or TimeWait preferred port chosen by the precedence is the reserved one, and the reserved port is left in TimeWait |
| ReserveTests.BindReuse | tests/ephemeral_port_test.py:23-27 | a new SO_REUSEADDR socket's bind yields the kernel's verdict; the table gains only that socket, bound on success and unbound on failure |
| ReserveTests.AssertIp | tests/ephemeral_port_test.py:30-40 | after `reserve(ip)`, a plain bind fails with EADDRINUSE, a reuse bind succeeds, and its name is (ip, port) |
| ReserveTests.PreferredPort | tests/ephemeral_port_test.py:52-58 | `reserve(port=reserve())` gives back the same port, and the port stays bindable with SO_REUSEADDR |
| ReserveTests.PreferredPortInUse | tests/ephemeral_port_test.py:61-68 | with a listener on the reserved port, reserving it again yields a different port, which is bindable with SO_REUSEADDR; it can fail only with connect's EADDRNOTAVAIL |

## Left out

- Real sockets, the network and the operating system: `SocketModel` states
  the kernel behaviour taken as given.
  - The Linux rule that lets several SO_REUSEADDR sockets share a
    non-listening address is not modelled. A bound address refuses every bind.
  - listen() on an unbound socket (autobind) is not modelled.
  - Misusing the kernel is excluded by the kernel methods' preconditions, for
    example binding a socket twice or listening on an unbound one. `reserve`
    never does either.
- TIME_WAIT expiry (`tcp_fin_timeout`): there is no clock, so an address
  stays in TIME_WAIT.
- SHA-1 and UTF-8 encoding are foreign calls and enter as function
  parameters. All the model asks of SHA-1 is that it returns 20 bytes.
- PortHash.ParseHex: the whitespace, sign, `0x` prefix and underscores that
  `int(_, 16)` also accepts are not modelled; line 60 never passes them.
- `int(port)` on line 33 is not modelled: the preferred port is already a
  natural number. Negative ports, and the OverflowError bind raises for them,
  are left out with it. The OverflowError for a port above 65535 is modelled;
  it is not a `socket.error` and escapes without a retry.
- The argument parser, `--version` (`pkg_resources`), `print` and `exit`
  (lines 65-102) are not modelled. `Cli.Args` stands for the parsed arguments.
  A given positional `port` is taken to be a non-empty string, so it is always
  truthy; an empty-string port on the command line is not modelled.
- The remark that IP 0.0.0.0 means localhost (line 31) is documentation of OS
  behaviour, not code.
- Concurrency between processes is not modelled. Each `reserve` runs alone
  against the kernel.
- `setup.py` is packaging metadata and is not part of this model.
- `socket()`, `setsockopt()`, `listen()`, `getsockname()`, `accept()` and
  `close()` never raise in `SocketModel`: there is no descriptor limit and no
  ENOBUFS. So the exits where the `with closing` scopes close `s2` and `s`
  after such an error (for example `socket()` for `s2` on line 51, or
  `accept()` on line 53, raising) are not modelled. `Reserver.Reserve` and
  `ReserveOrder.NothingLeftOpen` cover the bind exits, the connect exit and
  the success path.
- Reserver.Reserve: a `connect()` that blocks or is refused cannot arise (the
  listener was just created with an empty queue), so the contract names only
  EADDRNOTAVAIL. A hang of the real stack is outside the model.
- Cli.ReserveFromArgs: states only what matters at the command line, namely
  that the chosen preferred port is kept and the result is left in TimeWait.
  The full call sequence is the contract of `Reserver.Reserve`.
- ReserveTests.PreferredPortInUse: the test asserts that the second
  `reserve` succeeds. In the model its connect() fails with EADDRNOTAVAIL when
  the allocator's only Free candidate was the port the fallback bind took, so
  the contract states the success case and names that one error.
