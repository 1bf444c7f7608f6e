/**
 The two ends of a SOCKS version 5 connection (RFC 1928, sections 3 to 6) as
 functions of the bytes they receive: what they send, and where they stop.
 */
module Handshake {
  import opened Prelude
  import opened SocksWire

  const GREETING: seq<byte> := [5, 1, 0]
  const NO_AUTH: seq<byte> := [5, 0]
  const USE_PASSWORD: seq<byte> := [5, 2]
  const PASSWORD_OK: seq<byte> := [1, 0]
  const SUCCESS: seq<byte> := [5, 0, 0, 1, 0, 0, 0, 0, 0, 0]

  function Reject(rep: byte): seq<byte> {
    [5, rep, 0, 1, 0, 0, 0, 0, 0, 0]
  }

  // ----------------------------------------------------------------- client

  /** How many bytes of bound address and port follow a reply header, read from the stream where needed. */
  function DrainLength(atyp: byte, s: seq<byte>): (Option<nat>, seq<byte>) {
    if atyp == 1 then (Some(6), s)
    else if atyp == 3 then
      var (lb, rest) := ReadN(s, 1);
      if lb.None? then (None, rest) else (Some(lb.value[0] as nat + 2), rest)
    else if atyp == 4 then (Some(18), s)
    else (None, s)
  }

  /** Reading the reply to a request: the rest of the stream if it reports success. */
  function ReadReply(s: seq<byte>): Option<seq<byte>> {
    var (hdr, s1) := ReadN(s, 4);
    if hdr.None? || hdr.value[0] != 5 || hdr.value[1] != 0 then None
    else
      var (n, s2) := DrainLength(hdr.value[3], s1);
      if n.None? then None
      else
        var (bound, rest) := ReadN(s2, n.value);
        if bound.None? then None else Some(rest)
  }

  /**
   The client: the unread rest of its input if it connected, and all it sent.
   `writes` is how many more writes the connection takes before they fail.
   */
  function Client(lib: IpLib, host: seq<byte>, port: int, inp: seq<byte>, writes: nat): (Option<seq<byte>>, seq<byte>) {
    if writes == 0 then (None, [])
    else
      var (resp, s) := ReadN(inp, 2);
      if resp.None? || resp.value != NO_AUTH then (None, GREETING)
      else
        var req := Encode(lib, host, port);
        if req.None? || writes == 1 then (None, GREETING)
        else (ReadReply(s), GREETING + req.value)
  }

  // ----------------------------------------------------------------- server

  datatype Auth = Open | Password(user: seq<byte>, pass: seq<byte>)

  /** What the server did with a connection: bytes sent, the target it dialled, and whether it now tunnels. */
  datatype Served = Served(out: seq<byte>, dialed: Option<Target>, tunnels: bool)

  function Quit(out: seq<byte>): Served {
    Served(out, None, false)
  }

  /** What is sent after one more write, which a failed connection loses. */
  function Sent(out: seq<byte>, bytes: seq<byte>, writes: nat): seq<byte> {
    if writes == 0 then out else out + bytes
  }

  /** A length byte and that many bytes. */
  function ReadCounted(s: seq<byte>): (Option<seq<byte>>, seq<byte>) {
    var (n, rest) := ReadN(s, 1);
    if n.None? then (None, rest) else ReadN(rest, n.value[0] as nat)
  }

  /** The request phase; `out` is what was sent before it. Whether the last reply arrives makes no difference to the rest. */
  function ServeRequest(lib: IpLib, dial: Target -> bool, out: seq<byte>, s: seq<byte>, writes: nat): Served {
    var (req, rest) := ReadN(s, 4);
    if req.None? || req.value[0] != 5 then Quit(out)
    else if req.value[1] != 1 then Quit(Sent(out, Reject(7), writes))
    else
      var t := Decode(lib, req.value[3], rest).0;
      if t.None? then Quit(Sent(out, Reject(4), writes))
      else if dial(t.value) then Served(Sent(out, SUCCESS, writes), t, true)
      else Served(Sent(out, Reject(1), writes), t, false)
  }

  /** The password phase (RFC 1929), after the method reply. */
  function ServePassword(lib: IpLib, auth: Auth, dial: Target -> bool, s: seq<byte>, writes: nat): Served
    requires auth.Password?
  {
    var (ver, s1) := ReadN(s, 1);
    if writes == 0 then Quit([])
    else if ver.None? then Quit(USE_PASSWORD)
    else
      var (user, s2) := ReadCounted(s1);
      if user.None? then Quit(USE_PASSWORD)
      else
        var (pass, s3) := ReadCounted(s2);
        if pass.None? then Quit(USE_PASSWORD)
        else if user.value != auth.user || pass.value != auth.pass then Quit(Sent(USE_PASSWORD, Reject(1), writes - 1))
        else if writes == 1 then Quit(USE_PASSWORD)
        else ServeRequest(lib, dial, USE_PASSWORD + PASSWORD_OK, s3, writes - 2)
  }

  /** The server, for a connection the limiter accepts. */
  function Server(lib: IpLib, auth: Auth, dial: Target -> bool, inp: seq<byte>, writes: nat): Served {
    var (hdr, s1) := ReadN(inp, 2);
    if hdr.None? || hdr.value[0] != 5 then Quit([])
    else
      var (methods, s2) := ReadN(s1, hdr.value[1] as nat);
      if methods.None? then Quit([])
      else if auth.Password? then
        if 2 !in methods.value then Quit(Sent([], Reject(255), writes)) else ServePassword(lib, auth, dial, s2, writes)
      else if 0 !in methods.value then Quit(Sent([], Reject(255), writes))
      else if writes == 0 then Quit([])
      else ServeRequest(lib, dial, NO_AUTH, s2, writes - 1)
  }

  // ---------------------------------------------------------- client framing

  /** A success reply: any reserved byte, a bound address of any type, a port. */
  predicate SuccessReply(r: seq<byte>) {
    && |r| >= 4 && r[0] == 5 && r[1] == 0
    && ((r[3] == 1 && |r| == 10) || (r[3] == 3 && |r| >= 5 && |r| == 7 + r[4] as int) || (r[3] == 4 && |r| == 22))
  }

  lemma ReplyLeavesPayload(r: seq<byte>, payload: seq<byte>)
    requires SuccessReply(r)
    ensures ReadReply(r + payload) == Some(payload)
  {
    var s := r + payload;
    ReadBack(r[..4], r[4..] + payload);
    assert s == r[..4] + (r[4..] + payload);
    if r[3] == 3 {
      ReadBack(r[4..5], r[5..] + payload);
      assert r[4..] + payload == r[4..5] + (r[5..] + payload);
      ReadBack(r[5..], payload);
    } else {
      ReadBack(r[4..], payload);
    }
  }

  lemma OnlySuccessReplies(s: seq<byte>) returns (r: seq<byte>)
    requires ReadReply(s).Some?
    ensures SuccessReply(r) && s == r + ReadReply(s).value
  {
    var rest := ReadReply(s).value;
    r := s[..|s| - |rest|];
    assert s == r + rest;
  }

  /** For every success reply, of any address type and with any payload behind it, exactly the payload is left unread. */
  lemma ConnectLeavesExactlyThePayload(lib: IpLib, host: seq<byte>, port: int, r: seq<byte>, payload: seq<byte>, writes: nat)
    requires Encode(lib, host, port).Some? && SuccessReply(r) && writes >= 2
    ensures Client(lib, host, port, NO_AUTH + r + payload, writes)
         == (Some(payload), GREETING + Encode(lib, host, port).value)
  {
    assert NO_AUTH + r + payload == NO_AUTH + (r + payload);
    ReadBack(NO_AUTH, r + payload);
    ReplyLeavesPayload(r, payload);
  }

  /** And it connects on nothing else: both its writes got through, and the input was the method reply, a success reply, and what is left. */
  lemma ConnectSucceedsOnlyOnSuccess(lib: IpLib, host: seq<byte>, port: int, inp: seq<byte>, writes: nat) returns (r: seq<byte>)
    requires Client(lib, host, port, inp, writes).0.Some?
    ensures Encode(lib, host, port).Some? && SuccessReply(r) && writes >= 2
    ensures inp == NO_AUTH + r + Client(lib, host, port, inp, writes).0.value
  {
    r := OnlySuccessReplies(inp[2..]);
    assert inp == inp[..2] + inp[2..];
  }

  // ------------------------------------------------- both ends together

  lemma GreetingIsRead(tail: seq<byte>)
    ensures ReadN(GREETING + tail, 2) == (Some([5, 1]), [0] + tail)
    ensures ReadN([0] + tail, 1) == (Some([0]), tail)
  {
    assert (GREETING + tail)[..2] == [5, 1] && (GREETING + tail)[2..] == [0] + tail;
    assert ([0] + tail)[..1] == [0] && ([0] + tail)[1..] == tail;
  }

  lemma RequestIsServed(
    lib: IpLib, host: seq<byte>, port: int, dial: Target -> bool, out: seq<byte>, early: seq<byte>, writes: nat)
    requires Lawful(lib) && Encode(lib, host, port).Some?
    ensures var t := Target(CanonicalHost(lib, host), port % 0x1_0000);
            ServeRequest(lib, dial, out, Encode(lib, host, port).value + early, writes)
            == Served(Sent(out, if dial(t) then SUCCESS else Reject(1), writes), Some(t), dial(t))
  {
    hide Lawful, Encode, Decode, CanonicalHost;
    var w := Encode(lib, host, port).value;
    RequestRoundTrip(lib, host, port, early);
    assert w + early == w[..4] + (w[4..] + early);
    ReadBack(w[..4], w[4..] + early);
  }

  /**
   One whole handshake without authentication, in the order the bytes travel. The client speaks first;
   each end, on what the other has sent so far, sends the next part; the server dials the client's
   target; and the client connects exactly when that dial succeeds, leaving the tunnel's bytes unread.
   */
  lemma HandshakeCompletes(
    lib: IpLib, host: seq<byte>, port: int, dial: Target -> bool, early: seq<byte>, payload: seq<byte>, cw: nat, sw: nat)
    requires Lawful(lib) && Encode(lib, host, port).Some? && cw >= 2 && sw >= 2
    ensures var req := Encode(lib, host, port).value;
            var t := Target(CanonicalHost(lib, host), port % 0x1_0000);
            var reply := if dial(t) then SUCCESS else Reject(1);
            && Client(lib, host, port, [], cw).1 == GREETING
            && Server(lib, Open, dial, GREETING, sw) == Quit(NO_AUTH)
            && Client(lib, host, port, NO_AUTH, cw).1 == GREETING + req
            && Server(lib, Open, dial, GREETING + req + early, sw) == Served(NO_AUTH + reply, Some(t), dial(t))
            && Client(lib, host, port, NO_AUTH + reply + payload, cw).0 == (if dial(t) then Some(payload) else None)
  {
    hide *;
    ServerHalf(lib, host, port, dial, early, sw);
    ClientHalf(lib, host, port, payload, cw);
  }

  lemma ServerHalf(lib: IpLib, host: seq<byte>, port: int, dial: Target -> bool, early: seq<byte>, writes: nat)
    requires Lawful(lib) && Encode(lib, host, port).Some? && writes >= 2
    ensures var t := Target(CanonicalHost(lib, host), port % 0x1_0000);
            && Server(lib, Open, dial, GREETING, writes) == Quit(NO_AUTH)
            && Server(lib, Open, dial, GREETING + Encode(lib, host, port).value + early, writes)
            == Served(NO_AUTH + (if dial(t) then SUCCESS else Reject(1)), Some(t), dial(t))
  {
    var req := Encode(lib, host, port).value;
    GreetingIsRead([]);
    assert GREETING + [] == GREETING;
    GreetingIsRead(req + early);
    assert GREETING + req + early == GREETING + (req + early);
    RequestIsServed(lib, host, port, dial, NO_AUTH, early, writes - 1);
    hide Lawful, Encode, Decode;
  }

  lemma ClientHalf(lib: IpLib, host: seq<byte>, port: int, payload: seq<byte>, writes: nat)
    requires Encode(lib, host, port).Some? && writes >= 2
    ensures Client(lib, host, port, [], writes).1 == GREETING
    ensures Client(lib, host, port, NO_AUTH, writes).1 == GREETING + Encode(lib, host, port).value
    ensures Client(lib, host, port, NO_AUTH + SUCCESS + payload, writes).0 == Some(payload)
    ensures Client(lib, host, port, NO_AUTH + Reject(1) + payload, writes).0 == None
  {
    hide Encode;
    ReadBack(NO_AUTH, []);
    assert NO_AUTH + [] == NO_AUTH;
    ConnectLeavesExactlyThePayload(lib, host, port, SUCCESS, payload, writes);
    var s := Reject(1) + payload;
    assert NO_AUTH + Reject(1) + payload == NO_AUTH + s;
    ReadBack(NO_AUTH, s);
    assert s[..4] == [5, 1, 0, 1];
  }

  /** A client that only offers no authentication never gets past a server that wants a password. */
  lemma PasswordServerTurnsTheClientAway(
    lib: IpLib, host: seq<byte>, port: int, auth: Auth, dial: Target -> bool, more: seq<byte>, cw: nat, sw: nat)
    requires auth.Password? && cw >= 1 && sw >= 1
    ensures Server(lib, auth, dial, GREETING + more, sw) == Quit(Reject(255))
    ensures Client(lib, host, port, Reject(255), cw) == (None, GREETING)
  {
    GreetingIsRead(more);
    assert Reject(255)[..2] == [5, 255];
  }

  // ------------------------------------------------------ authentication

  predicate Credentials(auth: Auth, methods: seq<byte>) {
    auth.Password? && |auth.user| <= 255 && |auth.pass| <= 255 && |methods| <= 255 && 2 in methods
  }

  /** The bytes of an authenticated opening, up to the request. */
  function Opening(auth: Auth, methods: seq<byte>, ver: byte): seq<byte>
    requires Credentials(auth, methods)
  {
    [5, |methods| as byte] + methods + [ver] + [|auth.user| as byte] + auth.user + [|auth.pass| as byte] + auth.pass
  }

  lemma CountedReadBack(a: seq<byte>, tail: seq<byte>)
    requires |a| <= 255
    ensures ReadCounted([|a| as byte] + a + tail) == (Some(a), tail)
  {
    assert [|a| as byte] + a + tail == [|a| as byte] + (a + tail);
    ReadBack([|a| as byte], a + tail);
    ReadBack(a, tail);
  }

  /** Behind the right credentials, the request is served as if there were none. */
  lemma RightPasswordIsServed(
    lib: IpLib, auth: Auth, dial: Target -> bool, methods: seq<byte>, ver: byte, rest: seq<byte>, writes: nat)
    requires Credentials(auth, methods) && writes >= 2
    ensures Server(lib, auth, dial, Opening(auth, methods, ver) + rest, writes)
         == ServeRequest(lib, dial, USE_PASSWORD + PASSWORD_OK, rest, writes - 2)
  {
    hide ServePassword, ServeRequest;
    var s := [ver] + ([|auth.user| as byte] + auth.user + ([|auth.pass| as byte] + auth.pass + rest));
    assert Opening(auth, methods, ver) + rest == [5, |methods| as byte] + (methods + s);
    ReadBack([5, |methods| as byte], methods + s);
    ReadBack(methods, s);
    RightPasswordIsRead(lib, auth, dial, ver, rest, writes);
  }

  lemma RightPasswordIsRead(lib: IpLib, auth: Auth, dial: Target -> bool, ver: byte, rest: seq<byte>, writes: nat)
    requires auth.Password? && |auth.user| <= 255 && |auth.pass| <= 255 && writes >= 2
    ensures ServePassword(lib, auth, dial,
              [ver] + ([|auth.user| as byte] + auth.user + ([|auth.pass| as byte] + auth.pass + rest)), writes)
         == ServeRequest(lib, dial, USE_PASSWORD + PASSWORD_OK, rest, writes - 2)
  {
    hide ReadN, ReadCounted, ServeRequest;
    var s2 := [|auth.pass| as byte] + auth.pass + rest;
    var s1 := [|auth.user| as byte] + auth.user + s2;
    ReadBack([ver], s1);
    CountedReadBack(auth.user, s2);
    CountedReadBack(auth.pass, rest);
  }

  lemma CountedShape(s: seq<byte>)
    requires ReadCounted(s).0.Some?
    ensures var (a, rest) := ReadCounted(s);
            |a.value| <= 255 && s == [|a.value| as byte] + a.value + rest
  {
    var (a, rest) := ReadCounted(s);
    assert s == s[..1] + s[1..];
    assert s[1..] == a.value + rest;
    assert s[..1] == [|a.value| as byte];
  }

  lemma PasswordPhaseShape(lib: IpLib, auth: Auth, dial: Target -> bool, s: seq<byte>, writes: nat)
    returns (ver: byte, rest: seq<byte>)
    requires auth.Password? && ServePassword(lib, auth, dial, s, writes).dialed.Some?
    ensures |auth.user| <= 255 && |auth.pass| <= 255
    ensures s == [ver] + [|auth.user| as byte] + auth.user + [|auth.pass| as byte] + auth.pass + rest
  {
    hide ServeRequest, ReadCounted;
    ver := s[0];
    var s1 := s[1..];
    CountedShape(s1);
    var s2 := ReadCounted(s1).1;
    CountedShape(s2);
    rest := ReadCounted(s2).1;
    assert s == [ver] + s1;
  }

  /** A server that wants a password dials for nobody without it: whatever it received opened with the credentials. */
  lemma NothingIsDialedWithoutThePassword(lib: IpLib, auth: Auth, dial: Target -> bool, inp: seq<byte>, writes: nat)
    returns (methods: seq<byte>, ver: byte, rest: seq<byte>)
    requires auth.Password? && Server(lib, auth, dial, inp, writes).dialed.Some?
    ensures Credentials(auth, methods) && inp == Opening(auth, methods, ver) + rest
  {
    hide ServePassword;
    var n := inp[1] as nat;
    methods := inp[2..][..n];
    var s := inp[2..][n..];
    assert inp == [5, |methods| as byte] + methods + s;
    ver, rest := PasswordPhaseShape(lib, auth, dial, s, writes);
    hide Server;
    assert inp == Opening(auth, methods, ver) + rest;
  }
}
