/** The bytes themselves: what is sent in every case, and what is answered to every request. */
module WireLaws {
  import opened Prelude
  import opened SocksWire
  import opened Handshake

  /** A reply with this code and the address 0.0.0.0:0 (section 6 of RFC 1928). */
  function Reply(code: byte): seq<byte> {
    [5, code, 0, 1, 0, 0, 0, 0, 0, 0]
  }

  /** The port as the last two bytes, high byte first. */
  predicate EndsInPort(w: seq<byte>, port: int) {
    |w| >= 2 && w[|w| - 2] as int * 256 + w[|w| - 1] as int == port % 0x1_0000
  }

  /** The request byte by byte (sections 4 and 5 of RFC 1928): CONNECT, the kind of address, the address, the port. */
  lemma RequestBytes(lib: IpLib, host: seq<byte>, port: int)
    requires Lawful(lib) && Encode(lib, host, port).Some?
    ensures var w := Encode(lib, host, port).value;
            && |w| >= 6 && w[..3] == [5, 1, 0] && EndsInPort(w, port)
            && match lib.parse(host)
               case None => w[3] == 3 && |w| == 7 + |host| && w[4] as int == |host| && w[5..|w| - 2] == host
               case Some(V4(a)) => w[3] == 1 && |w| == 10 && w[4..8] == a
               case Some(V6(a)) => w[3] == 4 && |w| == 22 && w[4..20] == a
  {}

  /** The bytes an address of this kind takes, or none if there are not enough or there is no such kind. */
  function AddressLength(atyp: byte, s: seq<byte>): Option<nat> {
    if atyp == 1 && |s| >= 6 then Some(6)
    else if atyp == 3 && |s| >= 1 && |s| >= 3 + s[0] as int then Some(3 + s[0] as int)
    else if atyp == 4 && |s| >= 18 then Some(18)
    else None
  }

  /** What decodes, exactly: enough bytes of a known kind, which are used up, with the port in the last two. */
  lemma DecodesExactly(lib: IpLib, atyp: byte, s: seq<byte>)
    ensures var (t, rest) := Decode(lib, atyp, s);
            match AddressLength(atyp, s)
            case None => t == None
            case Some(n) =>
              && t.Some? && rest == s[n..] && EndsInPort(s[..n], t.value.port) && 0 <= t.value.port < 0x1_0000
              && t.value.host == (if atyp == 1 then lib.show(V4(s[..4])) else if atyp == 4 then lib.show(V6(s[..16])) else s[1..n - 2])
  {}

  /** What a request is answered with, in every case: 7 for another command, 4 for a bad address, 1 for a failed dial, 0 for success. */
  lemma RequestsAreAnswered(lib: IpLib, dial: Target -> bool, out: seq<byte>, s: seq<byte>, writes: nat)
    ensures var r := ServeRequest(lib, dial, out, s, writes);
            if |s| < 4 || s[0] != 5 then r == Served(out, None, false)
            else if s[1] != 1 then r == Served(Sent(out, Reply(7), writes), None, false)
            else if AddressLength(s[3], s[4..]) == None then r == Served(Sent(out, Reply(4), writes), None, false)
            else
              var t := Decode(lib, s[3], s[4..]).0;
              && t.Some?
              && r == Served(Sent(out, Reply(if dial(t.value) then 0 else 1), writes), t, dial(t.value))
  {
    if |s| >= 4 { DecodesExactly(lib, s[3], s[4..]); }
    hide Decode, AddressLength;
  }

  /** The methods a greeting offers, if it is complete and of version 5. */
  function Offered(inp: seq<byte>): Option<seq<byte>> {
    if |inp| >= 2 && inp[0] == 5 && |inp| >= 2 + inp[1] as int then Some(inp[2..2 + inp[1] as int]) else None
  }

  /** How a server answers a greeting: not at all, with a rejection, or with its one method; then the phases that follow. */
  lemma GreetingsAreAnswered(lib: IpLib, auth: Auth, dial: Target -> bool, inp: seq<byte>, writes: nat)
    ensures var r := Server(lib, auth, dial, inp, writes);
            match Offered(inp)
            case None => r == Served([], None, false)
            case Some(methods) =>
              var rest := inp[2 + |methods|..];
              if auth.Open? then
                if 0 !in methods then r == Served(Sent([], Reply(255), writes), None, false)
                else if writes == 0 then r == Served([], None, false)
                else r == ServeRequest(lib, dial, [5, 0], rest, writes - 1)
              else
                if 2 !in methods then r == Served(Sent([], Reply(255), writes), None, false)
                else r == ServePassword(lib, auth, dial, rest, writes)
  {
    hide ServeRequest, ServePassword;
  }

  /** A user name and a password, each behind its length, after a version byte (section 2 of RFC 1929). */
  predicate SaysCredentials(s: seq<byte>, user: seq<byte>, pass: seq<byte>, rest: seq<byte>) {
    && |user| <= 255 && |pass| <= 255 && |s| >= 1
    && s[1..] == [|user| as byte] + user + ([|pass| as byte] + pass + rest)
  }

  /** Wrong credentials are rejected, and nothing is dialled; right ones are accepted and the request is served. */
  lemma CredentialsAreAnswered(
    lib: IpLib, auth: Auth, dial: Target -> bool, s: seq<byte>, user: seq<byte>, pass: seq<byte>, rest: seq<byte>, writes: nat)
    requires auth.Password? && SaysCredentials(s, user, pass, rest) && writes >= 2
    ensures ServePassword(lib, auth, dial, s, writes) ==
              if user == auth.user && pass == auth.pass then ServeRequest(lib, dial, [5, 2, 1, 0], rest, writes - 2)
              else Served([5, 2] + Reply(1), None, false)
  {
    hide ServeRequest, ReadCounted;
    var s2 := [|pass| as byte] + pass + rest;
    CountedReadBack(user, s2);
    CountedReadBack(pass, rest);
    assert USE_PASSWORD + PASSWORD_OK == [5, 2, 1, 0];
  }

  /** What a client says: that it wants no authentication; and its request, if that is agreed to and can be encoded. */
  lemma ClientSays(lib: IpLib, host: seq<byte>, port: int, inp: seq<byte>, writes: nat)
    requires writes >= 2
    ensures Client(lib, host, port, inp, writes).1 ==
              if |inp| >= 2 && inp[..2] == [5, 0] && Encode(lib, host, port).Some?
              then [5, 1, 0] + Encode(lib, host, port).value
              else [5, 1, 0]
  {
    hide Encode;
  }
}
