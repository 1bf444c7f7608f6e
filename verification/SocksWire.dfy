/**
 The SOCKS version 5 request on the wire (RFC 1928, sections 4 and 5): the
 encoder the client uses and the decoder the server uses.
 Hosts are byte strings; parsing and printing IP literals is the IP library's
 work and enters as a pair of functions.
 */
module SocksWire {
  import opened Prelude

  newtype byte = x: int | 0 <= x < 256

  datatype Addr = V4(octets: seq<byte>) | V6(octets: seq<byte>)

  datatype IpLib = IpLib(parse: seq<byte> -> Option<Addr>, show: Addr -> seq<byte>)

  datatype Target = Target(host: seq<byte>, port: int)

  predicate WellSized(a: Addr) {
    |a.octets| == if a.V4? then 4 else 16
  }

  /** An IPv4 address written as IPv6. */
  predicate IsMapped(a: Addr) {
    && a.V6? && |a.octets| == 16
    && (forall i :: 0 <= i < 10 ==> a.octets[i] == 0)
    && a.octets[10] == 255 && a.octets[11] == 255
  }

  function Canonical(a: Addr): Addr {
    if IsMapped(a) then V4(a.octets[12..]) else a
  }

  /** What the IP library promises: printing is parsed back, and IPv4-mapped addresses are the IPv4 ones. */
  ghost predicate Lawful(lib: IpLib) {
    && (forall a :: WellSized(a) ==> lib.parse(lib.show(a)) == Some(Canonical(a)))
    && (forall a :: WellSized(a) ==> lib.show(Canonical(a)) == lib.show(a))
    && (forall s :: lib.parse(s).Some? ==> WellSized(lib.parse(s).value) && Canonical(lib.parse(s).value) == lib.parse(s).value)
  }

  /** Such libraries exist. */
  lemma LawfulLibraryExists()
    ensures exists lib :: Lawful(lib)
  {
    var parse := (s: seq<byte>) =>
      if |s| == 4 then Some(V4(s))
      else if |s| == 16 && !IsMapped(V6(s)) then Some(V6(s))
      else None;
    var show := (a: Addr) => Canonical(a).octets;
    var lib := IpLib(parse, show);
    assert Lawful(lib);
  }

  // ---------------------------------------------------------------- encoder

  function PortBytes(port: int): seq<byte> {
    var p := port % 0x1_0000;
    [(p / 256) as byte, (p % 256) as byte]
  }

  /** The CONNECT request; None when a host name is too long to encode. */
  function Encode(lib: IpLib, host: seq<byte>, port: int): Option<seq<byte>> {
    match lib.parse(host)
    case None =>
      if |host| > 255 then None
      else Some([5, 1, 0, 3, |host| as byte] + host + PortBytes(port))
    case Some(V4(a)) => Some([5, 1, 0, 1] + a + PortBytes(port))
    case Some(V6(a)) => Some([5, 1, 0, 4] + a + PortBytes(port))
  }

  // ---------------------------------------------------------------- decoder

  /** Reading exactly `n` bytes; a short stream is used up. */
  function ReadN(s: seq<byte>, n: nat): (Option<seq<byte>>, seq<byte>) {
    if n <= |s| then (Some(s[..n]), s[n..]) else (None, [])
  }

  function DecodePort(host: seq<byte>, s: seq<byte>): (Option<Target>, seq<byte>) {
    var (pb, rest) := ReadN(s, 2);
    if pb.None? then (None, rest)
    else (Some(Target(host, pb.value[0] as int * 256 + pb.value[1] as int)), rest)
  }

  function DecodeIP(lib: IpLib, s: seq<byte>, size: nat): (Option<Target>, seq<byte>) {
    var (b, rest) := ReadN(s, size);
    if b.None? then (None, rest)
    else DecodePort(lib.show(if size == 4 then V4(b.value) else V6(b.value)), rest)
  }

  /** The address after a request header of type `atyp`, and what is left of the stream. */
  function Decode(lib: IpLib, atyp: byte, s: seq<byte>): (Option<Target>, seq<byte>) {
    if atyp == 1 then DecodeIP(lib, s, 4)
    else if atyp == 3 then
      var (lb, s1) := ReadN(s, 1);
      if lb.None? then (None, s1)
      else
        var (name, s2) := ReadN(s1, lb.value[0] as nat);
        if name.None? then (None, s2) else DecodePort(name.value, s2)
    else if atyp == 4 then DecodeIP(lib, s, 16)
    else (None, s)
  }

  // ------------------------------------------------------------- round trip

  /** The form in which a host comes out at the other end. */
  function CanonicalHost(lib: IpLib, host: seq<byte>): seq<byte> {
    match lib.parse(host)
    case None => host
    case Some(a) => lib.show(a)
  }

  lemma PortRoundTrip(host: seq<byte>, port: int, tail: seq<byte>)
    ensures DecodePort(host, PortBytes(port) + tail) == (Some(Target(host, port % 0x1_0000)), tail)
  {
    var s := PortBytes(port) + tail;
    assert s[..2] == PortBytes(port) && s[2..] == tail;
  }

  lemma ReadBack(a: seq<byte>, tail: seq<byte>)
    ensures ReadN(a + tail, |a|) == (Some(a), tail)
  {
    assert (a + tail)[..|a|] == a && (a + tail)[|a|..] == tail;
  }

  lemma IPRoundTrip(lib: IpLib, a: Addr, port: int, tail: seq<byte>)
    requires WellSized(a)
    ensures DecodeIP(lib, a.octets + (PortBytes(port) + tail), |a.octets|)
         == (Some(Target(lib.show(a), port % 0x1_0000)), tail)
  {
    ReadBack(a.octets, PortBytes(port) + tail);
    PortRoundTrip(lib.show(a), port, tail);
  }

  lemma NameRoundTrip(lib: IpLib, host: seq<byte>, port: int, tail: seq<byte>)
    requires |host| <= 255
    ensures Decode(lib, 3, [|host| as byte] + host + (PortBytes(port) + tail))
         == (Some(Target(host, port % 0x1_0000)), tail)
  {
    var after := PortBytes(port) + tail;
    assert [|host| as byte] + host + after == [|host| as byte] + (host + after);
    ReadBack([|host| as byte], host + after);
    ReadBack(host, after);
    PortRoundTrip(host, port, tail);
  }

  /**
   Decoding an encoded request gives back the target in canonical form, port modulo 2^16,
   and consumes exactly the request, whatever follows it.
   */
  lemma RequestRoundTrip(lib: IpLib, host: seq<byte>, port: int, tail: seq<byte>)
    requires Lawful(lib) && Encode(lib, host, port).Some?
    ensures var w := Encode(lib, host, port).value;
            && |w| >= 4 && w[..3] == [5, 1, 0]
            && Decode(lib, w[3], w[4..] + tail) == (Some(Target(CanonicalHost(lib, host), port % 0x1_0000)), tail)
  {
    var w := Encode(lib, host, port).value;
    match lib.parse(host)
    case None =>
      NameRoundTrip(lib, host, port, tail);
      assert w[4..] + tail == [|host| as byte] + host + (PortBytes(port) + tail);
    case Some(a) =>
      assert lib.parse(host).value == a;
      IPRoundTrip(lib, a, port, tail);
      assert w[4..] + tail == a.octets + (PortBytes(port) + tail);
  }

  /** The port survives exactly when it fits 16 bits; a name can be encoded exactly when it fits 255 bytes. */
  lemma EncodingLimits(lib: IpLib, host: seq<byte>, port: int)
    ensures Encode(lib, host, port).None? <==> lib.parse(host).None? && |host| > 255
    ensures port % 0x1_0000 == port <==> 0 <= port < 0x1_0000
  {}

  lemma CanonicalHostIsStable(lib: IpLib, host: seq<byte>)
    requires Lawful(lib)
    ensures CanonicalHost(lib, CanonicalHost(lib, host)) == CanonicalHost(lib, host)
    ensures lib.parse(CanonicalHost(lib, host)) == lib.parse(host)
  {
    if lib.parse(host).Some? {
      var a := lib.parse(host).value;
      assert WellSized(a) && Canonical(a) == a;
      assert lib.parse(lib.show(a)) == Some(a);
    }
  }

  /** Equal targets up to canonical form encode to equal bytes. */
  lemma EncodeIgnoresSpelling(lib: IpLib, host: seq<byte>, port: int)
    requires Lawful(lib)
    ensures Encode(lib, CanonicalHost(lib, host), port) == Encode(lib, host, port)
  {
    CanonicalHostIsStable(lib, host);
  }

  lemma DecodedIsEncodable(lib: IpLib, atyp: byte, s: seq<byte>)
    requires Lawful(lib) && Decode(lib, atyp, s).0.Some?
    ensures var t := Decode(lib, atyp, s).0.value;
            0 <= t.port < 0x1_0000 && Encode(lib, t.host, t.port).Some?
  {
    if atyp == 1 {
      assert lib.parse(lib.show(V4(s[..4]))).Some?;
    } else if atyp == 4 {
      assert lib.parse(lib.show(V6(s[..16]))).Some?;
    }
  }

  /** Decoding a request and encoding it again for the next hop. */
  function Relay(lib: IpLib, atyp: byte, s: seq<byte>): Option<seq<byte>> {
    var t := Decode(lib, atyp, s).0;
    if t.None? then None else Encode(lib, t.value.host, t.value.port)
  }

  /** Relaying normalises once: every decodable request can be relayed, and relaying the result again changes nothing. */
  lemma RelayIsIdempotent(lib: IpLib, atyp: byte, s: seq<byte>)
    requires Lawful(lib) && Decode(lib, atyp, s).0.Some?
    ensures Relay(lib, atyp, s).Some?
    ensures var w := Relay(lib, atyp, s).value; |w| >= 4 && Relay(lib, w[3], w[4..]) == Some(w)
  {
    var t := Decode(lib, atyp, s).0.value;
    DecodedIsEncodable(lib, atyp, s);
    RequestRoundTrip(lib, t.host, t.port, []);
    var w := Encode(lib, t.host, t.port).value;
    assert w[4..] + [] == w[4..];
    EncodeIgnoresSpelling(lib, t.host, t.port);
  }
}
