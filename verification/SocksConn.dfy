/** The two ends of the handshake as code over a connection: a stream read to the front, a stream written to the back. */
module SocksConns {
  import opened Prelude
  import opened SocksWire
  import opened Handshake

  class Conn {
    var inp: seq<byte>
    var out: seq<byte>
    var writes: nat      // how many more writes succeed

    constructor (inp: seq<byte>, writes: nat)
      ensures this.inp == inp && out == [] && this.writes == writes
    {
      this.inp, out, this.writes := inp, [], writes;
    }

    /** Reads exactly `n` bytes; a short stream is used up. */
    method ReadFull(n: nat) returns (b: Option<seq<byte>>)
      modifies this`inp
      ensures (b, inp) == ReadN(old(inp), n)
    {
      if n <= |inp| {
        b := Some(inp[..n]);
        inp := inp[n..];
      } else {
        b := None;
        inp := [];
      }
    }

    method Write(bytes: seq<byte>) returns (ok: bool)
      modifies this`out, this`writes
      ensures ok <==> old(writes) > 0
      ensures out == Sent(old(out), bytes, old(writes)) && writes == old(writes) - if ok then 1 else 0
    {
      ok := writes > 0;
      if ok {
        out := out + bytes;
        writes := writes - 1;
      }
    }
  }

  /** Parses a request address, byte group by byte group. */
  method ReadSocksAddr(lib: IpLib, r: Conn, atyp: byte) returns (t: Option<Target>)
    modifies r`inp
    ensures (t, r.inp) == Decode(lib, atyp, old(r.inp))
  {
    var host: seq<byte>;
    if atyp == 1 {
      var b := r.ReadFull(4);
      if b.None? { return None; }
      host := lib.show(V4(b.value));
    } else if atyp == 3 {
      var lb := r.ReadFull(1);
      if lb.None? { return None; }
      var name := r.ReadFull(lb.value[0] as nat);
      if name.None? { return None; }
      host := name.value;
    } else if atyp == 4 {
      var b := r.ReadFull(16);
      if b.None? { return None; }
      host := lib.show(V6(b.value));
    } else {
      return None;
    }
    var pb := r.ReadFull(2);
    if pb.None? { return None; }
    t := Some(Target(host, pb.value[0] as int * 256 + pb.value[1] as int));
  }

  /** Connects through a backend; no connection if it could not be reached. On success the tunnel's bytes are still unread. */
  method ConnectSOCKS5(lib: IpLib, conn: Conn?, host: seq<byte>, port: int) returns (ok: bool)
    modifies conn
    ensures conn == null ==> !ok
    ensures conn != null ==>
              var (result, sent) := Client(lib, host, port, old(conn.inp), old(conn.writes));
              && conn.out == old(conn.out) + sent
              && result == if ok then Some(conn.inp) else None
  {
    if conn == null {
      return false;
    }
    var sent := conn.Write([5, 1, 0]);
    if !sent {
      return false;
    }
    var resp := conn.ReadFull(2);
    if resp.None? || resp.value[0] != 5 || resp.value[1] != 0 {
      assert resp.Some? ==> resp.value != NO_AUTH;
      return false;
    }
    assert resp.value == NO_AUTH;
    var buf: seq<byte> := [5, 1, 0];
    var ip := lib.parse(host);
    if ip.None? {
      if |host| > 255 {
        return false;
      }
      buf := buf + [3];
      buf := buf + [|host| as byte];
      buf := buf + host;
      assert buf == [5, 1, 0, 3, |host| as byte] + host;
    } else if ip.value.V4? {
      buf := buf + [1];
      buf := buf + ip.value.octets;
      assert buf == [5, 1, 0, 1] + ip.value.octets;
    } else {
      buf := buf + [4];
      buf := buf + ip.value.octets;
      assert buf == [5, 1, 0, 4] + ip.value.octets;
    }
    buf := buf + PortBytes(port);
    sent := conn.Write(buf);
    if !sent {
      return false;
    }
    assert conn.out == old(conn.out) + (GREETING + buf);
    ok := DrainReply(conn);
  }

  method DrainReply(conn: Conn) returns (ok: bool)
    modifies conn`inp
    ensures ReadReply(old(conn.inp)) == if ok then Some(conn.inp) else None
  {
    var hdr := conn.ReadFull(4);
    if hdr.None? || hdr.value[0] != 5 || hdr.value[1] != 0 {
      return false;
    }
    var drain: nat;
    if hdr.value[3] == 1 {
      drain := 4 + 2;
    } else if hdr.value[3] == 3 {
      var lb := conn.ReadFull(1);
      if lb.None? { return false; }
      drain := lb.value[0] as nat + 2;
    } else if hdr.value[3] == 4 {
      drain := 16 + 2;
    } else {
      return false;
    }
    if drain > 0 {
      var bound := conn.ReadFull(drain);
      if bound.None? { return false; }
    }
    ok := true;
  }

  method ContainsMethod(methods: seq<byte>, m: byte) returns (found: bool)
    ensures found <==> m in methods
  {
    for i := 0 to |methods|
      invariant m !in methods[..i]
    {
      if methods[i] == m {
        return true;
      }
    }
    found := false;
  }

  /** One accepted connection up to the start of the tunnel. */
  method Handle(lib: IpLib, auth: Auth, dial: Target -> bool, conn: Conn) returns (dialed: Option<Target>, tunnels: bool)
    modifies conn
    ensures var s := Server(lib, auth, dial, old(conn.inp), old(conn.writes));
            conn.out == old(conn.out) + s.out && dialed == s.dialed && tunnels == s.tunnels
  {
    hide ServeRequest, ServePassword;
    dialed, tunnels := None, false;
    ghost var start := conn.out;
    var hdr := conn.ReadFull(2);
    if hdr.None? || hdr.value[0] != 5 {
      return;
    }
    var methods := conn.ReadFull(hdr.value[1] as nat);
    if methods.None? {
      return;
    }
    if auth.Password? {
      var offered := ContainsMethod(methods.value, 2);
      if !offered {
        var _ := conn.Write(Reject(255));
        return;
      }
      dialed, tunnels := HandlePassword(lib, auth, dial, conn);
      return;
    }
    var offered := ContainsMethod(methods.value, 0);
    if !offered {
      var _ := conn.Write(Reject(255));
      return;
    }
    var sent := conn.Write(NO_AUTH);
    if !sent {
      return;
    }
    dialed, tunnels := HandleRequest(lib, dial, conn, start, NO_AUTH);
  }

  /** A length byte and that many bytes. */
  method ReadString(conn: Conn) returns (s: Option<seq<byte>>)
    modifies conn`inp
    ensures (s, conn.inp) == ReadCounted(old(conn.inp))
  {
    var n := conn.ReadFull(1);
    if n.None? { return None; }
    s := conn.ReadFull(n.value[0] as nat);
  }

  method HandlePassword(lib: IpLib, auth: Auth, dial: Target -> bool, conn: Conn) returns (dialed: Option<Target>, tunnels: bool)
    requires auth.Password?
    modifies conn
    ensures var s := ServePassword(lib, auth, dial, old(conn.inp), old(conn.writes));
            conn.out == old(conn.out) + s.out && dialed == s.dialed && tunnels == s.tunnels
  {
    hide ServeRequest, ReadCounted;
    dialed, tunnels := None, false;
    ghost var start := conn.out;
    var sent := conn.Write(USE_PASSWORD);
    if !sent { return; }
    var ver := conn.ReadFull(1);
    if ver.None? { return; }
    var user := ReadString(conn);
    if user.None? { return; }
    var pass := ReadString(conn);
    if pass.None? { return; }
    if user.value != auth.user || pass.value != auth.pass {
      var _ := conn.Write(Reject(1));
      assert conn.out == start + Sent(USE_PASSWORD, Reject(1), old(conn.writes) - 1);
      return;
    }
    sent := conn.Write(PASSWORD_OK);
    if !sent { return; }
    assert conn.out == start + (USE_PASSWORD + PASSWORD_OK);
    dialed, tunnels := HandleRequest(lib, dial, conn, start, USE_PASSWORD + PASSWORD_OK);
  }

  method HandleRequest(lib: IpLib, dial: Target -> bool, conn: Conn, ghost start: seq<byte>, ghost sent: seq<byte>)
    returns (dialed: Option<Target>, tunnels: bool)
    requires conn.out == start + sent
    modifies conn
    ensures var s := ServeRequest(lib, dial, sent, old(conn.inp), old(conn.writes));
            conn.out == start + s.out && dialed == s.dialed && tunnels == s.tunnels
  {
    hide Decode;
    dialed, tunnels := None, false;
    var req := conn.ReadFull(4);
    if req.None? || req.value[0] != 5 {
      return;
    }
    if req.value[1] != 1 {
      var _ := conn.Write(Reject(7));
      assert conn.out == start + Sent(sent, Reject(7), old(conn.writes));
      return;
    }
    var t := ReadSocksAddr(lib, conn, req.value[3]);
    if t.None? {
      var _ := conn.Write(Reject(4));
      assert conn.out == start + Sent(sent, Reject(4), old(conn.writes));
      return;
    }
    dialed := t;
    tunnels := dial(t.value);
    if !tunnels {
      var _ := conn.Write(Reject(1));
      assert conn.out == start + Sent(sent, Reject(1), old(conn.writes));
      return;
    }
    var _ := conn.Write(SUCCESS);
    assert conn.out == start + Sent(sent, SUCCESS, old(conn.writes));
  }
}
