/** The handshake functions of socks.c, each proved to do to its sockets what the
    pure parsers and encoders of Codec say, whatever the fragmentation. Lookups
    outside this code (DNS, database, connect, getsockname) are arguments. */
module Socks {
  import opened Bytes
  import opened Wire
  import opened SilkIo
  import opened Codec

  // ---- what a phase of the handshake does to one connection ----

  ghost predicate Suffix(s: Data, t: Data) { |s| <= |t| && s == t[|t| - |s|..] }

  /** Input is only consumed, nothing is closed, and steadiness is kept. */
  ghost predicate Goes(w0: End, w: End) {
    && Suffix(w.incoming, w0.incoming)
    && w.fins == w0.fins && (w0.fins == 0 ==> w.late == w0.late)
    && (Steady(w0) ==> Steady(w))
  }

  /** A phase that parses p off its input and answers `out`. Success means that
      all of p was there and all of `out` went; on a steady connection the status
      is the parser's; and no other byte is ever sent. */
  ghost predicate Did<T>(w0: End, w: End, p: Parsed<T>, out: Data, status: int) {
    && Goes(w0, w)
    && (status == 0 ==> p.Good? && w.incoming == p.rest && w.sent == w0.sent + out)
    && (Steady(w0) ==> if p.Good? then status == 0 else status == p.status && w.sent == w0.sent)
    && w0.sent <= w.sent <= w0.sent + out
  }

  lemma GoesTrans(w0: End, w1: End, w2: End)
    requires Goes(w0, w1) && Goes(w1, w2)
    ensures Goes(w0, w2)
  {
  }

  /** Part-way through a phase: some input consumed, nothing sent yet. */
  ghost predicate At(w0: End, w: End) { Goes(w0, w) && w.sent == w0.sent }

  lemma AtStart(w: End)
    ensures At(w, w)
  {
  }

  lemma AtOn<T>(w0: End, w1: End, w2: End, q: Parsed<T>)
    requires At(w0, w1) && Did(w1, w2, q, [], 0)
    ensures At(w0, w2) && q.Good? && w2.incoming == q.rest
  {
    GoesTrans(w0, w1, w2);
    assert w0.sent + [] == w0.sent;
  }

  /** The last read, or the answer, decides the phase. */
  lemma AtEnd<T, U>(w0: End, w1: End, w2: End, q: Parsed<T>, r: Parsed<U>, out: Data, status: int)
    requires At(w0, w1) && Did(w1, w2, q, out, status)
    requires if q.Good? then r.Good? && r.rest == q.rest else r == Bad(q.status)
    ensures Did(w0, w2, r, out, status)
  {
    GoesTrans(w0, w1, w2);
  }

  /** A read that fails ends the phase. */
  lemma AtFail<T, U>(w0: End, w1: End, w2: End, q: Parsed<T>, r: Parsed<U>, out: Data, status: int)
    requires At(w0, w1) && Did(w1, w2, q, [], status) && status != 0
    requires q.Bad? ==> r == Bad(q.status)
    ensures Did(w0, w2, r, out, status)
  {
    GoesTrans(w0, w1, w2);
    assert w0.sent + [] == w0.sent;
  }

  /** So does a byte the parser refuses. */
  lemma AtStop<U>(w0: End, w: End, r: Parsed<U>, out: Data)
    requires At(w0, w) && r.Bad? && r.status != 0
    ensures Did(w0, w, r, out, r.status)
  {
  }

  // ---- reading and writing exactly so many bytes ----

  /** `if (readn_timeo(fd, buf, n, ...) != n) return failure;` */
  method ReadExactly(fd: Socket, n: nat, failure: nat) returns (status: nat, data: Data)
    requires failure != 0
    modifies fd
    ensures Did(old(fd.end), fd.end, Chunk(old(fd.end.incoming), n, failure), [], status)
    ensures status == 0 || status == failure
    ensures status == 0 ==> data == Chunk(old(fd.end.incoming), n, failure).value
  {
    ReadingExact(fd.end, n);
    var buf := new Byte[n];
    var count := ReadNTimeo(fd, buf, n);
    if count != n {
      return failure, [];
    }
    return 0, buf[..];
  }

  /** The same for one byte. */
  method ReadOctet(fd: Socket, failure: nat) returns (status: nat, b: Byte)
    requires failure != 0
    modifies fd
    ensures Did(old(fd.end), fd.end, Octet(old(fd.end.incoming), failure), [], status)
    ensures status == 0 || status == failure
    ensures status == 0 ==> b == Octet(old(fd.end.incoming), failure).value
  {
    var data;
    status, data := ReadExactly(fd, 1, failure);
    b := if status == 0 then data[0] else 0;
  }

  /** `if (writen_timeo(fd, buf, n, ...) != n) return failure;` */
  method WriteExactly(fd: Socket, data: Data, failure: nat) returns (status: nat)
    requires failure != 0
    modifies fd
    ensures Did(old(fd.end), fd.end, Good((), old(fd.end.incoming)), data, status)
    ensures status == 0 || status == failure
    ensures fd.end.incoming == old(fd.end.incoming)
  {
    WritingExact(fd.end, data);
    var n := |data|;
    var buf := new Byte[n](i requires 0 <= i < n => data[i]);
    assert buf[..n] == data;
    var count := WriteNTimeo(fd, buf, n);
    return if count != n then failure else 0;
  }

  // ---- the server side ----

  /** socks5_choosemethod: read a greeting, answer with the method. */
  method ChooseMethod(fd: Socket) returns (status: nat, climethod: Byte)
    modifies fd
    ensures var p := Greeting(old(fd.end.incoming));
      && Did(old(fd.end), fd.end, p, if p.Good? then [5, Chosen(p.value)] else [], status)
      && (status == 0 ==> climethod == Chosen(p.value))
    ensures status <= 1
  {
    hide Did, Goes, At;
    ghost var w0 := fd.end;
    ghost var p := Greeting(w0.incoming);
    ghost var out := if p.Good? then [5, Chosen(p.value)] else [];
    climethod := 0;
    AtStart(w0);
    var b, a;
    status, b := ReadOctet(fd, 1);
    if status != 0 {
      AtFail(w0, w0, fd.end, Octet(w0.incoming, 1), p, out, status);
      return;
    }
    ghost var w1 := fd.end;
    AtOn(w0, w0, w1, Octet(w0.incoming, 1));
    if b != 5 {
      AtStop(w0, w1, p, out);
      return 1, 0;
    }
    status, b := ReadOctet(fd, 1);
    if status != 0 {
      AtFail(w0, w1, fd.end, Octet(w1.incoming, 1), p, out, status);
      return;
    }
    ghost var s := fd.end.incoming;
    AtOn(w0, w1, fd.end, Octet(w1.incoming, 1));
    var i := 0;
    while i < b
      invariant i <= b && i <= |s| && fd.end.incoming == s[i..] && At(w0, fd.end)
      invariant climethod == if 2 in s[..i] then 2 else 0
    {
      ghost var w := fd.end;
      status, a := ReadOctet(fd, 1);
      if status != 0 {
        AtFail(w0, w, fd.end, Octet(w.incoming, 1), p, out, status);
        return;
      }
      AtOn(w0, w, fd.end, Octet(w.incoming, 1));
      assert s[..i + 1] == s[..i] + [s[i]];
      if a == 2 {
        climethod := 2;
      }
      i := i + 1;
    }
    if climethod == 0 {
      climethod := 0xFF;
    }
    ghost var w := fd.end;
    status := WriteExactly(fd, [5, climethod], 1);
    AtEnd(w0, w, fd.end, Good((), w.incoming), p, out, status);
  }

  /** socks5_readauth: read user and password, answer that they were received. */
  method ReadAuth(fd: Socket) returns (status: nat, creds: Credentials)
    modifies fd
    ensures var p := Auth(old(fd.end.incoming));
      && Did(old(fd.end), fd.end, p, if p.Good? then [1, 0] else [], status)
      && (status == 0 ==> creds == p.value)
    ensures status <= 1
  {
    hide Did, Goes, At;
    ghost var w0 := fd.end;
    ghost var p := Auth(w0.incoming);
    ghost var out := if p.Good? then [1, 0] else [];
    creds := Credentials([], []);
    AtStart(w0);
    var b, user, passwd;
    status, b := ReadOctet(fd, 1);
    if status != 0 {
      AtFail(w0, w0, fd.end, Octet(w0.incoming, 1), p, out, status);
      return;
    }
    ghost var w1 := fd.end;
    AtOn(w0, w0, w1, Octet(w0.incoming, 1));
    if b != 1 {
      AtStop(w0, w1, p, out);
      return 1, creds;
    }
    status, b := ReadOctet(fd, 1);
    if status != 0 {
      AtFail(w0, w1, fd.end, Octet(w1.incoming, 1), p, out, status);
      return;
    }
    ghost var w2 := fd.end;
    AtOn(w0, w1, w2, Octet(w1.incoming, 1));
    status, user := ReadExactly(fd, b, 1);
    if status != 0 {
      AtFail(w0, w2, fd.end, Chunk(w2.incoming, b, 1), p, out, status);
      return;
    }
    ghost var w3 := fd.end;
    AtOn(w0, w2, w3, Chunk(w2.incoming, b, 1));
    status, b := ReadOctet(fd, 1);
    if status != 0 {
      AtFail(w0, w3, fd.end, Octet(w3.incoming, 1), p, out, status);
      return;
    }
    ghost var w4 := fd.end;
    AtOn(w0, w3, w4, Octet(w3.incoming, 1));
    status, passwd := ReadExactly(fd, b, 1);
    if status != 0 {
      AtFail(w0, w4, fd.end, Chunk(w4.incoming, b, 1), p, out, status);
      return;
    }
    ghost var w5 := fd.end;
    AtOn(w0, w4, w5, Chunk(w4.incoming, b, 1));
    creds := Credentials(user, passwd);
    status := WriteExactly(fd, [1, 0], 1);
    AtEnd(w0, w5, fd.end, Good((), w5.incoming), p, out, status);
  }

  /** socks5_readrequest: what the client asks for. */
  method ReadRequest(fd: Socket, dns: Option<Quad>) returns (status: nat, request: Request)
    modifies fd
    ensures var p := Ask(old(fd.end.incoming), dns);
      && Did(old(fd.end), fd.end, p, [], status)
      && (status == 0 ==> request == p.value)
    ensures status in {0, 1, 4, 7, 8} && (status > 1 ==> Ask(old(fd.end.incoming), dns) == Bad(status))
  {
    hide Did, Goes, At, Target;
    ghost var w0 := fd.end;
    ghost var p := Ask(w0.incoming, dns);
    request := Request(1, V4([0, 0, 0, 0]), [0, 0]);
    AtStart(w0);
    var b, cmd, address, port;
    status, b := ReadOctet(fd, 1);
    if status != 0 {
      AtFail(w0, w0, fd.end, Octet(w0.incoming, 1), p, [], status);
      return;
    }
    ghost var w1 := fd.end;
    AtOn(w0, w0, w1, Octet(w0.incoming, 1));
    if b != 5 {
      AtStop(w0, w1, p, []);
      return 1, request;
    }
    status, cmd := ReadOctet(fd, 1);
    if status != 0 {
      AtFail(w0, w1, fd.end, Octet(w1.incoming, 1), p, [], status);
      return;
    }
    ghost var w2 := fd.end;
    AtOn(w0, w1, w2, Octet(w1.incoming, 1));
    if cmd < 1 || cmd > 3 {
      AtStop(w0, w2, p, []);
      return 7, request;
    }
    status, b := ReadOctet(fd, 1);
    if status != 0 {
      AtFail(w0, w2, fd.end, Octet(w2.incoming, 1), p, [], status);
      return;
    }
    ghost var w3 := fd.end;
    AtOn(w0, w2, w3, Octet(w2.incoming, 1));
    status, address := ReadTarget(fd, dns);
    if status != 0 {
      AtFail(w0, w3, fd.end, Target(w3.incoming, dns), p, [], status);
      return;
    }
    ghost var w4 := fd.end;
    AtOn(w0, w3, w4, Target(w3.incoming, dns));
    status, port := ReadExactly(fd, 2, 1);
    if status != 0 {
      AtFail(w0, w4, fd.end, Chunk(w4.incoming, 2, 1), p, [], status);
      return;
    }
    AtEnd(w0, w4, fd.end, Chunk(w4.incoming, 2, 1), p, [], status);
    request := Request(cmd, address, port);
  }

  /** The switch on ATYP (lines 320-399), up to the port that every case reads next. */
  method ReadTarget(fd: Socket, dns: Option<Quad>) returns (status: nat, address: Address)
    modifies fd
    ensures var p := Target(old(fd.end.incoming), dns);
      && Did(old(fd.end), fd.end, p, [], status)
      && (status == 0 ==> address == p.value)
    ensures status in {0, 1, 4, 8} && (status > 1 ==> Target(old(fd.end.incoming), dns) == Bad(status))
  {
    hide Did, Goes, At;
    ghost var w0 := fd.end;
    ghost var p := Target(w0.incoming, dns);
    address := V4([0, 0, 0, 0]);
    AtStart(w0);
    var b, data;
    status, b := ReadOctet(fd, 1);
    if status != 0 {
      AtFail(w0, w0, fd.end, Octet(w0.incoming, 1), p, [], status);
      return;
    }
    ghost var w1 := fd.end;
    AtOn(w0, w0, w1, Octet(w0.incoming, 1));
    if b == 1 {
      status, data := ReadExactly(fd, 4, 1);
      if status == 0 {
        address := V4(data);
      }
      AtEnd(w0, w1, fd.end, Chunk(w1.incoming, 4, 1), p, [], status);
    } else if b == 3 {
      status, b := ReadOctet(fd, 1);
      if status != 0 {
        AtFail(w0, w1, fd.end, Octet(w1.incoming, 1), p, [], status);
        return;
      }
      ghost var w2 := fd.end;
      AtOn(w0, w1, w2, Octet(w1.incoming, 1));
      status, data := ReadExactly(fd, b, 1);
      if status != 0 {
        AtFail(w0, w2, fd.end, Chunk(w2.incoming, b, 1), p, [], status);
        return;
      }
      AtOn(w0, w2, fd.end, Chunk(w2.incoming, b, 1));
      if dns.None? {
        AtStop(w0, fd.end, p, []);
        return 4, address;
      }
      address := V4(dns.value);
      AtDone(w0, fd.end, p);
    } else if b == 4 {
      status, data := ReadExactly(fd, 16, 1);
      if status == 0 {
        address := V6(data);
      }
      AtEnd(w0, w1, fd.end, Chunk(w1.incoming, 16, 1), p, [], status);
    } else {
      AtStop(w0, w1, p, []);
      status := 8;
    }
  }

  lemma AtDone<T>(w0: End, w: End, p: Parsed<T>)
    requires At(w0, w) && p.Good? && w.incoming == p.rest
    ensures Did(w0, w, p, [], 0)
  {
    assert w0.sent + [] == w0.sent;
  }

  /** memcpy into a buffer. */
  method Copy(buf: array<Byte>, at: nat, data: Data)
    requires at + |data| <= buf.Length
    modifies buf
    ensures buf[..] == Overwrite(old(buf[..]), at, data)
  {
    forall i | 0 <= i < |data| {
      buf[at + i] := data[i];
    }
  }

  /** How socks5_writerequest and socks5_writereply lay out a message:
      VER, one byte, RSV, ATYP, address, port (lines 214-223, 411-426). */
  method LayOut(buf: array<Byte>, b1: Byte, address: Address, port: Pair) returns (n: nat)
    requires buf.Length >= 32
    modifies buf
    ensures n <= buf.Length && buf[..n] == [5, b1, 0] + AddressBytes(address) + port
  {
    buf[0] := 5;
    buf[1] := b1;
    buf[2] := 0;
    buf[3] := if address.V4? then 1 else 4;
    n := if address.V6? then 16 else 4;
    Copy(buf, 4, match address case V4(quad) => quad case V6(hex) => hex);
    Copy(buf, 4 + n, port);
    n := n + (4 + 2);
  }

  // ---- the client side ----

  /** socks5_writerequest always asks to connect. */
  method WriteRequest(fd: Socket, address: Address, port: Pair) returns (status: nat)
    modifies fd
    ensures Did(old(fd.end), fd.end, Good((), old(fd.end.incoming)), RequestBytes(Request(1, address, port)), status)
    ensures status == 0 || status == 4
    ensures fd.end.incoming == old(fd.end.incoming)
  {
    var buf := new Byte[32];
    var n := LayOut(buf, 1, address, port);
    status := WriteExactly(fd, buf[..n], 4);
  }

  /** socks5_writereply; `bound` is what getsockname gives, if it succeeds. */
  method WriteReply(fd: Socket, rep: Byte, bound: Option<(Address, Pair)>) returns (status: nat)
    modifies fd
    ensures bound.None? ==> status == 1 && fd.end == old(fd.end)
    ensures bound.Some? ==>
      Did(old(fd.end), fd.end, Good((), old(fd.end.incoming)), ReplyBytes(rep, bound.value.0, bound.value.1), status)
    ensures status <= 1 && fd.end.incoming == old(fd.end.incoming)
  {
    if bound.None? {
      return 1;
    }
    var buf := new Byte[32];
    var n := LayOut(buf, rep, bound.value.0, bound.value.1);
    status := WriteExactly(fd, buf[..n], 1);
  }

  /** socks5_readreply. */
  method ReadReply(fd: Socket) returns (status: nat)
    modifies fd
    ensures Did(old(fd.end), fd.end, Reply(old(fd.end.incoming)), [], status)
    ensures status < 256 && (status !in {0, 2, 4} ==> Reply(old(fd.end.incoming)) == Bad(status))
  {
    hide Did, Goes, At;
    ghost var w0 := fd.end;
    ghost var p := Reply(w0.incoming);
    AtStart(w0);
    var buf, b, data;
    status, buf := ReadExactly(fd, 4, 4);
    if status != 0 {
      AtFail(w0, w0, fd.end, Chunk(w0.incoming, 4, 4), p, [], status);
      return;
    }
    ghost var w1 := fd.end;
    AtOn(w0, w0, w1, Chunk(w0.incoming, 4, 4));
    if buf[0] != 5 || buf[1] != 0 {
      status := buf[1];
      if status == 0 { AtDone(w0, w1, p); } else { AtStop(w0, w1, p, []); }
      return;
    }
    if buf[3] == 1 {
      status, data := ReadExactly(fd, 6, 2);
      AtEnd(w0, w1, fd.end, Chunk(w1.incoming, 6, 2), p, [], status);
    } else if buf[3] == 3 {
      status, b := ReadOctet(fd, 2);
      if status != 0 {
        AtFail(w0, w1, fd.end, Octet(w1.incoming, 2), p, [], status);
        return;
      }
      ghost var w2 := fd.end;
      AtOn(w0, w1, w2, Octet(w1.incoming, 2));
      var n: nat := b;
      status, data := ReadExactly(fd, n + 2, 2);
      AtEnd(w0, w2, fd.end, Chunk(w2.incoming, n + 2, 2), p, [], status);
    } else if buf[3] == 4 {
      status, data := ReadExactly(fd, 18, 2);
      AtEnd(w0, w1, fd.end, Chunk(w1.incoming, 18, 2), p, [], status);
    } else {
      AtStop(w0, w1, p, []);
      status := 8;
    }
  }

  // ---- a conversation of several messages ----

  /** A conversation went as t says: on a steady connection exactly so; if it
      succeeded, exactly so; and in any case it sent nothing else. */
  ghost predicate Talked(w0: End, w: End, t: Talk, status: int) {
    && Goes(w0, w) && w0.sent <= w.sent <= w0.sent + t.out
    && (status == 0 ==> t.status == 0 && w.sent == w0.sent + t.out && w.incoming == t.rest)
    && (Steady(w0) ==> status == t.status && w.sent == w0.sent + t.out)
  }

  /** Part-way: so much has been sent. */
  ghost predicate Talking(w0: End, w: End, sofar: Data) { Goes(w0, w) && w.sent == w0.sent + sofar }

  lemma TalkStart(w: End)
    ensures Talking(w, w, [])
  {
  }

  lemma TalkSent(w0: End, w1: End, w2: End, sofar: Data, data: Data)
    requires Talking(w0, w1, sofar) && Did(w1, w2, Good((), w1.incoming), data, 0)
    ensures Talking(w0, w2, sofar + data)
  {
    GoesTrans(w0, w1, w2);
    assert w0.sent + sofar + data == w0.sent + (sofar + data);
  }

  lemma TalkSendFailed(w0: End, w1: End, w2: End, sofar: Data, data: Data, t: Talk, status: int)
    requires Talking(w0, w1, sofar) && Did(w1, w2, Good((), w1.incoming), data, status) && status != 0
    requires sofar + data <= t.out
    ensures Talked(w0, w2, t, status)
  {
    GoesTrans(w0, w1, w2);
    assert w0.sent + sofar + data == w0.sent + (sofar + data) <= w0.sent + t.out;
  }

  lemma TalkRead<T>(w0: End, w1: End, w2: End, sofar: Data, q: Parsed<T>)
    requires Talking(w0, w1, sofar) && Did(w1, w2, q, [], 0)
    ensures Talking(w0, w2, sofar) && q.Good? && w2.incoming == q.rest
  {
    GoesTrans(w0, w1, w2);
    assert w1.sent + [] == w1.sent;
  }

  lemma TalkReadFailed<T>(w0: End, w1: End, w2: End, sofar: Data, q: Parsed<T>, t: Talk, status: int)
    requires Talking(w0, w1, sofar) && Did(w1, w2, q, [], status) && status != 0
    requires sofar <= t.out && (q.Bad? ==> t.status == q.status && t.out == sofar)
    ensures Talked(w0, w2, t, status)
  {
    GoesTrans(w0, w1, w2);
    assert w1.sent + [] == w1.sent;
    assert w0.sent + sofar <= w0.sent + t.out;
  }

  lemma TalkEnds(w0: End, w: End, sofar: Data, t: Talk)
    requires Talking(w0, w, sofar) && t.out == sofar && (t.status == 0 ==> w.incoming == t.rest)
    ensures Talked(w0, w, t, t.status)
  {
  }

  /** The credentials, built up in a buffer (lines 491-498). */
  method LayOutAuth(buf: array<Byte>, creds: Credentials) returns (n: nat)
    requires buf.Length == 512 && |creds.user| <= 127 && |creds.passwd| <= 127
    modifies buf
    ensures n <= buf.Length && buf[..n] == AuthBytes(creds)
  {
    n := 0;
    buf[n] := 1;
    n := n + 1;
    buf[n] := |creds.user|;
    n := n + 1;
    Copy(buf, n, creds.user);
    n := n + buf[1];
    assert buf[..n] == [1, |creds.user|] + creds.user;
    buf[n] := |creds.passwd|;
    n := n + 1;
    assert buf[..n] == [1, |creds.user|] + creds.user + [|creds.passwd|];
    Copy(buf, n, creds.passwd);
    n := n + buf[n - 1];
  }

  datatype Connection = NoSocket | NoPeer | Connected

  /** socks5_connectproxy: greet, authenticate, ask, and hear the reply. */
  method ConnectProxy(fd: Socket, link: Connection, creds: Option<Credentials>, address: Address, port: Pair)
    returns (status: nat)
    requires creds.Some? ==> |creds.value.user| <= 127 && |creds.value.passwd| <= 127
    modifies fd
    ensures !link.Connected? ==> fd.end == old(fd.end) && status == if link.NoSocket? then 1 else 4
    ensures link.Connected? ==>
      && Talked(old(fd.end), fd.end, ClientTalk(old(fd.end.incoming), creds, address, port), status)
      && (status !in {0, 2, 4} ==> ClientTalk(old(fd.end.incoming), creds, address, port).status == status)
    ensures status < 256
  {
    hide Did, Goes, Talked, Talking, Reply, AuthBytes, RequestBytes;
    match link {
      case NoSocket => return 1;
      case NoPeer => return 4;
      case Connected =>
    }
    ghost var w0 := fd.end;
    ghost var t := ClientTalk(w0.incoming, creds, address, port);
    TalkStart(w0);
    var buf;
    status := WriteExactly(fd, CLIENT_GREETING, 4);
    if status != 0 {
      TalkSendFailed(w0, w0, fd.end, [], CLIENT_GREETING, t, status);
      return;
    }
    ghost var w1 := fd.end;
    TalkSent(w0, w0, w1, [], CLIENT_GREETING);
    status, buf := ReadExactly(fd, 2, 4);
    if status != 0 {
      TalkReadFailed(w0, w1, fd.end, CLIENT_GREETING, Chunk(w1.incoming, 2, 4), t, status);
      return;
    }
    ghost var w2 := fd.end;
    TalkRead(w0, w1, w2, CLIENT_GREETING, Chunk(w1.incoming, 2, 4));
    if buf[0] != 5 || buf[1] != 2 || creds.None? {
      TalkEnds(w0, w2, CLIENT_GREETING, t);
      return 4;
    }
    status := Authenticate(fd, creds.value, w0, t, RequestBytes(Request(1, address, port)));
    if status != 0 {
      return;
    }
    ghost var sofar := CLIENT_GREETING + AuthBytes(creds.value);
    ghost var w3 := fd.end;
    status := WriteRequest(fd, address, port);
    if status != 0 {
      TalkSendFailed(w0, w3, fd.end, sofar, RequestBytes(Request(1, address, port)), t, status);
      return;
    }
    ghost var w4 := fd.end;
    TalkSent(w0, w3, w4, sofar, RequestBytes(Request(1, address, port)));
    sofar := sofar + RequestBytes(Request(1, address, port));
    status := ReadReply(fd);
    if status != 0 {
      TalkReadFailed(w0, w4, fd.end, sofar, Reply(w4.incoming), t, status);
      return;
    }
    TalkRead(w0, w4, fd.end, sofar, Reply(w4.incoming));
    TalkEnds(w0, fd.end, sofar, t);
  }

  /** Lines 490-514: send the credentials and hear the verdict. */
  method Authenticate(fd: Socket, creds: Credentials, ghost w0: End, ghost t: Talk, ghost request: Data)
    returns (status: nat)
    requires |creds.user| <= 127 && |creds.passwd| <= 127
    requires Talking(w0, fd.end, CLIENT_GREETING)
    requires t == ClientTalkAuth(fd.end.incoming, CLIENT_GREETING + AuthBytes(creds), request)
    modifies fd
    ensures status != 0 ==> Talked(w0, fd.end, t, status)
    ensures status == 0 ==>
      && Talking(w0, fd.end, CLIENT_GREETING + AuthBytes(creds))
      && |old(fd.end.incoming)| >= 2 && old(fd.end.incoming)[..2] == [1, 0]
      && fd.end.incoming == old(fd.end.incoming)[2..]
    ensures status in {0, 4} || (status == 5 && t.status == 5)
  {
    hide Did, Goes, Talked, Talking, Reply, AuthBytes;
    ghost var w1 := fd.end;
    ghost var sofar := CLIENT_GREETING + AuthBytes(creds);
    var buf := new Byte[512];
    var n := LayOutAuth(buf, creds);
    status := WriteExactly(fd, buf[..n], 4);
    if status != 0 {
      TalkSendFailed(w0, w1, fd.end, CLIENT_GREETING, AuthBytes(creds), t, status);
      return;
    }
    ghost var w2 := fd.end;
    TalkSent(w0, w1, w2, CLIENT_GREETING, AuthBytes(creds));
    var data;
    status, data := ReadExactly(fd, 2, 4);
    if status != 0 {
      TalkReadFailed(w0, w2, fd.end, sofar, Chunk(w2.incoming, 2, 4), t, status);
      return;
    }
    TalkRead(w0, w2, fd.end, sofar, Chunk(w2.incoming, 2, 4));
    if data[0] != 1 || data[1] != 0 {
      TalkEnds(w0, fd.end, sofar, t);
      return 5;
    }
  }
}
