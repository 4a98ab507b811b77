/** The messages of RFC 1928 and RFC 1929 as socks.c writes and reads them: one
    encoder and one parser a message, over the byte stream alone. */
module Codec {
  import opened Bytes

  type Quad = d: Data | |d| == 4 witness [0, 0, 0, 0]
  type Pair = d: Data | |d| == 2 witness [0, 0]
  type Hextet8 = d: Data | |d| == 16 witness [0, 0, 0, 0, 0, 0, 0, 0, 0, 0, 0, 0, 0, 0, 0, 0]
  type Short = d: Data | |d| < 256

  datatype Option<+T> = None | Some(value: T)

  /** AF_INET or AF_INET6; addresses and ports stay in network order. */
  datatype Address = V4(quad: Quad) | V6(hex: Hextet8)

  datatype Credentials = Credentials(user: Short, passwd: Short)

  datatype Request = Request(cmd: Byte, address: Address, port: Pair)

  /** A message off the front of a stream, or the status the source returns. */
  datatype Parsed<+T> = Good(value: T, rest: Data) | Bad(status: nat) {
    predicate IsFailure() { Bad? }

    function PropagateFailure<U>(): Parsed<U>
      requires Bad?
    {
      Bad(status)
    }

    function Extract(): (T, Data)
      requires Good?
    {
      (value, rest)
    }
  }

  // ---- parsers ----

  function Chunk(s: Data, n: nat, status: nat): Parsed<Data> {
    if |s| < n then Bad(status) else Good(s[..n], s[n..])
  }

  function Octet(s: Data, status: nat): Parsed<Byte> {
    if s == [] then Bad(status) else Good(s[0], s[1..])
  }

  /** VER NMETHODS METHODS (socks5_choosemethod, lines 97-119). */
  function Greeting(s: Data): (p: Parsed<Data>)
    ensures p.Bad? ==> p.status == 1
  {
    var (ver, s1) :- Octet(s, 1);
    if ver != 5 then Bad(1)
    else
      var (n, s2) :- Octet(s1, 1);
      Chunk(s2, n, 1)
  }

  /** The method the server picks: user and password, or none acceptable. */
  function Chosen(methods: Data): Byte { if 2 in methods then 2 else 0xFF }

  /** VER ULEN UNAME PLEN PASSWD (socks5_readauth). */
  function Auth(s: Data): (p: Parsed<Credentials>)
    ensures p.Bad? ==> p.status == 1
  {
    var (ver, s1) :- Octet(s, 1);
    if ver != 1 then Bad(1)
    else
      var (ulen, s2) :- Octet(s1, 1);
      var (user, s3) :- Chunk(s2, ulen, 1);
      var (plen, s4) :- Octet(s3, 1);
      var (passwd, s5) :- Chunk(s4, plen, 1);
      Good(Credentials(user, passwd), s5)
  }

  /** VER CMD RSV ATYP DST.ADDR DST.PORT (socks5_readrequest); `dns` is what
      looking up a domain name gives. */
  function Ask(s: Data, dns: Option<Quad>): (p: Parsed<Request>)
    ensures p.Bad? ==> p.status in {1, 4, 7, 8}
  {
    var (ver, s1) :- Octet(s, 1);
    if ver != 5 then Bad(1)
    else
      var (cmd, s2) :- Octet(s1, 1);
      if cmd < 1 || cmd > 3 then Bad(7)
      else
        var (rsv, s3) :- Octet(s2, 1);
        var (address, s4) :- Target(s3, dns);
        var (port, s5) :- Chunk(s4, 2, 1);
        Good(Request(cmd, address, port), s5)
  }

  /** ATYP and the address: IPv4, a domain name, or IPv6. */
  function Target(s: Data, dns: Option<Quad>): (p: Parsed<Address>)
    ensures p.Bad? ==> p.status in {1, 4, 8}
  {
    var (atyp, s1) :- Octet(s, 1);
    if atyp == 1 then
      var (quad, s2) :- Chunk(s1, 4, 1);
      Good(V4(quad), s2)
    else if atyp == 3 then
      var (n, s2) :- Octet(s1, 1);
      var (name, s3) :- Chunk(s2, n, 1);
      if dns.None? then Bad(4) else Good(V4(dns.value), s3)
    else if atyp == 4 then
      var (hex, s2) :- Chunk(s1, 16, 1);
      Good(V6(hex), s2)
    else Bad(8)
  }

  /** VER REP RSV ATYP BND.ADDR BND.PORT (socks5_readreply). A reply with another
      version returns its REP field as it is, even when that is 0. */
  function Reply(s: Data): (p: Parsed<()>)
    ensures p.Bad? ==> 0 < p.status < 256
  {
    var (head, s1) :- Chunk(s, 4, 4);
    if head[0] != 5 || head[1] != 0 then
      (if head[1] == 0 then Good((), s1) else Bad(head[1]))
    else
      var (n, s2) :- BoundLength(head[3], s1);
      var (bound, s3) :- Chunk(s2, n, 2);
      Good((), s3)
  }

  /** How many bytes of address and port follow the head of a reply. */
  function BoundLength(atyp: Byte, s: Data): Parsed<nat> {
    if atyp == 1 then Good(6, s)
    else if atyp == 3 then
      var (n, s1) :- Octet(s, 2);
      Good(n + 2, s1)
    else if atyp == 4 then Good(18, s)
    else Bad(8)
  }

  // ---- encoders ----

  function GreetingBytes(methods: Short): Data { [5, |methods|] + methods }

  function AuthBytes(c: Credentials): Data {
    [1, |c.user|] + c.user + [|c.passwd|] + c.passwd
  }

  function AddressBytes(a: Address): Data {
    match a case V4(quad) => [1] + quad case V6(hex) => [4] + hex
  }

  function RequestBytes(r: Request): Data {
    [5, r.cmd, 0] + AddressBytes(r.address) + r.port
  }

  function ReplyBytes(status: Byte, address: Address, port: Pair): Data {
    [5, status, 0] + AddressBytes(address) + port
  }

  // ---- round trips ----

  lemma GreetingRoundTrip(methods: Short, rest: Data)
    ensures Greeting(GreetingBytes(methods) + rest) == Good(methods, rest)
  {
    var s := GreetingBytes(methods) + rest;
    assert s[1..][1..] == methods + rest;
  }

  /** A stream parses as a greeting only if it starts with one. */
  lemma GreetingOnly(s: Data)
    requires Greeting(s).Good?
    ensures |Greeting(s).value| < 256 && s == GreetingBytes(Greeting(s).value) + Greeting(s).rest
  {
    assert s == [s[0], s[1]] + s[1..][1..];
  }

  lemma AuthShape(c: Credentials, rest: Data)
    ensures AuthBytes(c) + rest == [1, |c.user|] + (c.user + ([|c.passwd|] + (c.passwd + rest)))
  {
  }

  lemma AuthRoundTrip(c: Credentials, rest: Data)
    ensures Auth(AuthBytes(c) + rest) == Good(c, rest)
  {
    AuthShape(c, rest);
    var s3 := [|c.passwd|] + (c.passwd + rest);
    var s := [1, |c.user|] + (c.user + s3);
    assert s[1..][1..] == c.user + s3;
    assert s3[1..] == c.passwd + rest;
  }

  lemma AuthOnly(s: Data)
    requires Auth(s).Good?
    ensures s == AuthBytes(Auth(s).value) + Auth(s).rest
  {
    var c, rest := Auth(s).value, Auth(s).rest;
    var s2 := s[1..][1..];
    Front(s, s2);
    AuthTail(s2, c, rest);
    AuthShape(c, rest);
  }

  lemma AuthTail(s2: Data, c: Credentials, rest: Data)
    requires |c.user| < |s2| && c.user == s2[..|c.user|]
    requires var s4 := s2[|c.user|..][1..];
      s2[|c.user|] == |c.passwd| <= |s4| && c.passwd == s4[..|c.passwd|] && rest == s4[|c.passwd|..]
    ensures s2 == c.user + ([|c.passwd|] + (c.passwd + rest))
  {
    var s3 := s2[|c.user|..];
    assert s2 == c.user + s3 && s3 == [|c.passwd|] + s3[1..] && s3[1..] == c.passwd + rest;
  }

  lemma Front(s: Data, s2: Data)
    requires |s| >= 2 && s2 == s[1..][1..]
    ensures s == [s[0], s[1]] + s2
  {
  }

  lemma AddressAccepted(a: Address, dns: Option<Quad>, rest: Data)
    ensures Target(AddressBytes(a) + rest, dns) == Good(a, rest)
  {
    assert (AddressBytes(a) + rest)[1..] == (match a case V4(quad) => quad case V6(hex) => hex) + rest;
  }

  lemma RequestRoundTrip(r: Request, dns: Option<Quad>, rest: Data)
    requires 1 <= r.cmd <= 3
    ensures Ask(RequestBytes(r) + rest, dns) == Good(r, rest)
  {
    hide Target, AddressBytes;
    var s3 := AddressBytes(r.address) + (r.port + rest);
    assert RequestBytes(r) + rest == [5, r.cmd, 0] + s3;
    assert ([5, r.cmd, 0] + s3)[1..][1..][1..] == s3;
    AddressAccepted(r.address, dns, r.port + rest);
    assert (r.port + rest)[..2] == r.port && (r.port + rest)[2..] == rest;
  }

  /** The bytes of a request up to its port: the address outright, or a domain
      name that resolves to it; any reserved byte. */
  ghost predicate AsksFor(head: Data, r: Request, dns: Option<Quad>) {
    && 1 <= r.cmd <= 3 && |head| >= 5 && head[0] == 5 && head[1] == r.cmd
    && (head[3..] == AddressBytes(r.address)
        || (head[3] == 3 && |head| - 5 == head[4] && r.address.V4? && dns == Some(r.address.quad)))
  }

  lemma RequestOnly(s: Data, dns: Option<Quad>) returns (head: Data)
    requires Ask(s, dns).Good?
    ensures AsksFor(head, Ask(s, dns).value, dns)
    ensures s == head + Ask(s, dns).value.port + Ask(s, dns).rest
  {
    hide Target;
    var r, rest := Ask(s, dns).value, Ask(s, dns).rest;
    var s3 := s[1..][1..][1..];
    assert s == [s[0], s[1], s[2]] + s3;
    var s4 := Target(s3, dns).rest;
    assert s4 == r.port + rest;
    TargetOnly(s3, dns);
    var target := s3[..|s3| - |s4|];
    head := [s[0], s[1], s[2]] + target;
    assert head[3..] == target;
    assert AsksFor(head, r, dns);
    assert s == head + r.port + rest;
  }

  lemma TargetOnly(s: Data, dns: Option<Quad>)
    requires Target(s, dns).Good?
    ensures var (a, rest) := (Target(s, dns).value, Target(s, dns).rest);
      && |rest| < |s| - 1 && s == s[..|s| - |rest|] + rest
      && var target := s[..|s| - |rest|];
      (target == AddressBytes(a)
       || (target[0] == 3 && |target| - 2 == target[1] && a.V4? && dns == Some(a.quad)))
  {
    var rest := Target(s, dns).rest;
    if s[0] == 3 {
      var n: nat := s[1];
      assert rest == s[1..][1..][n..] == s[2 + n..];
    } else {
      var n := if s[0] == 1 then 4 else 16;
      assert rest == s[1..][n..] == s[1 + n..];
    }
  }

  // ---- replies ----

  /** `r` is one whole successful reply in the sense of section 6 of RFC 1928. */
  predicate WholeReply(r: Data) {
    && |r| >= 5 && r[0] == 5 && r[1] == 0
    && (if r[3] == 3 then |r| - 7 == r[4] else |r| == if r[3] == 1 then 10 else if r[3] == 4 then 22 else 0)
  }

  /** Exactly one whole reply is taken off the stream. */
  lemma WholeReplyTaken(r: Data, rest: Data)
    requires WholeReply(r)
    ensures Reply(r + rest) == Good((), rest)
  {
    var s1 := (r + rest)[4..];
    if r[3] == 3 {
      var n: nat := r[4];
      assert s1[1..][n + 2..] == rest;
    } else {
      assert s1[|r| - 4..] == rest;
    }
  }

  lemma ReplyBytesWhole(address: Address, port: Pair)
    ensures WholeReply(ReplyBytes(0, address, port))
  {
  }

  /** When socks5_readreply succeeds it has consumed one whole reply if and only
      if the version it read was 5; otherwise it has consumed four bytes. */
  lemma ReplyConsumption(s: Data)
    requires Reply(s).Good?
    ensures |Reply(s).rest| + 4 <= |s| && s[1] == 0
    ensures var taken := s[..|s| - |Reply(s).rest|];
      && s == taken + Reply(s).rest
      && (WholeReply(taken) <==> s[0] == 5)
      && (s[0] != 5 ==> |taken| == 4)
  {
    var taken := s[..|s| - |Reply(s).rest|];
    if s[0] == 5 {
      if s[3] == 3 {
        var n: nat := s[4];
        assert Reply(s).rest == s[4..][1..][n + 2..] == s[7 + n..];
      } else {
        assert Reply(s).rest == s[if s[3] == 1 then 10 else 22..];
      }
    }
  }

  /** A reply of version 4 with REP 0 counts as success, and its address is left
      on the stream. */
  lemma WrongVersionAccepted(port: Pair)
    ensures Reply([4, 0, 0, 1] + [127, 0, 0, 1] + port) == Good((), [127, 0, 0, 1] + port)
  {
    assert ([4, 0, 0, 1] + [127, 0, 0, 1] + port)[4..] == [127, 0, 0, 1] + port;
  }

  // ---- whole conversations, as functions of the stream that comes in ----

  /** How a conversation goes when `s` comes in: the status it ends with, all it
      sends, and, if it succeeds, what it leaves unread. */
  datatype Talk = Talk(status: nat, out: Data, rest: Data)

  const CLIENT_GREETING: Data := [5, 1, 2]

  /** socks5_connectproxy once connected (lines 457-523). */
  function ClientTalk(s: Data, creds: Option<Credentials>, address: Address, port: Pair): Talk {
    match Chunk(s, 2, 4)
    case Bad(status) => Talk(status, CLIENT_GREETING, [])
    case Good(method_, s1) =>
      if method_[0] != 5 || method_[1] != 2 || creds.None? then Talk(4, CLIENT_GREETING, [])
      else ClientTalkAuth(s1, CLIENT_GREETING + AuthBytes(creds.value), RequestBytes(Request(1, address, port)))
  }

  function ClientTalkAuth(s: Data, sofar: Data, request: Data): Talk {
    match Chunk(s, 2, 4)
    case Bad(status) => Talk(status, sofar, [])
    case Good(auth, s1) =>
      if auth[0] != 1 || auth[1] != 0 then Talk(5, sofar, [])
      else
        match Reply(s1)
        case Bad(status) => Talk(status, sofar + request, [])
        case Good(_, s2) => Talk(0, sofar + request, s2)
  }

  /** A successful conversation sent greeting, credentials and request, and heard
      the method, the verdict, and a reply it accepts. */
  lemma ClientTalkGoesWell(s: Data, creds: Option<Credentials>, address: Address, port: Pair)
    requires ClientTalk(s, creds, address, port).status == 0
    ensures creds.Some? && |s| >= 4 && s[..4] == [5, 2, 1, 0]
    ensures var t := ClientTalk(s, creds, address, port);
      && t.out == CLIENT_GREETING + AuthBytes(creds.value) + RequestBytes(Request(1, address, port))
      && Reply(s[4..]) == Good((), t.rest)
  {
    assert s[2..][2..] == s[4..];
    assert s[..4] == s[..2] + s[2..][..2];
  }

  /** The server's side, with what it has learnt when it succeeds. */
  datatype Session = Session(talk: Talk, creds: Option<Credentials>, request: Option<Request>)

  function Broken(status: nat, out: Data): Session { Session(Talk(status, out, []), None, None) }

  /** socks5_choosemethod, socks5_readauth if that method was chosen, and
      socks5_readrequest, one after the other. */
  function ServerTalk(s: Data, dns: Option<Quad>): Session {
    match Greeting(s)
    case Bad(status) => Broken(status, [])
    case Good(methods, s1) =>
      if Chosen(methods) == 2 then
        match Auth(s1)
        case Bad(status) => Broken(status, [5, 2])
        case Good(creds, s2) => ServerTalkAsk(s2, dns, Some(creds), [5, 2] + [1, 0])
      else ServerTalkAsk(s1, dns, None, [5, 0xFF])
  }

  function ServerTalkAsk(s: Data, dns: Option<Quad>, creds: Option<Credentials>, sofar: Data): Session {
    match Ask(s, dns)
    case Bad(status) => Broken(status, sofar)
    case Good(request, rest) => Session(Talk(0, sofar, rest), creds, Some(request))
  }

  /** A successful session with a user was, byte for byte, a greeting that offers
      the method, credentials, a request, and what is left. */
  lemma SessionIs(s: Data, dns: Option<Quad>) returns (methods: Data, head: Data)
    requires ServerTalk(s, dns).talk.status == 0 && ServerTalk(s, dns).creds.Some?
    ensures |methods| < 256 && 2 in methods
    ensures var t := ServerTalk(s, dns);
      && t.request.Some? && t.talk.out == [5, 2, 1, 0]
      && AsksFor(head, t.request.value, dns)
      && s == GreetingBytes(methods) + AuthBytes(t.creds.value) + (head + t.request.value.port) + t.talk.rest
  {
    hide Greeting, Auth, Ask, GreetingBytes, AuthBytes, AsksFor;
    methods := Greeting(s).value;
    var s1 := Greeting(s).rest;
    var s2 := Auth(s1).rest;
    GreetingOnly(s);
    AuthOnly(s1);
    head := RequestOnly(s2, dns);
    var r := Ask(s2, dns);
    Regroup(GreetingBytes(methods), AuthBytes(Auth(s1).value), head, r.value.port, r.rest);
  }

  lemma Regroup(a: Data, b: Data, c: Data, d: Data, e: Data)
    ensures a + (b + (c + d + e)) == a + b + (c + d) + e
  {
  }
}
