/** What each party hears: which streams the parsers of socks.c refuse and with
    which status, and that what ought to succeed does. */
module Answers {
  import opened Bytes
  import opened Codec

  // ---- the server's side ----

  /** The byte after the version in the answer to a greeting: 2 exactly for a client
      that offers user and password, among whatever else, and 0xFF for any other. */
  lemma MethodAnswered(methods: Short, rest: Data, dns: Option<Quad>)
    ensures var out := ServerTalk(GreetingBytes(methods) + rest, dns).talk.out;
      && |out| >= 2 && out[0] == 5
      && (out[1] == 2 <==> exists i :: 0 <= i < |methods| && methods[i] == 2)
      && (out[1] == 0xFF <==> forall i | 0 <= i < |methods| :: methods[i] != 2)
  {
    hide Greeting, Auth, Ask, GreetingBytes;
    GreetingRoundTrip(methods, rest);
  }

  /** Every request of the accepted shape is taken off the stream, with any name
      that resolves and any reserved byte. */
  lemma RequestAccepted(head: Data, r: Request, dns: Option<Quad>, rest: Data)
    requires AsksFor(head, r, dns)
    ensures Ask(head + r.port + rest, dns) == Good(r, rest)
  {
    hide Target;
    var s := head + r.port + rest;
    var s3 := head[3..] + (r.port + rest);
    assert s[1..][1..][1..] == s3;
    TargetAccepted(head[3..], r.address, dns, r.port + rest);
    assert (r.port + rest)[..2] == r.port && (r.port + rest)[2..] == rest;
  }

  lemma TargetAccepted(target: Data, a: Address, dns: Option<Quad>, rest: Data)
    requires target == AddressBytes(a) ||
             (|target| >= 2 && target[0] == 3 && |target| - 2 == target[1] && a.V4? && dns == Some(a.quad))
    ensures Target(target + rest, dns) == Good(a, rest)
  {
    if target == AddressBytes(a) {
      AddressAccepted(a, dns, rest);
    } else {
      NameAccepted(target[2..], dns, rest);
      assert target == [3, |target[2..]|] + target[2..];
    }
  }

  lemma NameAccepted(name: Short, dns: Option<Quad>, rest: Data)
    ensures Target([3, |name|] + name + rest, dns) == if dns.Some? then Good(V4(dns.value), rest) else Bad(4)
  {
    var s := [3, |name|] + name + rest;
    assert s[1..][1..] == name + rest;
    assert (name + rest)[|name|..] == rest;
  }

  /** A name of any length parses to the address it resolves to, and is refused with
      status 4 if it does not resolve. */
  lemma NameRoundTrip(cmd: Byte, rsv: Byte, name: Short, port: Pair, dns: Option<Quad>, rest: Data)
    requires 1 <= cmd <= 3
    ensures var s := [5, cmd, rsv, 3, |name|] + name + port + rest;
      Ask(s, dns) == if dns.Some? then Good(Request(cmd, V4(dns.value), port), rest) else Bad(4)
  {
    hide Target;
    var s := [5, cmd, rsv, 3, |name|] + name + port + rest;
    assert s[1..][1..][1..] == [3, |name|] + name + (port + rest);
    NameAccepted(name, dns, port + rest);
    assert (port + rest)[..2] == port && (port + rest)[2..] == rest;
  }

  /** The status of a request that is refused: 7 for its command, 8 for its address
      type, 4 for a name that does not resolve, and 1 for anything else. */
  lemma RequestRefused(s: Data, dns: Option<Quad>)
    requires Ask(s, dns).Bad?
    ensures Ask(s, dns).status ==
      if |s| >= 2 && s[0] == 5 && !(1 <= s[1] <= 3) then 7
      else if |s| >= 4 && s[0] == 5 && s[3] != 1 && s[3] != 3 && s[3] != 4 then 8
      else if |s| >= 5 && s[0] == 5 && s[3] == 3 && |s| - 5 >= s[4] && dns.None? then 4
      else 1
  {
    if |s| >= 3 {
      assert s[1..][1..][1..] == s[3..];
    }
  }

  /** What ought to be served is: a greeting that offers the method, credentials and
      a request, followed by anything. */
  lemma SessionSucceeds(methods: Short, creds: Credentials, head: Data, r: Request, dns: Option<Quad>, rest: Data)
    requires 2 in methods && AsksFor(head, r, dns)
    ensures ServerTalk(GreetingBytes(methods) + (AuthBytes(creds) + (head + r.port + rest)), dns)
         == Session(Talk(0, [5, 2, 1, 0], rest), Some(creds), Some(r))
  {
    hide Greeting, Auth, Ask, GreetingBytes, AuthBytes, AsksFor;
    GreetingRoundTrip(methods, AuthBytes(creds) + (head + r.port + rest));
    AuthRoundTrip(creds, head + r.port + rest);
    RequestAccepted(head, r, dns, rest);
  }

  /** Without the method the request is read all the same, right after the greeting. */
  lemma SessionWithoutMethod(methods: Short, head: Data, r: Request, dns: Option<Quad>, rest: Data)
    requires 2 !in methods && AsksFor(head, r, dns)
    ensures ServerTalk(GreetingBytes(methods) + (head + r.port + rest), dns)
         == Session(Talk(0, [5, 0xFF], rest), None, Some(r))
  {
    hide Greeting, Auth, Ask, GreetingBytes, AsksFor;
    GreetingRoundTrip(methods, head + r.port + rest);
    RequestAccepted(head, r, dns, rest);
  }

  /** How a session fails that does: 1 for a greeting or credentials not of their
      form, and otherwise as its request does, after the answers given so far. */
  lemma SessionRefused(s: Data, dns: Option<Quad>)
    requires Greeting(s).Bad?
    ensures ServerTalk(s, dns) == Broken(1, [])
  {
    hide Greeting;
  }

  lemma SessionRefusedAuth(methods: Short, s: Data, dns: Option<Quad>)
    requires 2 in methods && Auth(s).Bad?
    ensures ServerTalk(GreetingBytes(methods) + s, dns) == Broken(1, [5, 2])
  {
    hide Greeting, Auth, GreetingBytes;
    GreetingRoundTrip(methods, s);
  }

  lemma SessionRefusedRequest(methods: Short, creds: Credentials, s: Data, dns: Option<Quad>)
    requires Ask(s, dns).Bad?
    ensures var t := if 2 in methods then AuthBytes(creds) + s else s;
      ServerTalk(GreetingBytes(methods) + t, dns)
      == Broken(Ask(s, dns).status, if 2 in methods then [5, 2, 1, 0] else [5, 0xFF])
  {
    hide Greeting, Auth, Ask, GreetingBytes, AuthBytes;
    if 2 in methods {
      GreetingRoundTrip(methods, AuthBytes(creds) + s);
      AuthRoundTrip(creds, s);
    } else {
      GreetingRoundTrip(methods, s);
    }
  }

  /** Reserved bytes are sent as zero, although they are not looked at. */
  lemma ReservedZero(r: Request, status: Byte)
    ensures RequestBytes(r)[2] == 0 && ReplyBytes(status, r.address, r.port)[2] == 0
  {
  }

  // ---- the client's side ----

  /** The status of a reply that is refused: its REP field when that is not 0, 8 for
      its address type, 4 or 2 for a stream that ends too soon. */
  lemma ReplyRefused(s: Data)
    requires Reply(s).Bad?
    ensures Reply(s).status ==
      if |s| < 4 then 4 else if s[1] != 0 then s[1] else if s[3] != 1 && s[3] != 3 && s[3] != 4 then 8 else 2
  {
  }

  /** What socks5_writereply sends is heard with the status it was sent with. */
  lemma ReplyRoundTrip(status: Byte, address: Address, port: Pair, rest: Data)
    ensures Reply(ReplyBytes(status, address, port) + rest) == if status == 0 then Good((), rest) else Bad(status)
  {
    var s := ReplyBytes(status, address, port) + rest;
    if status == 0 {
      ReplyBytesWhole(address, port);
      WholeReplyTaken(ReplyBytes(0, address, port), rest);
    }
  }

  /** A reply of another version than 5 ends after its fourth byte, by its REP field alone. */
  lemma OtherVersion(s: Data)
    requires |s| >= 4 && s[0] != 5
    ensures Reply(s) == if s[1] == 0 then Good((), s[4..]) else Bad(s[1])
  {
  }

  /** All that socks5_connectproxy sends, when it gets to the end. */
  function AllSaid(creds: Credentials, address: Address, port: Pair): Data {
    CLIENT_GREETING + AuthBytes(creds) + RequestBytes(Request(1, address, port))
  }

  /** An upstream that accepts the method and the credentials is asked, and heard. */
  lemma ClientAsks(s: Data, creds: Credentials, address: Address, port: Pair)
    ensures ClientTalk([5, 2, 1, 0] + s, Some(creds), address, port) ==
      match Reply(s)
      case Good(_, rest) => Talk(0, AllSaid(creds, address, port), rest)
      case Bad(status) => Talk(status, AllSaid(creds, address, port), [])
  {
    hide Reply, AuthBytes, RequestBytes;
    var all := [5, 2, 1, 0] + s;
    assert all[2..] == [1, 0] + s && all[2..][2..] == s;
  }

  /** Whatever whole reply of RFC 1928 it gives, the conversation succeeds, and
      leaves what follows. */
  lemma ClientTalkSucceeds(reply: Data, rest: Data, creds: Credentials, address: Address, port: Pair)
    requires WholeReply(reply)
    ensures ClientTalk([5, 2, 1, 0] + (reply + rest), Some(creds), address, port)
         == Talk(0, CLIENT_GREETING + AuthBytes(creds) + RequestBytes(Request(1, address, port)), rest)
  {
    ClientAsks(reply + rest, creds, address, port);
    WholeReplyTaken(reply, rest);
  }

  /** And it succeeds on no other streams than these and those whose reply has
      another version and REP 0. */
  lemma ClientTalkSucceedsIff(s: Data, creds: Option<Credentials>, address: Address, port: Pair)
    ensures ClientTalk(s, creds, address, port).status == 0 <==>
      && creds.Some? && |s| >= 8 && s[..4] == [5, 2, 1, 0]
      && ((s[4] != 5 && s[5] == 0) || exists n :: 0 <= n <= |s| - 4 && WholeReply(s[4..][..n]))
  {
    if ClientTalk(s, creds, address, port).status == 0 {
      ClientTalkGoesWell(s, creds, address, port);
      var r := s[4..];
      ReplyConsumption(r);
      assert |r| >= 4 && r[0] == s[4] && r[1] == s[5];
      if s[4] == 5 {
        assert WholeReply(r[..|r| - |Reply(r).rest|]);
      }
    }
    if creds.Some? && |s| >= 8 && s[..4] == [5, 2, 1, 0] {
      var r := s[4..];
      assert s == [5, 2, 1, 0] + r;
      ClientAsks(r, creds.value, address, port);
      if n :| 0 <= n <= |r| && WholeReply(r[..n]) {
        WholeReplyTaken(r[..n], r[n..]);
        assert r == r[..n] + r[n..];
      }
    }
  }

  /** How it fails before the reply: 4 for the method, for the lack of credentials
      and for a stream that ends, 5 for a verdict against the credentials. */
  lemma ClientTalkRefused(s: Data, creds: Option<Credentials>, address: Address, port: Pair)
    ensures var t := ClientTalk(s, creds, address, port);
      if |s| < 2 || s[0] != 5 || s[1] != 2 || creds.None? then t == Talk(4, CLIENT_GREETING, [])
      else if |s| < 4 then t == Talk(4, CLIENT_GREETING + AuthBytes(creds.value), [])
      else if s[2] != 1 || s[3] != 0 then t == Talk(5, CLIENT_GREETING + AuthBytes(creds.value), [])
      else t.out == AllSaid(creds.value, address, port)
  {
    hide Reply, AuthBytes, RequestBytes;
  }
}
