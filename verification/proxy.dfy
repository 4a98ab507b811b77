/** One client served from its first byte to its last: socks5_run, from the
    handshake with the client and with the upstream proxy into the relay. */
module ProxyRuns {
  import opened Bytes
  import opened Wire
  import opened SilkIo
  import opened Codec
  import opened Answers
  import opened Socks
  import opened Duplex
  import opened BufferRelays

  /** What the run learns from outside: whether the user names an upstream and the
      password is right, the name lookup, the connection to the upstream, the
      credentials for it, and the local address of that connection. */
  datatype Lookups = Lookups(redirect: bool, password: bool, dns: Option<Quad>, link: Connection,
                             creds: Option<Credentials>, bound: Option<(Address, Pair)>)

  /** Which way a run went: it ended with a status, or the relay still runs. */
  datatype Outcome = Ended(status: nat) | StillForwarding

  /** The handshake with the client (lines 544-567), as a function of its stream:
      between credentials and request the user and password are checked. */
  function Admission(s: Data, env: Lookups): Session {
    match Greeting(s)
    case Bad(status) => Broken(status, [])
    case Good(methods, s1) =>
      if Chosen(methods) == 2 then
        match Auth(s1)
        case Bad(status) => Broken(status, [5, 2])
        case Good(creds, s2) =>
          if !env.redirect then Broken(1, [5, 2] + [1, 0])
          else if !env.password then Broken(5, [5, 2] + [1, 0])
          else ServerTalkAsk(s2, env.dns, Some(creds), [5, 2] + [1, 0])
      else ServerTalkAsk(s1, env.dns, None, [5, 0xFF])
  }

  /** A client is admitted exactly when its session succeeds and, if it gave
      credentials, they pass. */
  lemma AdmittedSessions(s: Data, env: Lookups)
    ensures Admission(s, env).talk.status == 0 <==>
      ServerTalk(s, env.dns).talk.status == 0 && (ServerTalk(s, env.dns).creds.Some? ==> env.redirect && env.password)
    ensures Admission(s, env).talk.status == 0 ==>
      Admission(s, env) == ServerTalk(s, env.dns) && Admission(s, env).request.Some?
    ensures Admission(s, env) == ServerTalk(s, env.dns) ||
            (!(env.redirect && env.password) && [5, 2, 1, 0] <= ServerTalk(s, env.dns).talk.out)
  {
    hide Greeting, Auth, Ask;
  }

  /** The conversation with the upstream that the admitted request leads to. */
  function UpstreamTalk(request: Request, proxy0: Data, env: Lookups): Talk {
    ClientTalk(proxy0, env.creds, request.address, request.port)
  }

  function UpstreamStatus(request: Request, proxy0: Data, env: Lookups): nat {
    match env.link
    case NoSocket => 1
    case NoPeer => 4
    case Connected => UpstreamTalk(request, proxy0, env).status
  }

  /** The streams and lookups with which a run comes to forward bytes. */
  ghost predicate Reaches(client0: Data, proxy0: Data, env: Lookups) {
    var a := Admission(client0, env);
    && a.talk.status == 0 && a.request.Some? && a.request.value.cmd == 1
    && UpstreamStatus(a.request.value, proxy0, env) == 0 && env.bound.Some?
  }

  /** A forwarding run: each side has been sent its half of the handshake and then
      what the other side sent after its own half, as far as it has got. */
  ghost predicate Forwards(client0: End, proxy0: End, env: Lookups, client: End, proxy: End, up: Queue, down: Queue) {
    && Reaches(client0.incoming, proxy0.incoming, env)
    && var a := Admission(client0.incoming, env);
      var t := UpstreamTalk(a.request.value, proxy0.incoming, env);
      var (address, port) := env.bound.value;
      && Conserved(a.talk.rest, proxy0.sent + t.out, client.incoming, proxy.sent, up.data)
      && Conserved(t.rest, client0.sent + a.talk.out + ReplyBytes(0, address, port),
                   proxy.incoming, client.sent, down.data)
  }

  /** How a run ends, on steady connections, without forwarding anything: what
      the status says, and exactly what each side has been sent. A client whose
      upstream fails is told so, if there is a local address to put in the reply. */
  ghost predicate Refused(client0: End, proxy0: End, env: Lookups, client: End, proxy: End, outcome: Outcome) {
    var a := Admission(client0.incoming, env);
    if a.talk.status != 0 || a.request.None? then
      outcome == Ended(a.talk.status) && client.sent == client0.sent + a.talk.out && proxy == proxy0
    else if a.request.value.cmd != 1 then
      outcome == Ended(7) && client.sent == client0.sent + a.talk.out && proxy == proxy0
    else
      var status := UpstreamStatus(a.request.value, proxy0.incoming, env);
      && (env.link.Connected? ==>
            proxy.sent == proxy0.sent + UpstreamTalk(a.request.value, proxy0.incoming, env).out)
      && if env.bound.None? then
           outcome == Ended(if status == 0 then 1 else status) && client.sent == client0.sent + a.talk.out
         else
           && 0 < status < 256 && outcome == Ended(status)
           && client.sent == client0.sent + a.talk.out + ReplyBytes(status, env.bound.value.0, env.bound.value.1)
  }

  /** A client that offers the method, whose credentials pass, and who asks to
      connect is served by an upstream that accepts the proxy's own credentials and
      gives any whole reply: the run comes to forward bytes, from right after the
      request and right after the reply. */
  lemma GoodRunReaches(methods: Short, creds: Credentials, head: Data, request: Request, after: Data,
                       reply: Data, rest: Data, env: Lookups)
    requires 2 in methods && AsksFor(head, request, env.dns) && request.cmd == 1 && WholeReply(reply)
    requires env.redirect && env.password && env.link.Connected? && env.creds.Some? && env.bound.Some?
    ensures var client0 := GreetingBytes(methods) + (AuthBytes(creds) + (head + request.port + after));
      var proxy0 := [5, 2, 1, 0] + (reply + rest);
      && Reaches(client0, proxy0, env)
      && Admission(client0, env) == Session(Talk(0, [5, 2, 1, 0], after), Some(creds), Some(request))
      && UpstreamTalk(request, proxy0, env)
         == Talk(0, CLIENT_GREETING + AuthBytes(env.creds.value) + RequestBytes(request), rest)
  {
    hide ServerTalk, Admission, ClientTalk, GreetingBytes, AuthBytes, RequestBytes, AsksFor, WholeReply;
    var client0 := GreetingBytes(methods) + (AuthBytes(creds) + (head + request.port + after));
    SessionSucceeds(methods, creds, head, request, env.dns, after);
    AdmittedSessions(client0, env);
    ClientTalkSucceeds(reply, rest, env.creds.value, request.address, request.port);
    assert request == Request(1, request.address, request.port);
  }

  /** A user that names no upstream ends the run with status 1, one whose password
      is wrong with status 5; both have heard that their credentials were received. */
  lemma BadCredentials(methods: Short, creds: Credentials, rest: Data, env: Lookups)
    requires 2 in methods && !(env.redirect && env.password)
    ensures var a := Admission(GreetingBytes(methods) + (AuthBytes(creds) + rest), env);
      a.request.None? && a.talk.status == (if env.redirect then 5 else 1) && a.talk.out == [5, 2, 1, 0]
  {
    hide Greeting, Auth, GreetingBytes, AuthBytes;
    GreetingRoundTrip(methods, AuthBytes(creds) + rest);
    AuthRoundTrip(creds, rest);
  }

  // ---- the handshake with the client ----

  /** One phase more of a conversation. */
  lemma TalkPhase<T>(w0: End, w1: End, w2: End, sofar: Data, p: Parsed<T>, out: Data)
    requires Talking(w0, w1, sofar) && Did(w1, w2, p, out, 0)
    ensures Talking(w0, w2, sofar + out) && p.Good? && w2.incoming == p.rest
  {
    GoesTrans(w0, w1, w2);
    assert w0.sent + sofar + out == w0.sent + (sofar + out);
  }

  lemma TalkPhaseFailed<T>(w0: End, w1: End, w2: End, sofar: Data, p: Parsed<T>, out: Data, t: Talk, status: int)
    requires Talking(w0, w1, sofar) && Did(w1, w2, p, out, status) && status != 0
    requires sofar + out <= t.out
    requires p.Bad? ==> t.status == p.status && t.out == sofar
    ensures Talked(w0, w2, t, status)
  {
    GoesTrans(w0, w1, w2);
    assert w0.sent + sofar + out == w0.sent + (sofar + out) <= w0.sent + t.out;
  }

  /** Lines 544-567. The method chosen is 2 or 0xFF, so the status 7 of line 560
      is never returned. */
  method Admit(client: Socket, env: Lookups) returns (status: nat, request: Request)
    modifies client
    ensures var a := Admission(old(client.end.incoming), env);
      && Talked(old(client.end), client.end, a.talk, status)
      && (status == 0 ==> a.request == Some(request))
      && (status > 1 ==> a.talk.status == status)
  {
    hide Greeting, Auth, Ask, Did, Goes, Talking, Talked;
    ghost var w0 := client.end;
    ghost var t := Admission(w0.incoming, env).talk;
    ghost var p := Greeting(w0.incoming);
    ghost var hello: Data := if p.Good? then [5, Chosen(p.value)] else [];
    request := Request(1, V4([0, 0, 0, 0]), [0, 0]);
    TalkStart(w0);
    var climethod, creds;
    status, climethod := ChooseMethod(client);
    ghost var w1 := client.end;
    assert [] + hello == hello;
    if status != 0 {
      TalkPhaseFailed(w0, w0, w1, [], p, hello, t, status);
      return;
    }
    TalkPhase(w0, w0, w1, [], p, hello);
    ghost var sofar := hello;
    if climethod == 2 {
      status, creds := ReadAuth(client);
      ghost var q := Auth(w1.incoming);
      ghost var verdict: Data := if q.Good? then [1, 0] else [];
      assert hello + [] == hello;
      if status != 0 {
        TalkPhaseFailed(w0, w1, client.end, hello, q, verdict, t, status);
        return;
      }
      TalkPhase(w0, w1, client.end, hello, q, verdict);
      sofar := hello + verdict;
      if !env.redirect {
        TalkEnds(w0, client.end, sofar, t);
        return 1, request;
      }
      if !env.password {
        TalkEnds(w0, client.end, sofar, t);
        return 5, request;
      }
    }
    ghost var w2 := client.end;
    status, request := ReadRequest(client, env.dns);
    ghost var ask := Ask(w2.incoming, env.dns);
    assert sofar + [] == sofar;
    if status != 0 {
      TalkPhaseFailed(w0, w2, client.end, sofar, ask, [], t, status);
      return;
    }
    TalkPhase(w0, w2, client.end, sofar, ask, []);
    TalkEnds(w0, client.end, sofar, t);
  }

  // ---- the relay ----

  /** Line 579, and what the relay's theorem says of it. */
  method Forward(client: Socket, proxy: Socket, events: seq<Event>)
    returns (verdict: Verdict, ghost up: Queue, ghost down: Queue)
    requires client != proxy && client.end.fins == 0 == proxy.end.fins
    modifies client, proxy
    ensures Conserved(old(client.end.incoming), old(proxy.end.sent), client.end.incoming, proxy.end.sent, up.data)
    ensures Conserved(old(proxy.end.incoming), old(client.end.sent), proxy.end.incoming, client.end.sent, down.data)
    ensures verdict == Return(0) ==> client.end.incoming == [] && proxy.end.incoming == []
    ensures proxy.end.fins <= 1 && client.end.fins == 0
    ensures client.end.late == old(client.end.late) && proxy.end.late == old(proxy.end.late)
  {
    var relay := new BufferRelay(client, proxy);
    RelayTheorem(Poll, relay.View(), events, BUFSIZE, BUFSIZE);
    verdict := relay.PollNegotiate(events);
    up, down := relay.View().up, relay.View().down;
  }

  // ---- the run ----

  /** socks5_run. The upstream socket stands for the one socks5_connectproxy makes. */
  method Socks5Run(client: Socket, proxy: Socket, env: Lookups, events: seq<Event>)
    returns (outcome: Outcome, forwarded: bool, ghost up: Queue, ghost down: Queue)
    requires client != proxy
    requires client.end.fins == 0 == proxy.end.fins
    requires env.creds.Some? ==> |env.creds.value.user| <= 127 && |env.creds.value.passwd| <= 127
    requires env.link.NoSocket? ==> env.bound.None?
    modifies client, proxy
    ensures forwarded ==> Forwards(old(client.end), old(proxy.end), env, client.end, proxy.end, up, down)
    ensures !forwarded ==> outcome.Ended?
    ensures Steady(old(client.end)) && Steady(old(proxy.end)) ==>
      && (forwarded <==> Reaches(old(client.end.incoming), old(proxy.end.incoming), env))
      && (!forwarded ==> Refused(old(client.end), old(proxy.end), env, client.end, proxy.end, outcome))
    ensures forwarded && outcome == Ended(0) ==> client.end.incoming == [] && proxy.end.incoming == []
    ensures proxy.end.fins <= 1 && client.end.fins == 0
    ensures client.end.late == old(client.end.late) && proxy.end.late == old(proxy.end.late)
  {
    up, down := Queue([], BUFSIZE), Queue([], BUFSIZE);
    forwarded := false;
    ghost var c0, p0 := client.end, proxy.end;
    var status, request := Admit(client, env);
    if status != 0 {
      return Ended(status), false, up, down;
    }
    if request.cmd != 1 {
      return Ended(7), false, up, down;
    }
    status := ConnectProxy(proxy, env.link, env.creds, request.address, request.port);
    if status != 0 {
      var ignored := WriteReply(client, status, env.bound);
      return Ended(status), false, up, down;
    }
    status := WriteReply(client, 0, env.bound);
    if status != 0 {
      return Ended(status), false, up, down;
    }
    var verdict;
    verdict, up, down := Forward(client, proxy, events);
    forwarded := true;
    outcome := match verdict case Go => StillForwarding case Return(s) => Ended(s);
  }

  // ---- no byte eaten or replayed at the seam ----

  /** In a forwarding run of a client that authenticates: the client's stream was
      a greeting offering method 2, credentials, a request, and `after`; the
      upstream has been sent a greeting, the credentials for it, the same request
      as an address, and a prefix of `after`. The upstream's stream was its two
      verdicts, `reply`, and `rest`; the client has been sent its two verdicts, a
      reply, and a prefix of `rest`. And `reply` is one whole reply of RFC 1928 if
      and only if its first byte is 5: otherwise it is four bytes long, and what
      should belong to it has been relayed as data. */
  lemma StreamsAligned(client0: End, proxy0: End, env: Lookups, client: End, proxy: End, up: Queue, down: Queue)
    returns (methods: Data, head: Data, after: Data, reply: Data, rest: Data)
    requires Forwards(client0, proxy0, env, client, proxy, up, down)
    requires ServerTalk(client0.incoming, env.dns).creds.Some?
    ensures |methods| < 256 && 2 in methods && env.creds.Some? && env.bound.Some?
    ensures var session := ServerTalk(client0.incoming, env.dns);
      && session.request.Some? && AsksFor(head, session.request.value, env.dns)
      && client0.incoming == GreetingBytes(methods) + AuthBytes(session.creds.value)
                             + (head + session.request.value.port) + after
      && proxy0.sent + CLIENT_GREETING + AuthBytes(env.creds.value) + RequestBytes(session.request.value)
         <= proxy.sent
         <= proxy0.sent + CLIENT_GREETING + AuthBytes(env.creds.value) + RequestBytes(session.request.value) + after
    ensures proxy0.incoming == [5, 2] + [1, 0] + reply + rest
    ensures var sent := client0.sent + [5, 2] + [1, 0] + ReplyBytes(0, env.bound.value.0, env.bound.value.1);
      sent <= client.sent <= sent + rest
    ensures |reply| >= 4 && reply[1] == 0
    ensures WholeReply(reply) <==> reply[0] == 5
    ensures reply[0] != 5 ==> |reply| == 4
  {
    hide Forwards, Reaches, Conserved;
    methods, head, after := UpAligned(client0, proxy0, env, client, proxy, up, down);
    reply, rest := DownAligned(client0, proxy0, env, client, proxy, up, down);
  }

  /** The half of it that flows upstream. */
  lemma UpAligned(client0: End, proxy0: End, env: Lookups, client: End, proxy: End, up: Queue, down: Queue)
    returns (methods: Data, head: Data, after: Data)
    requires Forwards(client0, proxy0, env, client, proxy, up, down)
    requires ServerTalk(client0.incoming, env.dns).creds.Some?
    ensures |methods| < 256 && 2 in methods && env.creds.Some?
    ensures var session := ServerTalk(client0.incoming, env.dns);
      && session.request.Some? && AsksFor(head, session.request.value, env.dns)
      && client0.incoming == GreetingBytes(methods) + AuthBytes(session.creds.value)
                             + (head + session.request.value.port) + after
      && proxy0.sent + CLIENT_GREETING + AuthBytes(env.creds.value) + RequestBytes(session.request.value)
         <= proxy.sent
         <= proxy0.sent + CLIENT_GREETING + AuthBytes(env.creds.value) + RequestBytes(session.request.value) + after
  {
    hide ServerTalk, ClientTalk, GreetingBytes, AuthBytes, RequestBytes, AsksFor, Conserved;
    AdmittedSessions(client0.incoming, env);
    var session := ServerTalk(client0.incoming, env.dns);
    var request := session.request.value;
    var t := UpstreamTalk(request, proxy0.incoming, env);
    methods, head := SessionIs(client0.incoming, env.dns);
    after := session.talk.rest;
    ClientTalkGoesWell(proxy0.incoming, env.creds, request.address, request.port);
    assert request == Request(1, request.address, request.port);
    Written(after, proxy0.sent + t.out, client.incoming, proxy.sent, up.data);
    assert proxy0.sent + t.out == proxy0.sent + CLIENT_GREETING + AuthBytes(env.creds.value) + RequestBytes(request);
  }

  /** The half of it that flows to the client. */
  lemma DownAligned(client0: End, proxy0: End, env: Lookups, client: End, proxy: End, up: Queue, down: Queue)
    returns (reply: Data, rest: Data)
    requires Forwards(client0, proxy0, env, client, proxy, up, down)
    requires ServerTalk(client0.incoming, env.dns).creds.Some?
    ensures env.bound.Some? && proxy0.incoming == [5, 2] + [1, 0] + reply + rest
    ensures var sent := client0.sent + [5, 2] + [1, 0] + ReplyBytes(0, env.bound.value.0, env.bound.value.1);
      sent <= client.sent <= sent + rest
    ensures |reply| >= 4 && reply[1] == 0
    ensures WholeReply(reply) <==> reply[0] == 5
    ensures reply[0] != 5 ==> |reply| == 4
  {
    hide ServerTalk, ClientTalk, Reply, ReplyBytes, Conserved, WholeReply;
    AdmittedSessions(client0.incoming, env);
    var session := ServerTalk(client0.incoming, env.dns);
    var request := session.request.value;
    var t := UpstreamTalk(request, proxy0.incoming, env);
    var methods, head := SessionIs(client0.incoming, env.dns);
    ClientTalkGoesWell(proxy0.incoming, env.creds, request.address, request.port);
    var heard := proxy0.incoming[4..];
    rest := t.rest;
    ReplyConsumption(heard);
    reply := heard[..|heard| - |rest|];
    assert proxy0.incoming == proxy0.incoming[..4] + heard;
    assert [5, 2] + [1, 0] == [5, 2, 1, 0];
    var sent := client0.sent + session.talk.out + ReplyBytes(0, env.bound.value.0, env.bound.value.1);
    Written(rest, sent, proxy.incoming, client.sent, down.data);
    assert client0.sent + [5, 2] + [1, 0] == client0.sent + [5, 2, 1, 0];
  }

  /** Conservation bounds what has been written on both sides. */
  lemma Written(in0: Data, out0: Data, in1: Data, out1: Data, pending: Data)
    requires Conserved(in0, out0, in1, out1, pending)
    ensures out0 <= out1 <= out0 + in0
  {
    assert out1 == out0 + out1[|out0|..];
    assert in0 == out1[|out0|..] + (pending + in1);
  }
}
