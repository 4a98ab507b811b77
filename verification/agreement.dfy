/** Two silksocks proxies in a row: the client side of one (socks5_connectproxy)
    speaks to the server side of the other over two byte channels. Every order
    in which single bytes are delivered is a schedule. */
module Agreement {
  import opened Bytes
  import opened Codec
  import opened Answers

  /** What the client side was called with. */
  datatype Call = Call(creds: Credentials, address: Address, port: Pair, dns: Option<Quad>)

  /** The bytes delivered so far, to the server and to the client. */
  datatype Exchange = Exchange(toServer: Data, toClient: Data)

  /** Each side sends what it would if nothing more ever came in. */
  function ClientSays(c: Call, heard: Data): Data {
    ClientTalk(heard, Some(c.creds), c.address, c.port).out
  }

  function ServerSays(c: Call, heard: Data): Data { ServerTalk(heard, c.dns).talk.out }

  /** Whether a byte is under way to the server, or to the client. */
  predicate Pending(c: Call, e: Exchange, server: bool) {
    if server then |e.toServer| < |ClientSays(c, e.toClient)|
    else |e.toClient| < |ServerSays(c, e.toServer)|
  }

  function Deliver(c: Call, e: Exchange, server: bool): Exchange
    requires Pending(c, e, server)
  {
    if server then e.(toServer := e.toServer + [ClientSays(c, e.toClient)[|e.toServer|]])
    else e.(toClient := e.toClient + [ServerSays(c, e.toServer)[|e.toClient|]])
  }

  ghost predicate Schedule(c: Call, e: Exchange, order: seq<bool>)
    decreases |order|
  {
    order == [] || (Pending(c, e, order[0]) && Schedule(c, Deliver(c, e, order[0]), order[1..]))
  }

  function After(c: Call, e: Exchange, order: seq<bool>): Exchange
    requires Schedule(c, e, order)
    decreases |order|
  {
    if order == [] then e else After(c, Deliver(c, e, order[0]), order[1..])
  }

  // ---- what each side says along the way ----

  function Opening(c: Call): Data { CLIENT_GREETING + AuthBytes(c.creds) }

  function Whole(c: Call): Data {
    Opening(c) + RequestBytes(Request(1, c.address, c.port))
  }

  const VERDICTS: Data := [5, 2, 1, 0]

  lemma ClientSaysAt(c: Call, heard: Data)
    requires heard <= VERDICTS
    ensures ClientSays(c, heard) ==
      if |heard| < 2 then CLIENT_GREETING else if |heard| < 4 then Opening(c) else Whole(c)
  {
    if |heard| == 4 {
      assert heard == VERDICTS;
      assert heard[2..] == [1, 0];
      assert heard[2..][2..] == [];
    } else if |heard| >= 2 {
      assert heard[0] == VERDICTS[0] && heard[1] == VERDICTS[1];
    }
  }

  /** Credentials that have not wholly arrived do not parse. */
  lemma AuthTruncated(creds: Credentials, s: Data)
    requires s < AuthBytes(creds)
    ensures Auth(s) == Bad(1)
  {
    if Auth(s).Good? {
      AuthOnly(s);
    }
  }

  lemma GreetingTruncated(s: Data)
    requires s < CLIENT_GREETING
    ensures Greeting(s) == Bad(1)
  {
    assert forall i | 0 <= i < |s| :: s[i] == CLIENT_GREETING[i];
  }

  lemma ServerSaysAt(c: Call, heard: Data)
    requires heard <= Whole(c)
    ensures ServerSays(c, heard) ==
      if |heard| < 3 then [] else if |heard| < |Opening(c)| then [5, 2] else VERDICTS
  {
    hide Greeting, Auth, Ask, AuthBytes, RequestBytes;
    if |heard| < 3 {
      assert heard == CLIENT_GREETING[..|heard|];
      GreetingTruncated(heard);
    } else {
      var s1 := heard[3..];
      assert heard == GreetingBytes([2]) + s1;
      GreetingRoundTrip([2], s1);
      assert s1 <= AuthBytes(c.creds) + RequestBytes(Request(1, c.address, c.port));
      if |heard| < |Opening(c)| {
        AuthTruncated(c.creds, s1);
      } else {
        var s2 := s1[|AuthBytes(c.creds)|..];
        assert s1 == AuthBytes(c.creds) + s2;
        AuthRoundTrip(c.creds, s2);
      }
    }
  }

  /** What the server holds once everything has arrived. */
  lemma ServerHoldsAll(c: Call)
    ensures ServerTalk(Whole(c), c.dns)
         == Session(Talk(0, VERDICTS, []), Some(c.creds), Some(Request(1, c.address, c.port)))
  {
    hide Greeting, Auth, Ask, AuthBytes, RequestBytes;
    var r := Request(1, c.address, c.port);
    var s1 := AuthBytes(c.creds) + RequestBytes(r);
    assert Whole(c) == GreetingBytes([2]) + s1;
    GreetingRoundTrip([2], s1);
    AuthRoundTrip(c.creds, RequestBytes(r));
    assert RequestBytes(r) + [] == RequestBytes(r);
    RequestRoundTrip(r, c.dns, []);
  }

  // ---- every schedule ----

  ghost predicate Inv(c: Call, e: Exchange) {
    && e.toServer <= Whole(c) && e.toClient <= VERDICTS
    && e.toServer <= ClientSays(c, e.toClient)
    && e.toClient <= ServerSays(c, e.toServer)
  }

  lemma DeliverInv(c: Call, e: Exchange, server: bool)
    requires Inv(c, e) && Pending(c, e, server)
    ensures Inv(c, Deliver(c, e, server))
  {
    hide ClientSays, ServerSays, AuthBytes, RequestBytes;
    var e' := Deliver(c, e, server);
    ClientSaysAt(c, e.toClient);
    ServerSaysAt(c, e.toServer);
    assert Opening(c) <= Whole(c);
    assert CLIENT_GREETING <= Opening(c);
    if server {
      assert e'.toServer <= ClientSays(c, e.toClient) <= Whole(c);
      ServerSaysAt(c, e'.toServer);
    } else {
      assert e'.toClient <= ServerSays(c, e.toServer) <= VERDICTS;
      ClientSaysAt(c, e'.toClient);
    }
  }

  lemma {:induction false} RunInv(c: Call, e: Exchange, order: seq<bool>)
    requires Inv(c, e) && Schedule(c, e, order)
    ensures var e' := After(c, e, order);
      Inv(c, e') && |e'.toServer| + |e'.toClient| == |e.toServer| + |e.toClient| + |order|
    decreases |order|
  {
    if order != [] {
      DeliverInv(c, e, order[0]);
      RunInv(c, Deliver(c, e, order[0]), order[1..]);
    }
  }

  /** Where no byte is under way, everything has been said and heard. */
  lemma QuietMeansDone(c: Call, e: Exchange)
    requires Inv(c, e) && !Pending(c, e, true) && !Pending(c, e, false)
    ensures e == Exchange(Whole(c), VERDICTS)
  {
    hide ClientSays, ServerSays, AuthBytes, RequestBytes;
    ClientSaysAt(c, e.toClient);
    ServerSaysAt(c, e.toServer);
    assert |e.toClient| >= 4 ==> e.toClient == VERDICTS;
  }

  /** Under every schedule, what has been delivered either way is a prefix of one
      fixed conversation, of bounded length. The conversation never gets stuck
      half-way: where no byte is under way, the server has succeeded, holds
      exactly the user, password, command, address and port that were sent, and
      neither side has a byte left unread or unheard. */
  lemma TwoPartyAgreement(c: Call, order: seq<bool>)
    requires Schedule(c, Exchange([], []), order)
    ensures var e := After(c, Exchange([], []), order);
      && e.toServer <= Whole(c) && e.toClient <= VERDICTS && |order| <= |Whole(c)| + 4
      && (!Pending(c, e, true) && !Pending(c, e, false) ==>
            && e == Exchange(Whole(c), VERDICTS)
            && ServerTalk(e.toServer, c.dns)
               == Session(Talk(0, VERDICTS, []), Some(c.creds), Some(Request(1, c.address, c.port))))
  {
    RunInv(c, Exchange([], []), order);
    var e := After(c, Exchange([], []), order);
    if !Pending(c, e, true) && !Pending(c, e, false) {
      QuietMeansDone(c, e);
      ServerHoldsAll(c);
    }
  }

  /** And whatever reply the server then sends, the client ends with its status, has
      sent nothing more, and on success leaves unread exactly what comes after it. */
  lemma ReplyHeard(c: Call, status: Byte, bound: Address, port: Pair, rest: Data)
    ensures var t := ClientTalk(VERDICTS + (ReplyBytes(status, bound, port) + rest), Some(c.creds), c.address, c.port);
      t.status == status && t.out == Whole(c) && (status == 0 ==> t.rest == rest)
  {
    hide ClientTalk, ReplyBytes;
    ClientAsks(ReplyBytes(status, bound, port) + rest, c.creds, c.address, c.port);
    ReplyRoundTrip(status, bound, port, rest);
  }
}
