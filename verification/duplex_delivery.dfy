/** How soon the relay has delivered everything, over whole runs and for every
    script of short counts and faults; and the pipes with which it never does. */
module DuplexDelivery {
  import opened Bytes
  import opened Wire
  import opened Duplex

  // ---- what is left to do ----

  /** Each byte the client has yet to give is read once and written once; then FIN. */
  function UpLeft(r: Relay): nat {
    2 * |r.client.incoming| + |r.up.data| + if r.clienteof then 0 else 1
  }

  function DownLeft(r: Relay): nat { 2 * |r.proxy.incoming| + |r.down.data| }

  /** Every fault in the scripts can hold up one turn. */
  function Fates(r: Relay): nat {
    |r.client.rfates| + |r.client.wfates| + |r.proxy.rfates| + |r.proxy.wfates|
  }

  /** Nothing is undone. */
  ghost predicate NoLoss(r: Relay, r': Relay) {
    UpLeft(r') <= UpLeft(r) && DownLeft(r') <= DownLeft(r) && Fates(r') <= Fates(r)
  }

  /** A flow from r that undoes nothing. If it does not end the relay, it gets
      nearer upstream, downstream, or both, as `up` and `down` say, or has spent a
      fault; and it has spent one if it cuts the turn short. */
  ghost predicate Nearer(r: Relay, f: Flow, up: bool, down: bool) {
    && NoLoss(r, f.r) && (f.NextTurn? ==> Fates(f.r) < Fates(r))
    && (!f.Out? && up ==> UpLeft(f.r) + Fates(f.r) < UpLeft(r) + Fates(r))
    && (!f.Out? && down ==> DownLeft(f.r) + Fates(f.r) < DownLeft(r) + Fates(r))
  }

  lemma NearerStill(r: Relay, f: Flow, g: Flow, up: bool, down: bool, up': bool, down': bool)
    requires Nearer(r, f, up, down) && if f.On? then Nearer(f.r, g, up', down') else g == f
    ensures Nearer(r, g, up || up', down || down')
  {
  }

  lemma ReadClientNearer(v: Version, r: Relay)
    requires WantsClientIn(v, r) && r.up.room > 0
    ensures Nearer(r, ReadClient(v, r), true, false) && ReadClient(v, r).r.down == r.down
    ensures |ReadClient(v, r).r.up.data| >= |r.up.data|
  {
  }

  lemma ReadProxyNearer(v: Version, r: Relay)
    requires WantsProxyIn(v, r) && r.down.room > 0
    ensures Nearer(r, ReadProxy(v, r), false, true) && ReadProxy(v, r).r.up == r.up
    ensures |ReadProxy(v, r).r.down.data| >= |r.down.data|
  {
  }

  lemma WriteClientNearer(v: Version, r: Relay)
    requires r.down.data != []
    ensures Nearer(r, WriteClient(v, r), false, true) && WriteClient(v, r).r.up == r.up
  {
  }

  lemma WriteProxyNearer(v: Version, r: Relay)
    requires r.up.data != []
    ensures Nearer(r, WriteProxy(v, r), true, false)
  {
  }

  // ---- one turn ----

  /** No pipe is full that the turn would read into. */
  predicate Unjammed(v: Version, r: Relay, e: Event)
    requires e.Ready?
  {
    && (e.clientIn && WantsClientIn(v, r) ==> r.up.room > 0)
    && (e.proxyIn && WantsProxyIn(v, r) ==> r.down.room > 0)
  }

  lemma ReadsNearer(v: Version, r: Relay, e: Event)
    requires e.Ready? && Unjammed(v, r, e)
    ensures var f := SecondRead(v, r, e);
      && Nearer(r, f, e.clientIn && WantsClientIn(v, r), e.proxyIn && WantsProxyIn(v, r))
      && (f.On? ==> |f.r.up.data| >= |r.up.data| && |f.r.down.data| >= |r.down.data|)
  {
    hide ReadClient, ReadProxy, WantsBytes, Nearer;
    var f1 := FirstRead(v, r, e);
    var f2 := SecondRead(v, r, e);
    StandStill(r);
    if e.clientIn && WantsClientIn(v, r) { ReadClientNearer(v, r); }
    if f1.On? {
      StandStill(f1.r);
      if e.proxyIn && WantsProxyIn(v, r) { ReadProxyNearer(v, f1.r); }
    }
    NearerStill(r, f1, f2, e.clientIn && WantsClientIn(v, r), false, false, e.proxyIn && WantsProxyIn(v, r));
  }

  lemma StandStill(r: Relay)
    ensures Nearer(r, On(r), false, false)
  {
  }

  /** A turn undoes nothing; and unless it ends the relay, it gets nearer wherever
      something was ready that was asked for. */
  lemma TurnNearer(v: Version, r: Relay, e: Event)
    requires e.Ready? && Unjammed(v, r, e)
    ensures Nearer(r, SecondWrite(v, r, e),
                   (e.clientIn && WantsClientIn(v, r)) || (e.proxyOut && r.up.data != []),
                   (e.proxyIn && WantsProxyIn(v, r)) || (e.clientOut && r.down.data != []))
  {
    hide WriteClient, WriteProxy, WantsBytes, Nearer, SecondRead;
    var f2 := SecondRead(v, r, e);
    var f3 := FirstWrite(v, r, e);
    var f4 := SecondWrite(v, r, e);
    ReadsNearer(v, r, e);
    if f2.On? {
      StandStill(f2.r);
      if ClientOutDue(v, r, f2.r, e) { WriteClientNearer(v, f2.r); }
    }
    var up, down := e.clientIn && WantsClientIn(v, r), e.proxyIn && WantsProxyIn(v, r);
    NearerStill(r, f2, f3, up, down, false, e.clientOut && r.down.data != []);
    if f3.On? {
      StandStill(f3.r);
      if ProxyOutDue(v, r, f3.r, e) { WriteProxyNearer(v, f3.r); }
    }
    NearerStill(r, f3, f4, up, down || (e.clientOut && r.down.data != []), e.proxyOut && r.up.data != [], false);
  }

  // ---- whole runs ----

  /** The pipes are large enough never to be full while they are read into. */
  predicate Ample(v: Version, upCap: nat, downCap: nat) {
    v.Splice? ==> upCap >= BUFSIZE && downCap >= BUFSIZE
  }

  /** In a turn of such a relay nothing jams, and an empty queue is read into. */
  lemma AmpleTurn(v: Version, r0: Relay, r: Relay, e: Event, upCap: nat, downCap: nat)
    requires Inv(v, r0, r, upCap, downCap) && Ample(v, upCap, downCap) && e.Ready?
    ensures Unjammed(v, r, e)
    ensures r.up.data == [] && !r.clienteof ==> WantsClientIn(v, r)
    ensures r.down.data == [] ==> WantsProxyIn(v, r)
    ensures UpLeft(r) == 0 <==> r.clienteof && r.up.data == []
  {
  }

  lemma TurnNearerGo(v: Version, r0: Relay, r: Relay, e: Event, upCap: nat, downCap: nat)
    requires Inv(v, r0, r, upCap, downCap) && Ample(v, upCap, downCap) && e.Ready? && r0.client.fins == 0 == r0.proxy.fins
    ensures var (r', verdict) := Turn(v, r, e);
      && Inv(v, r0, r', upCap, downCap) && NoLoss(r, r')
      && (verdict.Go? && e.clientIn && e.proxyOut && UpLeft(r) > 0 ==> UpLeft(r') + Fates(r') < UpLeft(r) + Fates(r))
      && (verdict.Go? && e.proxyIn && e.clientOut ==> DownLeft(r') + Fates(r') < DownLeft(r) + Fates(r))
  {
    hide Inv, SecondWrite, WantsBytes;
    TurnInv(v, r0, r, e, upCap, downCap);
    AmpleTurn(v, r0, r, e, upCap, downCap);
    TurnNearer(v, r, e);
  }

  lemma {:induction false} EndsRun(v: Version, r0: Relay, r: Relay, events: seq<Event>, upCap: nat, downCap: nat)
    requires Inv(v, r0, r, upCap, downCap) && Ample(v, upCap, downCap) && r0.client.fins == 0 == r0.proxy.fins
    requires forall e | e in events :: e.Ready? && e.proxyIn && e.clientOut
    requires |events| > DownLeft(r) + Fates(r)
    ensures Run(v, r, events).1.Return?
    decreases |events|
  {
    hide Inv, Turn, DownLeft, Fates, UpLeft;
    TurnNearerGo(v, r0, r, events[0], upCap, downCap);
    var (r', verdict) := Turn(v, r, events[0]);
    if verdict.Go? {
      EndsRun(v, r0, r', events[1..], upCap, downCap);
    }
  }

  /** An upstream that is always readable (it has bytes, or has closed) and a
      client that is always writable bring the relay to its end within two turns a
      byte and one a fault; when it ends well, all streams have been read. */
  lemma RelayEnds(v: Version, r: Relay, events: seq<Event>, upCap: nat, downCap: nat)
    requires Starts(v, r, upCap, downCap) && Ample(v, upCap, downCap)
    requires forall e | e in events :: e.Ready? && e.proxyIn && e.clientOut
    requires |events| > 2 * |r.proxy.incoming| + Fates(r)
    ensures Run(v, r, events).1.Return?
  {
    StartsInv(v, r, upCap, downCap);
    EndsRun(v, r, r, events, upCap, downCap);
  }

  lemma {:induction false} ServedRun(v: Version, r0: Relay, r: Relay, events: seq<Event>, upCap: nat, downCap: nat)
    requires Inv(v, r0, r, upCap, downCap) && Ample(v, upCap, downCap) && r0.client.fins == 0 == r0.proxy.fins
    requires forall e | e in events :: e.Ready? && e.clientIn && e.proxyOut
    requires |events| >= UpLeft(r) + Fates(r) || UpLeft(r) == 0
    ensures var (r', verdict) := Run(v, r, events); verdict.Go? ==> UpLeft(r') == 0
    decreases |events|
  {
    hide Inv, Turn, DownLeft, Fates, UpLeft;
    if events != [] {
      TurnNearerGo(v, r0, r, events[0], upCap, downCap);
      var (r', verdict) := Turn(v, r, events[0]);
      if verdict.Go? {
        ServedRun(v, r0, r', events[1..], upCap, downCap);
      }
    }
  }

  /** A client that is always readable and an upstream that is always writable:
      within two turns a byte, one for the end of file and one a fault, unless the
      relay has ended, every byte of the client has been written, in order, and
      then FIN. */
  lemma ClientServed(v: Version, r: Relay, events: seq<Event>, upCap: nat, downCap: nat)
    requires Starts(v, r, upCap, downCap) && Ample(v, upCap, downCap)
    requires forall e | e in events :: e.Ready? && e.clientIn && e.proxyOut
    requires |events| > 2 * |r.client.incoming| + Fates(r)
    ensures var (r', verdict) := Run(v, r, events);
      verdict.Go? ==>
        r'.clienteof && r'.up.data == [] && r'.proxy.sent == r.proxy.sent + r.client.incoming && r'.proxy.fins == 1
  {
    StartsInv(v, r, upCap, downCap);
    ServedRun(v, r, r, events, upCap, downCap);
    RelayTheorem(v, r, events, upCap, downCap);
    var (r', verdict) := Run(v, r, events);
    if verdict.Go? {
      Everything(r.client.incoming, r.proxy.sent, r'.proxy.sent, r'.up.data + r'.client.incoming);
    }
  }

  lemma Everything(all: Data, was: Data, sent: Data, left: Data)
    requires was <= sent && all == sent[|was|..] + left && left == []
    ensures sent == was + all
  {
  }

  // ---- draining ----

  /** No write in the script fails for good; select gives up on EINTR. */
  ghost predicate Gentle(v: Version, fates: seq<Fate>) {
    forall f | f in fates :: !f.Failed? && (v.Select? ==> !f.Interrupted?)
  }

  /** A turn in which nothing can be read. */
  lemma QuietTurn(v: Version, r: Relay, e: Event)
    requires e == Ready(false, true, false, true)
    ensures var (r', verdict) := Turn(v, r, e);
      && r'.client.incoming == r.client.incoming && r'.proxy.incoming == r.proxy.incoming && r'.clienteof == r.clienteof
      && r'.client.sent + r'.down.data == r.client.sent + r.down.data
      && r'.proxy.sent + r'.up.data == r.proxy.sent + r.up.data
      && (Gentle(v, r.client.wfates) && Gentle(v, r.proxy.wfates) ==>
            verdict.Go? && Gentle(v, r'.client.wfates) && Gentle(v, r'.proxy.wfates))
  {
    hide WriteClient, WriteProxy, Gentle;
    var f2 := SecondRead(v, r, e);
    QuietClient(v, r);
    var f3 := FirstWrite(v, r, e);
    QuietProxy(v, f3.r);
  }

  lemma EmitKeeps(v: Version, w: End, q: Queue)
    ensures var (w', io) := Emit(v, w, q);
      && w'.incoming == w.incoming && w'.fins == w.fins && w'.rfates == w.rfates
      && match io
         case Error(_) => w'.sent == w.sent
         case Moved(n) => n <= |q.data| && w'.sent + q.data[n..] == w.sent + q.data
  {
    var (w', io) := Emit(v, w, q);
    if io.Moved? {
      assert q.data == q.data[..io.n] + q.data[io.n..];
    }
  }

  lemma EmitGentle(v: Version, w: End, q: Queue)
    requires Gentle(v, w.wfates)
    ensures var (w', io) := Emit(v, w, q);
      && Gentle(v, w'.wfates) && (io.Error? ==> io.errno.EAGAIN? || (io.errno.EINTR? && !v.Select?))
  {
    assert forall f | f in Rest(w.wfates) :: f in w.wfates;
  }

  lemma QuietClient(v: Version, r: Relay)
    ensures var f := WriteClient(v, r);
      && f.r == r.(client := f.r.client, down := f.r.down) && f.r.client.incoming == r.client.incoming
      && f.r.client.sent + f.r.down.data == r.client.sent + r.down.data
      && (Gentle(v, r.client.wfates) ==> !f.Out? && Gentle(v, f.r.client.wfates))
  {
    hide Emit, Gentle;
    EmitKeeps(v, r.client, r.down);
    if Gentle(v, r.client.wfates) { EmitGentle(v, r.client, r.down); }
  }

  lemma QuietProxy(v: Version, r: Relay)
    ensures var f := WriteProxy(v, r);
      && f.r == r.(proxy := f.r.proxy, up := f.r.up) && f.r.proxy.incoming == r.proxy.incoming
      && f.r.proxy.sent + f.r.up.data == r.proxy.sent + r.up.data
      && (Gentle(v, r.proxy.wfates) ==> !f.Out? && Gentle(v, f.r.proxy.wfates))
  {
    hide Emit, Gentle;
    EmitKeeps(v, r.proxy, r.up);
    if Gentle(v, r.proxy.wfates) { EmitGentle(v, r.proxy, r.up); }
  }

  /** With nothing to read and both sides writable, both queues are empty within a
      turn a byte and one a fault, and have gone out whole; and the relay goes on,
      unless a write fails for good. */
  lemma {:induction false} QueuesDrain(v: Version, r: Relay, events: seq<Event>)
    requires forall e | e in events :: e == Ready(false, true, false, true)
    requires |events| >= |r.up.data| + |r.down.data| + Fates(r) || (r.up.data == [] && r.down.data == [])
    ensures var (r', verdict) := Run(v, r, events);
      && (verdict.Go? ==>
            && r'.up.data == [] && r'.down.data == []
            && r'.client.sent == r.client.sent + r.down.data && r'.proxy.sent == r.proxy.sent + r.up.data)
      && (Gentle(v, r.client.wfates) && Gentle(v, r.proxy.wfates) ==> verdict.Go?)
    decreases |events|
  {
    hide Turn, Gentle, Fates;
    if events != [] {
      assert events[0] in events && forall e | e in events[1..] :: e in events;
      var (r', verdict) := Turn(v, r, events[0]);
      QuietTurn(v, r, events[0]);
      QuietNearer(v, r);
      if verdict.Go? {
        QueuesDrain(v, r', events[1..]);
      }
    }
  }

  lemma QuietNearer(v: Version, r: Relay)
    ensures var (r', verdict) := Turn(v, r, Ready(false, true, false, true));
      && NoLoss(r, r')
      && (verdict.Go? && r.up.data != [] ==> UpLeft(r') + Fates(r') < UpLeft(r) + Fates(r))
      && (verdict.Go? && r.down.data != [] ==> DownLeft(r') + Fates(r') < DownLeft(r) + Fates(r))
  {
    hide SecondWrite, WantsBytes, UpLeft, DownLeft, Fates;
    TurnNearer(v, r, Ready(false, true, false, true));
  }

  // ---- what is lost at the end ----

  /** When the upstream has closed and the relay ends, the client has been sent all
      of the upstream's bytes if and only if none was pending. */
  lemma AllSentIff(v: Version, r: Relay, events: seq<Event>, upCap: nat, downCap: nat)
    requires Starts(v, r, upCap, downCap)
    ensures var (r', verdict) := Run(v, r, events);
      r'.proxy.incoming == [] ==> (r'.client.sent == r.client.sent + r.proxy.incoming <==> r'.down.data == [])
  {
    RelayTheorem(v, r, events, upCap, downCap);
    var (r', verdict) := Run(v, r, events);
    if r'.down.data == [] && r'.proxy.incoming == [] {
      Everything(r.proxy.incoming, r.client.sent, r'.client.sent, r'.down.data + r'.proxy.incoming);
    }
  }

  /** The end of the upstream ends the relay at once, whatever is pending. */
  lemma EndAtOnce(v: Version, r: Relay, e: Event)
    requires e.Ready? && e.proxyIn && WantsProxyIn(v, r) && r.down.room > 0
    requires r.clienteof && r.proxy.incoming == [] && r.proxy.rfates == []
    ensures Turn(v, r, e) == (r, Return(0))
  {
    hide WantsBytes;
  }

  /** So the last bytes may be lost: one that was read in one turn is dropped in the
      next if the upstream has closed by then, although the client would take it. */
  lemma LastByteLost(v: Version, b: Byte, cap: nat)
    requires !v.Select? && cap > 1 && (v.Poll? ==> cap == BUFSIZE)
    ensures var peer := End([], [], 0, 0, [], []);
      var r := Relay(peer, peer.(incoming := [b]), Queue([], cap), Queue([], cap), false);
      var both := Ready(true, true, true, true);
      && Starts(v, r, cap, cap)
      && Run(v, r, [both, both]).1 == Return(0)
      && Run(v, r, [both, both]).0.client.sent == []
  {
    var peer := End([], [], 0, 0, [], []);
    var r := Relay(peer, peer.(incoming := [b]), Queue([], cap), Queue([], cap), false);
    var both := Ready(true, true, true, true);
    LastByteRead(v, r, b, cap);
    var r1 := Turn(v, r, both).0;
    EndAtOnce(v, r1, both);
    assert [both, both][1..] == [both];
  }

  lemma LastByteRead(v: Version, r: Relay, b: Byte, cap: nat)
    requires !v.Select? && cap > 1 && (v.Poll? ==> cap == BUFSIZE) && !r.clienteof
    requires r.up == r.down == Queue([], cap) && r.client == End([], [], 0, 0, [], [])
    requires r.proxy == r.client.(incoming := [b])
    ensures var (r', verdict) := Turn(v, r, Ready(true, true, true, true));
      && verdict.Go? && r'.clienteof && r'.proxy.incoming == [] && r'.proxy.rfates == []
      && r'.client.sent == [] && WantsProxyIn(v, r') && r'.down.room > 0
  {
    var f := FirstRead(v, r, Ready(true, true, true, true));
    assert f.On? && f.r.clienteof && f.r.down == r.down && f.r.up == r.up;
  }

  // ---- pipes that fill up ----

  /** A pipe that is full while its counter is below BUFSIZE: the read fails with
      EAGAIN, the turn starts over, and nothing is written. */
  lemma ClientJam(r: Relay, e: Event)
    requires e.Ready? && e.clientIn && WantsClientIn(Splice, r) && r.up.room == 0 && r.client.rfates == []
    ensures Turn(Splice, r, e) == (r, Go)
  {
  }

  lemma ProxyJam(r: Relay, e: Event)
    requires e.Ready? && e.proxyIn && WantsProxyIn(Splice, r) && r.down.room == 0 && r.proxy.rfates == []
    requires r.clienteof
    ensures Turn(Splice, r, e) == (r, Go)
  {
  }

  const Everyone := Ready(true, true, true, true)

  /** Always readable and always writable, both ways. */
  ghost predicate AlwaysReady(events: seq<Event>) { forall e | e in events :: e == Everyone }

  lemma {:induction false} StuckRun(r: Relay, events: seq<Event>)
    requires AlwaysReady(events) && Turn(Splice, r, Everyone) == (r, Go)
    ensures Run(Splice, r, events) == (r, Go)
    decreases |events|
  {
    if events != [] {
      assert events[0] in events && forall e | e in events[1..] :: e in events;
      StuckRun(r, events[1..]);
    }
  }

  /** A relay between two peers without faults. */
  function Between(client: Data, proxy: Data, upCap: nat, downCap: nat): Relay {
    var peer := End([], [], 0, 0, [], []);
    Relay(peer.(incoming := client), peer.(incoming := proxy), Queue([], upCap), Queue([], downCap), false)
  }

  lemma SmallUpPipe(client: Data, upCap: nat, downCap: nat)
    requires 0 < upCap < BUFSIZE && downCap > 0 && |client| == upCap + 1
    ensures var (r, verdict) := Turn(Splice, Between(client, [0], upCap, downCap), Everyone);
      && verdict.Go? && r.client.sent == [] == r.proxy.sent && Turn(Splice, r, Everyone) == (r, Go)
  {
    var r0 := Between(client, [0], upCap, downCap);
    var f := FirstRead(Splice, r0, Everyone);
    assert f.On? && f.r.up.room == 0 && |f.r.up.data| == upCap && f.r.client.rfates == [] && !f.r.clienteof;
    var g := SecondRead(Splice, r0, Everyone);
    assert g.On? && g.r.up == f.r.up && g.r.client == f.r.client && !g.r.clienteof;
    ClientJam(g.r, Everyone);
  }

  lemma SmallDownPipe(proxy: Data, upCap: nat, downCap: nat)
    requires upCap > 0 && 0 < downCap < BUFSIZE && |proxy| == downCap + 1
    ensures var (r, verdict) := Turn(Splice, Between([], proxy, upCap, downCap), Everyone);
      && verdict.Go? && r.client.sent == [] == r.proxy.sent && Turn(Splice, r, Everyone) == (r, Go)
  {
    var r0 := Between([], proxy, upCap, downCap);
    var f := FirstRead(Splice, r0, Everyone);
    assert f.On? && f.r.clienteof && f.r.down == r0.down && f.r.up.data == [];
    var g := SecondRead(Splice, r0, Everyone);
    assert g.On? && g.r.down.room == 0 && |g.r.down.data| == downCap && g.r.proxy.rfates == [] && g.r.clienteof && g.r.up == f.r.up;
    ProxyJam(g.r, Everyone);
  }

  lemma NeverEnds(r0: Relay, events: seq<Event>)
    requires AlwaysReady(events)
    requires var (r, verdict) := Turn(Splice, r0, Everyone); verdict.Go? && Turn(Splice, r, Everyone) == (r, Go)
    ensures Run(Splice, r0, events) == (if events == [] then r0 else Turn(Splice, r0, Everyone).0, Go)
  {
    hide Turn;
    if events != [] {
      assert events[0] in events && forall e | e in events[1..] :: e in events;
      StuckRun(Turn(Splice, r0, Everyone).0, events[1..]);
    }
  }

  /** With a pipe of less than BUFSIZE bytes, two peers that are always ready can
      be left without a byte sent, however long the relay goes round. */
  lemma SpliceJams(upCap: nat, downCap: nat) returns (client: Data, proxy: Data)
    requires 0 < upCap && 0 < downCap && (upCap < BUFSIZE || downCap < BUFSIZE)
    ensures |client| > upCap || |proxy| > downCap
    ensures forall events | AlwaysReady(events) ::
      var (r, verdict) := Run(Splice, Between(client, proxy, upCap, downCap), events);
      verdict.Go? && r.client.sent == [] == r.proxy.sent
  {
    hide Turn;
    if upCap < BUFSIZE {
      client, proxy := seq(upCap + 1, _ => 0), [0];
      SmallUpPipe(client, upCap, downCap);
    } else {
      client, proxy := [], seq(downCap + 1, _ => 0);
      SmallDownPipe(proxy, upCap, downCap);
    }
    forall events | AlwaysReady(events)
      ensures var (r, verdict) := Run(Splice, Between(client, proxy, upCap, downCap), events);
        verdict.Go? && r.client.sent == [] == r.proxy.sent
    {
      NeverEnds(Between(client, proxy, upCap, downCap), events);
    }
  }

  /** The splice version comes to its end, between peers that are always ready, if
      and only if both pipes hold BUFSIZE bytes. */
  lemma SpliceEndsIff(upCap: nat, downCap: nat)
    requires upCap > 0 && downCap > 0
    ensures upCap >= BUFSIZE && downCap >= BUFSIZE <==>
      forall client: Data, proxy: Data, events: seq<Event>
        | AlwaysReady(events) && |events| > 2 * |proxy| ::
        Run(Splice, Between(client, proxy, upCap, downCap), events).1.Return?
  {
    hide Run;
    if upCap >= BUFSIZE && downCap >= BUFSIZE {
      forall client: Data, proxy: Data, events: seq<Event> | AlwaysReady(events) && |events| > 2 * |proxy|
        ensures Run(Splice, Between(client, proxy, upCap, downCap), events).1.Return?
      {
        RelayEnds(Splice, Between(client, proxy, upCap, downCap), events, upCap, downCap);
      }
    } else {
      var client, proxy := SpliceJams(upCap, downCap);
      var events := seq(2 * |proxy| + 1, _ => Everyone);
      assert AlwaysReady(events) && Run(Splice, Between(client, proxy, upCap, downCap), events).1.Go?;
    }
  }
}
