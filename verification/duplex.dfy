/** The relay of negotiate.c as one abstract machine: a pair of byte queues with
    half-close, parametrised by what tells the select, splice and poll versions
    apart. What holds of this machine over every run holds of all three. */
module Duplex {
  import opened Bytes
  import opened Wire

  const BUFSIZE: nat := 0x10_0000

  datatype Version = Select | Splice | Poll

  /** Bytes read but not yet written, and how many more fit. A buffer gets its
      room back when it is drained, a pipe as soon as bytes leave it. */
  datatype Queue = Queue(data: Data, room: nat)

  datatype Relay = Relay(client: End, proxy: End, up: Queue, down: Queue, clienteof: bool)

  /** What one call to select or poll returns. Readiness the caller did not ask
      for is masked, as the kernel does. */
  datatype Event =
    | Ready(clientIn: bool, clientOut: bool, proxyIn: bool, proxyOut: bool)
    | TimedOut
    | PollError(errno: Errno)

  datatype Verdict = Go | Return(status: nat)

  // ---- the system calls on a queue ----

  /** read into the free part of a buffer, or splice into a pipe. */
  function Fetch(v: Version, w: End, q: Queue): (End, Io) {
    if v.Splice? then
      if q.room == 0 then (w.(rfates := Rest(w.rfates)), Error(EAGAIN))
      else ReadCall(w, Min(BUFSIZE, q.room))
    else ReadCall(w, q.room)
  }

  function Filled(q: Queue, bytes: Data): Queue {
    Queue(q.data + bytes, if |bytes| <= q.room then q.room - |bytes| else 0)
  }

  /** write the content of a buffer, or splice out of a pipe. */
  function Emit(v: Version, w: End, q: Queue): (End, Io) {
    WriteCall(w, if v.Splice? then q.data[..Min(BUFSIZE, |q.data|)] else q.data)
  }

  function Drained(v: Version, q: Queue, n: nat): Queue
    requires n <= |q.data|
  {
    Queue(q.data[n..], if v.Splice? then q.room + n else if n == |q.data| then BUFSIZE else q.room)
  }

  // ---- what to wait for, at the head of the loop ----

  predicate WantsBytes(v: Version, q: Queue) {
    if v.Splice? then |q.data| < BUFSIZE else q.room > 0
  }

  predicate WantsClientIn(v: Version, r: Relay) { !r.clienteof && WantsBytes(v, r.up) }

  predicate WantsProxyIn(v: Version, r: Relay) { WantsBytes(v, r.down) }

  // ---- one turn of the loop ----

  /** After each system call: go on with this turn, start the next, or return. */
  datatype Flow = On(r: Relay) | NextTurn(r: Relay) | Out(r: Relay, status: nat)

  /** EAGAIN, and in two versions EINTR, start the next turn; select carries on
      with this one after EAGAIN and gives up on EINTR. */
  function OnError(v: Version, r: Relay, errno: Errno): Flow {
    match errno
    case EAGAIN => if v.Select? then On(r) else NextTurn(r)
    case EINTR => if v.Select? then Out(r, 1) else NextTurn(r)
    case OTHER => Out(r, 1)
  }

  function ReadClient(v: Version, r: Relay): Flow {
    match Fetch(v, r.client, r.up)
    case (w, Error(errno)) => OnError(v, r.(client := w), errno)
    case (w, Moved(n)) =>
      if n == 0 then
        On(r.(client := w, clienteof := true,
              proxy := if r.up.data == [] then ShutdownCall(r.proxy) else r.proxy))
      else On(r.(client := w, up := Filled(r.up, Piece(r.client, Moved(n)))))
  }

  function ReadProxy(v: Version, r: Relay): Flow {
    match Fetch(v, r.proxy, r.down)
    case (w, Error(errno)) => OnError(v, r.(proxy := w), errno)
    case (w, Moved(n)) =>
      if n == 0 then Out(r.(proxy := w), if r.clienteof then 0 else 1)
      else On(r.(proxy := w, down := Filled(r.down, Piece(r.proxy, Moved(n)))))
  }

  function WriteClient(v: Version, r: Relay): Flow {
    match Emit(v, r.client, r.down)
    case (w, Error(errno)) => OnError(v, r.(client := w), errno)
    case (w, Moved(n)) => On(r.(client := w, down := Drained(v, r.down, n)))
  }

  function WriteProxy(v: Version, r: Relay): Flow {
    match Emit(v, r.proxy, r.up)
    case (w, Error(errno)) => OnError(v, r.(proxy := w), errno)
    case (w, Moved(n)) =>
      On(r.(up := Drained(v, r.up, n),
            proxy := if n == |r.up.data| && r.clienteof then ShutdownCall(w) else w))
  }

  function FirstRead(v: Version, r: Relay, e: Event): Flow
    requires e.Ready?
  {
    if e.clientIn && WantsClientIn(v, r) then ReadClient(v, r) else On(r)
  }

  function SecondRead(v: Version, r: Relay, e: Event): Flow
    requires e.Ready?
  {
    var f := FirstRead(v, r, e);
    if f.On? && e.proxyIn && WantsProxyIn(v, r) then ReadProxy(v, f.r) else f
  }

  /** Select also tries to write what it has just read. */
  predicate ClientOutDue(v: Version, r: Relay, now: Relay, e: Event)
    requires e.Ready?
  {
    now.down.data != [] && ((e.clientOut && r.down.data != []) || (v.Select? && |now.down.data| > |r.down.data|))
  }

  predicate ProxyOutDue(v: Version, r: Relay, now: Relay, e: Event)
    requires e.Ready?
  {
    now.up.data != [] && ((e.proxyOut && r.up.data != []) || (v.Select? && |now.up.data| > |r.up.data|))
  }

  function FirstWrite(v: Version, r: Relay, e: Event): Flow
    requires e.Ready?
  {
    var f := SecondRead(v, r, e);
    if f.On? && ClientOutDue(v, r, f.r, e) then WriteClient(v, f.r) else f
  }

  function SecondWrite(v: Version, r: Relay, e: Event): Flow
    requires e.Ready?
  {
    var f := FirstWrite(v, r, e);
    if f.On? && ProxyOutDue(v, r, f.r, e) then WriteProxy(v, f.r) else f
  }

  function Turn(v: Version, r: Relay, e: Event): (Relay, Verdict) {
    match e
    case PollError(errno) => (r, if errno.OTHER? || v.Select? then Return(1) else Go)
    case TimedOut => (r, if v.Select? then Go else Return(6))
    case Ready(_, _, _, _) =>
      match SecondWrite(v, r, e)
      case On(r') => (r', Go)
      case NextTurn(r') => (r', Go)
      case Out(r', status) => (r', Return(status))
  }

  /** A run over the events seen so far; Go says that the relay still runs. */
  function Run(v: Version, r: Relay, events: seq<Event>): (Relay, Verdict)
    decreases |events|
  {
    if events == [] then (r, Go)
    else
      var (r', verdict) := Turn(v, r, events[0]);
      if verdict.Go? then Run(v, r', events[1..]) else (r', verdict)
  }

  // ---- what every step keeps ----

  /** One direction: from `in0` to come at the start, `in1` is still to come; what
      was read is what was written since `out0`, followed by what is pending. */
  ghost predicate Conserved(in0: Data, out0: Data, in1: Data, out1: Data, pending: Data) {
    out0 <= out1 && in0 == out1[|out0|..] + pending + in1
  }

  /** A buffer's room is what is left behind its content, and it starts over when
      drained; a pipe's room is what its content leaves of its capacity. */
  ghost predicate RoomKept(v: Version, q: Queue, cap: nat) {
    && cap > 0
    && (if v.Splice? then |q.data| + q.room == cap
        else cap == BUFSIZE && |q.data| + q.room <= cap && (q.data == [] ==> q.room == cap))
  }

  /** FIN has gone to the upstream once if the client is done and its last byte
      has gone, and not otherwise; nothing was written after it, and the client
      is never shut down. End of file was seen only where the stream ends. */
  ghost predicate HalfClose(r0: Relay, r: Relay) {
    && r.proxy.fins == r0.proxy.fins + (if r.clienteof && r.up.data == [] then 1 else 0)
    && r.proxy.late == r0.proxy.late && r.client.fins == r0.client.fins && r.client.late == r0.client.late
    && (r.clienteof ==> r.client.incoming == [])
  }

  ghost predicate Inv(v: Version, r0: Relay, r: Relay, upCap: nat, downCap: nat) {
    && Conserved(r0.client.incoming, r0.proxy.sent, r.client.incoming, r.proxy.sent, r.up.data)
    && Conserved(r0.proxy.incoming, r0.client.sent, r.proxy.incoming, r.client.sent, r.down.data)
    && RoomKept(v, r.up, upCap) && RoomKept(v, r.down, downCap)
    && HalfClose(r0, r)
  }

  /** The state in which negotiate starts, on connections not yet shut down. */
  ghost predicate Starts(v: Version, r: Relay, upCap: nat, downCap: nat) {
    && r.up.data == [] == r.down.data && !r.clienteof
    && r.up.room == upCap && r.down.room == downCap && upCap > 0 && downCap > 0
    && (!v.Splice? ==> upCap == downCap == BUFSIZE)
    && r.client.fins == 0 == r.proxy.fins
  }

  // ---- each system call keeps it ----

  /** A read that is asked for returns nothing only at the end of the stream:
      it never asks for zero bytes. */
  lemma FetchShape(v: Version, w: End, q: Queue, cap: nat)
    requires RoomKept(v, q, cap) && WantsBytes(v, q)
    ensures var (w', io) := Fetch(v, w, q);
      && w' == w.(incoming := w'.incoming, rfates := w'.rfates)
      && (io.Error? || io.n == 0 ==> w'.incoming == w.incoming)
      && (io.Moved? ==> io.n <= q.room && io.n <= |w.incoming| && w'.incoming == w.incoming[io.n..])
      && (io.Moved? ==> RoomKept(v, Filled(q, w.incoming[..io.n]), cap))
      && (io == Moved(0) ==> w.incoming == [] == w'.incoming)
  {
  }

  lemma EmitShape(v: Version, w: End, q: Queue, cap: nat)
    requires RoomKept(v, q, cap)
    ensures var (w', io) := Emit(v, w, q);
      && w' == w.(sent := w'.sent, wfates := w'.wfates, late := w'.late)
      && (io.Error? ==> w'.sent == w.sent && w'.late == w.late)
      && (io.Moved? ==> io.n <= |q.data| && w'.sent == w.sent + q.data[..io.n])
      && (io.Moved? ==> RoomKept(v, Drained(v, q, io.n), cap))
      && (w.fins == 0 ==> w'.late == w.late)
  {
  }

  lemma ConservedRead(in0: Data, out0: Data, in1: Data, out1: Data, pending: Data, n: nat)
    requires Conserved(in0, out0, in1, out1, pending) && n <= |in1|
    ensures Conserved(in0, out0, in1[n..], out1, pending + in1[..n])
  {
    var sent := out1[|out0|..];
    assert in1 == in1[..n] + in1[n..];
    assert sent + pending + in1 == sent + (pending + in1[..n]) + in1[n..];
  }

  lemma ConservedWrite(in0: Data, out0: Data, in1: Data, out1: Data, pending: Data, n: nat)
    requires Conserved(in0, out0, in1, out1, pending) && n <= |pending|
    ensures Conserved(in0, out0, in1, out1 + pending[..n], pending[n..])
  {
    var sent := out1[|out0|..];
    assert (out1 + pending[..n])[|out0|..] == sent + pending[..n];
    assert pending == pending[..n] + pending[n..];
    assert sent + pending + in1 == (sent + pending[..n]) + pending[n..] + in1;
  }

  /** Bytes have come from the client, or none; nothing else has changed. */
  lemma ClientFetched(v: Version, r0: Relay, r: Relay, w: End, up: Queue, upCap: nat, downCap: nat)
    requires Inv(v, r0, r, upCap, downCap) && RoomKept(v, up, upCap) && !r.clienteof
    requires w == r.client.(incoming := w.incoming, rfates := w.rfates)
    requires Conserved(r0.client.incoming, r0.proxy.sent, w.incoming, r.proxy.sent, up.data)
    ensures Inv(v, r0, r.(client := w, up := up), upCap, downCap)
    ensures w.incoming == [] ==>
      Inv(v, r0, r.(client := w, up := up, clienteof := true,
                    proxy := if up.data == [] then ShutdownCall(r.proxy) else r.proxy), upCap, downCap)
  {
    hide Conserved, RoomKept;
  }

  lemma ProxyFetched(v: Version, r0: Relay, r: Relay, w: End, down: Queue, upCap: nat, downCap: nat)
    requires Inv(v, r0, r, upCap, downCap) && RoomKept(v, down, downCap)
    requires w == r.proxy.(incoming := w.incoming, rfates := w.rfates)
    requires Conserved(r0.proxy.incoming, r0.client.sent, w.incoming, r.client.sent, down.data)
    ensures Inv(v, r0, r.(proxy := w, down := down), upCap, downCap)
  {
    hide Conserved, RoomKept;
  }

  lemma ReadClientInv(v: Version, r0: Relay, r: Relay, upCap: nat, downCap: nat)
    requires Inv(v, r0, r, upCap, downCap) && WantsClientIn(v, r)
    ensures Inv(v, r0, ReadClient(v, r).r, upCap, downCap)
  {
    hide Inv, Fetch;
    var (w, io) := Fetch(v, r.client, r.up);
    if io.Moved? && io.n > 0 {
      ClientBrings(v, r0, r, upCap, downCap);
    } else {
      ClientBringsNothing(v, r0, r, upCap, downCap);
    }
  }

  lemma ClientBrings(v: Version, r0: Relay, r: Relay, upCap: nat, downCap: nat)
    requires Inv(v, r0, r, upCap, downCap) && WantsClientIn(v, r)
    requires var (w, io) := Fetch(v, r.client, r.up); io.Moved? && io.n > 0
    ensures var (w, io) := Fetch(v, r.client, r.up);
      && io.n <= |r.client.incoming|
      && Inv(v, r0, r.(client := w, up := Filled(r.up, Piece(r.client, io))), upCap, downCap)
  {
    hide Fetch, Conserved, RoomKept, HalfClose;
    FetchShape(v, r.client, r.up, upCap);
    var (w, io) := Fetch(v, r.client, r.up);
    ConservedRead(r0.client.incoming, r0.proxy.sent, r.client.incoming, r.proxy.sent, r.up.data, io.n);
    ClientFetched(v, r0, r, w, Filled(r.up, Piece(r.client, io)), upCap, downCap);
  }

  lemma ClientBringsNothing(v: Version, r0: Relay, r: Relay, upCap: nat, downCap: nat)
    requires Inv(v, r0, r, upCap, downCap) && WantsClientIn(v, r)
    requires var (w, io) := Fetch(v, r.client, r.up); io.Error? || io.n == 0
    ensures var (w, io) := Fetch(v, r.client, r.up);
      && Inv(v, r0, r.(client := w), upCap, downCap)
      && (io.Moved? ==>
            Inv(v, r0, r.(client := w, clienteof := true,
                          proxy := if r.up.data == [] then ShutdownCall(r.proxy) else r.proxy), upCap, downCap))
  {
    hide Fetch, Conserved, RoomKept, HalfClose;
    FetchShape(v, r.client, r.up, upCap);
    var (w, io) := Fetch(v, r.client, r.up);
    ClientFetched(v, r0, r, w, r.up, upCap, downCap);
    assert r.(client := w, up := r.up) == r.(client := w);
  }

  lemma ReadProxyInv(v: Version, r0: Relay, r: Relay, upCap: nat, downCap: nat)
    requires Inv(v, r0, r, upCap, downCap) && WantsProxyIn(v, r)
    ensures Inv(v, r0, ReadProxy(v, r).r, upCap, downCap)
  {
    hide Inv, Fetch;
    var (w, io) := Fetch(v, r.proxy, r.down);
    if io.Moved? && io.n > 0 {
      ProxyBrings(v, r0, r, upCap, downCap);
    } else {
      ProxyBringsNothing(v, r0, r, upCap, downCap);
    }
  }

  lemma ProxyBrings(v: Version, r0: Relay, r: Relay, upCap: nat, downCap: nat)
    requires Inv(v, r0, r, upCap, downCap) && WantsProxyIn(v, r)
    requires var (w, io) := Fetch(v, r.proxy, r.down); io.Moved? && io.n > 0
    ensures var (w, io) := Fetch(v, r.proxy, r.down);
      && io.n <= |r.proxy.incoming|
      && Inv(v, r0, r.(proxy := w, down := Filled(r.down, Piece(r.proxy, io))), upCap, downCap)
  {
    hide Fetch, Conserved, RoomKept, HalfClose;
    FetchShape(v, r.proxy, r.down, downCap);
    var (w, io) := Fetch(v, r.proxy, r.down);
    ConservedRead(r0.proxy.incoming, r0.client.sent, r.proxy.incoming, r.client.sent, r.down.data, io.n);
    ProxyFetched(v, r0, r, w, Filled(r.down, Piece(r.proxy, io)), upCap, downCap);
  }

  lemma ProxyBringsNothing(v: Version, r0: Relay, r: Relay, upCap: nat, downCap: nat)
    requires Inv(v, r0, r, upCap, downCap) && WantsProxyIn(v, r)
    requires var (w, io) := Fetch(v, r.proxy, r.down); io.Error? || io.n == 0
    ensures var (w, io) := Fetch(v, r.proxy, r.down);
      && Inv(v, r0, r.(proxy := w), upCap, downCap)
  {
    hide Fetch, Conserved, RoomKept, HalfClose;
    FetchShape(v, r.proxy, r.down, downCap);
    var (w, io) := Fetch(v, r.proxy, r.down);
    ProxyFetched(v, r0, r, w, r.down, upCap, downCap);
    assert r.(proxy := w, down := r.down) == r.(proxy := w);
  }

  lemma ReadProxyEnds(v: Version, r: Relay, cap: nat)
    requires RoomKept(v, r.down, cap) && WantsProxyIn(v, r)
    ensures var f := ReadProxy(v, r); f.Out? && f.status == 0 ==> f.r.clienteof && f.r.proxy.incoming == []
  {
    hide Fetch;
    FetchShape(v, r.proxy, r.down, cap);
  }

  lemma WriteClientInv(v: Version, r0: Relay, r: Relay, upCap: nat, downCap: nat)
    requires Inv(v, r0, r, upCap, downCap) && r0.client.fins == 0
    ensures Inv(v, r0, WriteClient(v, r).r, upCap, downCap)
  {
    hide Emit, Conserved, RoomKept;
    EmitShape(v, r.client, r.down, downCap);
    var (w, io) := Emit(v, r.client, r.down);
    if io.Moved? {
      ConservedWrite(r0.proxy.incoming, r0.client.sent, r.proxy.incoming, r.client.sent, r.down.data, io.n);
    }
  }

  lemma WriteProxyInv(v: Version, r0: Relay, r: Relay, upCap: nat, downCap: nat)
    requires Inv(v, r0, r, upCap, downCap) && r0.proxy.fins == 0 && r.up.data != []
    ensures Inv(v, r0, WriteProxy(v, r).r, upCap, downCap)
  {
    hide Emit, Conserved, RoomKept;
    EmitShape(v, r.proxy, r.up, upCap);
    var (w, io) := Emit(v, r.proxy, r.up);
    if io.Moved? {
      ConservedWrite(r0.client.incoming, r0.proxy.sent, r.client.incoming, r.proxy.sent, r.up.data, io.n);
    }
  }

  // ---- a turn, and a run ----

  /** What may be returned, and what that says. */
  ghost predicate Honest(r: Relay, status: nat) {
    status in {0, 1, 6} && (status == 0 ==> r.clienteof && r.proxy.incoming == [])
  }

  lemma InvRoom(v: Version, r0: Relay, r: Relay, upCap: nat, downCap: nat)
    requires Inv(v, r0, r, upCap, downCap)
    ensures RoomKept(v, r.up, upCap) && RoomKept(v, r.down, downCap)
  {
  }

  lemma TurnInv(v: Version, r0: Relay, r: Relay, e: Event, upCap: nat, downCap: nat)
    requires Inv(v, r0, r, upCap, downCap) && r0.client.fins == 0 == r0.proxy.fins
    ensures var (r', verdict) := Turn(v, r, e);
      Inv(v, r0, r', upCap, downCap) && (verdict.Return? ==> Honest(r', verdict.status))
  {
    hide Inv, ReadClient, ReadProxy, WriteClient, WriteProxy;
    if e.Ready? {
      Statuses(v, r, e);
      if e.clientIn && WantsClientIn(v, r) { ReadClientInv(v, r0, r, upCap, downCap); }
      ReadClientAside(v, r);
      var f1 := FirstRead(v, r, e);
      if f1.On? && e.proxyIn && WantsProxyIn(v, r) {
        ReadProxyInv(v, r0, f1.r, upCap, downCap);
        InvRoom(v, r0, f1.r, upCap, downCap);
        ReadProxyEnds(v, f1.r, downCap);
      }
      var f2 := SecondRead(v, r, e);
      if f2.On? && ClientOutDue(v, r, f2.r, e) { WriteClientInv(v, r0, f2.r, upCap, downCap); }
      var f3 := FirstWrite(v, r, e);
      if f3.On? && ProxyOutDue(v, r, f3.r, e) { WriteProxyInv(v, r0, f3.r, upCap, downCap); }
    }
  }

  /** Reading from the client leaves the other direction's queue alone. */
  lemma ReadClientAside(v: Version, r: Relay)
    ensures ReadClient(v, r).r.down == r.down
  {
  }

  /** The only statuses are 0 and 1, and 0 comes from the end of the upstream. */
  lemma Statuses(v: Version, r: Relay, e: Event)
    ensures forall s: Relay :: var f := ReadClient(v, s); f.Out? ==> f.status == 1
    ensures forall s: Relay :: var f := ReadProxy(v, s); f.Out? ==> f.status <= 1
    ensures forall s: Relay :: var f := WriteClient(v, s); f.Out? ==> f.status == 1
    ensures forall s: Relay :: var f := WriteProxy(v, s); f.Out? ==> f.status == 1
  {
  }

  lemma {:induction false} RunInv(v: Version, r0: Relay, r: Relay, events: seq<Event>, upCap: nat, downCap: nat)
    requires Inv(v, r0, r, upCap, downCap) && r0.client.fins == 0 == r0.proxy.fins
    ensures var (r', verdict) := Run(v, r, events);
      Inv(v, r0, r', upCap, downCap) && (verdict.Return? ==> Honest(r', verdict.status))
    decreases |events|
  {
    hide Inv, Turn;
    if events != [] {
      var (r', verdict) := Turn(v, r, events[0]);
      TurnInv(v, r0, r, events[0], upCap, downCap);
      if verdict.Go? {
        RunInv(v, r0, r', events[1..], upCap, downCap);
      }
    }
  }

  lemma StartsInv(v: Version, r: Relay, upCap: nat, downCap: nat)
    requires Starts(v, r, upCap, downCap)
    ensures Inv(v, r, r, upCap, downCap)
  {
  }

  /** In every version, over every run, at every loop head and at every return:
      each way, bytes read are bytes written and then bytes pending; FIN has been
      sent exactly when the client is done and nothing of it is pending, once,
      with no byte after it; end of file is real; and status 0 means that both
      streams have been read to their ends. */
  lemma RelayTheorem(v: Version, r: Relay, events: seq<Event>, upCap: nat, downCap: nat)
    requires Starts(v, r, upCap, downCap)
    ensures var (r', verdict) := Run(v, r, events);
      && r.proxy.sent <= r'.proxy.sent && r.client.sent <= r'.client.sent
      && r.client.incoming == r'.proxy.sent[|r.proxy.sent|..] + r'.up.data + r'.client.incoming
      && r.proxy.incoming == r'.client.sent[|r.client.sent|..] + r'.down.data + r'.proxy.incoming
      && (r'.proxy.fins == 1 <==> r'.clienteof && r'.up.data == []) && r'.proxy.fins <= 1 && r'.client.fins == 0
      && r'.proxy.late == r.proxy.late && r'.client.late == r.client.late
      && (r'.clienteof ==> r'.client.incoming == [])
      && (verdict.Return? && verdict.status == 0 ==> r'.clienteof && r'.proxy.incoming == [])
  {
    StartsInv(v, r, upCap, downCap);
    RunInv(v, r, r, events, upCap, downCap);
  }

  /** At every loop head something is waited for: a full queue always has its
      write interest registered, and a queue with room is read. */
  lemma AlwaysWaiting(v: Version, r: Relay, events: seq<Event>, upCap: nat, downCap: nat)
    requires Starts(v, r, upCap, downCap)
    ensures var (r', verdict) := Run(v, r, events);
      && (r'.up.room == 0 ==> r'.up.data != []) && (r'.down.room == 0 ==> r'.down.data != [])
      && (WantsProxyIn(v, r') || r'.down.data != [])
      && (!r'.clienteof ==> WantsClientIn(v, r') || r'.up.data != [])
  {
    StartsInv(v, r, upCap, downCap);
    RunInv(v, r, r, events, upCap, downCap);
  }
}
