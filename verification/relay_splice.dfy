/** The splice version of negotiate (negotiate.c:155-316): bytes move through two
    kernel pipes, and only counters are kept of them. */
module SpliceRelays {
  import opened Bytes
  import opened Wire
  import opened Duplex
  import opened BufferRelays

  /** A non-blocking pipe. */
  class Pipe {
    var content: Data
    const capacity: nat

    ghost predicate Valid()
      reads this
    {
      |content| <= capacity
    }

    ghost function Content(): Queue
      requires Valid()
      reads this
    {
      Queue(content, capacity - |content|)
    }

    constructor (capacity: nat)
      ensures Valid() && Content() == Queue([], capacity) && this.capacity == capacity
    {
      this.capacity := capacity;
      content := [];
    }

    /** splice(fd, pipe, BUFSIZE). */
    method In(fd: Socket) returns (io: Io)
      requires Valid()
      modifies this, fd
      ensures Valid() && (fd.end, io) == Fetch(Splice, old(fd.end), old(Content()))
      ensures io.Moved? ==> io.n <= |old(fd.end.incoming)|
      ensures Content() == if io.Moved? then Filled(old(Content()), Piece(old(fd.end), io)) else old(Content())
    {
      var (w, result) := Fetch(Splice, fd.end, Queue(content, capacity - |content|));
      io := result;
      if io.Moved? {
        content := content + Piece(fd.end, io);
      }
      fd.end := w;
    }

    /** splice(pipe, fd, BUFSIZE). */
    method Out(fd: Socket) returns (io: Io)
      requires Valid()
      modifies this, fd
      ensures Valid() && (fd.end, io) == Emit(Splice, old(fd.end), old(Content()))
      ensures io.Moved? ==> io.n <= |old(content)|
      ensures |content| == |old(content)| - if io.Moved? then io.n else 0
      ensures Content() == if io.Moved? then Drained(Splice, old(Content()), io.n) else old(Content())
    {
      var (w, result) := Emit(Splice, fd.end, Queue(content, capacity - |content|));
      io := result;
      if io.Moved? {
        content := content[io.n..];
      }
      fd.end := w;
    }
  }

  class SpliceRelay {
    const client: Socket
    const proxy: Socket
    const pipecli: Pipe
    const pipesrv: Pipe
    var npipecli: int
    var npipesrv: int
    var clienteof: bool

    /** The counters say how much is in the pipes. */
    ghost predicate Valid()
      reads this, pipecli, pipesrv
    {
      && client != proxy && pipecli != pipesrv && pipecli.Valid() && pipesrv.Valid()
      && npipecli == |pipecli.content| && npipesrv == |pipesrv.content|
    }

    ghost function View(): Relay
      requires Valid()
      reads this, client, proxy, pipecli, pipesrv
    {
      Relay(client.end, proxy.end, pipecli.Content(), pipesrv.Content(), clienteof)
    }

    constructor (client: Socket, proxy: Socket, upCapacity: nat, downCapacity: nat)
      requires client != proxy
      ensures Valid() && fresh(pipecli) && fresh(pipesrv)
      ensures this.client == client && this.proxy == proxy
      ensures View() == Relay(client.end, proxy.end, Queue([], upCapacity), Queue([], downCapacity), false)
    {
      this.client := client;
      this.proxy := proxy;
      pipecli := new Pipe(upCapacity);
      pipesrv := new Pipe(downCapacity);
      npipecli, npipesrv := 0, 0;
      clienteof := false;
    }

    /** Lines 216-240. */
    method ReadClient() returns (ending: Ending)
      requires Valid()
      modifies this, client, proxy, pipecli
      ensures Valid() && FlowOf(View(), ending) == Duplex.ReadClient(Splice, old(View()))
      ensures npipesrv == old(npipesrv)
    {
      var io := pipecli.In(client);
      match io {
        case Error(errno) => return EndingOn(Splice, errno);
        case Moved(n) =>
          if n == 0 {
            clienteof := true;
            if npipecli == 0 {
              proxy.Shutdown();
            }
          } else {
            npipecli := npipecli + n;
          }
          return Through;
      }
    }

    /** Lines 242-270. */
    method ReadProxy() returns (ending: Ending)
      requires Valid()
      modifies this`npipesrv, proxy, pipesrv
      ensures Valid() && FlowOf(View(), ending) == Duplex.ReadProxy(Splice, old(View()))
    {
      var io := pipesrv.In(proxy);
      match io {
        case Error(errno) => return EndingOn(Splice, errno);
        case Moved(n) =>
          if n == 0 {
            return if clienteof then Exit(0) else Exit(1);
          }
          npipesrv := npipesrv + n;
          return Through;
      }
    }

    /** Lines 273-287. */
    method WriteClient() returns (ending: Ending)
      requires Valid()
      modifies this`npipesrv, client, pipesrv
      ensures Valid() && FlowOf(View(), ending) == Duplex.WriteClient(Splice, old(View()))
    {
      hide Emit, Drained, Pipe.Content;
      var io := pipesrv.Out(client);
      match io {
        case Error(errno) => return EndingOn(Splice, errno);
        case Moved(n) =>
          npipesrv := npipesrv - n;
          return Through;
      }
    }

    /** Lines 291-307. */
    method WriteProxy() returns (ending: Ending)
      requires Valid()
      modifies this`npipecli, proxy, pipecli
      ensures Valid() && FlowOf(View(), ending) == Duplex.WriteProxy(Splice, old(View()))
    {
      var io := pipecli.Out(proxy);
      match io {
        case Error(errno) => return EndingOn(Splice, errno);
        case Moved(n) =>
          npipecli := npipecli - n;
          if npipecli == 0 && clienteof {
            proxy.Shutdown();
          }
          return Through;
      }
    }

    /** One turn of the loop. */
    method Turn(e: Event) returns (verdict: Verdict)
      requires Valid()
      modifies this, client, proxy, pipecli, pipesrv
      ensures Valid() && (View(), verdict) == Duplex.Turn(Splice, old(View()), e)
    {
      hide SecondWrite;
      match e {
        case PollError(errno) => return if errno.OTHER? then Return(1) else Go;
        case TimedOut => return Return(6);
        case Ready(_, _, _, _) =>
          var ending := OnReady(e);
          return if ending.Exit? then Return(ending.status) else Go;
      }
    }

    /** The rest of the turn, once poll has returned what is ready of what was asked. */
    method OnReady(e: Event) returns (ending: Ending)
      requires Valid() && e.Ready?
      modifies this, client, proxy, pipecli, pipesrv
      ensures Valid() && FlowOf(View(), ending) == SecondWrite(Splice, old(View()), e)
    {
      hide Duplex.ReadClient, Duplex.ReadProxy, SecondWrite;
      ghost var r := View();
      var clientIn := !clienteof && npipecli < BUFSIZE && e.clientIn;
      var proxyIn := npipesrv < BUFSIZE && e.proxyIn;
      var proxyOut := npipecli != 0 && e.proxyOut;
      var clientOut := npipesrv != 0 && e.clientOut;
      ending := Through;
      if clientIn {
        ending := ReadClient();
      }
      assert FlowOf(View(), ending) == FirstRead(Splice, r, e);
      hide FirstRead;
      if ending.Through? && proxyIn {
        ending := ReadProxy();
      }
      assert FlowOf(View(), ending) == SecondRead(Splice, r, e);
      hide SecondRead;
      ending := Writes(ending, clientOut, proxyOut, r, e);
    }

    /** The two writes that end a turn which started from r. */
    method Writes(reading: Ending, clientOut: bool, proxyOut: bool, ghost r: Relay, ghost e: Event)
      returns (ending: Ending)
      requires Valid() && e.Ready? && FlowOf(View(), reading) == SecondRead(Splice, r, e)
      requires reading.Through? ==>
        && (clientOut && View().down.data != [] <==> ClientOutDue(Splice, r, View(), e))
        && (proxyOut && View().up.data != [] <==> ProxyOutDue(Splice, r, View(), e))
      modifies this, client, proxy, pipecli, pipesrv
      ensures Valid() && FlowOf(View(), ending) == SecondWrite(Splice, r, e)
    {
      hide Duplex.WriteClient, Duplex.WriteProxy, SecondRead;
      ending := reading;
      ghost var now := View();
      if ending.Through? && clientOut && npipesrv > 0 {
        ending := WriteClient();
      }
      assert FlowOf(View(), ending) == FirstWrite(Splice, r, e);
      assert pipecli.Content() == now.up;
      assert ending.Through? ==> (ProxyOutDue(Splice, r, View(), e) <==> ProxyOutDue(Splice, r, now, e));
      hide FirstWrite, ProxyOutDue, ClientOutDue;
      if ending.Through? && proxyOut && npipecli > 0 {
        ending := WriteProxy();
      }
    }

    /** The whole loop, over the calls to poll seen so far. */
    method Negotiate(events: seq<Event>) returns (verdict: Verdict)
      requires Valid()
      modifies this, client, proxy, pipecli, pipesrv
      ensures Valid() && (View(), verdict) == Duplex.Run(Splice, old(View()), events)
    {
      verdict := Go;
      var i := 0;
      while i < |events| && verdict.Go?
        invariant i <= |events| && Valid()
        invariant verdict.Go? ==> Duplex.Run(Splice, View(), events[i..]) == Duplex.Run(Splice, old(View()), events)
        invariant verdict.Return? ==> (View(), verdict) == Duplex.Run(Splice, old(View()), events)
      {
        assert events[i..][1..] == events[i + 1..];
        verdict := Turn(events[i]);
        i := i + 1;
      }
    }
  }
}
