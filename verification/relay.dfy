/** The select and poll versions of negotiate, over two buffers with two pointers
    each. Every turn of their loops is a turn of the abstract relay. */
module BufferRelays {
  import opened Bytes
  import opened Wire
  import opened Duplex

  /** `to` or `fr`: bytes between optr and iptr wait to be written. */
  class Buffer {
    const bytes: array<Byte>
    var iptr: nat
    var optr: nat

    ghost predicate Valid()
      reads this
    {
      optr <= iptr <= BUFSIZE == bytes.Length
    }

    ghost function Content(): Queue
      requires Valid()
      reads this, bytes
    {
      Queue(bytes[optr..iptr], BUFSIZE - iptr)
    }

    constructor ()
      ensures Valid() && fresh(bytes) && Content() == Queue([], BUFSIZE)
    {
      bytes := new Byte[BUFSIZE](_ => 0);
      iptr, optr := 0, 0;
    }

    /** read(fd, iptr, end - iptr), and iptr += n. */
    method Fill(fd: Socket) returns (io: Io)
      requires Valid()
      modifies this, bytes, fd
      ensures Valid()
      ensures (fd.end, io) == ReadCall(old(fd.end), old(Content()).room)
      ensures io.Moved? ==> io.n <= |old(fd.end.incoming)|
      ensures optr == old(optr)
      ensures Content() == if io.Moved? then Filled(old(Content()), Piece(old(fd.end), io)) else old(Content())
      ensures optr == iptr <==> Content().data == []
      ensures io == Moved(0) ==> Content() == old(Content())
    {
      ghost var start := bytes[..];
      io := fd.ReadInto(bytes, iptr, BUFSIZE - iptr);
      match io {
        case Error(_) =>
          assert bytes[..] == start;
        case Moved(n) =>
          iptr := iptr + n;
      }
    }

    /** write(fd, optr, iptr - optr), optr += n, and back to the start when drained. */
    method Flush(fd: Socket) returns (io: Io)
      requires Valid()
      modifies this, fd
      ensures Valid()
      ensures (fd.end, io) == WriteCall(old(fd.end), old(Content()).data)
      ensures io.Moved? ==> io.n <= |old(Content()).data|
      ensures Content() == if io.Moved? then Drained(Poll, old(Content()), io.n) else old(Content())
      ensures optr == iptr <==> Content().data == []
    {
      io := fd.WriteFrom(bytes, optr, iptr - optr);
      assert bytes[optr..optr + (iptr - optr)] == bytes[optr..iptr];
      match io {
        case Error(_) =>
        case Moved(n) =>
          optr := optr + n;
          if optr == iptr {
            optr, iptr := 0, 0;
          }
      }
    }
  }

  /** How a block of the loop ends: falls through, `continue`s, or returns. */
  datatype Ending = Through | Continue | Exit(status: nat)

  ghost function FlowOf(r: Relay, ending: Ending): Flow {
    match ending
    case Through => On(r)
    case Continue => NextTurn(r)
    case Exit(status) => Out(r, status)
  }

  /** The tests on errno after a failed read or write. */
  function EndingOn(v: Version, errno: Errno): Ending {
    match errno
    case EAGAIN => if v.Select? then Through else Continue
    case EINTR => if v.Select? then Exit(1) else Continue
    case OTHER => Exit(1)
  }

  /** Buffers are drained alike in both versions. */
  lemma SameDrained(v: Version, q: Queue, n: nat)
    requires !v.Splice? && n <= |q.data|
    ensures Drained(v, q, n) == Drained(Poll, q, n)
    ensures Drained(v, q, n).data == [] <==> n == |q.data|
  {
  }

  class BufferRelay {
    const client: Socket
    const proxy: Socket
    const to: Buffer
    const fr: Buffer
    var clienteof: bool

    ghost predicate Valid()
      reads this, to, fr
    {
      client != proxy && to != fr && to.bytes != fr.bytes && to.Valid() && fr.Valid()
    }

    ghost function View(): Relay
      requires Valid()
      reads this, client, proxy, to, fr, to.bytes, fr.bytes
    {
      Relay(client.end, proxy.end, to.Content(), fr.Content(), clienteof)
    }

    constructor (client: Socket, proxy: Socket)
      requires client != proxy
      ensures Valid() && fresh(to) && fresh(fr) && fresh(to.bytes) && fresh(fr.bytes)
      ensures this.client == client && this.proxy == proxy
      ensures View() == Relay(client.end, proxy.end, Queue([], BUFSIZE), Queue([], BUFSIZE), false)
    {
      hide Buffer.Content;
      this.client := client;
      this.proxy := proxy;
      to := new Buffer();
      fr := new Buffer();
      clienteof := false;
    }

    /** Lines 71-91 and 367-390. */
    method ReadClient(v: Version) returns (ending: Ending)
      requires Valid() && !v.Splice?
      modifies this, client, proxy, to, to.bytes
      ensures Valid() && FlowOf(View(), ending) == Duplex.ReadClient(v, old(View()))
      ensures to.optr == old(to.optr)
    {
      hide ReadCall, Filled, Buffer.Content;
      var io := to.Fill(client);
      match io {
        case Error(errno) => return EndingOn(v, errno);
        case Moved(n) =>
          if n == 0 {
            clienteof := true;
            if to.optr == to.iptr {
              proxy.Shutdown();
            }
          }
          return Through;
      }
    }

    /** Lines 93-116 and 392-418. */
    method ReadProxy(v: Version) returns (ending: Ending)
      requires Valid() && !v.Splice?
      modifies proxy, fr, fr.bytes
      ensures Valid() && FlowOf(View(), ending) == Duplex.ReadProxy(v, old(View()))
      ensures fr.optr == old(fr.optr)
    {
      var io := fr.Fill(proxy);
      match io {
        case Error(errno) => return EndingOn(v, errno);
        case Moved(n) =>
          if n == 0 {
            return if clienteof then Exit(0) else Exit(1);
          }
          return Through;
      }
    }

    /** Lines 119-131 and 421-436. */
    method WriteClient(v: Version) returns (ending: Ending)
      requires Valid() && !v.Splice? && View().down.data != []
      modifies client, fr
      ensures Valid() && FlowOf(View(), ending) == Duplex.WriteClient(v, old(View()))
    {
      var io := fr.Flush(client);
      match io {
        case Error(errno) => return EndingOn(v, errno);
        case Moved(n) => return Through;
      }
    }

    /** Lines 135-150 and 440-458. */
    method WriteProxy(v: Version) returns (ending: Ending)
      requires Valid() && !v.Splice? && View().up.data != []
      modifies proxy, to
      ensures Valid() && FlowOf(View(), ending) == Duplex.WriteProxy(v, old(View()))
    {
      hide WriteCall, Buffer.Content, Drained;
      ghost var r := View();
      var io := to.Flush(proxy);
      match io {
        case Error(errno) => return EndingOn(v, errno);
        case Moved(n) =>
          SameDrained(v, r.up, n);
          if to.optr == to.iptr && clienteof {
            proxy.Shutdown();
          }
          return Through;
      }
    }

    /** The two writes that end a turn which started from r. */
    method Writes(v: Version, reading: Ending, clientOut: bool, proxyOut: bool, ghost r: Relay, ghost e: Event)
      returns (ending: Ending)
      requires Valid() && !v.Splice? && e.Ready? && FlowOf(View(), reading) == SecondRead(v, r, e)
      requires reading.Through? ==>
        && (clientOut && View().down.data != [] <==> ClientOutDue(v, r, View(), e))
        && (proxyOut && View().up.data != [] <==> ProxyOutDue(v, r, View(), e))
      modifies this, client, proxy, to, fr
      ensures Valid() && FlowOf(View(), ending) == SecondWrite(v, r, e)
    {
      hide Duplex.WriteClient, Duplex.WriteProxy, SecondRead;
      ending := reading;
      ghost var now := View();
      if ending.Through? && clientOut && fr.iptr - fr.optr > 0 {
        ending := WriteClient(v);
      }
      assert FlowOf(View(), ending) == FirstWrite(v, r, e);
      assert to.Content() == now.up;
      assert ending.Through? ==> (ProxyOutDue(v, r, View(), e) <==> ProxyOutDue(v, r, now, e));
      hide FirstWrite, ProxyOutDue, ClientOutDue;
      if ending.Through? && proxyOut && to.iptr - to.optr > 0 {
        ending := WriteProxy(v);
      }
    }

    // ---- the poll version (lines 318-461) ----

    /** One turn of its loop. */
    method PollTurn(e: Event) returns (verdict: Verdict)
      requires Valid()
      modifies this, client, proxy, to, fr, to.bytes, fr.bytes
      ensures Valid() && (View(), verdict) == Duplex.Turn(Poll, old(View()), e)
    {
      hide SecondWrite;
      match e {
        case PollError(errno) => return if errno.OTHER? then Return(1) else Go;
        case TimedOut => return Return(6);
        case Ready(_, _, _, _) =>
          var ending := PollReady(e);
          return if ending.Exit? then Return(ending.status) else Go;
      }
    }

    /** The rest of the turn, once poll has returned what is ready of what was asked. */
    method PollReady(e: Event) returns (ending: Ending)
      requires Valid() && e.Ready?
      modifies this, client, proxy, to, fr, to.bytes, fr.bytes
      ensures Valid() && FlowOf(View(), ending) == SecondWrite(Poll, old(View()), e)
    {
      hide Duplex.ReadClient, Duplex.ReadProxy, SecondWrite;
      ghost var r := View();
      var clientIn := !clienteof && to.iptr < BUFSIZE && e.clientIn;
      var proxyIn := fr.iptr < BUFSIZE && e.proxyIn;
      var proxyOut := to.optr != to.iptr && e.proxyOut;
      var clientOut := fr.optr != fr.iptr && e.clientOut;
      ending := Through;
      if clientIn {
        ending := ReadClient(Poll);
      }
      assert FlowOf(View(), ending) == FirstRead(Poll, r, e);
      hide FirstRead;
      if ending.Through? && proxyIn {
        ending := ReadProxy(Poll);
      }
      assert FlowOf(View(), ending) == SecondRead(Poll, r, e);
      hide SecondRead;
      ending := Writes(Poll, ending, clientOut, proxyOut, r, e);
    }

    /** The whole loop, over the calls to poll seen so far. */
    method PollNegotiate(events: seq<Event>) returns (verdict: Verdict)
      requires Valid()
      modifies this, client, proxy, to, fr, to.bytes, fr.bytes
      ensures Valid() && (View(), verdict) == Duplex.Run(Poll, old(View()), events)
    {
      verdict := Go;
      var i := 0;
      while i < |events| && verdict.Go?
        invariant i <= |events| && Valid()
        invariant verdict.Go? ==> Duplex.Run(Poll, View(), events[i..]) == Duplex.Run(Poll, old(View()), events)
        invariant verdict.Return? ==> (View(), verdict) == Duplex.Run(Poll, old(View()), events)
      {
        assert events[i..][1..] == events[i + 1..];
        verdict := PollTurn(events[i]);
        i := i + 1;
      }
    }

    // ---- the select version (lines 34-153) ----

    /** One turn of its loop: a successful read also sets the bit to write on. */
    method SelectTurn(e: Event) returns (verdict: Verdict)
      requires Valid()
      modifies this, client, proxy, to, fr, to.bytes, fr.bytes
      ensures Valid() && (View(), verdict) == Duplex.Turn(Select, old(View()), e)
    {
      hide SecondWrite;
      match e {
        case PollError(_) => return Return(1);
        case TimedOut => return Go;
        case Ready(_, _, _, _) =>
          var ending := SelectReady(e);
          return if ending.Exit? then Return(ending.status) else Go;
      }
    }

    /** The rest of the turn, once select has returned what is ready of what was asked. */
    method SelectReady(e: Event) returns (ending: Ending)
      requires Valid() && e.Ready?
      modifies this, client, proxy, to, fr, to.bytes, fr.bytes
      ensures Valid() && FlowOf(View(), ending) == SecondWrite(Select, old(View()), e)
    {
      hide Duplex.ReadClient, Duplex.ReadProxy, SecondWrite;
      ghost var r := View();
      var clientIn := !clienteof && to.iptr < BUFSIZE && e.clientIn;
      var proxyIn := fr.iptr < BUFSIZE && e.proxyIn;
      var proxyOut := to.optr != to.iptr && e.proxyOut;
      var clientOut := fr.optr != fr.iptr && e.clientOut;
      ending := Through;
      if clientIn {
        var iptr := to.iptr;
        ending := ReadClient(Select);
        proxyOut := proxyOut || to.iptr > iptr;
      }
      assert FlowOf(View(), ending) == FirstRead(Select, r, e);
      hide FirstRead;
      if ending.Through? && proxyIn {
        var iptr := fr.iptr;
        ending := ReadProxy(Select);
        clientOut := clientOut || fr.iptr > iptr;
      }
      assert FlowOf(View(), ending) == SecondRead(Select, r, e);
      hide SecondRead;
      ending := Writes(Select, ending, clientOut, proxyOut, r, e);
    }

    /** The whole loop, over the calls to select seen so far. */
    method SelectNegotiate(events: seq<Event>) returns (verdict: Verdict)
      requires Valid()
      modifies this, client, proxy, to, fr, to.bytes, fr.bytes
      ensures Valid() && (View(), verdict) == Duplex.Run(Select, old(View()), events)
    {
      verdict := Go;
      var i := 0;
      while i < |events| && verdict.Go?
        invariant i <= |events| && Valid()
        invariant verdict.Go? ==> Duplex.Run(Select, View(), events[i..]) == Duplex.Run(Select, old(View()), events)
        invariant verdict.Return? ==> (View(), verdict) == Duplex.Run(Select, old(View()), events)
      {
        assert events[i..][1..] == events[i + 1..];
        verdict := SelectTurn(events[i]);
        i := i + 1;
      }
    }
  }
}
