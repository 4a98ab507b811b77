/** That the relay moves bytes: what one turn moves, how soon everything has gone,
    and when the splice version does not move at all. */
module DuplexProgress {
  import opened Bytes
  import opened Wire
  import opened Duplex

  // ---- what one turn moves ----

  /** The next call does not fail; the next write takes something. */
  predicate NoFault(fates: seq<Fate>) { fates == [] || fates[0].Take? }

  predicate Takes(fates: seq<Fate>) { fates == [] || (fates[0].Take? && fates[0].n > 0) }

  /** Bytes are asked for: a buffer with room, a pipe counted as holding less than BUFSIZE. */
  predicate Asks(v: Version, q: Queue) { if v.Splice? then |q.data| < BUFSIZE else q.room > 0 }

  /** If the turn reads the client, that read does not fail. */
  predicate ClientReadSound(v: Version, r: Relay, e: Event)
    requires e.Ready?
  {
    e.clientIn && !r.clienteof && Asks(v, r.up) ==> NoFault(r.client.rfates) && r.up.room > 0
  }

  /** If the turn reads the upstream, that read does not fail, nor end the relay. */
  predicate ProxyReadSound(v: Version, r: Relay, e: Event)
    requires e.Ready?
  {
    e.proxyIn && Asks(v, r.down) ==> NoFault(r.proxy.rfates) && r.down.room > 0 && r.proxy.incoming != []
  }

  /** A readable client with bytes to come, and room for them: some are read. */
  lemma ClientRead(v: Version, r: Relay, e: Event) returns (k: nat)
    requires e.Ready? && e.clientIn && !r.clienteof && Asks(v, r.up) && r.up.room > 0
    requires NoFault(r.client.rfates) && r.client.incoming != []
    ensures 0 < k <= |r.client.incoming| && Turn(v, r, e).0.client.incoming == r.client.incoming[k..]
  {
    hide ReadProxy, WriteClient, WriteProxy, Emit;
    k := Fetch(v, r.client, r.up).1.n;
    ReadProxyKeeps(v, FirstRead(v, r, e).r);
    WriteClientKeeps(v, SecondRead(v, r, e).r);
    WriteProxyKeeps(v, FirstWrite(v, r, e).r);
  }

  /** A readable upstream with bytes to come, and room for them: some are read. */
  lemma ProxyRead(v: Version, r: Relay, e: Event) returns (k: nat)
    requires e.Ready? && ClientReadSound(v, r, e)
    requires e.proxyIn && Asks(v, r.down) && r.down.room > 0
    requires NoFault(r.proxy.rfates) && r.proxy.incoming != []
    ensures 0 < k <= |r.proxy.incoming| && Turn(v, r, e).0.proxy.incoming == r.proxy.incoming[k..]
  {
    hide ReadClient, WriteClient, WriteProxy, Emit;
    var n := AfterFirstRead(v, r, e);
    k := Fetch(v, FirstRead(v, r, e).r.proxy, r.down).1.n;
    WriteClientKeeps(v, SecondRead(v, r, e).r);
    WriteProxyKeeps(v, FirstWrite(v, r, e).r);
  }

  /** After a sound read of the client the turn goes on, with as many bytes more upstream. */
  lemma AfterFirstRead(v: Version, r: Relay, e: Event) returns (k: nat)
    requires e.Ready? && ClientReadSound(v, r, e)
    ensures var f := FirstRead(v, r, e);
      && f.On? && k <= |r.client.incoming|
      && f.r.up.data == r.up.data + r.client.incoming[..k]
      && f.r.client == r.client.(incoming := r.client.incoming[k..], rfates := f.r.client.rfates)
      && f.r.proxy == r.proxy.(fins := f.r.proxy.fins) && f.r.down == r.down
      && (k > 0 <==> e.clientIn && !r.clienteof && Asks(v, r.up) && r.client.incoming != [])
  {
    var f := FirstRead(v, r, e);
    k := |r.client.incoming| - |f.r.client.incoming|;
    if e.clientIn && WantsClientIn(v, r) {
      assert r.up.data + [] == r.up.data;
    }
  }

  /** The same after sound reads of both. */
  lemma AfterReads(v: Version, r: Relay, e: Event) returns (k: nat, m: nat)
    requires e.Ready? && ClientReadSound(v, r, e) && ProxyReadSound(v, r, e)
    ensures var f := SecondRead(v, r, e);
      && f.On? && k <= |r.client.incoming| && m <= |r.proxy.incoming|
      && f.r.up.data == r.up.data + r.client.incoming[..k]
      && f.r.down.data == r.down.data + r.proxy.incoming[..m]
      && f.r.client == r.client.(incoming := r.client.incoming[k..], rfates := f.r.client.rfates)
      && f.r.proxy.incoming == r.proxy.incoming[m..]
      && f.r.proxy.sent == r.proxy.sent && f.r.proxy.wfates == r.proxy.wfates
      && (k > 0 <==> e.clientIn && !r.clienteof && Asks(v, r.up) && r.client.incoming != [])
      && (m > 0 <==> e.proxyIn && Asks(v, r.down))
  {
    hide FirstRead;
    k := AfterFirstRead(v, r, e);
    var f1 := FirstRead(v, r, e);
    var f := SecondRead(v, r, e);
    m := |r.proxy.incoming| - |f.r.proxy.incoming|;
    if e.proxyIn && WantsProxyIn(v, r) {
      assert r.down.data + [] == r.down.data;
    }
  }

  /** How many of `want` bytes a write moves that is not refused. */
  function Granted(fates: seq<Fate>, want: nat): nat {
    if fates == [] || !fates[0].Take? then want else Min(fates[0].n, want)
  }

  /** The turn may write the client: it is writable and bytes were pending, or in
      the select version some have just been read. */
  predicate MayWriteClient(v: Version, r: Relay, e: Event)
    requires e.Ready?
  {
    || (e.clientOut && r.down.data != [])
    || (v.Select? && e.proxyIn && r.down.room > 0 && r.proxy.incoming != [])
  }

  predicate MayWriteProxy(v: Version, r: Relay, e: Event)
    requires e.Ready?
  {
    || (e.proxyOut && r.up.data != [])
    || (v.Select? && e.clientIn && !r.clienteof && r.up.room > 0 && r.client.incoming != [])
  }

  /** Such a client, after sound reads, is sent a non-empty prefix of what is pending
      and then to come, as much of what was pending as it takes. */
  lemma ClientWritten(v: Version, r: Relay, e: Event) returns (k: nat)
    requires e.Ready? && ClientReadSound(v, r, e) && ProxyReadSound(v, r, e)
    requires MayWriteClient(v, r, e) && Takes(r.client.wfates)
    ensures var stream := r.down.data + r.proxy.incoming;
      && 0 < k <= |stream| && k >= Granted(r.client.wfates, Min(BUFSIZE, |r.down.data|))
      && Turn(v, r, e).0.client.sent == r.client.sent + stream[..k]
      && Turn(v, r, e).0.down.data + Turn(v, r, e).0.proxy.incoming == stream[k..]
  {
    hide SecondRead, WriteClient, WriteProxy;
    var n, m := AfterReads(v, r, e);
    var f2 := SecondRead(v, r, e);
    assert ClientOutDue(v, r, f2.r, e);
    k := SentToClient(v, f2.r);
    WriteProxyKeeps(v, FirstWrite(v, r, e).r);
    var stream := r.down.data + r.proxy.incoming;
    assert f2.r.down.data + f2.r.proxy.incoming == stream;
    assert f2.r.down.data[..k] == stream[..k];
    assert f2.r.down.data[k..] + f2.r.proxy.incoming == stream[k..];
  }

  lemma SentToClient(v: Version, r: Relay) returns (k: nat)
    requires r.down.data != [] && Takes(r.client.wfates)
    ensures var f := WriteClient(v, r);
      && f.On? && 0 < k <= |r.down.data| && f.r.client.sent == r.client.sent + r.down.data[..k]
      && f.r.down.data == r.down.data[k..] && f.r.proxy == r.proxy
      && k >= Granted(r.client.wfates, Min(BUFSIZE, |r.down.data|))
  {
    k := Emit(v, r.client, r.down).1.n;
  }

  /** A writable upstream with bytes pending for it, when nothing earlier in the
      turn fails. */
  lemma ProxyWritten(v: Version, r: Relay, e: Event) returns (k: nat)
    requires e.Ready? && ClientReadSound(v, r, e) && ProxyReadSound(v, r, e)
    requires MayWriteClient(v, r, e) ==> NoFault(r.client.wfates)
    requires MayWriteProxy(v, r, e) && Takes(r.proxy.wfates)
    ensures var stream := r.up.data + r.client.incoming;
      && 0 < k <= |stream| && k >= Granted(r.proxy.wfates, Min(BUFSIZE, |r.up.data|))
      && Turn(v, r, e).0.proxy.sent == r.proxy.sent + stream[..k]
      && Turn(v, r, e).0.up.data + Turn(v, r, e).0.client.incoming == stream[k..]
  {
    hide SecondRead, WriteClient, WriteProxy;
    var n, m := AfterReads(v, r, e);
    var f2 := SecondRead(v, r, e);
    ClientWriteSound(v, f2.r);
    var f3 := FirstWrite(v, r, e);
    k := SentToProxy(v, f3.r);
    var stream := r.up.data + r.client.incoming;
    assert f3.r.up.data + f3.r.client.incoming == stream;
    assert f3.r.up.data[..k] == stream[..k];
    assert f3.r.up.data[k..] + f3.r.client.incoming == stream[k..];
  }

  lemma ClientWriteSound(v: Version, r: Relay)
    ensures NoFault(r.client.wfates) ==> WriteClient(v, r).On?
    ensures var f := WriteClient(v, r);
      f.r.proxy == r.proxy && f.r.up == r.up && f.r.client.incoming == r.client.incoming
  {
  }

  lemma SentToProxy(v: Version, r: Relay) returns (k: nat)
    requires r.up.data != [] && Takes(r.proxy.wfates)
    ensures var f := WriteProxy(v, r);
      && f.On? && 0 < k <= |r.up.data| && f.r.proxy.sent == r.proxy.sent + r.up.data[..k]
      && f.r.up.data == r.up.data[k..] && f.r.client == r.client
      && k >= Granted(r.proxy.wfates, Min(BUFSIZE, |r.up.data|))
  {
    k := Emit(v, r.proxy, r.up).1.n;
  }

  /** Nothing is written or read but where the turn may. */
  lemma NothingElse(v: Version, r: Relay, e: Event)
    requires e.Ready?
    ensures var r' := Turn(v, r, e).0;
      && (!MayWriteClient(v, r, e) ==> r'.client.sent == r.client.sent)
      && (!MayWriteProxy(v, r, e) ==> r'.proxy.sent == r.proxy.sent)
      && (!(e.clientIn && !r.clienteof && Asks(v, r.up)) ==> r'.client.incoming == r.client.incoming)
      && (!(e.proxyIn && Asks(v, r.down)) ==> r'.proxy.incoming == r.proxy.incoming)
  {
    hide ReadClient, ReadProxy, WriteClient, WriteProxy;
    ReadClientKeeps(v, r);
    var f1 := FirstRead(v, r, e);
    ReadProxyKeeps(v, f1.r);
    var f2 := SecondRead(v, r, e);
    WriteClientKeeps(v, f2.r);
    var f3 := FirstWrite(v, r, e);
    WriteProxyKeeps(v, f3.r);
  }

  lemma ReadClientKeeps(v: Version, r: Relay)
    ensures var f := ReadClient(v, r);
      && f.r.down == r.down && f.r.client.sent == r.client.sent && f.r.proxy == r.proxy.(fins := f.r.proxy.fins)
      && (|f.r.up.data| > |r.up.data| ==> r.client.incoming != [] && r.up.room > 0)
  {
  }

  lemma ReadProxyKeeps(v: Version, r: Relay)
    ensures var f := ReadProxy(v, r);
      && f.r.up == r.up && f.r.client == r.client && f.r.proxy.sent == r.proxy.sent
      && (|f.r.down.data| > |r.down.data| ==> r.proxy.incoming != [] && r.down.room > 0)
  {
  }

  lemma WriteClientKeeps(v: Version, r: Relay)
    ensures var f := WriteClient(v, r);
      f.r.up == r.up && f.r.proxy == r.proxy && f.r.client.incoming == r.client.incoming
  {
  }

  lemma WriteProxyKeeps(v: Version, r: Relay)
    ensures var f := WriteProxy(v, r);
      f.r.down == r.down && f.r.client == r.client && f.r.proxy.incoming == r.proxy.incoming
  {
  }

  // ---- what a fault does to a turn ----

  /** What becomes of a turn whose next call fails, when that call is spent: an error
      ends the relay with status 1, and so does EINTR in the select version; EAGAIN
      there leaves the rest of the turn, which goes as if the descriptor had not been
      ready; any other fault starts the next turn. */
  function AfterFault(v: Version, fate: Fate, spent: Relay, unready: Event): (Relay, Verdict) {
    match fate
    case Failed => (spent, Return(1))
    case Interrupted => (spent, if v.Select? then Return(1) else Go)
    case Again => if v.Select? then Turn(v, spent, unready) else (spent, Go)
    case Take(_) => (spent, Go)
  }

  lemma ClientReadFault(v: Version, r: Relay, e: Event)
    requires e.Ready? && e.clientIn && !r.clienteof && Asks(v, r.up) && r.up.room > 0 && !NoFault(r.client.rfates)
    ensures Turn(v, r, e) ==
      AfterFault(v, r.client.rfates[0], r.(client := r.client.(rfates := r.client.rfates[1..])), e.(clientIn := false))
  {
    hide ReadProxy, WriteClient, WriteProxy;
  }

  lemma ProxyReadFault(v: Version, r: Relay, e: Event)
    requires e.Ready? && !e.clientIn && e.proxyIn && Asks(v, r.down) && r.down.room > 0 && !NoFault(r.proxy.rfates)
    ensures Turn(v, r, e) ==
      AfterFault(v, r.proxy.rfates[0], r.(proxy := r.proxy.(rfates := r.proxy.rfates[1..])), e.(proxyIn := false))
  {
    hide ReadClient, WriteClient, WriteProxy;
  }

  lemma ClientWriteFault(v: Version, r: Relay, e: Event)
    requires e.Ready? && !e.clientIn && !e.proxyIn && e.clientOut && r.down.data != [] && !NoFault(r.client.wfates)
    ensures Turn(v, r, e) ==
      AfterFault(v, r.client.wfates[0], r.(client := r.client.(wfates := r.client.wfates[1..])), e.(clientOut := false))
  {
    hide ReadClient, ReadProxy, WriteProxy;
  }

  lemma ProxyWriteFault(v: Version, r: Relay, e: Event)
    requires e.Ready? && !e.clientIn && !e.proxyIn && !e.clientOut && e.proxyOut && r.up.data != []
    requires !NoFault(r.proxy.wfates)
    ensures Turn(v, r, e) ==
      AfterFault(v, r.proxy.wfates[0], r.(proxy := r.proxy.(wfates := r.proxy.wfates[1..])), e.(proxyOut := false))
  {
    hide ReadClient, ReadProxy, WriteClient;
  }

  /** When waiting fails or times out nothing is touched; the select version, which
      has no timeout to return, gives up on EINTR and EAGAIN where the others go on. */
  lemma WaitFault(v: Version, r: Relay, e: Event)
    requires !e.Ready?
    ensures Turn(v, r, e).0 == r
    ensures v.Select? ==> (Turn(v, r, e).1 == Return(1) <==> e.PollError?) && (Turn(v, r, e).1.Go? <==> e.TimedOut?)
    ensures !v.Select? ==>
      && (Turn(v, r, e).1 == Return(6) <==> e.TimedOut?)
      && (Turn(v, r, e).1 == Return(1) <==> e == PollError(OTHER))
      && (Turn(v, r, e).1.Go? <==> e in {PollError(EAGAIN), PollError(EINTR)})
  {
  }
}
