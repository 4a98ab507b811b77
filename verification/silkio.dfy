/** The loops of silkio.c that read and write exactly n bytes, and what they do
    however the bytes are fragmented. */
module SilkIo {
  import opened Bytes
  import opened Wire

  // ---- what the loops compute ----

  /** The result of readn_timeo: `got` is in the buffer, whether or not it fails. */
  datatype ReadN = ReadN(w: End, ok: bool, got: Data)

  function Reading(w: End, n: nat): ReadN
    decreases |w.rfates| + n
  {
    if n == 0 then ReadN(w, true, [])
    else
      match ReadCall(w, n)
      case (w', Error(errno)) => if errno.EINTR? then Reading(w', n) else ReadN(w', false, [])
      case (w', Moved(k)) =>
        if k == 0 then ReadN(w', true, [])
        else
          var r := Reading(w', n - k);
          r.(got := w.incoming[..k] + r.got)
  }

  datatype WriteN = WriteN(w: End, ok: bool)

  function Writing(w: End, data: Data): WriteN
    decreases |w.wfates| + |data|
  {
    if data == [] then WriteN(w, true)
    else
      match WriteCall(w, data)
      case (w', Error(errno)) => if errno.EINTR? then Writing(w', data) else WriteN(w', false)
      case (w', Moved(k)) => if k == 0 then WriteN(w', false) else Writing(w', data[k..])
  }

  /** No timeout and no error is in store; interrupts and short counts may be. */
  ghost predicate SteadyReads(fates: seq<Fate>) {
    forall i | 0 <= i < |fates| :: fates[i].Take? || fates[i].Interrupted?
  }

  ghost predicate SteadyWrites(fates: seq<Fate>) {
    forall i | 0 <= i < |fates| :: (fates[i].Take? && fates[i].n > 0) || fates[i].Interrupted?
  }

  ghost predicate Steady(w: End) { SteadyReads(w.rfates) && SteadyWrites(w.wfates) }

  // ---- fragmentation does not show ----

  /** What one read can do. */
  lemma ReadCallShape(w: End, n: nat)
    requires n > 0
    ensures var (w', io) := ReadCall(w, n);
      && |w'.rfates| <= |w.rfates|
      && w' == w.(incoming := w'.incoming, rfates := w'.rfates)
      && (SteadyReads(w.rfates) ==> SteadyReads(w'.rfates))
      && match io
         case Error(errno) =>
           |w'.rfates| < |w.rfates| && w'.incoming == w.incoming && (SteadyReads(w.rfates) ==> errno.EINTR?)
         case Moved(k) =>
           && k <= n && k <= |w.incoming| && w.incoming == w.incoming[..k] + w'.incoming
           && |w'.incoming| == |w.incoming| - k && (k == 0 ==> w.incoming == [])
  {
  }

  /** What readn_timeo consumes it delivers, and unless something fails that is
      the first n bytes, or all there are; nothing else changes. */
  lemma {:induction false} ReadingExact(w: End, n: nat)
    ensures var r := Reading(w, n);
      && w.incoming == r.got + r.w.incoming && |r.got| <= n
      && (r.ok ==> |r.got| == Min(n, |w.incoming|))
      && r.w == w.(incoming := r.w.incoming, rfates := r.w.rfates)
      && (SteadyReads(w.rfates) ==> r.ok && SteadyReads(r.w.rfates))
    decreases |w.rfates| + n
  {
    hide ReadCall, SteadyReads;
    if n > 0 {
      ReadCallShape(w, n);
      var (w', io) := ReadCall(w, n);
      match io
      case Error(errno) => if errno.EINTR? { ReadingExact(w', n); }
      case Moved(k) =>
        if k > 0 {
          ReadingExact(w', n - k);
          Prepend(w.incoming[..k], Reading(w', n - k).got, Reading(w', n - k).w.incoming);
        }
    }
  }

  lemma Prepend(a: Data, b: Data, c: Data)
    ensures a + (b + c) == (a + b) + c
  {
  }

  /** writen_timeo emits a prefix of its buffer, and all of it unless something fails. */
  lemma {:induction false} WritingExact(w: End, data: Data)
    ensures var r := Writing(w, data);
      && w.sent <= r.w.sent <= w.sent + data
      && (r.ok ==> r.w.sent == w.sent + data)
      && r.w == w.(sent := r.w.sent, wfates := r.w.wfates, late := r.w.late)
      && (w.fins == 0 ==> r.w.late == w.late)
      && (SteadyWrites(w.wfates) ==> r.ok && SteadyWrites(r.w.wfates))
    decreases |w.wfates| + |data|
  {
    if data != [] {
      var (w', io) := WriteCall(w, data);
      match io
      case Error(errno) => if errno.EINTR? { WritingExact(w', data); }
      case Moved(k) =>
        if k > 0 {
          WritingExact(w', data[k..]);
          assert w.sent + data == (w.sent + data[..k]) + data[k..];
        }
    }
  }

  /** Two connections that carry the same bytes, however each fragments them,
      look the same to a reader. */
  lemma FragmentationIndependence(w: End, v: End, n: nat)
    requires w.incoming == v.incoming && SteadyReads(w.rfates) && SteadyReads(v.rfates)
    ensures var r, q := Reading(w, n), Reading(v, n);
      r.ok && q.ok && r.got == q.got && r.w.incoming == q.w.incoming
  {
    ReadingExact(w, n);
    ReadingExact(v, n);
    var r, q := Reading(w, n), Reading(v, n);
    assert r.got == w.incoming[..|r.got|] && q.got == w.incoming[..|q.got|];
    assert r.w.incoming == w.incoming[|r.got|..] && q.w.incoming == w.incoming[|q.got|..];
  }

  // ---- the loops ----

  /** The whole read, when `got` is in the buffer and the rest is still to be read. */
  ghost predicate Remains(whole: ReadN, w: End, n: nat, got: Data) {
    var r := Reading(w, n);
    whole.w == r.w && whole.ok == r.ok && whole.got == got + r.got
  }

  /** One turn of the loop in readn_timeo. */
  lemma ReadingTurn(whole: ReadN, w: End, n: nat, got: Data)
    requires n > 0 && Remains(whole, w, n, got)
    ensures var (w', io) := ReadCall(w, n);
      && |w'.rfates| <= |w.rfates|
      && match io
         case Error(errno) =>
           && |w'.rfates| < |w.rfates|
           && if errno.EINTR? then Remains(whole, w', n, got) else whole == ReadN(w', false, got)
         case Moved(k) =>
           && k <= n && k <= |w.incoming|
           && if k == 0 then whole == ReadN(w', true, got)
              else Remains(whole, w', n - k, got + w.incoming[..k])
  {
    var (w', io) := ReadCall(w, n);
    assert got + [] == got;
    if io.Moved? && io.n > 0 {
      assert got + (w.incoming[..io.n] + Reading(w', n - io.n).got)
          == (got + w.incoming[..io.n]) + Reading(w', n - io.n).got;
    }
  }

  lemma ReadingEnds(whole: ReadN, w: End, got: Data)
    requires Remains(whole, w, 0, got)
    ensures whole == ReadN(w, true, got)
  {
    assert got + [] == got;
  }

  lemma ReadingStarts(w: End, n: nat)
    ensures Remains(Reading(w, n), w, n, []) && |Reading(w, n).got| <= n
  {
    ReadingExact(w, n);
    assert [] + Reading(w, n).got == Reading(w, n).got;
  }

  /** A buffer in which `got` has replaced as many bytes at the start. */
  ghost predicate Laden(b: Data, got: Data, start: Data) {
    |got| <= |start| && b == got + start[|got|..]
  }

  /** What the next read leaves in it. */
  lemma LadenMore(b: Data, got: Data, start: Data, w: End, io: Io)
    requires Laden(b, got, start)
    requires io.Moved? ==> io.n <= |w.incoming| && |got| + io.n <= |start|
    ensures |got| + |Piece(w, io)| <= |b|
    ensures var b' := Overwrite(b, |got|, Piece(w, io));
      if io.Moved? then Laden(b', got + w.incoming[..io.n], start) else Laden(b', got, start)
  {
  }

  lemma LadenEnds(b: Data, got: Data, start: Data)
    ensures Laden(b, got, start) <==> |got| <= |start| && b == got + start[|got|..]
    ensures Laden(start, [], start)
  {
  }

  /** readn_timeo: the count of bytes read, or -1. Termination needs the script
      of interrupts to be finite, and nothing else. */
  method ReadNTimeo(fd: Socket, buf: array<Byte>, n: nat) returns (count: int)
    requires n <= buf.Length
    modifies fd, buf
    ensures var r := Reading(old(fd.end), n);
      && fd.end == r.w && |r.got| <= n
      && count == (if r.ok then |r.got| else -1)
      && buf[..] == r.got + old(buf[..])[|r.got|..]
  {
    hide Reading, ReadCall, Overwrite, Remains, Laden, Piece;
    var nleft, ptr := n, 0;
    ghost var start := buf[..];
    ghost var whole := Reading(fd.end, n);
    ghost var got: Data := [];
    ReadingStarts(fd.end, n);
    LadenEnds(start, whole.got, start);
    while nleft > 0
      invariant ptr + nleft == n && |got| == ptr
      invariant Remains(whole, fd.end, nleft, got)
      invariant Laden(buf[..], got, start)
      decreases |fd.end.rfates| + nleft
    {
      ghost var before, b := fd.end, buf[..];
      ReadingTurn(whole, before, nleft, got);
      var nread := fd.ReadInto(buf, ptr, nleft);
      LadenMore(b, got, start, before, nread);
      match nread {
        case Error(errno) =>
          if !errno.EINTR? {
            LadenEnds(buf[..], got, start);
            return -1;
          }
        case Moved(k) =>
          if k == 0 {
            assert got + before.incoming[..0] == got;
            break;
          }
          got := got + before.incoming[..k];
          nleft := nleft - k;
          ptr := ptr + k;
      }
    }
    if nleft == 0 {
      ReadingEnds(whole, fd.end, got);
    }
    LadenEnds(buf[..], got, start);
    return n - nleft;
  }

  /** writen_timeo: n, or -1. */
  method WriteNTimeo(fd: Socket, buf: array<Byte>, n: nat) returns (count: int)
    requires n <= buf.Length
    modifies fd
    ensures var r := Writing(old(fd.end), buf[..n]);
      fd.end == r.w && count == if r.ok then n else -1
  {
    var nleft, ptr := n, 0;
    ghost var whole := Writing(fd.end, buf[..n]);
    while nleft > 0
      invariant ptr + nleft == n
      invariant Writing(fd.end, buf[ptr..n]) == whole
      decreases |fd.end.wfates| + nleft
    {
      var nwritten := fd.WriteFrom(buf, ptr, nleft);
      assert buf[ptr..ptr + nleft] == buf[ptr..n];
      match nwritten {
        case Error(errno) =>
          if !errno.EINTR? {
            return -1;
          }
        case Moved(k) =>
          if k == 0 {
            return -1;
          }
          assert buf[ptr..n][k..] == buf[ptr + k..n];
          nleft := nleft - k;
          ptr := ptr + k;
      }
    }
    return n;
  }
}
