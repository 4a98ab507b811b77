/** One end of a connection, and what read, write and shutdown do to it. What
    each call runs into (a short count, EAGAIN, EINTR, an error) is decided by a
    script, so a statement for every script holds for every behaviour. */
module Wire {
  import opened Bytes

  /** The fate of one system call. In blocking mode Again is a timeout. */
  datatype Fate = Take(n: nat) | Again | Interrupted | Failed

  /** `incoming` is all the peer will have sent before it closes. `late` counts
      bytes written after a FIN. Calls past the end of a script move all they can. */
  datatype End = End(incoming: Data, sent: Data, fins: nat, late: nat, rfates: seq<Fate>, wfates: seq<Fate>)

  datatype Errno = EAGAIN | EINTR | OTHER

  datatype Io = Moved(n: nat) | Error(errno: Errno)

  function ErrnoOf(f: Fate): Errno
    requires !f.Take?
  {
    match f case Again => EAGAIN case Interrupted => EINTR case Failed => OTHER
  }

  function Rest<T>(s: seq<T>): seq<T> { if s == [] then [] else s[1..] }

  /** How many bytes a read of `want` bytes returns when it does not fail: at
      least one, unless none is wanted or the peer has closed. */
  function Gets(w: End, want: nat): (n: nat)
    ensures n <= want && n <= |w.incoming|
    ensures n == 0 <==> want == 0 || w.incoming == []
  {
    var most := Min(want, |w.incoming|);
    if w.rfates == [] || !w.rfates[0].Take? then most else Min(most, Max(1, w.rfates[0].n))
  }

  function ReadCall(w: End, want: nat): (End, Io) {
    var w' := w.(rfates := Rest(w.rfates));
    if w.rfates != [] && !w.rfates[0].Take? then (w', Error(ErrnoOf(w.rfates[0])))
    else
      var n := Gets(w, want);
      (w'.(incoming := w.incoming[n..]), Moved(n))
  }

  function Puts(w: End, want: nat): (n: nat)
    ensures n <= want
  {
    if w.wfates == [] || !w.wfates[0].Take? then want else Min(want, w.wfates[0].n)
  }

  function WriteCall(w: End, data: Data): (End, Io) {
    var w' := w.(wfates := Rest(w.wfates));
    if w.wfates != [] && !w.wfates[0].Take? then (w', Error(ErrnoOf(w.wfates[0])))
    else
      var n := Puts(w, |data|);
      (w'.(sent := w.sent + data[..n], late := w.late + if w.fins > 0 then n else 0), Moved(n))
  }

  function ShutdownCall(w: End): End { w.(fins := w.fins + 1) }

  /** A buffer with `piece` written over it at `at`. */
  function Overwrite(b: Data, at: nat, piece: Data): Data
    requires at + |piece| <= |b|
  {
    b[..at] + piece + b[at + |piece|..]
  }

  /** What a call leaves in the buffer of a read. */
  function Piece(w: End, io: Io): Data
    requires io.Moved? ==> io.n <= |w.incoming|
  {
    if io.Moved? then w.incoming[..io.n] else []
  }

  /** A socket descriptor. */
  class Socket {
    var end: End

    constructor (end: End)
      ensures this.end == end
    {
      this.end := end;
    }

    /** read(fd, buf + at, want). */
    method ReadInto(buf: array<Byte>, at: nat, want: nat) returns (io: Io)
      requires at + want <= buf.Length
      modifies this, buf
      ensures (end, io) == ReadCall(old(end), want)
      ensures io.Moved? ==> io.n <= want && io.n <= |old(end.incoming)|
      ensures buf[..] == Overwrite(old(buf[..]), at, Piece(old(end), io))
    {
      var (w, result) := ReadCall(end, want);
      io := result;
      if io.Moved? {
        forall i | 0 <= i < io.n {
          buf[at + i] := end.incoming[i];
        }
      }
      end := w;
    }

    /** write(fd, buf + at, want). */
    method WriteFrom(buf: array<Byte>, at: nat, want: nat) returns (io: Io)
      requires at + want <= buf.Length
      modifies this
      ensures (end, io) == WriteCall(old(end), buf[at..at + want])
    {
      var (w, result) := WriteCall(end, buf[at..at + want]);
      end, io := w, result;
    }

    method Shutdown()
      modifies this
      ensures end == ShutdownCall(old(end))
    {
      end := ShutdownCall(end);
    }
  }
}
