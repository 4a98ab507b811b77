/** Exactly when the loops of silkio.c fail, told from the script of faults alone. */
module SilkIoFaults {
  import opened Bytes
  import opened Wire
  import opened SilkIo

  function Offer(f: Fate): nat { if f.Take? then Max(1, f.n) else 0 }

  /** How many bytes the fates offer to a reader: at least one each, but for interrupts. */
  function Offered(fates: seq<Fate>): nat {
    if fates == [] then 0 else Offer(fates[0]) + Offered(fates[1..])
  }

  /** How many of those there are to read. */
  function Had(w: End, i: nat): nat
    requires i <= |w.rfates|
  {
    Min(Offered(w.rfates[..i]), |w.incoming|)
  }

  /** A timeout or an error comes at i, after short counts and interrupts only,
      before n bytes have been read and before a read has come to the end of file. */
  ghost predicate ReadFaultAt(w: End, n: nat, i: nat) {
    && i < |w.rfates| && (w.rfates[i].Again? || w.rfates[i].Failed?)
    && (forall j: nat | j < i :: GoesOn(w, j))
    && Had(w, i) < n
  }

  ghost predicate GoesOn(w: End, j: nat) {
    j < |w.rfates| && (w.rfates[j].Interrupted? || (w.rfates[j].Take? && Had(w, j) < |w.incoming|))
  }

  lemma HadNone(w: End)
    ensures Had(w, 0) == 0
  {
  }

  lemma HadBound(w: End, i: nat)
    requires i <= |w.rfates|
    ensures Had(w, i) <= |w.incoming|
  {
  }

  lemma OfferedFrom(fates: seq<Fate>, j: nat)
    requires 0 < j <= |fates|
    ensures Offered(fates[..j]) == Offer(fates[0]) + Offered(fates[1..][..j - 1])
  {
    assert fates[..j][1..] == fates[1..][..j - 1];
  }

  /** What one read leaves of the fates, and of the bytes. */
  lemma AfterRead(w: End, n: nat, j: nat)
    requires n > 0 && 0 < j <= |w.rfates| && (w.rfates[0].Interrupted? || (w.rfates[0].Take? && w.incoming != []))
    ensures var (w', io) := ReadCall(w, n);
      && |w'.rfates| == |w.rfates| - 1 && (forall i | 0 < i < |w.rfates| :: w.rfates[i] == w'.rfates[i - 1])
      && match io
         case Error(errno) => w.rfates[0].Interrupted? && errno.EINTR? && w'.incoming == w.incoming && Had(w, j) == Had(w', j - 1)
         case Moved(k) =>
           && w.rfates[0].Take? && 0 < k <= n && k <= |w.incoming| && w'.incoming == w.incoming[k..]
           && (k < n ==> Had(w, j) == k + Had(w', j - 1)) && (k == n ==> Had(w, j) >= n)
  {
    OfferedFrom(w.rfates, j);
  }

  /** Spending the first fate moves a fault one nearer. */
  lemma FaultNearer(w: End, n: nat, i: nat)
    requires n > 0 && 0 < i < |w.rfates| && (w.rfates[0].Interrupted? || (w.rfates[0].Take? && w.incoming != []))
    ensures var (w', io) := ReadCall(w, n);
      ReadFaultAt(w, n, i) <==> (io.Moved? ==> io.n < n) && ReadFaultAt(w', if io.Moved? then n - io.n else n, i - 1)
  {
    hide ReadCall, Had, GoesOn;
    var (w', io) := ReadCall(w, n);
    AfterRead(w, n, i);
    if io.Moved? ==> io.n < n {
      GoesOnFirst(w);
      forall j: nat | j < i - 1 ensures GoesOn(w', j) <==> GoesOn(w, j + 1) {
        GoesOnNearer(w, n, j + 1);
      }
      forall j: nat | 0 < j < i ensures GoesOn(w', j - 1) <==> GoesOn(w, j) {
        GoesOnNearer(w, n, j);
      }
    }
  }

  lemma GoesOnFirst(w: End)
    requires w.rfates != [] && (w.rfates[0].Interrupted? || (w.rfates[0].Take? && w.incoming != []))
    ensures GoesOn(w, 0)
  {
    HadNone(w);
  }

  lemma GoesOnNearer(w: End, n: nat, j: nat)
    requires n > 0 && 0 < j < |w.rfates| && (w.rfates[0].Interrupted? || (w.rfates[0].Take? && w.incoming != []))
    requires var (w', io) := ReadCall(w, n); io.Moved? ==> io.n < n
    ensures GoesOn(ReadCall(w, n).0, j - 1) <==> GoesOn(w, j)
  {
    hide ReadCall, Had;
    AfterRead(w, n, j);
  }

  lemma {:induction false} FaultIsFound(w: End, n: nat, i: nat)
    requires ReadFaultAt(w, n, i)
    ensures !Reading(w, n).ok && Reading(w, n).got == w.incoming[..Had(w, i)]
    decreases i
  {
    hide ReadFaultAt, Had;
    FaultShape(w, n, i);
    if i > 0 {
      var (w', io) := ReadCall(w, n);
      FaultNearer(w, n, i);
      AfterRead(w, n, i);
      FaultIsFound(w', if io.Moved? then n - io.n else n, i - 1);
      if io.Moved? {
        var h := Had(w', i - 1);
        HadBound(w', i - 1);
        assert w.incoming[..io.n] + w.incoming[io.n..][..h] == w.incoming[..io.n + h];
      }
    }
  }

  lemma FaultShape(w: End, n: nat, i: nat)
    requires ReadFaultAt(w, n, i)
    ensures i < |w.rfates| && n > 0
    ensures if i == 0 then w.rfates[0].Again? || w.rfates[0].Failed?
            else w.rfates[0].Interrupted? || (w.rfates[0].Take? && w.incoming != [])
    ensures i == 0 ==> Had(w, i) == 0
  {
    HadNone(w);
    assert i > 0 ==> GoesOn(w, 0);
  }

  lemma {:induction false} FailureHasFault(w: End, n: nat) returns (i: nat)
    requires !Reading(w, n).ok
    ensures ReadFaultAt(w, n, i)
    decreases |w.rfates|
  {
    hide ReadFaultAt, Had;
    if w.rfates[0].Again? || w.rfates[0].Failed? {
      i := 0;
      FaultNow(w, n);
    } else {
      var (w', io) := ReadCall(w, n);
      i := FailureHasFault(w', if io.Moved? then n - io.n else n);
      FaultShape(w', if io.Moved? then n - io.n else n, i);
      i := i + 1;
      FaultNearer(w, n, i);
    }
  }

  lemma FaultNow(w: End, n: nat)
    requires n > 0 && w.rfates != [] && (w.rfates[0].Again? || w.rfates[0].Failed?)
    ensures ReadFaultAt(w, n, 0)
  {
    HadNone(w);
  }

  /** readn_timeo fails if and only if a fault comes before it has its n bytes or
      the end of file; then it has what was offered before the fault. */
  lemma ReadingFails(w: End, n: nat)
    ensures !Reading(w, n).ok <==> exists i: nat :: ReadFaultAt(w, n, i)
    ensures forall i: nat | ReadFaultAt(w, n, i) :: Reading(w, n).got == w.incoming[..Had(w, i)]
  {
    forall i: nat | ReadFaultAt(w, n, i)
      ensures !Reading(w, n).ok && Reading(w, n).got == w.incoming[..Had(w, i)]
    {
      FaultIsFound(w, n, i);
    }
    if !Reading(w, n).ok {
      var i := FailureHasFault(w, n);
    }
  }

  // ---- the same of writes ----

  function Taken(fates: seq<Fate>): nat {
    if fates == [] then 0 else (if fates[0].Take? then fates[0].n else 0) + Taken(fates[1..])
  }

  /** A timeout, an error or a write of nothing comes at i, before all n bytes have gone. */
  ghost predicate WriteFaultAt(w: End, n: nat, i: nat) {
    && i < |w.wfates| && !w.wfates[i].Interrupted? && (w.wfates[i].Take? ==> w.wfates[i].n == 0)
    && (forall j | 0 <= j < i :: (w.wfates[j].Take? && w.wfates[j].n > 0) || w.wfates[j].Interrupted?)
    && Taken(w.wfates[..i]) < n
  }

  lemma WriteFaultNearer(w: End, data: Data, i: nat)
    requires WriteFaultAt(w, |data|, i) && i > 0
    ensures var (w', io) := WriteCall(w, data);
      && |w'.wfates| == |w.wfates| - 1
      && var h := Taken(w'.wfates[..i - 1]);
      match io
      case Error(errno) =>
        errno.EINTR? && w'.sent == w.sent && WriteFaultAt(w', |data|, i - 1) && Taken(w.wfates[..i]) == h
      case Moved(k) =>
        && 0 < k <= |data| && w'.sent == w.sent + data[..k]
        && WriteFaultAt(w', |data| - k, i - 1) && Taken(w.wfates[..i]) == k + h && k + h <= |data|
  {
    assert w.wfates[..i][1..] == w.wfates[1..][..i - 1] && w.wfates[..i][0] == w.wfates[0];
  }

  lemma {:induction false} WriteFaultIsFound(w: End, data: Data, i: nat)
    requires WriteFaultAt(w, |data|, i)
    ensures !Writing(w, data).ok && Writing(w, data).w.sent == w.sent + data[..Taken(w.wfates[..i])]
    decreases i
  {
    if i > 0 {
      WriteFaultNearer(w, data, i);
      hide WriteFaultAt, WriteCall, Taken;
      var (w', io) := WriteCall(w, data);
      var h := Taken(w'.wfates[..i - 1]);
      match io
      case Error(_) => WriteFaultIsFound(w', data, i - 1);
      case Moved(k) =>
        WriteFaultIsFound(w', data[k..], i - 1);
        assert w.sent + data[..k] + data[k..][..h] == w.sent + data[..k + h];
    }
  }

  lemma {:induction false} WriteFailureHasFault(w: End, data: Data) returns (i: nat)
    requires !Writing(w, data).ok
    ensures WriteFaultAt(w, |data|, i)
    decreases |w.wfates|
  {
    if !w.wfates[0].Interrupted? && (w.wfates[0].Take? ==> w.wfates[0].n == 0) {
      i := 0;
    } else {
      var (w', io) := WriteCall(w, data);
      i := WriteFailureHasFault(w', if io.Moved? then data[io.n..] else data);
      i := i + 1;
      assert w.wfates[..i][1..] == w'.wfates[..i - 1];
      assert w.wfates[..i][0] == w.wfates[0];
      forall j | 0 <= j < i ensures (w.wfates[j].Take? && w.wfates[j].n > 0) || w.wfates[j].Interrupted? {
        assert j > 0 ==> w.wfates[j] == w'.wfates[j - 1];
      }
    }
  }

  /** writen_timeo fails if and only if a fault comes before it has sent all; then
      it has sent what was taken before the fault. */
  lemma WritingFails(w: End, data: Data)
    ensures !Writing(w, data).ok <==> exists i: nat :: WriteFaultAt(w, |data|, i)
    ensures forall i: nat | WriteFaultAt(w, |data|, i) :: Writing(w, data).w.sent == w.sent + data[..Taken(w.wfates[..i])]
  {
    forall i: nat | WriteFaultAt(w, |data|, i)
      ensures !Writing(w, data).ok && Writing(w, data).w.sent == w.sent + data[..Taken(w.wfates[..i])]
    {
      WriteFaultIsFound(w, data, i);
    }
    if !Writing(w, data).ok {
      var i := WriteFailureHasFault(w, data);
    }
  }
}
