/** The whole DNS table as one list of entries, the newest first: no buckets of
    links, no free list. Every answer of the table, refusals included, is the answer
    of this list, whatever the clock does. */
module DnsLog {
  import opened DnsSpec

  type Log = seq<Entry>

  predicate Together(e: Entry, hash: nat, size: nat)
    requires size > 0
  {
    e.hash % size == hash % size
  }

  // ---- the operations on the list ----

  /** A put that stores drops all expired entries of its bucket, and its own hash. */
  function Purge(log: Log, hash: nat, size: nat, now: int): Log
    requires size > 0
  {
    if log == [] then []
    else if Together(log[0], hash, size) && (log[0].hash == hash || log[0].expires < now)
    then Purge(log[1..], hash, size, now)
    else [log[0]] + Purge(log[1..], hash, size, now)
  }

  function LogPut(size: nat, log: Log, e: Entry, now1: int, now2: int): (Log, int)
    requires size > 0
  {
    if |log| >= size then (log, 0)
    else if exists x :: x in log && x.hash == e.hash && x.expires > now1 then (log, 1)
    else ([e] + Purge(log, e.hash, size, now2), 1)
  }

  /** A get drops the expired entries of its bucket down to the one it answers with. */
  function LogGet(size: nat, log: Log, hash: nat, now: int): (Log, Option<Value>)
    requires size > 0
  {
    if log == [] then (log, None)
    else if log[0].hash == hash && log[0].expires >= now then (log, Some(log[0].value))
    else
      var (rest, r) := LogGet(size, log[1..], hash, now);
      (if Together(log[0], hash, size) && log[0].expires < now then rest else [log[0]] + rest, r)
  }

  function LogAnswers(size: nat, log: Log, ops: seq<Op>): seq<Answer>
    requires size > 0
    decreases |ops|
  {
    if ops == [] then []
    else
      match ops[0]
      case PutOp(e, now1, now2) =>
        var (log', r) := LogPut(size, log, e, now1, now2);
        [Stored(r)] + LogAnswers(size, log', ops[1..])
      case GetOp(h, now) =>
        var (log', r) := LogGet(size, log, h, now);
        [Got(r)] + LogAnswers(size, log', ops[1..])
  }

  // ---- the table holds the list, bucket by bucket ----

  /** The entries of bucket b, in the order of the list. */
  function Bucket(log: Log, b: nat, size: nat): seq<Entry>
    requires size > 0
  {
    if log == [] then []
    else (if log[0].hash % size == b then [log[0]] else []) + Bucket(log[1..], b, size)
  }

  ghost predicate Holds(t: Table, size: nat, log: Log)
    requires size > 0
  {
    && |t.chains| == size && t.free + |log| == size
    && forall b | 0 <= b < size :: t.chains[b] == Bucket(log, b, size)
  }

  lemma {:induction false} InBucketIff(log: Log, b: nat, size: nat, x: Entry)
    requires size > 0
    ensures x in Bucket(log, b, size) <==> x in log && x.hash % size == b
  {
    if log != [] {
      InBucketIff(log[1..], b, size, x);
    }
  }

  lemma {:induction false} SiftCons(e: Entry, s: seq<Entry>, keep: Entry -> bool)
    ensures Sift([e] + s, keep) == (if keep(e) then [e] else []) + Sift(s, keep)
  {
    if s == [] {
      assert [e] + s == [e] && [e][..0] == [];
    } else {
      var n := |s| - 1;
      assert ([e] + s)[..|[e] + s| - 1] == [e] + s[..n];
      SiftCons(e, s[..n], keep);
    }
  }

  // ---- put ----

  lemma {:induction false} PurgeBucket(log: Log, hash: nat, size: nat, now: int, b: nat)
    requires size > 0 && b < size
    ensures Bucket(Purge(log, hash, size, now), b, size) ==
      if b == hash % size then Sift(Bucket(log, b, size), Survives(hash, now)) else Bucket(log, b, size)
    ensures b == hash % size ==>
      |Purge(log, hash, size, now)| + |Bucket(log, b, size)| == |log| + |Sift(Bucket(log, b, size), Survives(hash, now))|
  {
    hide Bucket, Sift;
    if log == [] {
      NothingInBucket(b, size, Survives(hash, now));
    } else {
      PurgeBucket(log[1..], hash, size, now, b);
      BucketCons(log[0], log[1..], b, size);
      BucketCons(log[0], Purge(log[1..], hash, size, now), b, size);
      SiftCons(log[0], Bucket(log[1..], b, size), Survives(hash, now));
      assert log == [log[0]] + log[1..];
    }
  }

  lemma NothingInBucket(b: nat, size: nat, keep: Entry -> bool)
    requires size > 0
    ensures Bucket([], b, size) == [] && Sift([], keep) == []
  {
  }

  lemma PutHolds(t: Table, size: nat, log: Log, e: Entry, now1: int, now2: int)
    requires size > 0 && Holds(t, size, log)
    ensures var (t', r) := Put(t, e, now1, now2);
      var (log', q) := LogPut(size, log, e, now1, now2);
      Holds(t', size, log') && r == q
  {
    hide Sift, Bucket, Purge;
    var b := e.hash % size;
    PresentInLog(t, size, log, e.hash, now1);
    if t.free > 0 && !Present(t.chains[b], e.hash, now1) {
      var (log', _) := LogPut(size, log, e, now1, now2);
      var kept := Purge(log, e.hash, size, now2);
      forall i | 0 <= i < size
        ensures Bucket(log', i, size) == if i == b then [e] + Bucket(kept, i, size) else Bucket(kept, i, size)
        ensures i != b ==> Bucket(kept, i, size) == Bucket(log, i, size)
      {
        BucketCons(e, kept, i, size);
        PurgeBucket(log, e.hash, size, now2, i);
      }
      PurgeBucket(log, e.hash, size, now2, b);
    }
  }

  lemma BucketCons(e: Entry, log: Log, b: nat, size: nat)
    requires size > 0
    ensures Bucket([e] + log, b, size) == if e.hash % size == b then [e] + Bucket(log, b, size) else Bucket(log, b, size)
  {
    assert ([e] + log)[1..] == log;
  }

  lemma PresentInLog(t: Table, size: nat, log: Log, hash: nat, now: int)
    requires size > 0 && Holds(t, size, log)
    ensures Present(t.chains[hash % size], hash, now) <==> exists x :: x in log && x.hash == hash && x.expires > now
  {
    var chain := t.chains[hash % size];
    if x :| x in log && x.hash == hash && x.expires > now {
      InBucketIff(log, hash % size, size, x);
      var i :| 0 <= i < |chain| && chain[i] == x;
    }
    if i :| 0 <= i < |chain| && chain[i].hash == hash && chain[i].expires > now {
      InBucketIff(log, hash % size, size, chain[i]);
    }
  }

  // ---- get ----

  /** A get, read off one chain from its front. */
  function ChainGet(chain: seq<Entry>, hash: nat, now: int): (seq<Entry>, Option<Value>) {
    if chain == [] then (chain, None)
    else if chain[0].hash == hash && chain[0].expires >= now then (chain, Some(chain[0].value))
    else
      var (rest, r) := ChainGet(chain[1..], hash, now);
      (if chain[0].expires < now then rest else [chain[0]] + rest, r)
  }

  lemma {:induction false} ChainGetIs(chain: seq<Entry>, hash: nat, now: int)
    ensures var j := Hit(chain, hash, now);
      ChainGet(chain, hash, now)
      == (Sift(chain[..j], Fresh(now)) + chain[j..], if j < |chain| then Some(chain[j].value) else None)
  {
    hide Sift;
    var j := Hit(chain, hash, now);
    if chain == [] || (chain[0].hash == hash && chain[0].expires >= now) {
      NothingInBucket(0, 1, Fresh(now));
      assert chain[..0] == [] && [] + chain[0..] == chain;
    } else {
      ChainGetIs(chain[1..], hash, now);
      assert j == 1 + Hit(chain[1..], hash, now);
      Sweep(chain[0], chain[1..], j - 1, now);
      assert chain == [chain[0]] + chain[1..];
      var tail := ChainGet(chain[1..], hash, now).0;
      assert [] + tail == tail && (j < |chain| ==> chain[1..][j - 1] == chain[j]);
      assert Sift(chain[..j], Fresh(now)) + chain[j..] == (if chain[0].expires < now then [] else [chain[0]]) + tail;
    }
  }

  /** Sweeping one entry more than j, from the front. */
  lemma Sweep(e: Entry, chain: seq<Entry>, j: nat, now: int)
    requires j <= |chain|
    ensures var s := [e] + chain;
      Sift(s[..j + 1], Fresh(now)) + s[j + 1..]
      == (if e.expires < now then [] else [e]) + (Sift(chain[..j], Fresh(now)) + chain[j..])
  {
    hide Sift;
    var s := [e] + chain;
    assert s[..j + 1] == [e] + chain[..j] && s[j + 1..] == chain[j..];
    SiftCons(e, chain[..j], Fresh(now));
  }

  lemma {:induction false} LogGetBucket(size: nat, log: Log, hash: nat, now: int, b: nat)
    requires size > 0 && b < size
    ensures var (log', r) := LogGet(size, log, hash, now);
      if b == hash % size then
        var (chain, q) := ChainGet(Bucket(log, b, size), hash, now);
        && Bucket(log', b, size) == chain && r == q
        && |log'| + |Bucket(log, b, size)| == |log| + |chain|
      else Bucket(log', b, size) == Bucket(log, b, size)
  {
    hide Bucket;
    if log == [] {
      NothingInBucket(b, size, Fresh(now));
    } else {
      var rest := LogGet(size, log[1..], hash, now).0;
      LogGetBucket(size, log[1..], hash, now, b);
      BucketCons(log[0], log[1..], b, size);
      BucketCons(log[0], rest, b, size);
      assert log == [log[0]] + log[1..];
      assert ([log[0]] + Bucket(log[1..], b, size))[1..] == Bucket(log[1..], b, size);
    }
  }

  lemma GetHolds(t: Table, size: nat, log: Log, hash: nat, now: int)
    requires size > 0 && Holds(t, size, log)
    ensures var (t', r) := Get(t, hash, now);
      var (log', q) := LogGet(size, log, hash, now);
      Holds(t', size, log') && r == q
  {
    hide Sift, Bucket, LogGet, ChainGet, Hit;
    forall b | 0 <= b < size
      ensures b != hash % size ==> Bucket(LogGet(size, log, hash, now).0, b, size) == Bucket(log, b, size)
    {
      LogGetBucket(size, log, hash, now, b);
    }
    LogGetBucket(size, log, hash, now, hash % size);
    ChainGetIs(t.chains[hash % size], hash, now);
  }

  // ---- whole histories ----

  lemma {:induction false} AnswersAgree(t: Table, size: nat, log: Log, ops: seq<Op>)
    requires size > 0 && Holds(t, size, log)
    ensures Answers(t, ops) == LogAnswers(size, log, ops)
    decreases |ops|
  {
    hide Put, Get, LogPut, LogGet, Bucket;
    if ops != [] {
      match ops[0]
      case PutOp(e, now1, now2) =>
        PutHolds(t, size, log, e, now1, now2);
        AnswersAgree(Put(t, e, now1, now2).0, size, LogPut(size, log, e, now1, now2).0, ops[1..]);
      case GetOp(h, now) =>
        GetHolds(t, size, log, h, now);
        AnswersAgree(Get(t, h, now).0, size, LogGet(size, log, h, now).0, ops[1..]);
    }
  }

  /** Over every history, every answer of the table is that of the list: each get,
      each put, and in particular each refusal. */
  lemma TableIsLog(size: nat, ops: seq<Op>)
    requires size > 0
    ensures Answers(Empty(size), ops) == LogAnswers(size, [], ops)
  {
    AnswersAgree(Empty(size), size, [], ops);
  }
}
