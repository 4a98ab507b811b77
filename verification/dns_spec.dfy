/** What the DNS table of hashtbl.c computes, on chains as sequences, and why
    that is a time-to-live map: the table forgets only what has expired. */
module DnsSpec {
  import opened Sums

  datatype Option<+T> = None | Some(value: T)

  type Value = seq<nat>

  datatype Entry = Entry(hash: nat, expires: int, value: Value)

  /** `free` entries of the pool are unused; the others hang on one chain a bucket. */
  datatype Table = Table(free: nat, chains: seq<seq<Entry>>)

  function Empty(size: nat): Table { Table(size, seq(size, _ => [])) }

  function Sift(s: seq<Entry>, keep: Entry -> bool): seq<Entry> {
    if s == [] then []
    else
      var (rest, last) := (Sift(s[..|s| - 1], keep), s[|s| - 1]);
      if keep(last) then rest + [last] else rest
  }

  /** What hashtbl_put leaves on the chain of its bucket (hashtbl.c:82). */
  function Survives(hash: nat, now: int): Entry -> bool {
    (e: Entry) => e.hash != hash && e.expires >= now
  }

  function Fresh(now: int): Entry -> bool { (e: Entry) => e.expires >= now }

  /** hashtbl_check: an entry that has not reached its expiry (hashtbl.c:41). */
  predicate Present(chain: seq<Entry>, hash: nat, now: int) {
    exists i :: 0 <= i < |chain| && chain[i].hash == hash && chain[i].expires > now
  }

  /** The first entry hashtbl_get would return, or the end of the chain. */
  function Hit(chain: seq<Entry>, hash: nat, now: int): (j: nat)
    ensures j <= |chain|
  {
    if chain == [] || (chain[0].hash == hash && chain[0].expires >= now) then 0
    else 1 + Hit(chain[1..], hash, now)
  }

  function Put(t: Table, entry: Entry, now1: int, now2: int): (Table, int)
    requires |t.chains| > 0
  {
    var idx := entry.hash % |t.chains|;
    var chain := t.chains[idx];
    if t.free == 0 then (t, 0)
    else if Present(chain, entry.hash, now1) then (t, 1)
    else
      var kept := Sift(chain, Survives(entry.hash, now2));
      SiftShorter(chain, Survives(entry.hash, now2));
      (Table(t.free - 1 + |chain| - |kept|, t.chains[idx := [entry] + kept]), 1)
  }

  function Get(t: Table, hash: nat, now: int): (Table, Option<Value>)
    requires |t.chains| > 0
  {
    var idx := hash % |t.chains|;
    var chain := t.chains[idx];
    var j := Hit(chain, hash, now);
    var swept := Sift(chain[..j], Fresh(now));
    SiftShorter(chain[..j], Fresh(now));
    (Table(t.free + j - |swept|, t.chains[idx := swept + chain[j..]]),
     if j < |chain| then Some(chain[j].value) else None)
  }

  /** The steps of a put that goes through, one after the other. */
  lemma PutIs(t: Table, entry: Entry, now1: int, now2: int, free: nat, chains: seq<seq<Entry>>)
    requires |t.chains| > 0 && t.free > 0
    requires var b := entry.hash % |t.chains|;
      var kept := Sift(t.chains[b], Survives(entry.hash, now2));
      && !Present(t.chains[b], entry.hash, now1)
      && free + |kept| == t.free - 1 + |t.chains[b]|
      && chains == t.chains[b := kept][b := [entry] + t.chains[b := kept][b]]
    ensures Put(t, entry, now1, now2) == (Table(free, chains), 1)
  {
    var b := entry.hash % |t.chains|;
    var kept := Sift(t.chains[b], Survives(entry.hash, now2));
    assert chains == t.chains[b := [entry] + kept];
  }

  /** A get that has swept j entries and then answers. */
  lemma GetIs(t: Table, hash: nat, now: int, j: nat, free: nat, chains: seq<seq<Entry>>)
    requires |t.chains| > 0 && j == Hit(t.chains[hash % |t.chains|], hash, now)
    requires var b := hash % |t.chains|;
      var swept := Sift(t.chains[b][..j], Fresh(now));
      free + |swept| == t.free + j && chains == t.chains[b := swept + t.chains[b][j..]]
    ensures Get(t, hash, now).0 == Table(free, chains)
    ensures Get(t, hash, now).1 ==
      var c := t.chains[hash % |t.chains|]; if j < |c| then Some(c[j].value) else None
  {
  }

  // ---- sifting ----

  lemma {:induction false} SiftShorter(s: seq<Entry>, keep: Entry -> bool)
    ensures |Sift(s, keep)| <= |s|
  {
    if s != [] { SiftShorter(s[..|s| - 1], keep); }
  }

  lemma {:induction false} SiftKeeps(s: seq<Entry>, keep: Entry -> bool, e: Entry)
    ensures e in Sift(s, keep) <==> e in s && keep(e)
  {
    if s != [] {
      SiftKeeps(s[..|s| - 1], keep, e);
      assert s == s[..|s| - 1] + [s[|s| - 1]];
    }
  }

  /** No two entries of a chain have one hash. */
  ghost predicate OnePerHash(s: seq<Entry>) {
    forall i, j | 0 <= i < j < |s| :: s[i].hash != s[j].hash
  }

  lemma {:induction false} SiftOnePerHash(s: seq<Entry>, keep: Entry -> bool)
    requires OnePerHash(s)
    ensures OnePerHash(Sift(s, keep))
  {
    if s != [] {
      var rest := Sift(s[..|s| - 1], keep);
      SiftOnePerHash(s[..|s| - 1], keep);
      forall i | 0 <= i < |rest| ensures rest[i].hash != s[|s| - 1].hash {
        SiftKeeps(s[..|s| - 1], keep, rest[i]);
      }
    }
  }

  lemma SiftStep(s: seq<Entry>, j: nat, keep: Entry -> bool)
    requires j < |s|
    ensures Sift(s[..j + 1], keep) == Sift(s[..j], keep) + if keep(s[j]) then [s[j]] else []
  {
    assert s[..j + 1][..j] == s[..j];
  }

  /** None of the first j entries would answer. */
  ghost predicate NoHit(chain: seq<Entry>, hash: nat, now: int, j: nat) {
    j <= |chain| && forall i | 0 <= i < j :: !(chain[i].hash == hash && chain[i].expires >= now)
  }

  lemma NoHitStart(chain: seq<Entry>, hash: nat, now: int)
    ensures NoHit(chain, hash, now, 0)
  {
  }

  lemma NoHitStep(chain: seq<Entry>, hash: nat, now: int, j: nat)
    requires NoHit(chain, hash, now, j) && j < |chain| && !(chain[j].hash == hash && chain[j].expires >= now)
    ensures NoHit(chain, hash, now, j + 1)
  {
  }

  /** Hit is wherever the first entry that answers is, or the end. */
  lemma HitAt(chain: seq<Entry>, hash: nat, now: int, j: nat)
    requires NoHit(chain, hash, now, j)
    requires j < |chain| ==> chain[j].hash == hash && chain[j].expires >= now
    ensures Hit(chain, hash, now) == j
  {
    HitIsFirst(chain, hash, now);
  }

  lemma {:induction false} HitIsFirst(chain: seq<Entry>, hash: nat, now: int)
    ensures var j := Hit(chain, hash, now);
      && (j < |chain| ==> chain[j].hash == hash && chain[j].expires >= now)
      && forall i | 0 <= i < j :: !(chain[i].hash == hash && chain[i].expires >= now)
  {
    if chain != [] && !(chain[0].hash == hash && chain[0].expires >= now) {
      HitIsFirst(chain[1..], hash, now);
      var j := Hit(chain[1..], hash, now);
      forall i | 0 < i < 1 + j ensures !(chain[i].hash == hash && chain[i].expires >= now) {
        assert chain[i] == chain[1..][i - 1];
      }
    }
  }

  // ---- what every operation keeps ----

  const Length: seq<Entry> -> nat := (s: seq<Entry>) => |s|

  /** The pool is exactly shared out, and every entry is where its hash says, alone. */
  ghost predicate Inv(t: Table) {
    && t.free + Sum(t.chains, Length) == |t.chains| > 0
    && (forall b | 0 <= b < |t.chains| :: OnePerHash(t.chains[b]) && InBucket(t.chains[b], b, |t.chains|))
  }

  ghost predicate InBucket(s: seq<Entry>, b: nat, n: nat)
    requires n > 0
  {
    forall e | e in s :: e.hash % n == b
  }

  lemma EmptyInv(size: nat)
    requires size > 0
    ensures Inv(Empty(size))
  {
    SumNone(Empty(size).chains, Length);
  }

  lemma PutInv(t: Table, e: Entry, now1: int, now2: int)
    requires Inv(t)
    ensures Inv(Put(t, e, now1, now2).0)
  {
    var (t', r) := Put(t, e, now1, now2);
    if t' != t {
      var b := e.hash % |t.chains|;
      var keep := Survives(e.hash, now2);
      var chain := t'.chains[b];
      SumUpdate(t.chains, Length, b, chain);
      SiftOnePerHash(t.chains[b], keep);
      forall x | x in chain[1..] ensures x in t.chains[b] && x.hash != e.hash {
        SiftKeeps(t.chains[b], keep, x);
      }
      assert forall i | 0 < i < |chain| :: chain[i] in chain[1..];
    }
  }

  /** Sweeping the first j entries leaves a chain sound. */
  lemma SweepKeeps(chain: seq<Entry>, j: nat, now: int)
    requires j <= |chain| && OnePerHash(chain)
    ensures OnePerHash(Sift(chain[..j], Fresh(now)) + chain[j..])
    ensures forall x | x in Sift(chain[..j], Fresh(now)) + chain[j..] :: x in chain
  {
    var swept := Sift(chain[..j], Fresh(now));
    SiftOnePerHash(chain[..j], Fresh(now));
    forall x | x in swept ensures x in chain[..j] {
      SiftKeeps(chain[..j], Fresh(now), x);
    }
    forall i, k | 0 <= i < |swept| && j <= k < |chain| ensures swept[i].hash != chain[k].hash {
      assert swept[i] in chain[..j];
    }
  }

  lemma GetInv(t: Table, hash: nat, now: int)
    requires Inv(t)
    ensures Inv(Get(t, hash, now).0)
  {
    var b := hash % |t.chains|;
    var chain := t.chains[b];
    var j := Hit(chain, hash, now);
    SumUpdate(t.chains, Length, b, Sift(chain[..j], Fresh(now)) + chain[j..]);
    SweepKeeps(chain, j, now);
  }

  /** hashtbl_put refuses exactly when all entries of the pool are chained, and
      otherwise its hash is on a chain afterwards. */
  lemma PutRefusesWhenFull(t: Table, e: Entry, now1: int, now2: int)
    requires Inv(t)
    ensures Put(t, e, now1, now2).1 == 0 <==> Sum(t.chains, Length) == |t.chains|
    ensures Put(t, e, now1, now2).1 == 0 ==> Put(t, e, now1, now2).0 == t
  {
  }

  // ---- the time-to-live map ----

  datatype Timed = Timed(expires: int, value: Value)

  type TtlMap = map<nat, Timed>

  function TtlGet(m: TtlMap, hash: nat, now: int): Option<Value> {
    if hash in m && m[hash].expires >= now then Some(m[hash].value) else None
  }

  /** An entry still ahead of its expiry is kept; anything else is replaced. */
  function TtlPut(m: TtlMap, e: Entry, now: int): TtlMap {
    if e.hash in m && m[e.hash].expires > now then m else m[e.hash := Timed(e.expires, e.value)]
  }

  /** From time `now` on, table and map hold the same. */
  ghost predicate Refines(t: Table, m: TtlMap, now: int) {
    && |t.chains| > 0
    && (forall b, e | 0 <= b < |t.chains| && e in t.chains[b] && e.expires >= now ::
          e.hash in m && m[e.hash] == Timed(e.expires, e.value))
    && (forall h | h in m && m[h].expires >= now ::
          Entry(h, m[h].expires, m[h].value) in t.chains[h % |t.chains|])
  }

  lemma PutRefines(t: Table, m: TtlMap, e: Entry, now: int, now1: int, now2: int)
    requires Inv(t) && Refines(t, m, now) && now <= now1 <= now2
    ensures var (t', r) := Put(t, e, now1, now2);
      Refines(t', if r == 0 then m else TtlPut(m, e, now1), now2)
  {
    hide Sift;
    var b := e.hash % |t.chains|;
    var chain := t.chains[b];
    PresentIsLive(t, m, e.hash, now, now1);
    if t.free > 0 && !Present(chain, e.hash, now1) {
      var kept := Sift(chain, Survives(e.hash, now2));
      forall x ensures x in [e] + kept <==> x == e || (x in chain && x.hash != e.hash && x.expires >= now2) {
        SiftKeeps(chain, Survives(e.hash, now2), x);
      }
      Rechained(t, m, now, e, [e] + kept, now2, Put(t, e, now1, now2).0.free);
    }
  }

  /** The check of hashtbl_put sees what the map holds. */
  lemma PresentIsLive(t: Table, m: TtlMap, hash: nat, now: int, now1: int)
    requires Refines(t, m, now) && now <= now1
    ensures Present(t.chains[hash % |t.chains|], hash, now1) <==> hash in m && m[hash].expires > now1
  {
    if hash in m && m[hash].expires > now1 {
      assert Entry(hash, m[hash].expires, m[hash].value) in t.chains[hash % |t.chains|];
    }
  }

  /** A bucket rebuilt from a new entry and what is live of the others. */
  lemma Rechained(t: Table, m: TtlMap, now: int, e: Entry, chain: seq<Entry>, later: int, free: nat)
    requires Inv(t) && Refines(t, m, now) && now <= later
    requires var was := t.chains[e.hash % |t.chains|];
      forall x :: x in chain <==> x == e || (x in was && x.hash != e.hash && x.expires >= later)
    ensures Refines(Table(free, t.chains[e.hash % |t.chains| := chain]), m[e.hash := Timed(e.expires, e.value)], later)
  {
    var b := e.hash % |t.chains|;
    var chains := t.chains[b := chain];
    var m' := m[e.hash := Timed(e.expires, e.value)];
    forall h | h in m' && m'[h].expires >= later ensures Entry(h, m'[h].expires, m'[h].value) in chains[h % |chains|] {
      if h != e.hash {
        assert Entry(h, m[h].expires, m[h].value) in t.chains[h % |t.chains|];
      }
    }
  }

  lemma GetRefines(t: Table, m: TtlMap, hash: nat, now: int, later: int)
    requires Inv(t) && Refines(t, m, now) && now <= later
    ensures var (t', r) := Get(t, hash, later);
      Refines(t', m, later) && r == TtlGet(m, hash, later)
  {
    hide Sift, Hit;
    var b := hash % |t.chains|;
    var chain := t.chains[b];
    var j := Hit(chain, hash, later);
    HitIsTtl(t, m, hash, now, later);
    var swept := Sift(chain[..j], Fresh(later)) + chain[j..];
    forall x ensures x in swept <==> x in chain[j..] || (x in chain[..j] && x.expires >= later) {
      SiftKeeps(chain[..j], Fresh(later), x);
    }
    assert chain == chain[..j] + chain[j..];
    Swept(t, m, now, b, swept, later, Get(t, hash, later).0.free);
  }

  lemma HitIsTtl(t: Table, m: TtlMap, hash: nat, now: int, later: int)
    requires Refines(t, m, now) && now <= later
    ensures var chain := t.chains[hash % |t.chains|];
      var j := Hit(chain, hash, later);
      TtlGet(m, hash, later) == if j < |chain| then Some(chain[j].value) else None
  {
    var chain := t.chains[hash % |t.chains|];
    HitIsFirst(chain, hash, later);
    if hash in m && m[hash].expires >= later {
      assert Entry(hash, m[hash].expires, m[hash].value) in chain;
    }
  }

  /** A bucket that has lost expired entries only. */
  lemma Swept(t: Table, m: TtlMap, now: int, b: nat, chain: seq<Entry>, later: int, free: nat)
    requires Refines(t, m, now) && now <= later && b < |t.chains|
    requires forall x :: x in chain ==> x in t.chains[b]
    requires forall x :: x in t.chains[b] && x.expires >= later ==> x in chain
    ensures Refines(Table(free, t.chains[b := chain]), m, later)
  {
  }

  // ---- whole histories ----

  datatype Op =
    | PutOp(entry: Entry, now1: int, now2: int)  // hashtbl_put reads the clock twice
    | GetOp(hash: nat, now: int)

  datatype Answer = Stored(status: int) | Got(value: Option<Value>)

  /** The clock does not run backwards, within an operation or between two. */
  ghost predicate Ordered(ops: seq<Op>, now: int) {
    ops == [] ||
    match ops[0]
    case PutOp(_, now1, now2) => now <= now1 <= now2 && Ordered(ops[1..], now2)
    case GetOp(_, later) => now <= later && Ordered(ops[1..], later)
  }

  function Answers(t: Table, ops: seq<Op>): seq<Answer>
    requires |t.chains| > 0
    decreases |ops|
  {
    if ops == [] then []
    else
      match ops[0]
      case PutOp(e, now1, now2) =>
        var (t', r) := Put(t, e, now1, now2);
        [Stored(r)] + Answers(t', ops[1..])
      case GetOp(h, now) =>
        var (t', r) := Get(t, h, now);
        [Got(r)] + Answers(t', ops[1..])
  }

  /** The answers are those of the time-to-live map m, which ignores the puts
      that were refused. */
  ghost predicate Explains(m: TtlMap, ops: seq<Op>, answers: seq<Answer>)
    decreases |ops|
  {
    |ops| == |answers| &&
    (ops == [] ||
     match ops[0]
     case PutOp(e, now1, now2) =>
       && answers[0] in {Stored(0), Stored(1)}
       && Explains(if answers[0] == Stored(0) then m else TtlPut(m, e, now1), ops[1..], answers[1..])
     case GetOp(h, now) =>
       && answers[0] == Got(TtlGet(m, h, now))
       && Explains(m, ops[1..], answers[1..]))
  }

  lemma {:induction false} AnswersExplained(t: Table, m: TtlMap, ops: seq<Op>, now: int)
    requires Inv(t) && Refines(t, m, now) && Ordered(ops, now)
    ensures Explains(m, ops, Answers(t, ops))
    decreases |ops|
  {
    if ops != [] {
      match ops[0]
      case PutOp(e, now1, now2) =>
        var (t', r) := Put(t, e, now1, now2);
        PutInv(t, e, now1, now2);
        PutRefines(t, m, e, now, now1, now2);
        AnswersExplained(t', if r == 0 then m else TtlPut(m, e, now1), ops[1..], now2);
        assert Answers(t, ops)[1..] == Answers(t', ops[1..]);
      case GetOp(h, later) =>
        var (t', r) := Get(t, h, later);
        GetInv(t, h, later);
        GetRefines(t, m, h, now, later);
        AnswersExplained(t', m, ops[1..], later);
        assert Answers(t, ops)[1..] == Answers(t', ops[1..]);
    }
  }

  /** Over every history of puts and gets on a fresh table, of any size, each get
      answers as a time-to-live map would; lazy sweeping never shows. */
  lemma TableIsTtlMap(size: nat, ops: seq<Op>, start: int)
    requires size > 0 && Ordered(ops, start)
    ensures Explains(map[], ops, Answers(Empty(size), ops))
  {
    EmptyInv(size);
    AnswersExplained(Empty(size), map[], ops, start);
  }
}
