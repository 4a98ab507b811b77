/** What the operations of the DNS table give back to its pool. That a sweep does
    not show says nothing of how much it sweeps; this does. */
module DnsReclaim {
  import opened DnsSpec

  /** Everything outside bucket b is as it was; the free list has grown by exactly
      what the bucket's chain has lost. */
  ghost predicate FreedFrom(t: Table, t': Table, b: nat) {
    && b < |t.chains| == |t'.chains|
    && (forall i | 0 <= i < |t.chains| && i != b :: t'.chains[i] == t.chains[i])
    && t'.free + |t'.chains[b]| == t.free + |t.chains[b]|
  }

  /** Sifting drops something or changes nothing. */
  lemma {:induction false} SiftWhole(s: seq<Entry>, keep: Entry -> bool)
    ensures |Sift(s, keep)| < |s| || Sift(s, keep) == s
  {
    if s != [] {
      SiftWhole(s[..|s| - 1], keep);
      assert s == s[..|s| - 1] + [s[|s| - 1]];
    }
  }

  /** A get that finds nothing leaves no expired entry on its bucket's chain. One
      that finds its entry, at k, leaves none ahead of it, and what follows it as
      it was. No live entry is lost. */
  lemma GetReclaims(t: Table, hash: nat, now: int) returns (k: nat)
    requires |t.chains| > 0
    ensures FreedFrom(t, Get(t, hash, now).0, hash % |t.chains|)
    ensures var (t', r) := Get(t, hash, now);
      var was, chain := t.chains[hash % |t.chains|], t'.chains[hash % |t.chains|];
      && k <= |chain| <= |was|
      && (forall i | 0 <= i < k :: chain[i].expires >= now && chain[i].hash != hash)
      && (forall x :: x in chain ==> x in was)
      && (forall x :: x in was && x.expires >= now ==> x in chain)
      && chain[k..] == was[|was| - |chain[k..]|..] && (|chain| == |was| ==> chain == was)
      && match r
         case None => k == |chain|
         case Some(value) => k < |chain| && chain[k] == Entry(hash, chain[k].expires, value) && chain[k].expires >= now
  {
    hide Sift, Hit;
    var was := t.chains[hash % |t.chains|];
    var j := Hit(was, hash, now);
    var swept := Sift(was[..j], Fresh(now));
    HitIsFirst(was, hash, now);
    SiftWhole(was[..j], Fresh(now));
    forall x ensures x in swept <==> x in was[..j] && x.expires >= now {
      SiftKeeps(was[..j], Fresh(now), x);
    }
    k := |swept|;
    var chain := swept + was[j..];
    assert Get(t, hash, now).0.chains[hash % |t.chains|] == chain;
    assert chain[k..] == was[j..];
    assert forall i | 0 <= i < k :: chain[i] in swept;
    assert was == was[..j] + was[j..];
  }

  /** A put that is neither refused nor finds its hash ahead of its expiry hangs
      its entry in front, and behind it exactly what is live of other hashes. */
  lemma PutReclaims(t: Table, e: Entry, now1: int, now2: int)
    requires |t.chains| > 0 && t.free > 0
    requires forall x | x in t.chains[e.hash % |t.chains|] && x.hash == e.hash :: x.expires <= now1
    ensures Put(t, e, now1, now2).1 == 1
    ensures FreedFrom(t, Put(t, e, now1, now2).0, e.hash % |t.chains|)
    ensures var was, chain := t.chains[e.hash % |t.chains|], Put(t, e, now1, now2).0.chains[e.hash % |t.chains|];
      && chain != [] && chain[0] == e
      && forall x :: x in chain[1..] <==> x in was && x.hash != e.hash && x.expires >= now2
  {
    hide Sift;
    var was := t.chains[e.hash % |t.chains|];
    var kept := Sift(was, Survives(e.hash, now2));
    SiftShorter(was, Survives(e.hash, now2));
    forall x ensures x in kept <==> x in was && x.hash != e.hash && x.expires >= now2 {
      SiftKeeps(was, Survives(e.hash, now2), x);
    }
    assert ([e] + kept)[1..] == kept;
  }

  /** A put that finds its hash ahead of its expiry, or the pool exhausted, changes nothing. */
  lemma PutElse(t: Table, e: Entry, now1: int, now2: int, x: Entry)
    requires |t.chains| > 0
    requires t.free == 0 || (x in t.chains[e.hash % |t.chains|] && x.hash == e.hash && x.expires > now1)
    ensures Put(t, e, now1, now2) == (t, if t.free == 0 then 0 else 1)
  {
    if t.free > 0 {
      assert Present(t.chains[e.hash % |t.chains|], e.hash, now1);
    }
  }

  /** So a table that is asked for a hash it has lost takes a new entry in the
      room of one that had expired: no refusal outlives a get of the bucket. */
  lemma RoomAfterMiss(t: Table, hash: nat, now: int, e: Entry, now1: int, now2: int)
    requires Inv(t) && Get(t, hash, now).1.None?
    requires exists x :: x in t.chains[hash % |t.chains|] && x.expires < now
    ensures Put(Get(t, hash, now).0, e, now1, now2).1 == 1
  {
    hide Get;
    var k := GetReclaims(t, hash, now);
    var b := hash % |t.chains|;
    var x :| x in t.chains[b] && x.expires < now;
    var t' := Get(t, hash, now).0;
    assert x !in t'.chains[b];
  }
}
