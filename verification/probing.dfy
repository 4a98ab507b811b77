/** Linear probing over a sequence of slots, as both caches of cache.c use it.
    Key 0 marks an empty slot. */
module Probing {

  datatype Slot<+V> = Slot(key: nat, value: V)

  /** How far slot i lies after slot h, going round n slots. */
  function Dist(h: int, i: int, n: int): int {
    if i >= h then i - h else i + n - h
  }

  /** A home slot, among n, for every key. */
  ghost predicate Into(home: nat -> nat, n: nat) {
    forall key :: home(key) < n
  }

  ghost predicate Unique<V>(s: seq<Slot<V>>) {
    forall i, j | 0 <= i < j < |s| && s[i].key != 0 :: s[i].key != s[j].key
  }

  /** Going round from slot h, every slot before slot i is taken. */
  ghost predicate Run<V>(s: seq<Slot<V>>, h: nat, i: nat) {
    forall p | 0 <= p < |s| && Dist(h, p, |s|) < Dist(h, i, |s|) :: s[p].key != 0
  }

  /** From its home slot to where it is stored, a key meets no empty slot. */
  ghost predicate Unbroken<V>(s: seq<Slot<V>>, home: nat -> nat) {
    forall i | 0 <= i < |s| && s[i].key != 0 :: Run(s, home(s[i].key), i)
  }

  ghost predicate Table<V>(s: seq<Slot<V>>, home: nat -> nat) {
    Unique(s) && Unbroken(s, home)
  }

  /** The finite map a table stands for. */
  ghost function View<V>(s: seq<Slot<V>>): map<nat, V> {
    if s == [] then map[]
    else
      var (rest, last) := (View(s[..|s| - 1]), s[|s| - 1]);
      if last.key == 0 then rest else rest[last.key := last.value]
  }

  lemma {:induction false} ViewHas<V>(s: seq<Slot<V>>, i: nat)
    requires Unique(s) && i < |s| && s[i].key != 0
    ensures s[i].key in View(s) && View(s)[s[i].key] == s[i].value
  {
    if i < |s| - 1 {
      ViewHas(s[..|s| - 1], i);
    }
  }

  lemma {:induction false} ViewFrom<V>(s: seq<Slot<V>>, key: nat) returns (i: nat)
    requires key in View(s)
    ensures i < |s| && s[i].key == key && key != 0
  {
    i := |s| - 1;
    if s[i].key != key || key == 0 {
      i := ViewFrom(s[..|s| - 1], key);
    }
  }

  lemma {:induction false} NoZero<V>(s: seq<Slot<V>>)
    ensures 0 !in View(s)
  {
    if s != [] {
      NoZero(s[..|s| - 1]);
    }
  }

  ghost predicate HasEmpty<V>(s: seq<Slot<V>>) {
    exists i :: 0 <= i < |s| && s[i].key == 0
  }

  /** Where a probe for `key` ends: at the key, or at the empty slot it would go
      into, with every slot before it taken by another key. */
  ghost predicate Found<V>(s: seq<Slot<V>>, home: nat -> nat, key: nat, id: nat) {
    && id < |s| && (s[id].key == 0 || s[id].key == key)
    && Run(s, home(key), id)
    && forall p | 0 <= p < |s| && Dist(home(key), p, |s|) < Dist(home(key), id, |s|) :: s[p].key != key
  }

  /** A probe that ends at an empty slot proves the key absent. */
  lemma FoundDecides<V>(s: seq<Slot<V>>, home: nat -> nat, key: nat, id: nat)
    requires Table(s, home) && Into(home, |s|) && Found(s, home, key, id) && key != 0
    ensures key in View(s) <==> s[id].key == key
    ensures key in View(s) ==> View(s)[key] == s[id].value
  {
    if s[id].key == key {
      ViewHas(s, id);
    } else if key in View(s) {
      var i := ViewFrom(s, key);
    }
  }

  /** Storing where a probe ended keeps the table sound ... */
  lemma StoreKeeps<V>(s: seq<Slot<V>>, home: nat -> nat, key: nat, value: V, id: nat)
    requires Table(s, home) && Into(home, |s|) && Found(s, home, key, id)
    ensures Table(s[id := Slot(key, value)], home)
  {
    var t := s[id := Slot(key, value)];
    assert forall p | 0 <= p < |s| && s[p].key != 0 :: t[p].key != 0;
    forall i | 0 <= i < |t| && t[i].key != 0 ensures Run(t, home(t[i].key), i) {
      assert i != id ==> Run(s, home(s[i].key), i);
    }
    forall i | 0 <= i < |s| && key != 0 && s[i].key == key ensures i == id {
      assert Run(s, home(key), i);
    }
  }

  /** ... and updates the map it stands for; key 0 is never stored. */
  lemma {:induction false} StoreUpdates<V>(s: seq<Slot<V>>, key: nat, value: V, id: nat)
    requires id < |s| && (s[id].key == 0 || s[id].key == key)
    requires Unique(s[id := Slot(key, value)])
    ensures View(s[id := Slot(key, value)]) == if key == 0 then View(s) else View(s)[key := value]
  {
    var n := |s| - 1;
    var t := s[id := Slot(key, value)];
    if id == n {
      assert t[..n] == s[..n];
    } else {
      assert t[..n] == s[..n][id := Slot(key, value)];
      StoreUpdates(s[..n], key, value, id);
      assert key != 0 ==> t[id].key == key && t[n].key != key;
    }
  }

  /** There are no more keys than slots, and fewer keys leave an empty slot. */
  lemma {:induction false} Pigeonhole<V>(s: seq<Slot<V>>)
    requires Unique(s)
    ensures |View(s)| <= |s|
    ensures |View(s)| < |s| ==> HasEmpty(s)
  {
    if s != [] {
      var n := |s| - 1;
      Pigeonhole(s[..n]);
      if s[n].key in View(s[..n]) {
        var i := ViewFrom(s[..n], s[n].key);
      }
      if HasEmpty(s[..n]) {
        var i :| 0 <= i < n && s[..n][i].key == 0;
        assert s[i].key == 0;
      }
    }
  }

  /** A table of empty slots stands for the empty map. */
  lemma {:induction false} ViewEmpty<V>(s: seq<Slot<V>>)
    requires forall i | 0 <= i < |s| :: s[i].key == 0
    ensures View(s) == map[]
  {
    if s != [] {
      ViewEmpty(s[..|s| - 1]);
    }
  }

  /** A prefix holds no key of the rest, and no more keys than the whole. */
  lemma {:induction false} PrefixView<V>(s: seq<Slot<V>>, n: nat)
    requires Unique(s) && n < |s|
    ensures s[n].key != 0 ==> s[n].key !in View(s[..n])
    ensures |View(s[..n])| + (if s[n].key == 0 then 0 else 1) <= |View(s)|
  {
    var m := |s| - 1;
    if s[n].key in View(s[..n]) && s[n].key != 0 {
      var i := ViewFrom(s[..n], s[n].key);
    }
    if n < m {
      PrefixView(s[..m], n);
      assert s[..m][..n] == s[..n];
    }
  }

  // ---- a table of n slots under a given hash function ----

  function HomeOf(hash: nat -> nat, n: nat): nat -> nat
    requires n > 0
  {
    key => hash(key) % n
  }

  /** The slots are a probing table for the map m, whose keys are below `limit`. */
  ghost predicate Holds<V>(s: seq<Slot<V>>, hash: nat -> nat, m: map<nat, V>, limit: nat) {
    && |s| > 0 && Table(s, HomeOf(hash, |s|)) && View(s) == m
    && forall i | 0 <= i < |s| :: s[i].key < limit
  }

  /** What put stores in a map: nothing under key 0, the empty marker. */
  function Updated<V>(m: map<nat, V>, key: nat, value: V): map<nat, V> {
    if key == 0 then m else m[key := value]
  }

  lemma Store<V>(s: seq<Slot<V>>, hash: nat -> nat, m: map<nat, V>, limit: nat, key: nat, value: V, id: nat)
    requires Holds(s, hash, m, limit) && Found(s, HomeOf(hash, |s|), key, id) && key < limit
    ensures Holds(s[id := Slot(key, value)], hash, Updated(m, key, value), limit)
    ensures |Updated(m, key, value)| == |m| + if key != 0 && s[id].key == 0 then 1 else 0
  {
    StoreKeeps(s, HomeOf(hash, |s|), key, value, id);
    StoreUpdates(s, key, value, id);
    if key != 0 {
      FoundDecides(s, HomeOf(hash, |s|), key, id);
    }
  }

  lemma Lookup<V>(s: seq<Slot<V>>, hash: nat -> nat, m: map<nat, V>, limit: nat, key: nat, id: nat)
    requires Holds(s, hash, m, limit) && Found(s, HomeOf(hash, |s|), key, id)
    ensures key in m <==> s[id].key != 0
    ensures key in m ==> m[key] == s[id].value
  {
    if key != 0 {
      FoundDecides(s, HomeOf(hash, |s|), key, id);
    } else {
      NoZero(s);
    }
  }

  lemma HoldsNothing<V>(s: seq<Slot<V>>, hash: nat -> nat, limit: nat)
    requires |s| > 0 && limit > 0 && forall i | 0 <= i < |s| :: s[i].key == 0
    ensures Holds(s, hash, map[], limit)
  {
    ViewEmpty(s);
  }

  lemma Room<V>(s: seq<Slot<V>>, hash: nat -> nat, m: map<nat, V>, limit: nat)
    requires Holds(s, hash, m, limit) && |m| < |s|
    ensures HasEmpty(s)
  {
    Pigeonhole(s);
  }

  /** What copying one more slot adds to the map of the slots copied so far. */
  lemma CopyStep<V>(s: seq<Slot<V>>, hash: nat -> nat, m: map<nat, V>, limit: nat, i: nat)
    requires Holds(s, hash, m, limit) && i < |s|
    ensures View(s[..i + 1]) == Updated(View(s[..i]), s[i].key, s[i].value)
    ensures |View(s[..i])| <= |m|
  {
    PrefixView(s, i);
    assert s[..i + 1][..i] == s[..i];
  }
}
