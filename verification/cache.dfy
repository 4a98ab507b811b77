/** The credential caches of cache.c: open addressing with linear probing,
    doubling when half full. A failed allocation is an argument of the call. */
module Caches {
  import opened Bytes
  import opened Hash
  import opened Probing

  datatype Creds = Null | Creds(user: CString, passwd: CString)

  /** The probe loop that put and get share (cache.c:71-73, 96-97, 137-139, 176-177). */
  method Probe<V>(slots: array<Slot<V>>, hash: nat -> nat, key: nat) returns (id: nat)
    requires slots.Length > 0 && HasEmpty(slots[..])
    ensures Found(slots[..], HomeOf(hash, slots.Length), key, id)
  {
    var n := slots.Length;
    ghost var home := HomeOf(hash, n);
    ghost var s := slots[..];
    ghost var e :| 0 <= e < |s| && s[e].key == 0;
    id := hash(key) % n;
    while slots[id].key != 0 && slots[id].key != key
      invariant id < n
      invariant Run(s, home(key), id)
      invariant forall p | 0 <= p < n && Dist(home(key), p, n) < Dist(home(key), id, n) :: s[p].key != key
      invariant Dist(home(key), id, n) <= Dist(home(key), e, n)
      decreases n - Dist(home(key), id, n)
    {
      assert id != e;
      NextSlot(home(key), id, n);
      id := (id + 1) % n;
    }
  }

  /** The next slot round is one further from home, until home comes again. */
  lemma NextSlot(h: nat, id: nat, n: nat)
    requires h < n && id < n
    ensures (id + 1) % n == if id + 1 == n then 0 else id + 1
    ensures Dist(h, id, n) < n - 1 ==> Dist(h, (id + 1) % n, n) == Dist(h, id, n) + 1
  {
    if id + 1 == n {
      ModUnique(id + 1, n, 1, 0);
    } else {
      ModUnique(id + 1, n, 0, id + 1);
    }
  }

  // ---- the cache of upstream credentials, by address (cache.c:37-110, 190-206) ----

  /** Where cache_ip looks for an address first. */
  const IpHash: nat -> nat := key => Hash32(key % M32)

  class CacheIp {
    var elements: nat
    var size: nat
    var slots: array<Slot<Creds>>
    const hash: nat -> nat            // hash32 in the source

    ghost var model: map<nat, Creds>  // what the cache holds
    ghost const initsize: nat
    ghost var scanned: nat            // slots read by resizes so far
    ghost var clean: bool             // key 0 has never been put

    /** The slots hold the model, and the counter covers it. */
    ghost predicate Sound()
      reads this, slots
    {
      && slots.Length == size > 0
      && Holds(slots[..], hash, model, M32)
      && |model| <= elements
      && scanned == size - initsize
    }

    ghost predicate Valid()
      reads this, slots
    {
      && Sound() && elements <= size / 2
      && (clean ==> elements == |model| && size <= Max(initsize, 4 * elements + 2))
    }

    constructor (initsize: nat, hash: nat -> nat)
      requires initsize > 0
      ensures Valid() && fresh(slots)
      ensures model == map[] && elements == 0 && size == initsize == this.initsize && scanned == 0 && clean
      ensures this.hash == hash
    {
      this.initsize := initsize;
      this.hash := hash;
      elements := 0;
      size := initsize;
      slots := new Slot<Creds>[initsize](_ => Slot(0, Null));
      model := map[];
      scanned := 0;
      clean := true;
      new;
      HoldsNothing(slots[..], hash, M32);
    }

    /** cache_initip under the hash function of the source. */
    static method Init(initsize: nat, hasMemory: bool) returns (c: CacheIp?)
      ensures c == null <==> initsize < 1 || !hasMemory
      ensures c != null ==> c.Valid() && fresh(c) && fresh(c.slots)
      ensures c != null ==> c.model == map[] && c.size == c.initsize == initsize && c.clean && c.hash == IpHash
    {
      c := InitWith(initsize, IpHash, hasMemory);
    }

    /** No cache without memory, or of no slots. */
    static method InitWith(initsize: nat, hash: nat -> nat, hasMemory: bool) returns (c: CacheIp?)
      ensures c == null <==> initsize < 1 || !hasMemory
      ensures c != null ==> c.Valid() && fresh(c) && fresh(c.slots)
      ensures c != null ==> c.model == map[] && c.elements == 0 && c.size == c.initsize == initsize && c.clean && c.hash == hash
    {
      if initsize < 1 || !hasMemory {
        return null;
      }
      c := new CacheIp(initsize, hash);
    }

    /** cache_putip. Only a resize can fail, and then nothing changes. That the
        inner calls of a resize never resize again is what makes this terminate. */
    method Put(key: Word, creds: Creds, hasMemory: bool)
      requires Valid()
      modifies this, slots
      ensures Valid() && (slots == old(slots) || fresh(slots))
      ensures old(elements >= size / 2) && !hasMemory ==>
        model == old(model) && elements == old(elements) && size == old(size) && clean == old(clean)
      ensures old(elements < size / 2) || hasMemory ==>
        && model == Updated(old(model), key, creds)
        && size == (if old(elements < size / 2) then old(size) else 2 * old(size))
        && clean == (old(clean) && key != 0)
      decreases if elements >= size / 2 then 3 else 0
    {
      hide Holds, Updated;
      if elements >= size / 2 {
        var ok := Resize(size * 2, hasMemory);
        if !ok {
          return;
        }
      }
      Insert(key, creds);
    }

    /** The second half of cache_putip (lines 70-83), when there is room. */
    method Insert(key: Word, creds: Creds)
      requires Sound() && elements < size / 2
      modifies this`elements, this`model, this`clean, slots
      ensures Sound() && model == Updated(old(model), key, creds)
      ensures elements == old(elements) + if key == 0 || key !in old(model) then 1 else 0
      ensures |model| == |old(model)| + if key != 0 && key !in old(model) then 1 else 0
      ensures clean == (old(clean) && key != 0)
      decreases 0
    {
      hide Holds, HasEmpty, Found, Updated;
      ghost var s := slots[..];
      Room(s, hash, model, M32);
      var id := Probe(slots, hash, key);
      Store(s, hash, model, M32, key, creds, id);
      Lookup(s, hash, model, M32, key, id);
      if slots[id].key == 0 {
        elements := elements + 1;
      }
      slots[id] := Slot(key, creds);
      assert slots[..] == s[id := Slot(key, creds)];
      model := Updated(model, key, creds);
      clean := clean && key != 0;
    }

    /** cache_resizeip: the same map in twice the slots, counted anew. */
    method Resize(newsize: nat, hasMemory: bool) returns (ok: bool)
      requires Valid() && newsize == 2 * size
      modifies this
      ensures ok == hasMemory
      ensures !ok ==> unchanged(this)
      ensures ok ==> Sound() && fresh(slots) && elements == |model| && size == newsize
      ensures model == old(model) && clean == old(clean)
      decreases 2
    {
      hide Holds;
      var temp := InitWith(newsize, hash, hasMemory);
      if temp == null {
        return false;
      }
      CopyInto(temp);
      elements := temp.elements;
      scanned := scanned + size;
      size := temp.size;
      slots := temp.slots;
      return true;
    }

    /** The loop of cache_resizeip (lines 44-51). */
    method CopyInto(temp: CacheIp)
      requires Valid() && temp.Valid() && temp.model == map[] && temp.clean
      requires temp.size == 2 * size && this != temp && slots != temp.slots && temp.hash == hash
      modifies temp, temp.slots
      ensures temp.Valid() && temp.model == model && temp.clean && temp.size == old(temp.size)
      ensures temp.slots == old(temp.slots) || fresh(temp.slots)
      decreases 1
    {
      ghost var s := slots[..];
      var i := 0;
      while i < size
        invariant i <= size
        invariant temp.Valid() && temp.clean && temp.size == 2 * size
        invariant temp.slots == old(temp.slots) || fresh(temp.slots)
        invariant temp.model == View(s[..i])
      {
        CopyStep(s, hash, model, M32, i);
        assert slots[i] == s[i];
        if slots[i].key != 0 {
          temp.Put(slots[i].key, slots[i].value, true);
        }
        i := i + 1;
      }
      assert s[..i] == s;
    }

    /** cache_getip: succeeds exactly on the keys the cache holds. */
    method Get(key: Word) returns (found: bool, creds: Creds)
      requires Valid()
      ensures found <==> key in model
      ensures found ==> creds == model[key]
    {
      Room(slots[..], hash, model, M32);
      var id := Probe(slots, hash, key);
      Lookup(slots[..], hash, model, M32, key, id);
      if slots[id].key != 0 {
        return true, slots[id].value;
      }
      return false, Null;
    }
  }
}
