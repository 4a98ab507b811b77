/** The cache of client passwords, by the djb2 hash of the application name
    (cache.c:112-188, 208-224). Resizing reinserts hashes as they are. */
module AppCaches {
  import opened Bytes
  import opened Hash
  import opened Probing
  import opened Caches

  /** Keys are hashes already. */
  const AppHash: nat -> nat := key => key

  const FREE: Slot<CString> := Slot(0, [])

  class CacheApp {
    var elements: nat
    var size: nat
    var slots: array<Slot<CString>>
    const hash: nat -> nat             // the identity in the source: keys are hashes

    ghost var model: map<nat, CString> // what the cache holds, by hash of the name
    ghost const initsize: nat
    ghost var scanned: nat             // slots read by resizes so far
    ghost var clean: bool              // no name with hash 0 has been put

    /** The slots hold the model, and the counter covers it. */
    ghost predicate Sound()
      reads this, slots
    {
      && slots.Length == size > 0
      && Holds(slots[..], hash, model, M64)
      && |model| <= elements
      && scanned == size - initsize
    }

    ghost predicate Valid()
      reads this, slots
    {
      && Sound() && elements <= size / 2
      && (clean ==> elements == |model| && size <= Max(initsize, 4 * elements + 2))
    }

    constructor (initsize: nat, hash: nat -> nat)
      requires initsize > 0
      ensures Valid() && fresh(slots)
      ensures model == map[] && elements == 0 && size == initsize == this.initsize && scanned == 0 && clean
      ensures this.hash == hash
    {
      this.initsize := initsize;
      this.hash := hash;
      elements := 0;
      size := initsize;
      slots := new Slot<CString>[initsize](_ => FREE);
      model := map[];
      scanned := 0;
      clean := true;
      new;
      HoldsNothing(slots[..], hash, M64);
    }

    /** cache_initapp under the hash function of the source. */
    static method Init(initsize: nat, hasMemory: bool) returns (c: CacheApp?)
      ensures c == null <==> initsize < 1 || !hasMemory
      ensures c != null ==> c.Valid() && fresh(c) && fresh(c.slots)
      ensures c != null ==> c.model == map[] && c.size == c.initsize == initsize && c.clean && c.hash == AppHash
    {
      c := InitWith(initsize, AppHash, hasMemory);
    }

    /** No cache without memory, or of no slots. */
    static method InitWith(initsize: nat, hash: nat -> nat, hasMemory: bool) returns (c: CacheApp?)
      ensures c == null <==> initsize < 1 || !hasMemory
      ensures c != null ==> c.Valid() && fresh(c) && fresh(c.slots)
      ensures c != null ==> c.model == map[] && c.elements == 0 && c.size == c.initsize == initsize && c.clean && c.hash == hash
    {
      if initsize < 1 || !hasMemory {
        return null;
      }
      c := new CacheApp(initsize, hash);
    }

    /** cache_putapp: the hash of the name is the key. */
    method Put(app: CString, passwd: CString, hasMemory: bool)
      requires Valid()
      modifies this, slots
      ensures Valid() && (slots == old(slots) || fresh(slots))
      ensures old(elements >= size / 2) && !hasMemory ==>
        model == old(model) && elements == old(elements) && size == old(size) && clean == old(clean)
      ensures old(elements < size / 2) || hasMemory ==>
        && model == Updated(old(model), Djb2(app) % M64, passwd)
        && size == (if old(elements < size / 2) then old(size) else 2 * old(size))
        && clean == (old(clean) && Djb2(app) % M64 != 0)
    {
      hide Holds, Updated;
      if elements >= size / 2 {
        var ok := Resize(size * 2, hasMemory);
        if !ok {
          return;
        }
      }
      var key := HashStr(app);
      PutHash(key, passwd);
    }

    /** cache_putapp_hash, when there is room. */
    method PutHash(key: nat, passwd: CString)
      requires Sound() && elements < size / 2 && key < M64
      modifies this`elements, this`model, this`clean, slots
      ensures Sound() && model == Updated(old(model), key, passwd)
      ensures elements == old(elements) + if key == 0 || key !in old(model) then 1 else 0
      ensures |model| == |old(model)| + if key != 0 && key !in old(model) then 1 else 0
      ensures clean == (old(clean) && key != 0)
    {
      hide Holds, HasEmpty, Found, Updated;
      ghost var s := slots[..];
      Room(s, hash, model, M64);
      var id := Probe(slots, hash, key);
      Store(s, hash, model, M64, key, passwd, id);
      Lookup(s, hash, model, M64, key, id);
      if slots[id].key == 0 {
        elements := elements + 1;
      }
      slots[id] := Slot(key, passwd);
      assert slots[..] == s[id := Slot(key, passwd)];
      model := Updated(model, key, passwd);
      clean := clean && key != 0;
    }

    /** cache_resizeapp: the same map in twice the slots, counted anew. */
    method Resize(newsize: nat, hasMemory: bool) returns (ok: bool)
      requires Valid() && newsize == 2 * size
      modifies this
      ensures ok == hasMemory
      ensures !ok ==> unchanged(this)
      ensures ok ==> Sound() && fresh(slots) && elements == |model| && size == newsize
      ensures model == old(model) && clean == old(clean)
    {
      hide Holds;
      var temp := InitWith(newsize, hash, hasMemory);
      if temp == null {
        return false;
      }
      CopyInto(temp);
      elements := temp.elements;
      scanned := scanned + size;
      size := temp.size;
      slots := temp.slots;
      return true;
    }

    /** The loop of cache_resizeapp (lines 119-125). */
    method CopyInto(temp: CacheApp)
      requires Valid() && temp.Sound() && temp.model == map[] && temp.elements == 0 && temp.hash == hash
      requires temp.size == 2 * size && this != temp && slots != temp.slots
      modifies temp`elements, temp`model, temp`clean, temp.slots
      ensures temp.Sound() && temp.model == model && temp.elements == |model|
    {
      ghost var s := slots[..];
      var i := 0;
      while i < size
        invariant i <= size
        invariant temp.Sound() && temp.elements == |temp.model|
        invariant temp.model == View(s[..i])
      {
        CopyStep(s, hash, model, M64, i);
        assert slots[i] == s[i];
        if slots[i].key != 0 {
          temp.PutHash(slots[i].key, slots[i].value);
        }
        i := i + 1;
      }
      assert s[..i] == s;
    }

    /** cache_getapp: succeeds exactly on the names whose hash the cache holds. */
    method Get(app: CString) returns (found: bool, passwd: CString)
      requires Valid()
      ensures found <==> Djb2(app) % M64 in model
      ensures found ==> passwd == model[Djb2(app) % M64]
    {
      var key := HashStr(app);
      Room(slots[..], hash, model, M64);
      var id := Probe(slots, hash, key);
      Lookup(slots[..], hash, model, M64, key, id);
      if slots[id].key != 0 {
        return true, slots[id].value;
      }
      return false, [];
    }
  }
}
