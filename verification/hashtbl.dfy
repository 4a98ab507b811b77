/** The DNS table of hashtbl.c, in place: pool, chains and free list are changed
    through links, and every call does to the table what DnsSpec says. */
module HashTables {
  import opened Hash
  import opened DnsSpec
  import opened DnsPool

  class HashTable {
    const size: nat
    const table: array<int>
    const entries: array<HashEntry>
    var emptyEntry: int
    ghost var layout: Layout

    ghost function Memory(): Heap
      reads this, table, entries
    {
      Heap(table[..], entries[..], emptyEntry)
    }

    ghost predicate Valid()
      reads this, table, entries
    {
      && size == table.Length == entries.Length > 0
      && Laid(Memory(), layout) && Settled(layout.owner) && Inv(View())
    }

    /** The table as DnsSpec sees it. */
    ghost function View(): Table
      requires Laid(Memory(), layout)
      reads this, table, entries
    {
      Abs(Memory(), layout)
    }

    /** hashtbl_init, once both allocations have succeeded: every entry is free. */
    constructor (size: nat)
      requires size > 0
      ensures Valid() && fresh(table) && fresh(entries)
      ensures View() == Empty(size) && this.size == size
    {
      this.size := size;
      table := new int[size](_ => NULL);
      entries := new HashEntry[size](_ => HashEntry(0, 0, NULL, []));
      emptyEntry := 0;
      layout := FreshLayout(size);
      new;
      ghost var l := layout;
      var i := 0;
      while i < size - 1
        invariant 0 <= i <= size - 1 && layout == l && emptyEntry == 0
        invariant forall j | 0 <= j < size :: entries[j].next == if j < i then j + 1 else NULL
        invariant forall j | 0 <= j < size :: table[j] == NULL
      {
        entries[i] := entries[i].(next := i + 1);
        i := i + 1;
      }
      FreshLaid(Memory(), size);
      EmptyInv(size);
    }

    /** hashtbl_init: 0 and an empty table, or -1 when either allocation fails. */
    static method Init(size: nat, hasTable: bool, hasEntries: bool) returns (status: int, t: HashTable?)
      requires size > 0
      ensures status == if hasTable && hasEntries then 0 else -1
      ensures if status == -1 then t == null
              else t != null && fresh(t) && t.size == size && t.Valid() && t.View() == Empty(size)
    {
      if !hasTable || !hasEntries {
        return -1, null;
      }
      t := new HashTable(size);
      return 0, t;
    }

    /** hashtbl_check: whether the key has an entry that has not reached its expiry. */
    method Check(key: CString, now: int) returns (present: bool)
      requires Valid()
      ensures present == Present(View().chains[Djb2(key) % M64 % size], Djb2(key) % M64, now)
    {
      var hash := HashStr(key);
      var idx := hash % size;
      ghost var list := layout.chains[idx];
      ghost var k: nat := 0;
      var phe := table[idx];
      while phe != NULL
        invariant k <= |list| && phe == First(list[k..])
        invariant forall i | 0 <= i < k :: !(View().chains[idx][i].hash == hash && View().chains[idx][i].expires > now)
        decreases |list| - k
      {
        InPool(Memory(), layout, idx, k);
        DerefPlace(Memory(), layout, idx, k + 1);
        if entries[phe].hash == hash && entries[phe].expires > now {
          assert View().chains[idx][k].hash == hash;
          return true;
        }
        phe := entries[phe].next;
        k := k + 1;
      }
      return false;
    }

    /** The place p now points past entry e, and e heads the free list
        (lines 83-86 and 112-115): the entry reached has been sifted out. */
    method Unlink(p: Place, e: nat, ghost before: seq<seq<Entry>>, ghost b: nat, ghost keep: Entry -> bool,
                  ghost j: nat, ghost k: nat)
      requires size == table.Length == entries.Length
      requires Sifted(Memory(), layout, before, b, keep, j, k) && j < |before[b]| && !keep(before[b][j])
      requires b < size && k < |layout.chains[b]| && p == PlaceOf(layout, b, k) && e == layout.chains[b][k]
      modifies this`emptyEntry, this`layout, table, entries
      ensures Sifted(Memory(), layout, before, b, keep, j + 1, k)
      ensures |layout.free| == |old(layout.free)| + 1
      ensures |layout.chains| == size && k <= |layout.chains[b]| && p == PlaceOf(layout, b, k)
      ensures HeldSame(old(layout.owner), old(entries[..]), layout.owner, entries[..])
    {
      ghost var h, l := Memory(), layout;
      InPool(h, l, b, k);
      SiftedDrop(h, l, before, b, keep, j, k);
      HeldUntouched(h, l, b, k);
      match p {
        case Bucket(i) => table[i] := entries[e].next;
        case NextOf(i) => entries[i] := entries[i].(next := entries[e].next);
      }
      entries[e] := entries[e].(expires := 0, next := emptyEntry);
      emptyEntry := e;
      layout := Unlinked(l, b, k);
      assert Memory() == AfterUnlink(h, l, b, k);
    }

    /** Reading *pphe. */
    method Load(p: Place, ghost b: nat, ghost k: nat) returns (link: int)
      requires size == table.Length == entries.Length && Laid(Memory(), layout)
      requires b < size && k <= |layout.chains[b]| && p == PlaceOf(layout, b, k)
      ensures link == First(layout.chains[b][k..])
    {
      DerefPlace(Memory(), layout, b, k);
      match p {
        case Bucket(i) => return table[i];
        case NextOf(i) => return entries[i].next;
      }
    }

    /** The loop of hashtbl_put (lines 81-90): what would repeat the hash or has
        expired leaves the chain. */
    method Sweep(idx: nat, hash: nat, now: int)
      requires size == table.Length == entries.Length && Laid(Memory(), layout) && idx < size
      modifies this`emptyEntry, this`layout, table, entries
      ensures Laid(Memory(), layout)
      ensures var chain := old(Chains(Memory(), layout))[idx];
        var kept := Sift(chain, Survives(hash, now));
        && Chains(Memory(), layout) == old(Chains(Memory(), layout))[idx := kept]
        && |layout.free| + |kept| == |old(layout.free)| + |chain|
      ensures HeldSame(old(layout.owner), old(entries[..]), layout.owner, entries[..])
    {
      hide Laid, Sifted, HeldSame;
      LaidShape(Memory(), layout);
      HeldRefl(layout, Memory());
      ghost var before := Chains(Memory(), layout);
      ghost var keep := Survives(hash, now);
      ghost var j: nat, k: nat := 0, 0;
      SiftedStart(Memory(), layout, idx, keep);
      var pphe := Bucket(idx);
      var phe := Load(pphe, idx, k);
      while phe != NULL
        invariant Sifted(Memory(), layout, before, idx, keep, j, k)
        invariant |layout.free| + k == |old(layout.free)| + j
        invariant |layout.chains| == size && k <= |layout.chains[idx]| && pphe == PlaceOf(layout, idx, k)
        invariant phe == First(layout.chains[idx][k..])
        invariant HeldSame(old(layout.owner), old(entries[..]), layout.owner, entries[..])
        decreases |before[idx]| - j
      {
        SiftedHere(Memory(), layout, before, idx, keep, j, k);
        if entries[phe].hash == hash || entries[phe].expires < now {
          ghost var owner, es := layout.owner, entries[..];
          Unlink(pphe, phe, before, idx, keep, j, k);
          HeldTrans(old(layout.owner), old(entries[..]), owner, es, layout.owner, entries[..]);
        } else {
          SiftedKeep(Memory(), layout, before, idx, keep, j, k);
          pphe := NextOf(phe);
          k := k + 1;
        }
        j := j + 1;
        phe := Load(pphe, idx, k);
      }
      SiftedHere(Memory(), layout, before, idx, keep, j, k);
      SiftedEnd(Memory(), layout, before, idx, keep, j, k);
    }

    /** hashtbl_put: the two clock readings are arguments. */
    method Put(key: CString, value: Value, expires: int, now1: int, now2: int) returns (status: int)
      requires Valid()
      modifies this`emptyEntry, this`layout, table, entries
      ensures Valid()
      ensures (View(), status) == DnsSpec.Put(old(View()), Entry(Djb2(key) % M64, expires, value), now1, now2)
    {
      hide Laid, Settled, HeldSame, Inv;
      ghost var t := View();
      LaidShape(Memory(), layout);
      FreeHead(Memory(), layout);
      PutInv(t, Entry(Djb2(key) % M64, expires, value), now1, now2);
      if emptyEntry == NULL {
        return 0;
      }
      var present := Check(key, now1);
      if present {
        return 1;
      }
      status := Store(key, value, expires, now2);
      PutIs(t, Entry(Djb2(key) % M64, expires, value), now1, now2, |layout.free|, Chains(Memory(), layout));
    }

    /** The rest of hashtbl_put (lines 65-95), with a free entry in hand. */
    method Store(key: CString, value: Value, expires: int, now2: int) returns (status: int)
      requires Valid() && layout.free != []
      modifies this`emptyEntry, this`layout, table, entries
      ensures Laid(Memory(), layout) && Settled(layout.owner) && status == 1
      ensures var hash := Djb2(key) % M64;
        var before := old(Chains(Memory(), layout));
        var b := hash % size;
        && size == |before|
        && var kept := Sift(before[b], Survives(hash, now2));
        && Chains(Memory(), layout) == before[b := kept][b := [Entry(hash, expires, value)] + before[b := kept][b]]
        && |layout.free| + |kept| == |old(layout.free)| - 1 + |before[b]|
    {
      hide Laid, Settled, HeldSame, Inv;
      LaidShape(Memory(), layout);
      FreeHead(Memory(), layout);
      var hash := HashStr(key);
      var hentry := Take(hash, expires, value);
      var idx := hash % size;
      ghost var es := entries[..];
      Sweep(idx, hash, now2);
      SettledAgain(old(layout.owner), hentry, es, layout.owner, entries[..], idx);
      Hang(idx, hentry);
      return 1;
    }

    /** Lines 65-70: the first free entry is taken and filled in. */
    method Take(hash: nat, expires: int, value: Value) returns (hentry: nat)
      requires size == table.Length == entries.Length && Laid(Memory(), layout) && layout.free != []
      modifies this`emptyEntry, this`layout, entries
      ensures Laid(Memory(), layout) && Chains(Memory(), layout) == old(Chains(Memory(), layout))
      ensures hentry < size && entries[hentry] == HashEntry(hash, expires, NULL, value)
      ensures |layout.free| == |old(layout.free)| - 1 && layout.owner == old(layout.owner)[hentry := -2]
    {
      PopLaid(Memory(), layout, hash, expires, value);
      hentry := emptyEntry;
      emptyEntry := entries[hentry].next;
      entries[hentry] := HashEntry(hash, expires, NULL, value);
      layout := layout.(free := layout.free[1..], owner := layout.owner[hentry := -2]);
      assert Memory() == Popped(old(Memory()), hash, expires, value);
    }

    /** Lines 91-92: the entry goes to the front of its chain. */
    method Hang(idx: nat, hentry: nat)
      requires size == table.Length == entries.Length && Laid(Memory(), layout)
      requires idx < size && hentry < size && layout.owner[hentry] == -2
      modifies this`layout, table, entries
      ensures Laid(Memory(), layout)
      ensures Chains(Memory(), layout) == old(var c := Chains(Memory(), layout);
          c[idx := [Entry(entries[hentry].hash, entries[hentry].expires, entries[hentry].value)] + c[idx]])
      ensures layout == Layout(layout.chains, old(layout.free), old(layout.owner)[hentry := idx])
    {
      ghost var h := Memory();
      HangLaid(h, layout, idx, hentry);
      entries[hentry] := entries[hentry].(next := table[idx]);
      table[idx] := hentry;
      layout := Layout(layout.chains[idx := [hentry] + layout.chains[idx]], layout.free,
                       layout.owner[hentry := idx]);
      assert Memory() == Hung(h, idx, hentry);
    }

    /** hashtbl_get: entries found expired on the way are freed. */
    method Get(key: CString, now: int) returns (found: bool, value: Value)
      requires Valid()
      modifies this`emptyEntry, this`layout, table, entries
      ensures Valid()
      ensures (View(), if found then Some(value) else None) == DnsSpec.Get(old(View()), Djb2(key) % M64, now)
    {
      hide Laid, Sifted, HeldSame, Inv, Settled;
      LaidShape(Memory(), layout);
      ghost var t := View();
      var hash := HashStr(key);
      var idx := hash % size;
      GetInv(t, hash, now);
      ghost var j: nat;
      found, value, j := Search(idx, hash, now);
      GetIs(t, hash, now, j, |layout.free|, Chains(Memory(), layout));
    }

    /** The loop of hashtbl_get (lines 110-123). It stops at entry j, or at the end. */
    method Search(idx: nat, hash: nat, now: int) returns (found: bool, value: Value, ghost j: nat)
      requires size == table.Length == entries.Length && Laid(Memory(), layout) && Settled(layout.owner) && idx < size
      modifies this`emptyEntry, this`layout, table, entries
      ensures Laid(Memory(), layout) && Settled(layout.owner)
      ensures var before := old(Chains(Memory(), layout));
        && |before| == size && j == Hit(before[idx], hash, now)
        && found == (j < |before[idx]|) && (found ==> value == before[idx][j].value)
        && var swept := Sift(before[idx][..j], DnsSpec.Fresh(now));
        && Chains(Memory(), layout) == before[idx := swept + before[idx][j..]]
        && |layout.free| + |swept| == |old(layout.free)| + j
    {
      hide Laid, Sifted, HeldSame, Settled, NoHit, Chains, Read, Sift, Hit;
      LaidShape(Memory(), layout);
      HeldRefl(layout, Memory());
      ghost var before := Chains(Memory(), layout);
      ghost var keep := DnsSpec.Fresh(now);
      ghost var k: nat := 0;
      found, value, j := false, [], 0;
      SiftedStart(Memory(), layout, idx, keep);
      NoHitStart(before[idx], hash, now);
      var pphe := Bucket(idx);
      var phe := Load(pphe, idx, k);
      while phe != NULL
        invariant Sifted(Memory(), layout, before, idx, keep, j, k)
        invariant |layout.free| + k == |old(layout.free)| + j
        invariant |layout.chains| == size && k <= |layout.chains[idx]| && pphe == PlaceOf(layout, idx, k)
        invariant phe == First(layout.chains[idx][k..])
        invariant HeldSame(old(layout.owner), old(entries[..]), layout.owner, entries[..])
        invariant |before| == size && j <= |before[idx]|
        invariant NoHit(before[idx], hash, now, j)
        decreases |before[idx]| - j
      {
        SiftedHere(Memory(), layout, before, idx, keep, j, k);
        if entries[phe].expires < now {
          ghost var owner, es := layout.owner, entries[..];
          Unlink(pphe, phe, before, idx, keep, j, k);
          HeldTrans(old(layout.owner), old(entries[..]), owner, es, layout.owner, entries[..]);
        } else if entries[phe].hash == hash {
          found, value := true, entries[phe].value;
          break;
        } else {
          SiftedKeep(Memory(), layout, before, idx, keep, j, k);
          pphe := NextOf(phe);
          k := k + 1;
        }
        NoHitStep(before[idx], hash, now, j);
        j := j + 1;
        phe := Load(pphe, idx, k);
      }
      SiftedHere(Memory(), layout, before, idx, keep, j, k);
      HitAt(before[idx], hash, now, j);
      SettledStill(old(layout.owner), old(entries[..]), layout.owner, entries[..]);
      SiftedView(Memory(), layout, before, idx, keep, j, k);
    }
  }
}
