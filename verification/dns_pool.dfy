/** The memory of the DNS table: a fixed pool of entries, threaded by `next` into
    one chain a bucket and a free list. Links are positions in the pool. */
module DnsPool {
  import opened DnsSpec

  const NULL := -1

  datatype HashEntry = HashEntry(hash: nat, expires: int, next: int, value: Value)

  /** What `struct hash_entry **` may point to: a bucket, or an entry's `next`. */
  datatype Place = Bucket(b: nat) | NextOf(e: nat)

  datatype Heap = Heap(table: seq<int>, entries: seq<HashEntry>, empty: int)

  /** Which entries hang where, in order, and where each entry is:
      on the chain of bucket owner[e], free (-1), or held by hashtbl_put (-2). */
  datatype Layout = Layout(chains: seq<seq<nat>>, free: seq<nat>, owner: seq<int>)

  function First(list: seq<nat>): int { if list == [] then NULL else list[0] }

  /** Following `next` from `head` visits `list`, and stops. */
  ghost predicate Linked(es: seq<HashEntry>, head: int, list: seq<nat>) {
    && head == First(list)
    && forall i: nat | i < |list| :: list[i] < |es| && es[list[i]].next == NextIn(list, i)
  }

  function NextIn(list: seq<nat>, i: nat): int {
    if i + 1 < |list| then list[i + 1] else NULL
  }

  ghost predicate Distinct(list: seq<nat>) {
    forall i, j | 0 <= i < j < |list| :: list[i] != list[j]
  }

  /** The entries `list` are exactly those that `owner` assigns to `b`, once each. */
  ghost predicate Owns(owner: seq<int>, b: int, list: seq<nat>) {
    && Distinct(list)
    && forall e: nat :: e in list <==> e < |owner| && owner[e] == b
  }

  /** The heap is laid out so: chains and free list are acyclic, disjoint, and
      hold every entry of the pool but one held by hashtbl_put. */
  ghost predicate Laid(h: Heap, l: Layout) {
    && |h.table| == |h.entries| == |l.chains| == |l.owner|
    && (forall b | 0 <= b < |l.chains| :: Linked(h.entries, h.table[b], l.chains[b]) && Owns(l.owner, b, l.chains[b]))
    && Linked(h.entries, h.empty, l.free) && Owns(l.owner, -1, l.free)
    && (forall e | 0 <= e < |l.owner| :: -2 <= l.owner[e] < |l.chains|)
  }

  lemma LaidShape(h: Heap, l: Layout)
    requires Laid(h, l)
    ensures |h.table| == |h.entries| == |l.chains| == |l.owner|
  {
  }

  // ---- what the table stands for ----

  function Read(es: seq<HashEntry>, list: seq<nat>): seq<Entry>
    requires forall i | 0 <= i < |list| :: list[i] < |es|
  {
    seq(|list|, i requires 0 <= i < |list| => Entry(es[list[i]].hash, es[list[i]].expires, es[list[i]].value))
  }

  ghost function Chains(h: Heap, l: Layout): seq<seq<Entry>>
    requires Laid(h, l)
  {
    seq(|l.chains|, b requires 0 <= b < |l.chains| => Read(h.entries, l.chains[b]))
  }

  ghost function Abs(h: Heap, l: Layout): Table
    requires Laid(h, l)
  {
    Table(|l.free|, Chains(h, l))
  }

  // ---- lists under change of an entry elsewhere ----

  lemma Elsewhere(es: seq<HashEntry>, e: nat, x: HashEntry, head: int, list: seq<nat>)
    requires Linked(es, head, list) && e < |es| && e !in list
    ensures Linked(es[e := x], head, list) && Read(es[e := x], list) == Read(es, list)
  {
  }

  // ---- lines 83-86 and 112-115: *pphe = phe->next, then phe goes to the free list ----

  function Deref(h: Heap, p: Place): int
    requires match p case Bucket(b) => b < |h.table| case NextOf(e) => e < |h.entries|
  {
    match p case Bucket(b) => h.table[b] case NextOf(e) => h.entries[e].next
  }

  function Assign(h: Heap, p: Place, link: int): Heap
    requires match p case Bucket(b) => b < |h.table| case NextOf(e) => e < |h.entries|
  {
    match p
    case Bucket(b) => h.(table := h.table[b := link])
    case NextOf(e) => h.(entries := h.entries[e := h.entries[e].(next := link)])
  }

  function Freed(h: Heap, e: nat): Heap
    requires e < |h.entries|
  {
    h.(entries := h.entries[e := h.entries[e].(expires := 0, next := h.empty)], empty := e)
  }

  function Without(list: seq<nat>, k: nat): seq<nat>
    requires k < |list|
  {
    list[..k] + list[k + 1..]
  }

  function Unlinked(l: Layout, b: nat, k: nat): Layout
    requires b < |l.chains| && k < |l.chains[b]| && l.chains[b][k] < |l.owner|
  {
    var e := l.chains[b][k];
    Layout(l.chains[b := Without(l.chains[b], k)], [e] + l.free, l.owner[e := -1])
  }

  /** The place that holds the k-th link of bucket b. */
  function PlaceOf(l: Layout, b: nat, k: nat): Place
    requires b < |l.chains| && k <= |l.chains[b]|
  {
    if k == 0 then Bucket(b) else NextOf(l.chains[b][k - 1])
  }

  lemma DerefPlace(h: Heap, l: Layout, b: nat, k: nat)
    requires Laid(h, l) && b < |l.chains| && k <= |l.chains[b]|
    ensures match PlaceOf(l, b, k) case Bucket(b) => b < |h.table| case NextOf(e) => e < |h.entries|
    ensures Deref(h, PlaceOf(l, b, k)) == First(l.chains[b][k..])
  {
    var c := l.chains[b];
    assert Linked(h.entries, h.table[b], c);
    if k > 0 {
      assert h.entries[c[k - 1]].next == NextIn(c, k - 1);
    }
  }

  /** Bypassing the k-th entry of a list: what is then linked ... */
  lemma Bypass(es: seq<HashEntry>, head: int, list: seq<nat>, k: nat)
    requires Linked(es, head, list) && Distinct(list) && k < |list|
    ensures list[k] < |es| && (k > 0 ==> list[k - 1] < |es|)
    ensures Linked(Bypassed(es, list, k), if k == 0 then es[list[k]].next else head, Without(list, k))
    ensures list[k] !in Without(list, k)
  {
    var w := Without(list, k);
    var es' := Bypassed(es, list, k);
    assert es[list[k]].next == NextIn(list, k);
    forall i: nat | i < |w| ensures w[i] < |es'| && es'[w[i]].next == NextIn(w, i) {
      var o := if i < k then i else i + 1;
      assert w[i] == list[o] && es[list[o]].next == NextIn(list, o);
    }
  }

  function Bypassed(es: seq<HashEntry>, list: seq<nat>, k: nat): seq<HashEntry>
    requires k < |list| && list[k] < |es| && (k > 0 ==> list[k - 1] < |es|)
  {
    if k == 0 then es else es[list[k - 1] := es[list[k - 1]].(next := es[list[k]].next)]
  }

  /** ... and what is then read. */
  lemma BypassReads(es: seq<HashEntry>, list: seq<nat>, k: nat)
    requires k < |list| && forall i | 0 <= i < |list| :: list[i] < |es|
    ensures Read(Bypassed(es, list, k), Without(list, k)) == Read(es, list)[..k] + Read(es, list)[k + 1..]
  {
  }

  lemma OwnsWithout(owner: seq<int>, b: int, list: seq<nat>, k: nat)
    requires Owns(owner, b, list) && k < |list| && b != -1
    ensures list[k] < |owner| && Owns(owner[list[k] := -1], b, Without(list, k))
  {
    var w := Without(list, k);
    assert list[k] in list;
    forall e: nat ensures e in w <==> e in list && e != list[k] {
      if e in list && e != list[k] {
        var i :| 0 <= i < |list| && list[i] == e;
        assert w[if i < k then i else i - 1] == e;
      }
    }
  }

  lemma OwnsMore(owner: seq<int>, b: int, list: seq<nat>, e: nat)
    requires Owns(owner, b, list) && e < |owner| && owner[e] != b
    ensures Owns(owner[e := b], b, [e] + list)
  {
  }

  lemma OwnsElse(owner: seq<int>, b: int, list: seq<nat>, e: nat, c: int)
    requires Owns(owner, b, list) && e < |owner| && owner[e] != b
    ensures c != b ==> Owns(owner[e := c], b, list)
  {
  }

  /** The heap after lines 83-86 on the k-th entry of bucket b. */
  function AfterUnlink(h: Heap, l: Layout, b: nat, k: nat): Heap
    requires b < |l.chains| && k < |l.chains[b]| && b < |h.table|
    requires l.chains[b][k] < |h.entries| && (k > 0 ==> l.chains[b][k - 1] < |h.entries|)
  {
    var e := l.chains[b][k];
    Freed(Assign(h, PlaceOf(l, b, k), h.entries[e].next), e)
  }

  lemma InPool(h: Heap, l: Layout, b: nat, k: nat)
    requires Laid(h, l) && b < |l.chains| && k < |l.chains[b]|
    ensures l.chains[b][k] < |h.entries| && (k > 0 ==> l.chains[b][k - 1] < |h.entries|)
    ensures l.owner[l.chains[b][k]] == b
  {
    assert Linked(h.entries, h.table[b], l.chains[b]);
    assert l.chains[b][k] in l.chains[b];
  }

  /** Unlinking and freeing the k-th entry of bucket b, on its own two lists. */
  lemma UnlinkOwn(h: Heap, l: Layout, b: nat, k: nat)
    requires Laid(h, l) && b < |l.chains| && k < |l.chains[b]|
    requires l.chains[b][k] < |h.entries| && (k > 0 ==> l.chains[b][k - 1] < |h.entries|)
    ensures var h' := AfterUnlink(h, l, b, k);
      var l' := Unlinked(l, b, k);
      var chain := Read(h.entries, l.chains[b]);
      && Linked(h'.entries, h'.table[b], l'.chains[b]) && Owns(l'.owner, b, l'.chains[b])
      && Linked(h'.entries, h'.empty, l'.free) && Owns(l'.owner, -1, l'.free)
      && Read(h'.entries, l'.chains[b]) == chain[..k] + chain[k + 1..]
  {
    var list := l.chains[b];
    var e := list[k];
    InPool(h, l, b, k);
    Bypass(h.entries, h.table[b], list, k);
    BypassReads(h.entries, list, k);
    OwnsWithout(l.owner, b, list, k);
    OwnsMore(l.owner, -1, l.free, e);
    var h1 := Assign(h, PlaceOf(l, b, k), h.entries[e].next);
    assert h1.entries == Bypassed(h.entries, list, k);
    Elsewhere(h1.entries, e, Freed(h1, e).entries[e], h1.table[b], Without(list, k));
    Apart(h, l, b, k, -1, h.empty, l.free);
  }

  /** Unlinking and freeing the k-th entry of bucket b, in the whole pool. */
  lemma UnlinkLaid(h: Heap, l: Layout, b: nat, k: nat)
    requires Laid(h, l) && b < |l.chains| && k < |l.chains[b]|
    requires l.chains[b][k] < |h.entries| && (k > 0 ==> l.chains[b][k - 1] < |h.entries|)
    ensures var h' := AfterUnlink(h, l, b, k);
      var l' := Unlinked(l, b, k);
      var chain := Read(h.entries, l.chains[b]);
      && Laid(h', l')
      && Chains(h', l') == Chains(h, l)[b := chain[..k] + chain[k + 1..]]
  {
    UnlinkOwn(h, l, b, k);
    forall c: nat | c < |l.chains| && c != b
      ensures Linked(AfterUnlink(h, l, b, k).entries, AfterUnlink(h, l, b, k).table[c], l.chains[c])
      ensures Owns(Unlinked(l, b, k).owner, c, l.chains[c])
      ensures Read(AfterUnlink(h, l, b, k).entries, l.chains[c]) == Read(h.entries, l.chains[c])
    {
      Apart(h, l, b, k, c, h.table[c], l.chains[c]);
    }
  }

  /** A list other than the chain of bucket b does not notice. */
  lemma Apart(h: Heap, l: Layout, b: nat, k: nat, c: int, head: int, list: seq<nat>)
    requires |l.owner| == |h.entries| && b < |h.table| == |l.chains| && Owns(l.owner, b, l.chains[b])
    requires k < |l.chains[b]| && c != b
    requires Linked(h.entries, head, list) && Owns(l.owner, c, list)
    requires l.chains[b][k] < |h.entries| && (k > 0 ==> l.chains[b][k - 1] < |h.entries|)
    ensures var h' := AfterUnlink(h, l, b, k);
      && Linked(h'.entries, head, list) && Read(h'.entries, list) == Read(h.entries, list)
      && (c != -1 ==> Owns(l.owner[l.chains[b][k] := -1], c, list))
  {
    var e := l.chains[b][k];
    assert e in l.chains[b];
    OwnsElse(l.owner, c, list, e, -1);
    var h1 := Assign(h, PlaceOf(l, b, k), h.entries[e].next);
    if k > 0 {
      var p := l.chains[b][k - 1];
      assert p in l.chains[b];
      Elsewhere(h.entries, p, h1.entries[p], head, list);
    }
    Elsewhere(h1.entries, e, Freed(h1, e).entries[e], head, list);
  }

  // ---- part-way through a chain ----

  /** The first j entries of bucket b have been sifted, and k of them kept. */
  ghost predicate Sifted(h: Heap, l: Layout, before: seq<seq<Entry>>, b: nat, keep: Entry -> bool, j: nat, k: nat) {
    && Laid(h, l) && b < |before| && j <= |before[b]|
    && k == |Sift(before[b][..j], keep)|
    && Chains(h, l) == before[b := Sift(before[b][..j], keep) + before[b][j..]]
  }

  lemma SiftedStart(h: Heap, l: Layout, b: nat, keep: Entry -> bool)
    requires Laid(h, l) && b < |l.chains|
    ensures Sifted(h, l, Chains(h, l), b, keep, 0, 0) && |Chains(h, l)| == |l.chains|
  {
    var chain := Chains(h, l)[b];
    assert [] + chain[0..] == chain;
  }

  /** The link reached is null exactly at the end; before it, it leads to entry j. */
  lemma SiftedHere(h: Heap, l: Layout, before: seq<seq<Entry>>, b: nat, keep: Entry -> bool, j: nat, k: nat)
    requires Sifted(h, l, before, b, keep, j, k)
    ensures Laid(h, l) && b < |before| == |l.chains| == |h.entries| && k <= |l.chains[b]| && j <= |before[b]|
    ensures First(l.chains[b][k..]) == NULL <==> j == |before[b]|
    ensures j < |before[b]| ==>
      && k < |l.chains[b]| && First(l.chains[b][k..]) == l.chains[b][k]
      && l.chains[b][k] < |h.entries| && (k > 0 ==> l.chains[b][k - 1] < |h.entries|)
      && var x := h.entries[l.chains[b][k]]; before[b][j] == Entry(x.hash, x.expires, x.value)
  {
    var here := Sift(before[b][..j], keep) + before[b][j..];
    assert Chains(h, l)[b] == here && |here| == |l.chains[b]|;
    if j < |before[b]| {
      InPool(h, l, b, k);
      assert here[k] == before[b][j];
    }
  }

  lemma SiftedEnd(h: Heap, l: Layout, before: seq<seq<Entry>>, b: nat, keep: Entry -> bool, j: nat, k: nat)
    requires Sifted(h, l, before, b, keep, j, k) && j == |before[b]|
    ensures Chains(h, l) == before[b := Sift(before[b], keep)] && k == |Sift(before[b], keep)|
  {
    assert before[b][..j] == before[b];
    assert Sift(before[b], keep) + before[b][j..] == Sift(before[b], keep);
  }

  lemma SiftedView(h: Heap, l: Layout, before: seq<seq<Entry>>, b: nat, keep: Entry -> bool, j: nat, k: nat)
    requires Sifted(h, l, before, b, keep, j, k)
    ensures Laid(h, l) && b < |before| && j <= |before[b]| && k == |Sift(before[b][..j], keep)|
    ensures Chains(h, l) == before[b := Sift(before[b][..j], keep) + before[b][j..]]
  {
  }

  lemma SiftedKeep(h: Heap, l: Layout, before: seq<seq<Entry>>, b: nat, keep: Entry -> bool, j: nat, k: nat)
    requires Sifted(h, l, before, b, keep, j, k) && j < |before[b]| && keep(before[b][j])
    ensures Sifted(h, l, before, b, keep, j + 1, k + 1)
  {
    var chain := before[b];
    SiftStep(chain, j, keep);
    assert Sift(chain[..j], keep) + chain[j..] == (Sift(chain[..j], keep) + [chain[j]]) + chain[j + 1..];
  }

  lemma SiftedDrop(h: Heap, l: Layout, before: seq<seq<Entry>>, b: nat, keep: Entry -> bool, j: nat, k: nat)
    requires Sifted(h, l, before, b, keep, j, k) && j < |before[b]| && !keep(before[b][j])
    requires b < |l.chains| && k < |l.chains[b]|
    requires l.chains[b][k] < |h.entries| && (k > 0 ==> l.chains[b][k - 1] < |h.entries|)
    ensures Sifted(AfterUnlink(h, l, b, k), Unlinked(l, b, k), before, b, keep, j + 1, k)
  {
    UnlinkLaid(h, l, b, k);
    SiftedChains(Chains(h, l), before, b, keep, j, k);
  }

  lemma SiftedChains(now: seq<seq<Entry>>, before: seq<seq<Entry>>, b: nat, keep: Entry -> bool, j: nat, k: nat)
    requires b < |before| && j < |before[b]| && !keep(before[b][j]) && k == |Sift(before[b][..j], keep)|
    requires now == before[b := Sift(before[b][..j], keep) + before[b][j..]]
    ensures k < |now[b]| && k == |Sift(before[b][..j + 1], keep)|
    ensures now[b := now[b][..k] + now[b][k + 1..]]
         == before[b := Sift(before[b][..j + 1], keep) + before[b][j + 1..]]
  {
    var chain := before[b];
    SiftStep(chain, j, keep);
    DropMiddle(Sift(chain[..j], keep), chain[j..]);
    assert chain[j..][1..] == chain[j + 1..];
    var rest := now[b][..k] + now[b][k + 1..];
    assert rest == Sift(chain[..j + 1], keep) + chain[j + 1..];
    assert now[b := rest] == before[b := rest];
  }

  lemma DropMiddle(kept: seq<Entry>, rest: seq<Entry>)
    requires rest != []
    ensures (kept + rest)[..|kept|] + (kept + rest)[|kept| + 1..] == kept + rest[1..]
  {
  }

  /** hashtbl_put still holds what it held, unchanged. */
  ghost predicate HeldSame(owner0: seq<int>, es0: seq<HashEntry>, owner: seq<int>, es: seq<HashEntry>) {
    && |owner| == |owner0| == |es| == |es0|
    && (forall x | 0 <= x < |es0| :: owner[x] == -2 <==> owner0[x] == -2)
    && (forall x | 0 <= x < |es0| && owner0[x] == -2 :: es[x] == es0[x])
  }

  lemma HeldRefl(l: Layout, h: Heap)
    requires Laid(h, l)
    ensures HeldSame(l.owner, h.entries, l.owner, h.entries)
  {
  }

  lemma HeldTrans(o0: seq<int>, es0: seq<HashEntry>, o1: seq<int>, es1: seq<HashEntry>, o2: seq<int>, es2: seq<HashEntry>)
    requires HeldSame(o0, es0, o1, es1) && HeldSame(o1, es1, o2, es2)
    ensures HeldSame(o0, es0, o2, es2)
  {
  }

  /** An entry that hashtbl_put holds does not change when others are unlinked. */
  lemma HeldUntouched(h: Heap, l: Layout, b: nat, k: nat)
    requires Laid(h, l) && b < |l.chains| && k < |l.chains[b]|
    requires l.chains[b][k] < |h.entries| && (k > 0 ==> l.chains[b][k - 1] < |h.entries|)
    ensures HeldSame(l.owner, h.entries, Unlinked(l, b, k).owner, AfterUnlink(h, l, b, k).entries)
  {
    assert l.chains[b][k] in l.chains[b];
    assert k > 0 ==> l.chains[b][k - 1] in l.chains[b];
  }

  // ---- lines 65-70: an entry leaves the free list, filled in ----

  function Popped(h: Heap, hash: nat, expires: int, value: Value): Heap
    requires 0 <= h.empty < |h.entries|
  {
    h.(empty := h.entries[h.empty].next,
       entries := h.entries[h.empty := HashEntry(hash, expires, NULL, value)])
  }

  lemma PopLaid(h: Heap, l: Layout, hash: nat, expires: int, value: Value)
    requires Laid(h, l) && l.free != []
    ensures h.empty == l.free[0] < |h.entries| && |l.owner| == |h.entries|
    ensures var e := l.free[0];
      var h' := Popped(h, hash, expires, value);
      var l' := l.(free := l.free[1..], owner := l.owner[e := -2]);
      && Laid(h', l') && Chains(h', l') == Chains(h, l)
  {
    var e := l.free[0];
    assert e in l.free;
    var h' := Popped(h, hash, expires, value);
    forall c | 0 <= c < |l.chains|
      ensures Linked(h'.entries, h'.table[c], l.chains[c]) && Owns(l.owner[e := -2], c, l.chains[c])
      ensures Read(h'.entries, l.chains[c]) == Read(h.entries, l.chains[c])
    {
      Elsewhere(h.entries, e, h'.entries[e], h.table[c], l.chains[c]);
      OwnsElse(l.owner, c, l.chains[c], e, -2);
    }
    FreeTail(h, l);
    Elsewhere(h.entries, e, h'.entries[e], h'.empty, l.free[1..]);
  }

  lemma FreeTail(h: Heap, l: Layout)
    requires Laid(h, l) && l.free != []
    ensures l.free[0] < |h.entries| && l.free[0] !in l.free[1..]
    ensures Linked(h.entries, h.entries[l.free[0]].next, l.free[1..])
    ensures Owns(l.owner[l.free[0] := -2], -1, l.free[1..])
  {
    var tail := l.free[1..];
    assert l.free == [l.free[0]] + tail;
    assert h.entries[l.free[0]].next == NextIn(l.free, 0);
    forall i: nat | i < |tail|
      ensures tail[i] < |h.entries| && h.entries[tail[i]].next == NextIn(tail, i)
    {
      assert h.entries[l.free[i + 1]].next == NextIn(l.free, i + 1);
    }
  }

  // ---- lines 91-92: the entry goes to the front of its chain ----

  function Hung(h: Heap, b: nat, e: nat): Heap
    requires b < |h.table| && e < |h.entries|
  {
    h.(entries := h.entries[e := h.entries[e].(next := h.table[b])], table := h.table[b := e])
  }

  lemma HangLaid(h: Heap, l: Layout, b: nat, e: nat)
    requires Laid(h, l) && b < |l.chains| && e < |l.owner| && l.owner[e] == -2
    ensures var h' := Hung(h, b, e);
      var l' := l.(chains := l.chains[b := [e] + l.chains[b]], owner := l.owner[e := b]);
      && Laid(h', l')
      && Chains(h', l') == Chains(h, l)[b :=
           [Entry(h.entries[e].hash, h.entries[e].expires, h.entries[e].value)] + Chains(h, l)[b]]
  {
    forall c: nat | c < |l.chains|
      ensures Linked(Hung(h, b, e).entries, h.table[c], l.chains[c])
      ensures Read(Hung(h, b, e).entries, l.chains[c]) == Read(h.entries, l.chains[c])
      ensures c != b ==> Owns(l.owner[e := b], c, l.chains[c])
    {
      Untouched(h, l, b, e, c, h.table[c], l.chains[c]);
    }
    Untouched(h, l, b, e, -1, h.empty, l.free);
    OwnsMore(l.owner, b, l.chains[b], e);
    FrontLinked(Hung(h, b, e).entries, l.chains[b], e);
  }

  lemma Untouched(h: Heap, l: Layout, b: nat, e: nat, c: int, head: int, list: seq<nat>)
    requires |l.owner| == |h.entries| && b < |h.table| && e < |l.owner| && l.owner[e] == -2 && c != -2
    requires Linked(h.entries, head, list) && Owns(l.owner, c, list)
    ensures Linked(Hung(h, b, e).entries, head, list)
    ensures Read(Hung(h, b, e).entries, list) == Read(h.entries, list)
    ensures c != b ==> Owns(l.owner[e := b], c, list)
  {
    Elsewhere(h.entries, e, Hung(h, b, e).entries[e], head, list);
    OwnsElse(l.owner, c, list, e, b);
  }

  lemma FrontLinked(es: seq<HashEntry>, list: seq<nat>, e: nat)
    requires Linked(es, First(list), list) && e < |es| && es[e].next == First(list)
    ensures Linked(es, e, [e] + list)
    ensures Read(es, [e] + list) == [Entry(es[e].hash, es[e].expires, es[e].value)] + Read(es, list)
  {
    var w := [e] + list;
    forall i: nat | i < |w| ensures w[i] < |es| && es[w[i]].next == NextIn(w, i) {
      if i > 0 {
        assert es[list[i - 1]].next == NextIn(list, i - 1);
      }
    }
  }

  // ---- the pool shared out ----

  /** No entry is in the hands of hashtbl_put: all are chained or free. */
  ghost predicate Settled(owner: seq<int>) {
    forall e | 0 <= e < |owner| :: owner[e] != -2
  }

  /** The free list is null exactly when it is empty. */
  lemma FreeHead(h: Heap, l: Layout)
    requires Laid(h, l)
    ensures h.empty == NULL <==> l.free == []
    ensures l.free != [] ==> 0 <= h.empty < |h.entries| && h.empty == l.free[0]
  {
    if l.free != [] { assert l.free[0] in l.free; }
  }

  /** Once the one entry taken from a settled pool hangs on a chain, the pool is settled. */
  lemma SettledAgain(owner0: seq<int>, e: nat, es: seq<HashEntry>, owner: seq<int>, es': seq<HashEntry>, b: nat)
    requires Settled(owner0) && e < |owner0|
    requires HeldSame(owner0[e := -2], es, owner, es')
    ensures e < |owner| && owner[e] == -2 && es'[e] == es[e]
    ensures Settled(owner[e := b])
  {
  }

  lemma SettledStill(owner0: seq<int>, es: seq<HashEntry>, owner: seq<int>, es': seq<HashEntry>)
    requires Settled(owner0) && HeldSame(owner0, es, owner, es')
    ensures Settled(owner)
  {
  }

  /** In a settled pool every entry is on exactly one list, once. */
  lemma PoolConserved(h: Heap, l: Layout, e: nat)
    requires Laid(h, l) && Settled(l.owner) && e < |h.entries|
    ensures e in l.free <==> forall b | 0 <= b < |l.chains| :: e !in l.chains[b]
    ensures forall b, c | 0 <= b < |l.chains| && 0 <= c < |l.chains| && e in l.chains[b] && e in l.chains[c] :: b == c
  {
    if e !in l.free {
      assert e in l.chains[l.owner[e]];
    }
  }

  // ---- the pool as hashtbl_init leaves it ----

  function FreshLayout(n: nat): Layout {
    Layout(seq(n, _ => []), seq(n, i => i), seq(n, _ => -1))
  }

  lemma FreshLaid(h: Heap, n: nat)
    requires n > 0 && |h.table| == |h.entries| == n && h.empty == 0
    requires forall i | 0 <= i < n :: h.table[i] == NULL
    requires forall i | 0 <= i < n :: h.entries[i].next == if i < n - 1 then i + 1 else NULL
    ensures Laid(h, FreshLayout(n)) && Settled(FreshLayout(n).owner)
    ensures Abs(h, FreshLayout(n)) == Empty(n)
  {
    var l := FreshLayout(n);
    forall e: nat ensures e in l.free <==> e < n {
      if e < n { assert l.free[e] == e; }
    }
    assert forall i: nat | i < n :: l.free[i] == i && NextIn(l.free, i) == if i < n - 1 then i + 1 else NULL;
  }
}
