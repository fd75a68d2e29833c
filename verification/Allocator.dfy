/** malloc_locked, free_locked and morecore (ucore/src/libs-user-ucore/malloc.c) as an object
    that updates its headers and its list pointer in place. */
module Allocator {
  import opened FreeList

  const NULL := 0
  const UNIT_BYTES := 64
  const WORD := 0x1_0000_0000_0000_0000  // size_t is 64 bits wide

  // ---------------------------------------------------------------- the whole heap

  /** Free list, live blocks and granted memory fit together: every block is disjoint from
      every other, and each unit the kernel ever granted is in exactly one of them, with the
      type it was granted for. */
  ghost predicate Sound(base: int, h: Heap, order: seq<int>, live: set<int>, granted: imap<int, bool>) {
    && List(base, h, order)
    && (forall b :: b in live ==> b in h && h[b].size > 0 && base < b)
    && (forall a, b :: a in order && a in h && b in live ==> Apart(h, a, b))
    && (forall b, c :: b in live && c in live && b != c ==> Apart(h, b, c))
    && Conserved(h, order, live, granted)
  }

  ghost predicate Conserved(h: Heap, order: seq<int>, live: set<int>, granted: imap<int, bool>) {
    forall u, t :: (u in granted && granted[u] == t) <==> FreeUnit(h, order, u, t) || LiveUnit(h, live, u, t)
  }

  lemma LiveFits(base: int, h: Heap, order: seq<int>, live: set<int>, granted: imap<int, bool>, b: int)
    requires Sound(base, h, order, live, granted) && b in live
    ensures Fits(base, h, order, Slot(order, b), b)
  {
    var k := Slot(order, b);
    assert order[k] in order;
    if k + 1 < |order| { assert order[k + 1] in order; }
  }

  /** free_locked hands a live block back without disturbing anything else. */
  lemma FreeSound(base: int, h: Heap, order: seq<int>, live: set<int>, granted: imap<int, bool>, b: int)
    requires Sound(base, h, order, live, granted) && b in live
    ensures var k := Slot(order, b);
            && Fits(base, h, order, k, b) && h[order[k]].ptr in h && order[k] != b
            && Sound(base, PutBack(h, order[k], b), PutBackOrder(h, order, k, b), live - {b}, granted)
  {
    hide List, Fits, PutBack, PutBackOrder, FreeUnit, LiveUnit, Slot;
    NodesAreThere(base, h, order);
    var k := Slot(order, b);
    LiveFits(base, h, order, live, granted, b);
    FreeFrame(base, h, order, live, granted, b);
    PutBackKeepsList(base, h, order, k, b);
    NextIs(base, h, order, k, b);
    FreeFrame(base, h, order, live, granted, b);
    var h', order', live' := PutBack(h, order[k], b), PutBackOrder(h, order, k, b), live - {b};
    forall a, c | a in order' && a in h' && c in live' ensures Apart(h', a, c) {
      FreeApart(base, h, order, live, granted, b, a, c);
    }
    forall u, t ensures FreeUnit(h', order', u, t) || LiveUnit(h', live', u, t)
                   <==> FreeUnit(h, order, u, t) || LiveUnit(h, live, u, t) {
      PutBackUnits(base, h, order, k, b, u, t);
      LiveMinus(h, h', live, b, u, t);
    }
  }

  lemma FreeFrame(base: int, h: Heap, order: seq<int>, live: set<int>, granted: imap<int, bool>, b: int)
    requires Sound(base, h, order, live, granted) && b in live
    ensures var p := order[Slot(order, b)];
            && h[p].ptr in h && p != b
            && forall c :: c in live && c != b ==> c in PutBack(h, p, b) && PutBack(h, p, b)[c] == h[c]
  {
    var k := Slot(order, b);
    LiveFits(base, h, order, live, granted, b);
    NextIs(base, h, order, k, b);
    assert order[k] in order;
  }

  /** Every block of `live` has kept its header. */
  ghost predicate KeepsLive(h: Heap, live: set<int>, h': Heap) {
    forall c :: c in live ==> c in h && c in h' && h'[c] == h[c]
  }

  /** Cutting a block writes no live header, from whatever node that is not live itself. */
  lemma TakeKeepsLive(base: int, h: Heap, order: seq<int>, live: set<int>, granted: imap<int, bool>, prev: int, j: nat, n: nat)
    requires Sound(base, h, order, live, granted) && 0 < j < |order| && 0 < n <= h[order[j]].size
    requires prev in h && prev !in live
    ensures KeepsLive(h, live, TakeHeap(h, prev, order[j], n))
  {
    forall c | c in live ensures c in h && TakeHeap(h, prev, order[j], n)[c] == h[c] {
      assert order[j] in order;
      assert Apart(h, order[j], c);
    }
  }

  lemma FreeIsNotLive(base: int, h: Heap, order: seq<int>, live: set<int>, granted: imap<int, bool>, i: nat)
    requires Sound(base, h, order, live, granted) && i < |order|
    ensures order[i] !in live
  {
    assert order[i] in order;
    assert order[i] in live ==> Apart(h, order[i], order[i]);
  }

  lemma FreeApart(base: int, h: Heap, order: seq<int>, live: set<int>, granted: imap<int, bool>, b: int, a: int, c: int)
    requires Sound(base, h, order, live, granted) && b in live && c in live && c != b
    requires Fits(base, h, order, Slot(order, b), b) && h[order[Slot(order, b)]].ptr in h
    requires a in PutBackOrder(h, order, Slot(order, b), b) && a in PutBack(h, order[Slot(order, b)], b)
    requires c in PutBack(h, order[Slot(order, b)], b)
    ensures Apart(PutBack(h, order[Slot(order, b)], b), a, c)
  {
    var k := Slot(order, b);
    NextIs(base, h, order, k, b);
    HighFrame(base, h, order, k, b);
    FreeFrame(base, h, order, live, granted, b);
    assert order[k] in order && Apart(h, order[k], c) && Apart(h, b, c);
    if k + 1 < |order| { assert order[k + 1] in order && Apart(h, order[k + 1], c); }
    if a != order[k] && a != b { assert a in order && Apart(h, a, c); }
  }

  lemma LiveMinus(h: Heap, h': Heap, live: set<int>, b: int, u: int, t: bool)
    requires b in live && b in h
    requires forall c :: c in live && c != b ==> c in h && c in h' && h'[c] == h[c]
    ensures LiveUnit(h, live, u, t) <==> LiveUnit(h', live - {b}, u, t) || (UnitIn(h, b, u) && h[b].shared == t)
  {
    if LiveUnit(h, live, u, t) {
      var a :| a in live && a in h && UnitIn(h, a, u) && h[a].shared == t;
      if a != b { assert a in live - {b} && UnitIn(h', a, u); }
    }
    if LiveUnit(h', live - {b}, u, t) {
      var a :| a in live - {b} && a in h' && UnitIn(h', a, u) && h'[a].shared == t;
      assert a in live && UnitIn(h, a, u);
    }
  }

  /** Cutting n units off free block order[j] makes them a live block. */
  lemma TakeSound(base: int, h: Heap, order: seq<int>, live: set<int>, granted: imap<int, bool>, j: nat, n: nat)
    requires Sound(base, h, order, live, granted)
    requires 0 < j < |order| && 0 < n <= h[order[j]].size
    ensures order[j] !in live
    ensures Sound(base, TakeHeap(h, order[j - 1], order[j], n), TakeOrder(h, order, j, n), live + {order[j]}, granted)
  {
    var p := order[j];
    var h', order', live' := TakeHeap(h, order[j - 1], p, n), TakeOrder(h, order, j, n), live + {p};
    TakeKeepsList(base, h, order, j, n);
    TakeFrame(base, h, order, j, n);
    assert p in order && order[j - 1] in order;
    assert p !in live by { assert !Apart(h, p, p); }
    Ordered(h, order, 0, j);
    forall c | c in live ensures c in h' && h'[c] == h[c] && Apart(h', p, c) {
      assert Apart(h, p, c) && Apart(h, order[j - 1], c);
    }
    forall a, c | a in order' && a in h' && c in live' ensures Apart(h', a, c) {
      TakeApart(base, h, order, live, granted, j, n, a, c);
    }
    forall u, t ensures FreeUnit(h', order', u, t) || LiveUnit(h', live', u, t)
                   <==> FreeUnit(h, order, u, t) || LiveUnit(h, live, u, t) {
      TakeUnits(base, h, order, j, n, u, t);
      LiveMinus(h', h, live', p, u, t);
      assert live' - {p} == live;
    }
  }

  lemma TakeApart(base: int, h: Heap, order: seq<int>, live: set<int>, granted: imap<int, bool>, j: nat, n: nat, a: int, c: int)
    requires Sound(base, h, order, live, granted)
    requires 0 < j < |order| && 0 < n <= h[order[j]].size && order[j] !in live
    requires c in live + {order[j]}
    requires a in TakeOrder(h, order, j, n)
    ensures var h' := TakeHeap(h, order[j - 1], order[j], n); a in h' && c in h' && Apart(h', a, c)
  {
    var p := order[j];
    TakeHeader(base, h, order, j, n, a);
    if c in live {
      FreeIsNotLive(base, h, order, live, granted, j - 1);
      TakeKeepsLive(base, h, order, live, granted, order[j - 1], j, n);
      assert p in order && Apart(h, p, c);
      if a in order && a in h { assert Apart(h, a, c); }
    } else {
      TakeFrame(base, h, order, j, n);
    }
    hide Sound, List, TakeHeap, TakeOrder;
  }

  /** The nodes left on the list: the rest of the block that was cut, or one as large as before. */
  lemma TakeHeader(base: int, h: Heap, order: seq<int>, j: nat, n: nat, a: int)
    requires List(base, h, order) && 0 < j < |order| && 0 < n <= h[order[j]].size && a in TakeOrder(h, order, j, n)
    ensures var h', p := TakeHeap(h, order[j - 1], order[j], n), order[j];
            && a in h'
            && (|| (a == p + n && h'[a].size == h[p].size - n)
                || (a in order && a in h && h'[a].size == h[a].size && Apart(h, a, p)))
  {
    var p := order[j];
    TakeFrame(base, h, order, j, n);
    TakeOrderHas(h, order, j, n, a);
    Ordered(h, order, j - 1, j);
    if h[p].size != n && a == p + n {
      assert TakeHeap(h, order[j - 1], p, n)[a] == Header(h[p].ptr, h[p].size - n, h[p].shared);
    } else {
      var i: nat :| i < |order| && i != j && order[i] == a;
      if i < j { Ordered(h, order, i, j); } else { Ordered(h, order, j, i); }
    }
  }

  lemma TakeOrderHas(h: Heap, order: seq<int>, j: nat, n: nat, a: int)
    requires j < |order| && order[j] in h && a in TakeOrder(h, order, j, n)
    ensures (h[order[j]].size != n && a == order[j] + n) || exists i: nat :: i < |order| && i != j && order[i] == a
  {
    var order' := TakeOrder(h, order, j, n);
    var k: nat :| k < |order'| && order'[k] == a;
    if k < j {
      assert order[k] == a;
    } else if h[order[j]].size == n {
      assert order[k + 1] == a;
    } else if k > j {
      assert order[k] == a;
    }
  }

  // ---------------------------------------------------------------- memory from the kernel

  /** The kernel's answer to one morecore request: no memory, or `units` units at `start`. */
  datatype Grant = Refused | Region(start: int, units: nat)

  /** A grant is at least as large as asked, above the static header, and made of memory
      the allocator was never given before. */
  ghost predicate Fresh(base: int, granted: imap<int, bool>, need: nat, g: Grant) {
    g.Region? ==> base < g.start && 0 < need <= g.units && forall u :: InRegion(g, u) ==> u !in granted
  }

  predicate InRegion(g: Grant, u: int) { g.Region? && g.start <= u < g.start + g.units }

  ghost function Extend(granted: imap<int, bool>, g: Grant, t: bool): imap<int, bool> {
    imap u | u in granted || InRegion(g, u) :: if u in granted then granted[u] else t
  }

  lemma BlockGranted(base: int, h: Heap, order: seq<int>, live: set<int>, granted: imap<int, bool>, a: int, u: int)
    requires Sound(base, h, order, live, granted) && a in h && (a in order || a in live) && UnitIn(h, a, u)
    ensures u in granted && granted[u] == h[a].shared
  {
    assert a in order ==> FreeUnit(h, order, u, h[a].shared);
    assert a in live ==> LiveUnit(h, live, u, h[a].shared);
  }

  lemma GrantSound(base: int, h: Heap, order: seq<int>, live: set<int>, granted: imap<int, bool>, g: Grant, t: bool, ptr: int)
    requires Sound(base, h, order, live, granted) && g.Region? && g.units > 0 && Fresh(base, granted, g.units, g)
    ensures g.start !in order && g.start !in live
    ensures Sound(base, h[g.start := Header(ptr, g.units, t)], order, live + {g.start}, Extend(granted, g, t))
  {
    hide List, FreeUnit, LiveUnit, Extend;
    var b := g.start;
    var h', live', granted' := h[b := Header(ptr, g.units, t)], live + {b}, Extend(granted, g, t);
    SoundList(base, h, order, live, granted);
    NodesAreThere(base, h, order);
    GrantIsNew(base, h, order, live, granted, g);
    ListFrame(base, h, h', order);
    forall a | (a in order && a in h) || a in live ensures Apart(h', a, b) {
      GrantApart(base, h, order, live, granted, g, t, ptr, a);
    }
    forall u, t' ensures (u in granted' && granted'[u] == t') <==> FreeUnit(h', order, u, t') || LiveUnit(h', live', u, t') {
      GrantUnits(base, h, order, live, granted, g, t, ptr, u, t');
    }
  }

  lemma GrantIsNew(base: int, h: Heap, order: seq<int>, live: set<int>, granted: imap<int, bool>, g: Grant)
    requires Sound(base, h, order, live, granted) && g.Region? && g.units > 0 && Fresh(base, granted, g.units, g)
    ensures g.start !in order && g.start !in live
  {
    var b := g.start;
    if (b in order && b in h && h[b].size > 0) || b in live {
      BlockGranted(base, h, order, live, granted, b, b);
      assert InRegion(g, b);
    }
  }

  lemma GrantUnits(base: int, h: Heap, order: seq<int>, live: set<int>, granted: imap<int, bool>, g: Grant, t: bool, ptr: int, u: int, t': bool)
    requires Sound(base, h, order, live, granted) && g.Region? && g.units > 0 && Fresh(base, granted, g.units, g)
    requires g.start !in order && g.start !in live
    ensures var h', live', granted' := h[g.start := Header(ptr, g.units, t)], live + {g.start}, Extend(granted, g, t);
            (u in granted' && granted'[u] == t') <==> FreeUnit(h', order, u, t') || LiveUnit(h', live', u, t')
  {
    var b := g.start;
    var h', live' := h[b := Header(ptr, g.units, t)], live + {b};
    assert forall a :: a in order ==> a in h;
    LiveMinus(h', h, live', b, u, t');
    assert live' - {b} == live;
    FreeUnitFrame(h, h', order, u, t');
    hide List, FreeUnit, LiveUnit;
  }

  lemma GrantApart(base: int, h: Heap, order: seq<int>, live: set<int>, granted: imap<int, bool>, g: Grant, t: bool, ptr: int, a: int)
    requires Sound(base, h, order, live, granted) && g.Region? && g.units > 0 && Fresh(base, granted, g.units, g)
    requires ((a in order && a in h) || a in live) && a != g.start
    ensures a in h && Apart(h[g.start := Header(ptr, g.units, t)], a, g.start)
  {
    var u := if a < g.start then g.start else a;
    if UnitIn(h, a, u) && InRegion(g, u) {
      BlockGranted(base, h, order, live, granted, a, u);
    }
  }

  lemma NodesAreThere(base: int, h: Heap, order: seq<int>)
    requires List(base, h, order)
    ensures |order| > 0 && order[0] == base && forall i :: 0 <= i < |order| ==> order[i] in h
  {
  }

  lemma ListFrame(base: int, h: Heap, h': Heap, order: seq<int>)
    requires List(base, h, order)
    requires forall i :: 0 <= i < |order| ==> order[i] in h' && h'[order[i]] == h[order[i]]
    ensures List(base, h', order)
  {
    SegmentFrame(h, h', order);
  }

  lemma FreeUnitFrame(h: Heap, h': Heap, order: seq<int>, u: int, t: bool)
    requires forall a :: a in order ==> a in h && a in h' && h'[a] == h[a]
    ensures FreeUnit(h, order, u, t) <==> FreeUnit(h', order, u, t)
  {
    if FreeUnit(h, order, u, t) {
      var a :| a in order && a in h && UnitIn(h, a, u) && h[a].shared == t;
      assert UnitIn(h', a, u);
    }
    if FreeUnit(h', order, u, t) {
      var a :| a in order && a in h' && UnitIn(h', a, u) && h'[a].shared == t;
      assert UnitIn(h, a, u);
    }
  }

  // ---------------------------------------------------------------- going round the list

  lemma Around(base: int, h: Heap, order: seq<int>, i: nat)
    requires List(base, h, order) && i < |order|
    ensures order[i] in h && h[order[i]].ptr == order[Succ(i, |order|)] && h[order[i]].ptr in h
    ensures i + 1 < |order| ==> order[i] < h[order[i]].ptr
    ensures base <= order[i]
  {
    if i + 1 < |order| { assert PairAt(h, order, i); }
    if i > 0 { Ordered(h, order, 0, i); }
  }

  lemma Distinct(base: int, h: Heap, order: seq<int>, i: nat, j: nat)
    requires List(base, h, order) && i < |order| && j < |order|
    ensures order[i] == order[j] <==> i == j
  {
    if i < j { Ordered(h, order, i, j); } else if j < i { Ordered(h, order, j, i); }
  }

  lemma EmptySound(base: int, h: Heap)
    requires base in h && h[base] == Header(base, 0, false)
    ensures Sound(base, h, [base], {}, imap[])
  {
  }

  /** Which way from node i the slot of block b lies. */
  lemma SlotSide(base: int, h: Heap, order: seq<int>, k: nat, b: int, i: nat)
    requires Fits(base, h, order, k, b) && i < |order|
    ensures i <= k ==> order[i] < b
    ensures i > k ==> b < order[i]
  {
    if i < k { Ordered(h, order, i, k); }
    if k + 1 < i { Ordered(h, order, k + 1, i); }
  }

  /** The test by which free_locked stops: bp lies between p and its successor q, or p is the last
      block and bp lies at one of the ends. */
  predicate HoldsBetween(p: int, q: int, bp: int) {
    (bp > p && bp < q) || (p >= q && (bp > p || bp < q))
  }

  /** Going round the list, the test holds at one node: the one the block belongs behind. */
  lemma Between(base: int, h: Heap, order: seq<int>, k: nat, b: int, i: nat)
    requires List(base, h, order) && Fits(base, h, order, k, b) && i < |order|
    ensures order[i] in h && h[order[i]].ptr == order[Succ(i, |order|)]
    ensures HoldsBetween(order[i], h[order[i]].ptr, b) <==> i == k
  {
    assert order[0] == base;
    hide List, Fits;
    Around(base, h, order, i);
    SlotSide(base, h, order, k, b, i);
    SlotSide(base, h, order, k, b, Succ(i, |order|));
  }

  // ---------------------------------------------------------------- request sizes

  /** Units a request for `size` bytes takes, header included, with size_t arithmetic
      (malloc.c:90). */
  function Units(size: nat): (n: nat)
    ensures n > 0
  {
    ((size + UNIT_BYTES - 1) % WORD) / UNIT_BYTES + 1
  }

  /** A block of that many units has room for the bytes asked for exactly when the rounding
      does not wrap; a request of the last 63 representable sizes gets a bare header. */
  lemma RoomExactlyWithoutWrap(size: nat)
    requires size < WORD
    ensures (Units(size) - 1) * UNIT_BYTES >= size <==> size + UNIT_BYTES - 1 < WORD
    ensures size + UNIT_BYTES - 1 >= WORD ==> Units(size) == 1
    ensures size + UNIT_BYTES - 1 < WORD ==> (Units(size) - 1) * UNIT_BYTES < size + UNIT_BYTES
  {
    if size + UNIT_BYTES - 1 >= WORD {
      assert (size + UNIT_BYTES - 1) % WORD == size + UNIT_BYTES - 1 - WORD;
    }
  }

  // ---------------------------------------------------------------- the search of malloc_locked

  /** Steps along the list from position i round to position f. */
  function Dist(i: nat, f: nat, n: nat): nat
    requires i < n && f < n
  {
    if i <= f then f - i else n - i + f
  }

  /** Block a can serve a request for n units of type t (malloc.c:97). */
  predicate Fit(h: Heap, a: int, n: nat, t: bool) {
    a in h && h[a].shared == t && h[a].size >= n
  }

  /** The header of a granted region before it is put on the list (malloc.c:57-59, 72-74). */
  function WithRegion(h: Heap, g: Grant, t: bool): Heap
    requires g.Region?
  {
    h[g.start := Header(NULL, g.units, t)]
  }

  /** prevp is the node before position i (position 0 is base, which never serves a request). */
  predicate Behind(order: seq<int>, prevp: int, i: nat)
    requires i < |order|
  {
    i > 0 ==> prevp == order[i - 1]
  }

  /** The search before any morecore: everything passed so far was too small. */
  predicate Passing(h: Heap, order: seq<int>, n: nat, t: bool, prevp: int, i: nat, f: nat) {
    && i < |order| && f < |order|
    && Behind(order, prevp, i)
    && forall j :: 0 <= j < |order| && Dist(j, f, |order|) > Dist(i, f, |order|) ==> !Fit(h, order[j], n, t)
  }

  /** After the first morecore: the only blocks that fit are the node at freep or the one
      after it.  prevp may be a node that the new region has swallowed, but then the block
      under test does not fit. */
  predicate Resumed(h: Heap, order: seq<int>, n: nat, t: bool, prevp: int, i: nat, f: nat) {
    && i < |order| && f < |order|
    && (Behind(order, prevp, i) || !Fit(h, order[i], n, t))
    && (forall j :: 0 <= j < |order| && Fit(h, order[j], n, t) ==> j == f || j == f + 1)
    && (Fit(h, order[f], n, t) || (f + 1 < |order| && Fit(h, order[f + 1], n, t)))
  }

  predicate NoneFit(h: Heap, order: seq<int>, n: nat, t: bool) {
    forall j :: 0 <= j < |order| ==> !Fit(h, order[j], n, t)
  }

  /** Region b would extend node a, of type t, from above. */
  predicate Extends(h: Heap, a: int, b: int, t: bool) {
    a in h && h[a].shared == t && a + h[a].size == b
  }

  /** How the search resumed: straight at the new block only when it had started from the
      node the block was put after. */
  predicate Resuming(h0: Heap, order0: seq<int>, start: int, b: int, n: nat, t: bool,
                     h: Heap, order: seq<int>, i: nat, f: nat)
    requires i < |order| && f < |order|
  {
    && NoneFit(h0, order0, n, t)
    && (start == order[f] ==> Fit(h, order[f], n, t) || (i == f + 1 && Fit(h, order[i], n, t)))
    && (start != order[f] ==> Fit(h, order[f], n, t) || i != f + 1)
    && (Fit(h, order[f], n, t) <==> Extends(h0, order[f], b, t))
  }

  /** One malloc asks the kernel a second time although it got enough memory: exactly when
      nothing fitted, and the region went neither onto nor straight after the node the search
      had started from. */
  ghost predicate AsksAgain(h0: Heap, order0: seq<int>, start: int, g1: Grant, n: nat, t: bool) {
    && NoneFit(h0, order0, n, t)
    && g1.Region? && |order0| > 0 && order0[0] < g1.start
    && var stop := order0[Slot(order0, g1.start)]; stop != start && !Extends(h0, stop, g1.start, t)
  }

  /** After the second morecore: the block under test fits, or the one at freep does. */
  predicate Resumed2(h: Heap, order: seq<int>, n: nat, t: bool, prevp: int, i: nat, f: nat) {
    && i < |order| && f < |order|
    && Behind(order, prevp, i)
    && (Fit(h, order[i], n, t) || Fit(h, order[f], n, t))
  }

  /** The search stands on a node that is no longer on the list. */
  predicate Derailed(h: Heap, order: seq<int>, n: nat, t: bool, prevp: int, i: nat) {
    0 < i < |order| && prevp in h && prevp !in order && Fit(h, order[i], n, t)
  }

  lemma {:induction false} InOrder(order: seq<int>, a: int) returns (i: nat)
    requires a in order
    ensures i < |order| && order[i] == a
  {
    i :| 0 <= i < |order| && order[i] == a;
  }

  /** Continuing from node order[s] after a region b was put back at slot k into a list in
      which nothing fitted. */
  lemma ResumeFirst(base: int, h: Heap, order: seq<int>, k: nat, b: int, s: nat, n: nat, t: bool) returns (i: nat)
    requires Fits(base, h, order, k, b) && s < |order| && Fit(h, b, n, t) && n > 0
    requires forall j :: 0 <= j < |order| ==> !Fit(h, order[j], n, t)
    ensures h[order[k]].ptr in h && order[k] != b
    ensures var h', order' := PutBack(h, order[k], b), PutBackOrder(h, order, k, b);
            && order[s] in h' && k < |order'| && order'[k] == order[k]
            && i < |order'| && h'[order[s]].ptr == order'[i]
            && Resumed(h', order', n, t, order[s], i, k)
            && Resuming(h, order, order[s], b, n, t, h', order', i, k)
  {
    NextIs(base, h, order, k, b);
    HighFrame(base, h, order, k, b);
    Around(base, h, order, s);
    Distinct(base, h, order, s, k);
    PutBackKeepsList(base, h, order, k, b);
    var h', order' := PutBack(h, order[k], b), PutBackOrder(h, order, k, b);
    OnlyNewFits(base, h, order, k, b, n, t);
    if order[s] in order' {
      var s' := InOrder(order', order[s]);
      Around(base, h', order', s');
      Distinct(base, h', order', s', k);
      i := Succ(s', |order'|);
    } else {
      // order[s] was swallowed from below; its own link is untouched
      assert s == k + 1;
      var next := order[Succ(s, |order|)];
      if k + 2 < |order| { Ordered(h, order, k + 1, k + 2); Ordered(h, order, k, k + 2); }
      assert next in order';
      i := InOrder(order', next);
      assert h'[order[s]] == h[order[s]];
      assert !Fit(h', order'[i], n, t);
    }
  }

  lemma OnlyNewFits(base: int, h: Heap, order: seq<int>, k: nat, b: int, n: nat, t: bool)
    requires Fits(base, h, order, k, b) && Fit(h, b, n, t) && n > 0
    requires forall j :: 0 <= j < |order| ==> !Fit(h, order[j], n, t)
    ensures h[order[k]].ptr in h && order[k] != b
    ensures var h', order' := PutBack(h, order[k], b), PutBackOrder(h, order, k, b);
            && k < |order'| && order'[k] == order[k]
            && (forall j :: 0 <= j < |order'| && Fit(h', order'[j], n, t) ==> j == k || j == k + 1)
            && (forall j :: 0 <= j < |order'| && Fit(h', order'[j], n, t) ==> order'[j] == order[k] || order'[j] == b)
            && (Fit(h', order'[k], n, t) || (k + 1 < |order'| && Fit(h', order'[k + 1], n, t)))
            && (Fit(h', order'[k], n, t) <==> Extends(h, order[k], b, t))
            && (Fit(h', order'[k], n, t) ==> k > 0)
  {
    NextIs(base, h, order, k, b);
    HighFrame(base, h, order, k, b);
    var h', order' := PutBack(h, order[k], b), PutBackOrder(h, order, k, b);
    forall j | 0 <= j < |order'| && j != k && j != k + 1 ensures !Fit(h', order'[j], n, t) {
      assert order'[j] in (if j < k then order[..k] else order[k + 1..]);
    }
  }

  /** A second region can only swallow node order[f] when it ends exactly there. */
  lemma SwallowedExactly(base: int, h: Heap, order: seq<int>, k: nat, b: int, f: nat)
    requires Fits(base, h, order, k, b) && f < |order|
    ensures order[f] !in PutBackOrder(h, order, k, b) <==> SameTypeTouching(h, b, order[f])
    ensures order[f] !in PutBackOrder(h, order, k, b) ==> f == k + 1
  {
    NextIs(base, h, order, k, b);
    SlotSide(base, h, order, k, b, f);
    if f > k + 1 { Ordered(h, order, k + 1, f); }
    var order' := PutBackOrder(h, order, k, b);
    if MergesUp(h, order, k, b) && f == k + 1 {
      forall i | k + 2 <= i < |order| ensures order[i] != order[f] { Ordered(h, order, f, i); }
      forall i | 0 <= i <= k ensures order[i] != order[f] { Ordered(h, order, i, f); }
      assert order[f] !in order[..k + 1] && order[f] !in order[k + 2..];
    } else if f <= k {
      assert order'[f] == order[f];
    } else if MergesUp(h, order, k, b) {
      assert order[f] in order[k + 2..];
    } else {
      assert order[f] in order[k + 1..];
    }
  }

  /** Continuing from node order[f], which is followed by a block that fits, after a second
      region b was put back: the next block fits, or the one at freep does. */
  lemma ResumeSecond(base: int, h: Heap, order: seq<int>, k: nat, b: int, f: nat, n: nat, t: bool) returns (i: nat)
    requires Fits(base, h, order, k, b) && f + 1 < |order| && Fit(h, b, n, t) && n > 0
    requires Fit(h, order[f + 1], n, t)
    ensures h[order[k]].ptr in h && order[k] != b
    ensures var h', order' := PutBack(h, order[k], b), PutBackOrder(h, order, k, b);
            && order[f] in h' && k < |order'| && order'[k] == order[k]
            && i < |order'| && h'[order[f]].ptr == order'[i]
            && if SameTypeTouching(h, b, order[f]) then Derailed(h', order', n, t, order[f], i)
               else Resumed2(h', order', n, t, order[f], i, k)
  {
    NextIs(base, h, order, k, b);
    HighFrame(base, h, order, k, b);
    Around(base, h, order, f);
    PutBackKeepsList(base, h, order, k, b);
    SwallowedExactly(base, h, order, k, b, f);
    SwallowedExactly(base, h, order, k, b, f + 1);
    var h', order' := PutBack(h, order[k], b), PutBackOrder(h, order, k, b);
    if order[f] in order' {
      var f' := InOrder(order', order[f]);
      Around(base, h', order', f');
      i := Succ(f', |order'|);
      NextFits(base, h, order, k, b, f, n, t);
    } else {
      Ordered(h, order, f, f + 1);
      assert order[f + 1] in order';
      i := InOrder(order', order[f + 1]);
      Ordered(h, order, 0, f + 1);
    }
  }

  lemma NextFits(base: int, h: Heap, order: seq<int>, k: nat, b: int, f: nat, n: nat, t: bool)
    requires Fits(base, h, order, k, b) && f + 1 < |order| && Fit(h, b, n, t) && n > 0
    requires Fit(h, order[f + 1], n, t) && !SameTypeTouching(h, b, order[f])
    ensures h[order[k]].ptr in h && order[k] != b
    ensures var h' := PutBack(h, order[k], b);
            order[f] in h' && (Fit(h', h'[order[f]].ptr, n, t) || Fit(h', order[k], n, t))
  {
    NextIs(base, h, order, k, b);
    HighFrame(base, h, order, k, b);
    Around(base, h, order, f);
    var h' := PutBack(h, order[k], b);
    if f == k {
      assert Fit(h', b, n, t);
    } else {
      assert h'[order[f]] == h[order[f]];
      if f + 1 != k { assert h'[order[f + 1]] == h[order[f + 1]]; }
    }
  }

  /** What the code does when it is derailed: it cuts the block out of a node that is not on
      the list, so the list stays as it was, with the block it hands out still on it. */
  lemma TakeDerailed(base: int, h: Heap, order: seq<int>, n: nat, t: bool, prevp: int, i: nat)
    requires List(base, h, order) && Derailed(h, order, n, t, prevp, i) && n > 0
    ensures List(base, TakeHeap(h, prevp, order[i], n), order)
  {
    var p := order[i];
    var h' := TakeHeap(h, prevp, p, n);
    forall j | 0 <= j < |order| && j != i ensures order[j] != p && (n < h[p].size ==> order[j] != p + n) {
      if j < i { Ordered(h, order, j, i); } else { Ordered(h, order, i, j); }
    }
    assert p in order;
    forall j: nat | j + 1 < |order| ensures PairAt(h', order, j) { assert PairAt(h, order, j); assert order[j] in order && order[j + 1] in order; }
  }

  // ---------------------------------------------------------------- what a call of malloc_locked does

  /** The second region asked for in one malloc ends exactly at the node after which the
      first one was put, and has that node's type. */
  ghost predicate SwallowsStop(h: Heap, order: seq<int>, g1: Grant, g2: Grant, t: bool) {
    && g1.Region? && g2.Region? && |order| > 0 && order[0] < g1.start
    && var stop := order[Slot(order, g1.start)]; stop in h && h[stop].shared == t && g2.start + g2.units == stop
  }

  /** The block at p, of type t, was cut off the front of the free block at position j. */
  ghost predicate CutAt(h: Heap, order: seq<int>, j: int, p: int, n: nat, t: bool, h': Heap, order': seq<int>, freep: int) {
    && 0 < j < |order| && order[j] == p && Fit(h, p, n, t) && order[j - 1] in h && 0 < n
    && h' == TakeHeap(h, order[j - 1], p, n) && order' == TakeOrder(h, order, j, n) && freep == order[j - 1]
  }

  ghost predicate ServedFrom(h: Heap, order: seq<int>, p: int, n: nat, t: bool, h': Heap, order': seq<int>, freep: int) {
    exists j :: CutAt(h, order, j, p, n, t, h', order', freep)
  }

  /** The headers Cut writes. */
  function CutWrites(h: Heap, prev: int, p: int, n: nat): set<int> {
    if p in h && h[p].size == n then {prev} else {prev, p, p + n}
  }

  /** Region g, of type t, has been put on the list; freep stands at the node it was put after. */
  ghost predicate GrantedTo(base: int, h: Heap, order: seq<int>, g: Grant, t: bool, h': Heap, order': seq<int>, freep: int) {
    && g.Region? && |order| > 0 && order[0] < g.start
    && var hr, k := WithRegion(h, g, t), Slot(order, g.start);
       var p := order[k];
       && Fits(base, hr, order, k, g.start) && hr[p].ptr in hr
       && freep == p && h' == PutBack(hr, p, g.start) && order' == PutBackOrder(hr, order, k, g.start)
  }

  /** Heap and list after the first `grants` of the regions g1 and g2, and the headers written to
      get there. */
  ghost predicate AfterGrants(base: int, h: Heap, order: seq<int>, freep: int, w: set<int>, g1: Grant, g2: Grant, t: bool, grants: int,
                              h': Heap, order': seq<int>, freep': int, w': set<int>) {
    match grants
    case 0 => h' == h && order' == order && freep' == freep && w' == w
    case 1 => GrantedTo(base, h, order, g1, t, h', order', freep') && w' == w + {g1.start, freep'}
    case _ => exists h1, order1, freep1 ::
      && GrantedTo(base, h, order, g1, t, h1, order1, freep1) && GrantedTo(base, h1, order1, g2, t, h', order', freep')
      && w' == w + {g1.start, freep1} + {g2.start, freep'}
  }

  lemma OneMoreGrant(base: int, h0: Heap, order0: seq<int>, freep0: int, w0: set<int>, g1: Grant, g2: Grant, t: bool, grants: int,
                     h: Heap, order: seq<int>, freep: int, w: set<int>, h': Heap, order': seq<int>, freep': int)
    requires 0 <= grants < 2 && AfterGrants(base, h0, order0, freep0, w0, g1, g2, t, grants, h, order, freep, w)
    requires var g := if grants == 0 then g1 else g2; g.Region? && GrantedTo(base, h, order, g, t, h', order', freep')
    ensures AfterGrants(base, h0, order0, freep0, w0, g1, g2, t, grants + 1, h', order', freep',
                        w + {(if grants == 0 then g1 else g2).start, freep'})
  {
    hide GrantedTo;
  }

  /** What malloc starts from: on the first call the list of `base` alone (malloc.c:91-94). */
  function Started(base: int, h: Heap, freep: int): Heap {
    if freep == NULL && base in h then h[base := Header(base, 0, h[base].shared)] else h
  }

  function From(base: int, freep: int): int { if freep == NULL then base else freep }

  function StartWrites(base: int, freep: int, w: set<int>): set<int> { if freep == NULL then w + {base} else w }

  /** Heap and list after `grants` regions have been added by a malloc that began at (h, order, freep). */
  ghost predicate Asked(base: int, h: Heap, order: seq<int>, freep: int, w: set<int>, g1: Grant, g2: Grant, t: bool, grants: int,
                        h': Heap, order': seq<int>, freep': int, w': set<int>) {
    AfterGrants(base, Started(base, h, freep), order, From(base, freep), StartWrites(base, freep, w), g1, g2, t, grants, h', order', freep', w')
  }

  /** The block at p was served after `asked` regions had been added. */
  ghost predicate Served(base: int, h: Heap, order: seq<int>, freep: int, w: set<int>, g1: Grant, g2: Grant, t: bool, asked: int,
                         p: int, n: nat, h': Heap, order': seq<int>, freep': int, w': set<int>) {
    exists h1, order1, freep1, w1 ::
      && Asked(base, h, order, freep, w, g1, g2, t, asked, h1, order1, freep1, w1)
      && ServedFrom(h1, order1, p, n, t, h', order', freep') && w' == w1 + CutWrites(h1, freep', p, n)
  }

  /** The block at p was cut after two regions had been added, from a node prev that is not on the list. */
  ghost predicate Misserved(base: int, h: Heap, order: seq<int>, freep: int, w: set<int>, g1: Grant, g2: Grant, t: bool,
                            p: int, n: nat, h': Heap, order': seq<int>, prev: int, w': set<int>) {
    exists h1, freep1, w1 ::
      && Asked(base, h, order, freep, w, g1, g2, t, 2, h1, order', freep1, w1)
      && p in order' && prev !in order' && prev in h1 && Fit(h1, p, n, t) && 0 < n
      && h' == TakeHeap(h1, prev, p, n) && w' == w1 + CutWrites(h1, prev, p, n)
  }

  /** Where the first region went: position f still holds the node it was put after, with its
      type. */
  ghost predicate Stops(h0: Heap, order0: seq<int>, g1: Grant, h: Heap, order: seq<int>, f: nat) {
    && g1.Region? && |order0| > 0 && order0[0] < g1.start && f < |order|
    && order[f] == order0[Slot(order0, g1.start)]
    && order[f] in h0 && order[f] in h && h[order[f]].shared == h0[order[f]].shared
  }

  ghost function Used(granted: imap<int, bool>, g1: Grant, g2: Grant, t: bool, asked: nat): imap<int, bool> {
    if asked == 0 then granted else if asked == 1 then Extend(granted, g1, t) else Extend(Extend(granted, g1, t), g2, t)
  }

  /** Where the search stands after `asked` morecore requests, i and f being the positions of
      p and freep. */
  ghost predicate Searching(h0: Heap, order0: seq<int>, start: int, g1: Grant, g2: Grant, t: bool, n: nat,
                            h: Heap, order: seq<int>, asked: nat, prevp: int, i: nat, f: nat) {
    && asked <= 2 && i < |order| && f < |order| && prevp in h
    && match asked
       case 0 => h == h0 && order == order0 && order[f] == start && Passing(h, order, n, t, prevp, i, f)
       case 1 =>
         && Stops(h0, order0, g1, h, order, f) && Resumed(h, order, n, t, prevp, i, f)
         && Resuming(h0, order0, start, g1.start, n, t, h, order, i, f)
       case _ =>
         && g1.Region? && g2.Region? && AsksAgain(h0, order0, start, g1, n, t)
         && if SwallowsStop(h0, order0, g1, g2, t) then Derailed(h, order, n, t, prevp, i)
            else Resumed2(h, order, n, t, prevp, i, f)
  }

  lemma ListAbove(base: int, h: Heap, order: seq<int>, i: nat)
    requires List(base, h, order) && i < |order|
    ensures base <= order[i] && order[i] in order
  {
    Around(base, h, order, i);
  }

  lemma TakeMember(h: Heap, order: seq<int>, j: nat, n: nat)
    requires 0 < j < |order| && order[j] in h
    ensures order[j - 1] in TakeOrder(h, order, j, n)
  {
    assert order[j - 1] in order[..j];
  }

  lemma AccountSame(h: Heap, h': Heap, order: seq<int>, start: int, g1: Grant, n: nat, t: bool)
    requires h'.Keys == h.Keys && forall a :: a in h ==> h'[a].shared == h[a].shared && h'[a].size == h[a].size
    ensures NoneFit(h, order, n, t) <==> NoneFit(h', order, n, t)
    ensures AsksAgain(h, order, start, g1, n, t) <==> AsksAgain(h', order, start, g1, n, t)
  {
    assert forall a :: Fit(h, a, n, t) <==> Fit(h', a, n, t);
  }

  lemma SwallowsSame(h: Heap, h': Heap, order: seq<int>, g1: Grant, g2: Grant, t: bool)
    requires h'.Keys == h.Keys && forall a :: a in h ==> h'[a].shared == h[a].shared
    ensures SwallowsStop(h, order, g1, g2, t) <==> SwallowsStop(h', order, g1, g2, t)
  {
  }

  lemma SoundList(base: int, h: Heap, order: seq<int>, live: set<int>, granted: imap<int, bool>)
    requires Sound(base, h, order, live, granted)
    ensures List(base, h, order) && |order| > 0
  {
  }

  lemma StartSearch(base: int, h: Heap, order: seq<int>, g1: Grant, g2: Grant, t: bool, n: nat, f: nat)
    requires List(base, h, order) && f < |order|
    ensures Searching(h, order, order[f], g1, g2, t, n, h, order, 0, order[f], Succ(f, |order|), f)
  {
  }

  /** One step along the list over a block that does not fit. */
  lemma StepAlong(base: int, h0: Heap, order0: seq<int>, start: int, g1: Grant, g2: Grant, t: bool, n: nat,
                  h: Heap, order: seq<int>, asked: nat, prevp: int, i: nat, f: nat)
    requires List(base, h, order)
    requires Searching(h0, order0, start, g1, g2, t, n, h, order, asked, prevp, i, f)
    requires i != f && i < |order| && f < |order| && !Fit(h, order[i], n, t)
    ensures Searching(h0, order0, start, g1, g2, t, n, h, order, asked, order[i], Succ(i, |order|), f)
    ensures Dist(Succ(i, |order|), f, |order|) < Dist(i, f, |order|)
  {
    Around(base, h, order, i);
  }

  /** At a dead end nothing on the original list fitted, and no third request happens. */
  lemma NoThird(h0: Heap, order0: seq<int>, start: int, g1: Grant, g2: Grant, t: bool, n: nat,
                h: Heap, order: seq<int>, asked: nat, prevp: int, i: nat, f: nat)
    requires Searching(h0, order0, start, g1, g2, t, n, h, order, asked, prevp, i, f)
    requires i == f && f < |order| && !Fit(h, order[i], n, t)
    ensures asked < 2 && NoneFit(h0, order0, n, t)
    ensures asked == 1 ==> AsksAgain(h0, order0, start, g1, n, t)
    ensures g1.Refused? ==> !AsksAgain(h0, order0, start, g1, n, t)
  {
  }

  lemma IsServed(base: int, h: Heap, order: seq<int>, freep: int, w: set<int>, g1: Grant, g2: Grant, t: bool, asked: int,
                 h1: Heap, order1: seq<int>, freep1: int, w1: set<int>, i: nat, n: nat)
    requires Asked(base, h, order, freep, w, g1, g2, t, asked, h1, order1, freep1, w1)
    requires 0 < i < |order1| && 0 < n && Fit(h1, order1[i], n, t) && order1[i - 1] in h1
    ensures Served(base, h, order, freep, w, g1, g2, t, asked, order1[i], n, TakeHeap(h1, order1[i - 1], order1[i], n),
                   TakeOrder(h1, order1, i, n), order1[i - 1], w1 + CutWrites(h1, order1[i - 1], order1[i], n))
  {
    hide Asked, TakeHeap, TakeOrder, CutWrites;
    assert CutAt(h1, order1, i, order1[i], n, t, TakeHeap(h1, order1[i - 1], order1[i], n), TakeOrder(h1, order1, i, n), order1[i - 1]);
  }

  lemma IsMisserved(base: int, h: Heap, order: seq<int>, freep: int, w: set<int>, g1: Grant, g2: Grant, t: bool,
                    h1: Heap, order1: seq<int>, freep1: int, w1: set<int>, prev: int, i: nat, n: nat)
    requires Asked(base, h, order, freep, w, g1, g2, t, 2, h1, order1, freep1, w1)
    requires 0 < i < |order1| && 0 < n && Fit(h1, order1[i], n, t) && prev in h1 && prev !in order1
    ensures Misserved(base, h, order, freep, w, g1, g2, t, order1[i], n, TakeHeap(h1, prev, order1[i], n), order1, prev,
                      w1 + CutWrites(h1, prev, order1[i], n))
  {
    hide Asked, TakeHeap, CutWrites;
  }

  /** Served without asking: cut from the list as it was. */
  lemma ServedHere(base: int, h: Heap, order: seq<int>, freep: int, w: set<int>, g1: Grant, g2: Grant, t: bool, p: int, n: nat,
                   h': Heap, order': seq<int>, freep': int, w': set<int>) returns (j: nat)
    requires freep != NULL && Served(base, h, order, freep, w, g1, g2, t, 0, p, n, h', order', freep', w')
    ensures CutAt(h, order, j, p, n, t, h', order', freep')
  {
    hide CutAt;
    var h1, order1, freep1, w1 :|
      && Asked(base, h, order, freep, w, g1, g2, t, 0, h1, order1, freep1, w1)
      && ServedFrom(h1, order1, p, n, t, h', order', freep') && w' == w1 + CutWrites(h1, freep', p, n);
    var i :| CutAt(h1, order1, i, p, n, t, h', order', freep');
    CutPlace(h1, order1, i, p, n, t, h', order', freep');
    j := i;
  }

  lemma CutPlace(h: Heap, order: seq<int>, j: int, p: int, n: nat, t: bool, h': Heap, order': seq<int>, freep: int)
    requires CutAt(h, order, j, p, n, t, h', order', freep)
    ensures 0 < j < |order| && order[j] == p && p in h && order[j - 1] in h && 0 < n <= h[p].size
  {
  }

  lemma LiveKept(h0: Heap, live: set<int>, h: Heap, h': Heap)
    requires KeepsLive(h0, live, h) && KeepsLive(h, live, h')
    ensures KeepsLive(h0, live, h')
  {
  }

  lemma NoneLive(h: Heap, h': Heap)
    ensures KeepsLive(h, {}, h')
  {
  }

  lemma NoGrantsYet(base: int, h: Heap, order: seq<int>, live: set<int>, granted: imap<int, bool>, freep: int, w: set<int>,
                    g1: Grant, g2: Grant, t: bool)
    requires Sound(base, h, order, live, granted)
    ensures AfterGrants(base, h, order, freep, w, g1, g2, t, 0, h, order, freep, w) && KeepsLive(h, live, h)
  {
  }

  lemma UsedNone(granted: imap<int, bool>, g1: Grant, g2: Grant, t: bool)
    ensures Used(granted, g1, g2, t, 0) == granted
  {
  }

  /** The block found is entered from its list predecessor. */
  lemma Found(base: int, h0: Heap, order0: seq<int>, start: int, g1: Grant, g2: Grant, t: bool, n: nat,
              h: Heap, order: seq<int>, asked: nat, prevp: int, i: nat, f: nat)
    requires List(base, h, order) && n > 0
    requires Searching(h0, order0, start, g1, g2, t, n, h, order, asked, prevp, i, f)
    requires i < |order| && Fit(h, order[i], n, t)
    ensures i > 0 && asked <= 2 && prevp in h
    ensures asked == 0 <==> !NoneFit(h0, order0, n, t)
    ensures asked == 0 ==> h == h0 && order == order0
    ensures asked == 2 <==> AsksAgain(h0, order0, start, g1, n, t)
    ensures if asked == 2 && SwallowsStop(h0, order0, g1, g2, t) then prevp !in order else prevp == order[i - 1]
  {
  }

  /** Going round the list from the node after `from`, block p is the first that fits. */
  ghost predicate FirstFit(h: Heap, order: seq<int>, from: int, p: int, n: nat, t: bool) {
    exists f: nat, k: nat :: FitsAfter(h, order, from, f, k, p, n, t)
  }

  /** The (j+1)-th node after position f, going round. */
  function Nth(order: seq<int>, f: nat, j: nat): int
    requires |order| > 0
  {
    order[(f + 1 + j) % |order|]
  }

  ghost predicate FitsAfter(h: Heap, order: seq<int>, from: int, f: nat, k: nat, p: int, n: nat, t: bool) {
    && f < |order| && order[f] == from && k < |order| && Nth(order, f, k) == p && Fit(h, p, n, t)
    && forall j: nat :: j < k ==> !Fit(h, Nth(order, f, j), n, t)
  }

  lemma PassedOver(h: Heap, order: seq<int>, n: nat, t: bool, prevp: int, i: nat, f: nat)
    requires Passing(h, order, n, t, prevp, i, f) && Fit(h, order[i], n, t)
    ensures FirstFit(h, order, order[f], order[i], n, t)
  {
    hide Fit;
    var k := |order| - 1 - Dist(i, f, |order|);
    Wraps(f + 1 + k, |order|);
    forall j: nat | j < k ensures !Fit(h, Nth(order, f, j), n, t) { PassedAt(h, order, n, t, prevp, i, f, j); }
    assert FitsAfter(h, order, order[f], f, k, order[i], n, t);
  }

  lemma PassedAt(h: Heap, order: seq<int>, n: nat, t: bool, prevp: int, i: nat, f: nat, j: nat)
    requires Passing(h, order, n, t, prevp, i, f) && j < |order| - 1 - Dist(i, f, |order|)
    ensures !Fit(h, Nth(order, f, j), n, t)
  {
    hide Fit;
    Wraps(f + 1 + j, |order|);
    assert Dist((f + 1 + j) % |order|, f, |order|) == |order| - 1 - j;
  }

  lemma Wraps(x: nat, len: nat)
    requires len > 0 && x < 2 * len
    ensures x % len == if x < len then x else x - len
  {
  }

  lemma FoundFirst(base: int, h0: Heap, order0: seq<int>, start: int, g1: Grant, g2: Grant, t: bool, n: nat,
                   h: Heap, order: seq<int>, asked: nat, prevp: int, i: nat, f: nat)
    requires Searching(h0, order0, start, g1, g2, t, n, h, order, asked, prevp, i, f)
    requires i < |order| && Fit(h, order[i], n, t)
    ensures asked == 0 ==> FirstFit(h0, order0, start, order[i], n, t)
  {
    hide FirstFit, Fit, Dist;
    if asked == 0 { PassedOver(h, order, n, t, prevp, i, f); }
  }

  lemma FirstFitSame(h: Heap, h': Heap, order: seq<int>, from: int, p: int, n: nat, t: bool)
    requires h'.Keys == h.Keys && forall a :: a in h ==> h'[a].shared == h[a].shared && h'[a].size == h[a].size
    ensures FirstFit(h', order, from, p, n, t) ==> FirstFit(h, order, from, p, n, t)
  {
    assert forall a :: Fit(h, a, n, t) <==> Fit(h', a, n, t);
    if FirstFit(h', order, from, p, n, t) {
      var f: nat, k: nat :| FitsAfter(h', order, from, f, k, p, n, t);
      assert FitsAfter(h, order, from, f, k, p, n, t);
    }
  }

  /** The search goes on from where it stood when a region has been put on the list. */
  lemma StepGrant(base: int, h0: Heap, order0: seq<int>, start: int, g1: Grant, g2: Grant, t: bool, n: nat,
                  h: Heap, order: seq<int>, asked: nat, prevp: int, f: nat, k: nat) returns (i: nat)
    requires asked < 2 && List(base, h, order) && n > 0
    requires Searching(h0, order0, start, g1, g2, t, n, h, order, asked, prevp, f, f)
    requires !Fit(h, order[f], n, t)
    requires var g := if asked == 0 then g1 else g2;
             g.Region? && g.units >= n && k < |order| && order[0] < g.start && k == Slot(order, g.start)
             && Fits(base, WithRegion(h, g, t), order, k, g.start)
    ensures var g := if asked == 0 then g1 else g2;
            var hr := WithRegion(h, g, t);
            && hr[order[k]].ptr in hr && order[k] != g.start
            && var h', order' := PutBack(hr, order[k], g.start), PutBackOrder(hr, order, k, g.start);
               && order[f] in h' && k < |order'| && order'[k] == order[k]
               && i < |order'| && h'[order[f]].ptr == order'[i]
               && Searching(h0, order0, start, g1, g2, t, n, h', order', asked + 1, order[f], i, k)
  {
    var g := if asked == 0 then g1 else g2;
    var hr := WithRegion(h, g, t);
    NextIs(base, hr, order, k, g.start);
    if asked == 0 {
      assert forall j :: 0 <= j < |order| ==> !Fit(hr, order[j], n, t);
      i := ResumeFirst(base, hr, order, k, g.start, f, n, t);
    } else {
      assert hr[order[f]] == h[order[f]] && hr[order[f + 1]] == h[order[f + 1]];
      i := ResumeSecond(base, hr, order, k, g.start, f, n, t);
    }
  }

  // ---------------------------------------------------------------- the allocator object

  class Allocator {
    const base: int
    var heap: Heap
    var freep: int
    ghost var order: seq<int>
    ghost var live: set<int>
    ghost var granted: imap<int, bool>
    ghost var touched: set<int>  // the headers written so far

    ghost predicate Valid()
      reads this`heap, this`freep, this`order, this`live, this`granted
    {
      && base > NULL
      && if freep == NULL
         then base in heap && heap[base].size == 0 && !heap[base].shared && order == [base] && live == {} && granted == imap[]
         else Sound(base, heap, order, live, granted) && freep in order
    }

    /** Static storage starts zeroed (malloc.c:26-27). */
    constructor (address: int)
      requires address > NULL
      ensures Valid() && base == address && freep == NULL && fresh(this) && order == [address] && live == {} && granted == imap[]
      ensures touched == {}
      ensures heap == map[address := Header(NULL, 0, false)]
    {
      base, freep := address, NULL;
      heap := map[address := Header(NULL, 0, false)];
      order, live, granted, touched := [address], {}, imap[], {};
    }

    /** An allocator in a given state. */
    constructor In(base: int, heap: Heap, freep: int, ghost order: seq<int>, ghost live: set<int>, ghost granted: imap<int, bool>)
      ensures this.base == base && this.heap == heap && this.freep == freep
      ensures this.order == order && this.live == live && this.granted == granted && touched == {}
    {
      this.base, this.heap, this.freep := base, heap, freep;
      this.order, this.live, this.granted, touched := order, live, granted, {};
    }

    /** The search of free_locked (malloc.c:125-129) ends, whatever node freep points at, at the
        node after which the block belongs. */
    method FindSlot(bp: int) returns (p: int)
      requires Valid() && bp in live
      ensures p == order[Slot(order, bp)]
    {
      ghost var k := Slot(order, bp);
      hide Sound, List, Fits;
      LiveFits(base, heap, order, live, granted, bp);
      SoundList(base, heap, order, live, granted);
      p := freep;
      ghost var i: nat :| i < |order| && order[i] == p;
      Between(base, heap, order, k, bp, i);
      while !(bp > p && bp < heap[p].ptr)
        invariant i < |order| && order[i] == p && p in heap && heap[p].ptr == order[Succ(i, |order|)]
        invariant HoldsBetween(p, heap[p].ptr, bp) <==> i == k
        decreases Dist(i, k, |order|)
      {
        if p >= heap[p].ptr && (bp > p || bp < heap[p].ptr) {
          break;
        }
        p := heap[p].ptr;
        i := Succ(i, |order|);
        Between(base, heap, order, k, bp, i);
      }
    }

    /** free_locked (malloc.c:121-148): the block goes back to its place and is merged with
        whichever neighbours allow it. */
    method FreeLocked(ap: int)
      requires Valid() && ap - 1 in live
      modifies this
      ensures Valid() && live == old(live) - {ap - 1} && granted == old(granted) && freep != NULL
      ensures KeepsLive(old(heap), live, heap) && touched == old(touched) + {ap - 1, freep}
      ensures var k := Slot(old(order), ap - 1); var p := old(order)[k];
              && Fits(base, old(heap), old(order), k, ap - 1)
              && freep == p && old(heap)[p].ptr in old(heap)
              && heap == PutBack(old(heap), p, ap - 1)
              && order == PutBackOrder(old(heap), old(order), k, ap - 1)
    {
      var bp := ap - 1;
      ghost var k := Slot(order, bp);
      var p := FindSlot(bp);
      LiveFits(base, heap, order, live, granted, bp);
      Around(base, heap, order, k);
      PutBackBy(p, bp);
      FreeSound(base, old(heap), old(order), live, granted, bp);
      FreeFrame(base, old(heap), old(order), live, granted, bp);
      freep := p;
      order := PutBackOrder(old(heap), old(order), k, bp);
      live := live - {bp};
      assert order[k] == p;
    }

    /** The list surgery of free_locked (malloc.c:131-145). */
    method PutBackBy(p: int, bp: int)
      requires p in heap && bp in heap && heap[p].ptr in heap && p != bp
      modifies this`heap, this`touched
      ensures heap == PutBack(old(heap), p, bp) && touched == old(touched) + {bp, p}
    {
      var next := heap[p].ptr;
      if heap[bp].shared == heap[next].shared && bp + heap[bp].size == next {
        heap := heap[bp := heap[bp].(size := heap[bp].size + heap[next].size)];
        heap := heap[bp := heap[bp].(ptr := heap[next].ptr)];
      } else {
        heap := heap[bp := heap[bp].(ptr := next)];
      }
      assert heap == old(heap)[bp := Upper(old(heap), p, bp)];
      if heap[p].shared == heap[bp].shared && p + heap[p].size == bp {
        heap := heap[p := heap[p].(size := heap[p].size + heap[bp].size)];
        heap := heap[p := heap[p].(ptr := heap[bp].ptr)];
      } else {
        heap := heap[p := heap[p].(ptr := bp)];
      }
      touched := touched + {bp, p};
    }

    /** morecore_brk_locked / morecore_shmem_locked (malloc.c:45-77), given the kernel's answer. */
    method MorecoreLocked(g: Grant, shared: bool) returns (ok: bool)
      requires Valid() && freep != NULL
      requires g.Region? ==> g.units > 0 && Fresh(base, granted, g.units, g)
      modifies this
      ensures Valid() && freep != NULL && live == old(live) && granted == Extend(old(granted), g, shared)
      ensures ok == g.Region?
      ensures !ok ==> heap == old(heap) && order == old(order) && freep == old(freep) && touched == old(touched)
      ensures ok ==> GrantedTo(base, old(heap), old(order), g, shared, heap, order, freep) && touched == old(touched) + {g.start, freep}
      ensures KeepsLive(old(heap), live, heap)
    {
      if g.Refused? {
        assert granted == Extend(granted, g, shared);
        return false;
      }
      GrantSound(base, heap, order, live, granted, g, shared, NULL);
      heap, touched := WithRegion(heap, g, shared), touched + {g.start};
      live := live + {g.start};
      granted := Extend(granted, g, shared);
      FreeLocked(g.start + 1);
      ok := true;
    }

    /** The morecore call inside the search (malloc.c:111-117): the search can go on from the
        node it stands on. */
    method AskKernel(n: nat, shared: bool, g1: Grant, g2: Grant, asked: nat,
                     ghost h0: Heap, ghost order0: seq<int>, ghost start: int, ghost granted0: imap<int, bool>, ghost prevp: int, ghost f: nat)
      returns (ok: bool, ghost i: nat, ghost f': nat)
      requires Valid() && freep != NULL && n > 0 && asked < 2
      requires Searching(h0, order0, start, g1, g2, shared, n, heap, order, asked, prevp, f, f)
      requires f < |order| && freep == order[f] && !Fit(heap, freep, n, shared)
      requires granted == Used(granted0, g1, g2, shared, asked)
      requires Fresh(base, granted0, n, g1) && Fresh(base, Extend(granted0, g1, shared), n, g2)
      modifies this
      ensures Valid() && freep != NULL && live == old(live) && granted == Used(granted0, g1, g2, shared, asked + 1)
      ensures ok == (if asked == 0 then g1 else g2).Region?
      ensures KeepsLive(old(heap), live, heap)
      ensures if ok then GrantedTo(base, old(heap), old(order), if asked == 0 then g1 else g2, shared, heap, order, freep)
              else heap == old(heap) && order == old(order) && freep == old(freep) && touched == old(touched)
      ensures ok ==> touched == old(touched) + {(if asked == 0 then g1 else g2).start, freep}
      ensures ok ==>
                && Searching(h0, order0, start, g1, g2, shared, n, heap, order, asked + 1, old(freep), i, f')
                && i < |order| && f' < |order| && old(freep) in heap
                && heap[old(freep)].ptr == order[i] && freep == order[f']
    {
      ghost var h, before := heap, order;
      var g := if asked == 0 then g1 else g2;
      i, f' := 0, 0;
      ok := MorecoreLocked(g, shared);
      if ok {
        f' := Slot(before, g.start);
        i := StepGrant(base, h0, order0, start, g1, g2, shared, n, h, before, asked, prevp, f, f');
      }
    }

    /** The search of malloc_locked (malloc.c:96-118).  When it finds a block it has come there
        from the block's list predecessor, unless a second region has swallowed the node the
        search stood on. */
    method SearchFit(n: nat, shared: bool, g1: Grant, g2: Grant)
      returns (found: bool, prevp: int, p: int, asked: nat, ghost i: nat)
      requires Valid() && freep != NULL && n > 0
      requires Fresh(base, granted, n, g1) && Fresh(base, Extend(granted, g1, shared), n, g2)
      modifies this
      ensures Valid() && freep != NULL && live == old(live) && granted == Used(old(granted), g1, g2, shared, asked)
      ensures asked == 0 <==> !NoneFit(old(heap), old(order), n, shared)
      ensures asked == 2 <==> AsksAgain(old(heap), old(order), old(freep), g1, n, shared)
      ensures asked == 0 ==> found && FirstFit(old(heap), old(order), old(freep), p, n, shared)
      ensures !found ==> (asked == 1 && g1.Refused?) || (asked == 2 && g2.Refused?)
      ensures AfterGrants(base, old(heap), old(order), old(freep), old(touched), g1, g2, shared, if found then asked else asked - 1,
                          heap, order, freep, touched)
      ensures KeepsLive(old(heap), live, heap)
      ensures found ==> asked <= 2 && 0 < i < |order| && p == order[i] && Fit(heap, p, n, shared) && prevp in heap && base <= prevp && prevp !in live
      ensures found ==> if asked == 2 && SwallowsStop(old(heap), old(order), g1, g2, shared) then prevp !in order
                        else prevp == order[i - 1]
    {
      hide Sound, Searching, List, AsksAgain, SwallowsStop, NoneFit, Fresh, Used, Extend, AfterGrants, GrantedTo, KeepsLive, FirstFit;
      NoGrantsYet(base, heap, order, live, granted, freep, touched, g1, g2, shared);
      SoundList(base, heap, order, live, granted);
      UsedNone(granted, g1, g2, shared);
      prevp := freep;
      ghost var h0, order0 := heap, order;
      ghost var f: nat := InOrder(order, freep);
      i := Succ(f, |order|);
      Around(base, heap, order, f);
      FreeIsNotLive(base, heap, order, live, granted, f);
      StartSearch(base, heap, order, g1, g2, shared, n, f);
      p := heap[prevp].ptr;
      asked := 0;
      while true
        invariant Valid() && freep != NULL && live == old(live)
        invariant i < |order| && f < |order|
        invariant Searching(h0, order0, old(freep), g1, g2, shared, n, heap, order, asked, prevp, i, f)
        invariant p == order[i] && freep == order[f] && base <= prevp && prevp !in live
        invariant granted == Used(old(granted), g1, g2, shared, asked)
        invariant AfterGrants(base, h0, order0, old(freep), old(touched), g1, g2, shared, asked, heap, order, freep, touched)
        invariant KeepsLive(h0, live, heap)
        decreases 2 - asked, Dist(i, f, |order|)
      {
        SoundList(base, heap, order, live, granted);
        Around(base, heap, order, i);
        FreeIsNotLive(base, heap, order, live, granted, i);
        if heap[p].shared == shared && heap[p].size >= n {
          Found(base, h0, order0, old(freep), g1, g2, shared, n, heap, order, asked, prevp, i, f);
          FoundFirst(base, h0, order0, old(freep), g1, g2, shared, n, heap, order, asked, prevp, i, f);
          return true, prevp, p, asked, i;
        }
        Distinct(base, heap, order, i, f);
        if p == freep {
          NoThird(h0, order0, old(freep), g1, g2, shared, n, heap, order, asked, prevp, i, f);
          var ok;
          ghost var h, before, at, w := heap, order, freep, touched;
          ok, i, f := AskKernel(n, shared, g1, g2, asked, h0, order0, old(freep), old(granted), prevp, f);
          LiveKept(h0, live, h, heap);
          asked := asked + 1;
          if !ok {
            return false, prevp, p, asked, i;
          }
          OneMoreGrant(base, h0, order0, old(freep), old(touched), g1, g2, shared, asked - 1, h, before, at, w, heap, order, freep);
        } else {
          StepAlong(base, h0, order0, old(freep), g1, g2, shared, n, heap, order, asked, prevp, i, f);
          i := Succ(i, |order|);
        }
        prevp := p;
        p := heap[p].ptr;
      }
    }

    /** malloc_locked (malloc.c:79-119), with the kernel's answers to the at most two morecore
        requests one call makes. */
    method MallocLocked(size: nat, shared: bool, g1: Grant, g2: Grant) returns (r: int, asked: nat)
      requires Valid()
      requires Fresh(base, granted, Units(size), g1) && Fresh(base, Extend(granted, g1, shared), Units(size), g2)
      modifies this
      ensures asked <= 2
      ensures asked == 0 <==> !NoneFit(old(heap), old(order), Units(size), shared)
      ensures asked == 2 <==> AsksAgain(old(heap), old(order), if old(freep) == NULL then base else old(freep), g1, Units(size), shared)
      ensures granted == Used(old(granted), g1, g2, shared, asked)
      ensures r == NULL ==> Valid() && live == old(live) && ((asked == 1 && g1.Refused?) || (asked == 2 && g2.Refused?))
      ensures r == NULL ==> Asked(base, old(heap), old(order), old(freep), old(touched), g1, g2, shared, asked - 1,
                                  heap, order, freep, touched)
      ensures r != NULL && !(asked == 2 && SwallowsStop(old(heap), old(order), g1, g2, shared)) ==>
                && Valid() && freep != NULL
                && r - 1 !in old(live) && live == old(live) + {r - 1}
                && heap[r - 1].size == Units(size) && heap[r - 1].shared == shared
                && Served(base, old(heap), old(order), old(freep), old(touched), g1, g2, shared, asked, r - 1, Units(size),
                          heap, order, freep, touched)
      ensures asked == 0 ==> r != NULL && FirstFit(old(heap), old(order), From(base, old(freep)), r - 1, Units(size), shared)
      ensures KeepsLive(old(heap), old(live), heap)
      ensures r != NULL && asked == 2 && SwallowsStop(old(heap), old(order), g1, g2, shared) ==>
                && List(base, heap, order) && r - 1 in order && freep !in order && freep != NULL
                && Misserved(base, old(heap), old(order), old(freep), old(touched), g1, g2, shared, r - 1, Units(size),
                             heap, order, freep, touched)
    {
      hide Sound, List, Units, TakeHeap, TakeOrder, Extend, Fresh, NoneFit, AsksAgain, Used, AfterGrants, Served, Misserved, KeepsLive, CutWrites, FirstFit;
      var n := Units(size);
      if freep == NULL {
        heap, touched := heap[base := Header(base, 0, heap[base].shared)], touched + {base};
        freep := base;
        EmptySound(base, heap);
      }
      SwallowsSame(old(heap), heap, order, g1, g2, shared);
      AccountSame(old(heap), heap, order, freep, g1, n, shared);
      ghost var h0, order0 := heap, order;
      var found, prevp, p;
      ghost var i;
      found, prevp, p, asked, i := SearchFit(n, shared, g1, g2);
      if !found {
        NoneLive(old(heap), heap);
        return NULL, asked;
      }
      FirstFitSame(old(heap), h0, order0, From(base, old(freep)), p, n, shared);
      SoundList(base, heap, order, live, granted);
      ListAbove(base, heap, order, i);
      if asked == 2 && SwallowsStop(h0, order0, g1, g2, shared) {
        TakeDerailed(base, heap, order, n, shared, prevp, i);
        TakeKeepsLive(base, heap, order, live, granted, prevp, i, n);
        IsMisserved(base, old(heap), order0, old(freep), old(touched), g1, g2, shared, heap, order, freep, touched, prevp, i, n);
      } else {
        TakeSound(base, heap, order, live, granted, i, n);
        TakeFrame(base, heap, order, i, n);
        TakeMember(heap, order, i, n);
        ListAbove(base, heap, order, i - 1);
        IsServed(base, old(heap), order0, old(freep), old(touched), g1, g2, shared, asked, heap, order, freep, touched, i, n);
        TakeKeepsLive(base, heap, order, live, granted, prevp, i, n);
        live, order := live + {p}, TakeOrder(heap, order, i, n);
      }
      LiveKept(h0, old(live), heap, TakeHeap(heap, prevp, p, n));
      Cut(prevp, p, n);
      NoneLive(old(heap), heap);
      r := p + 1;
    }

    /** malloc followed at once by free, with no memory fetched in between, restores the free
        list node by node. */
    method MallocThenFree(size: nat, shared: bool, g1: Grant, g2: Grant)
      requires Valid() && freep != NULL && !NoneFit(heap, order, Units(size), shared)
      requires Fresh(base, granted, Units(size), g1) && Fresh(base, Extend(granted, g1, shared), Units(size), g2)
      modifies this
      ensures Valid() && live == old(live) && granted == old(granted)
      ensures order == old(order) && SameHeaders(old(heap), heap, order)
    {
      hide Sound, List, Units, TakeHeap, TakeOrder, PutBack, PutBackOrder, Extend, Fresh, AsksAgain, SwallowsStop, NoneFit, Fits;
      ghost var n := Units(size);
      SoundList(base, heap, order, live, granted);
      var r, asked := MallocLocked(size, shared, g1, g2);
      ghost var j: nat := ServedHere(base, old(heap), old(order), old(freep), old(touched), g1, g2, shared, r - 1, n,
                                      heap, order, freep, touched);
      TakeThenPutBack(base, old(heap), old(order), j, n);
      FreeLocked(r);
    }

    /** Unlinking or splitting the block found (malloc.c:98-108). */
    method Cut(prevp: int, p: int, n: nat)
      requires prevp in heap && p in heap && 0 < n <= heap[p].size
      modifies this`heap, this`freep, this`touched
      ensures heap == TakeHeap(old(heap), prevp, p, n) && freep == prevp && touched == old(touched) + CutWrites(old(heap), prevp, p, n)
    {
      touched := touched + CutWrites(heap, prevp, p, n);
      if heap[p].size == n {
        heap := heap[prevp := heap[prevp].(ptr := heap[p].ptr)];
      } else {
        var np := p + n;
        heap := heap[prevp := heap[prevp].(ptr := np)];
        heap := heap[np := Header(heap[p].ptr, heap[p].size - n, heap[p].shared)];
        heap := heap[p := heap[p].(size := n)];
      }
      freep := prevp;
    }
  }

  // ---------------------------------------------------------------- memory from sys_brk

  /** morecore_brk_locked (malloc.c:45-63) in bytes, given the static `brk` and the two answers of
      sys_brk, None for a failure: the region it adds, and brk afterwards. */
  function BrkGrant(brk: nat, first: Answer, second: Answer): (Grant, nat) {
    var at := if brk == 0 && first.To? then first.brk else brk;
    if at == 0 || second.Failed? || second.brk <= at then (Refused, at)
    else (Region(at / UNIT_BYTES, (second.brk - at) / UNIT_BYTES), second.brk)
  }

  datatype Answer = Failed | To(brk: nat)

  /** Every unit the allocator has from sys_brk lies below `brk`. */
  ghost predicate BelowBrk(granted: imap<int, bool>, brk: nat) {
    forall u :: u in granted && !granted[u] ==> u * UNIT_BYTES < brk
  }

  /** Over any number of requests: a region begins where the last one ended, is new, and moves brk up to its end.
      The kernel's answers are page addresses. */
  lemma BrkGoesUp(granted: imap<int, bool>, brk: nat, first: Answer, second: Answer)
    requires BelowBrk(granted, brk) && brk % UNIT_BYTES == 0
    requires (first.To? ==> first.brk % UNIT_BYTES == 0) && (second.To? ==> second.brk % UNIT_BYTES == 0)
    ensures var (g, brk') := BrkGrant(brk, first, second);
            && brk <= brk' && brk' % UNIT_BYTES == 0 && BelowBrk(Extend(granted, g, false), brk')
            && (g.Region? <==> second.To? && (brk != 0 || (first.To? && first.brk != 0)) && second.brk > (if brk != 0 then brk else first.brk))
            && (g.Region? ==>
                  && brk < brk' == second.brk && (g.start + g.units) * UNIT_BYTES == brk' && g.units > 0
                  && g.start * UNIT_BYTES == (if brk != 0 then brk else first.brk)
                  && forall u :: InRegion(g, u) ==> !(u in granted && !granted[u]))
  {
  }

  /** morecore_shmem_locked (malloc.c:65-77), given what sys_shmem answers: whole pages. */
  function ShmemGrant(nu: nat, answer: Answer): Grant {
    if answer.Failed? || answer.brk == 0 then Refused
    else Region(answer.brk / UNIT_BYTES, (nu * UNIT_BYTES + 0xfff) / 0x1000 * 0x1000 / UNIT_BYTES)
  }

  /** As large as asked for, and less than a page too large. */
  lemma ShmemIsEnough(nu: nat, answer: Answer)
    ensures var g := ShmemGrant(nu, answer);
            && (g.Region? <==> answer.To? && answer.brk != 0)
            && (g.Region? ==> nu <= g.units < nu + 64 && g.units % 64 == 0)
            && (g.Region? && answer.brk % 0x1000 == 0 ==> g.start * UNIT_BYTES == answer.brk && g.start % 64 == 0)
  {
    var pages := (nu * 64 + 0xfff) / 0x1000;
    assert pages * 0x1000 / 64 == pages * 64;
  }

  /** Whatever sys_brk answers, a second region lies above the first one, so a normal malloc is
      never derailed. */
  lemma BrkNeverDerails(h: Heap, order: seq<int>, t: bool, brk: nat, a1: Answer, b1: Answer, a2: Answer, b2: Answer)
    ensures var (g1, brk1) := BrkGrant(brk, a1, b1);
            var (g2, _) := BrkGrant(brk1, a2, b2);
            !SwallowsStop(h, order, g1, g2, t)
  {
  }

  /** Shared memory is placed at the top of the highest hole (get_unmapped_area, vmm.c:476-495).  As long as
      that puts a region below every shared block on the list, shmem_malloc is not derailed either: it
      takes a hole between shared blocks, left by an unmapping. */
  lemma TopDownNeverDerails(h: Heap, order: seq<int>, g1: Grant, g2: Grant)
    requires forall a :: a in order && a in h && h[a].shared && g1.Region? ==> g1.start + g1.units <= a
    ensures !SwallowsStop(h, order, g1, g2, true)
  {
    if g1.Region? && |order| > 0 && order[0] < g1.start {
      assert order[Slot(order, g1.start)] in order;
    }
  }

  // ---------------------------------------------------------------- a run that goes wrong

  const PAGE := 64              // units in a page
  const USERBASE := 0x40000     // the lowest user address (memlayout.h), in units

  /** What mm_map_shmem accepts: whole pages of user memory. */
  predicate WholePages(g: Grant) { g.Region? && g.start >= USERBASE && g.start % PAGE == 0 && g.units % PAGE == 0 }

  /** Serving n units from a region of u that joins a list of `base` alone. */
  lemma CutFromFirst(base: int, h: Heap, freep: int, w: set<int>, start: int, u: nat, n: nat,
                     p: int, h': Heap, order': seq<int>, freep': int, w': set<int>)
    requires base in h && h[base].size == 0 && !h[base].shared && base < start && 0 < n < u
    requires freep != NULL ==> freep == base && h[base].ptr == base
    requires Served(base, h, [base], freep, w, Region(start, u), Refused, true, 1, p, n, h', order', freep', w')
    ensures p == start && order' == [base, start + n] && freep' == base
    ensures h' == h[start := Header(base, n, true)][start + n := Header(base, u - n, true)][base := Header(start + n, 0, false)]
  {
    var g := Region(start, u);
    var h1, order1, freep1, w1 :|
      && Asked(base, h, [base], freep, w, g, Refused, true, 1, h1, order1, freep1, w1)
      && ServedFrom(h1, order1, p, n, true, h', order', freep') && w' == w1 + CutWrites(h1, freep', p, n);
    assert Slot([base], start) == 0 && order1 == [base, start];
    assert h1 == Started(base, h, freep)[start := Header(base, u, true)][base := Header(start, 0, false)];
    var j :| CutAt(h1, order1, j, p, n, true, h', order', freep');
    assert j == 1 && order1[..1] == [base] && order1[2..] == [];
  }

  /** A request that finds nothing on a list of `base` alone asks once. */
  lemma AsksOnce(base: int, h: Heap, n: nat, g: Grant)
    requires base in h && h[base].size == 0 && n > 0
    ensures NoneFit(h, [base], n, true) && !AsksAgain(h, [base], base, g, n, true)
  {
  }

  /** Taking the only block of a list, all of it. */
  lemma CutOnly(base: int, h: Heap, w: set<int>, b: int, n: nat, g1: Grant, g2: Grant,
                p: int, h': Heap, order': seq<int>, freep': int, w': set<int>)
    requires base in h && b in h && b != base && h[base] == Header(b, 0, false) && h[b] == Header(base, n, true) && n > 0 && base != NULL
    requires Served(base, h, [base, b], base, w, g1, g2, true, 0, p, n, h', order', freep', w')
    ensures p == b && order' == [base] && freep' == base && h' == h[base := Header(base, 0, false)]
  {
    var j := ServedHere(base, h, [base, b], base, w, g1, g2, true, p, n, h', order', freep', w');
    assert [base, b][..1] == [base] && [base, b][2..] == [];
  }

  const BASE := 0x40001
  const FIRST := Region(0x40440, 64)
  const SECOND := Region(0x404c0, 64)
  const HOLE := Region(0x40480, 64)    // between the two
  const BELOW := Region(0x40400, 64)   // just below the first

  /** Two shared pages, each with one unit free at its outer end, and a page-sized hole between
      them. */
  const SPLIT: Heap := map[BASE := Header(0x40440, 0, false), 0x40440 := Header(0x404ff, 1, true), 0x40441 := Header(BASE, 63, true),
                           0x404c0 := Header(BASE, 63, true), 0x404ff := Header(BASE, 1, true)]
  const SPLIT_ORDER := [BASE, 0x40440, 0x404ff]

  ghost predicate PagesOnly(granted: imap<int, bool>) {
    forall u :: u in granted ==> InRegion(FIRST, u) || InRegion(SECOND, u)
  }

  /** Freeing the first block after the four calls before it. */
  lemma FreeFirst(h: Heap, h': Heap, order': seq<int>)
    requires h == map[BASE := Header(0x404ff, 0, false), 0x40440 := Header(BASE, 1, true), 0x40441 := Header(BASE, 63, true),
                      0x404c0 := Header(BASE, 63, true), 0x404ff := Header(BASE, 1, true)]
    requires Fits(BASE, h, [BASE, 0x404ff], Slot([BASE, 0x404ff], 0x40440), 0x40440)
    requires h[[BASE, 0x404ff][Slot([BASE, 0x404ff], 0x40440)]].ptr in h
    requires h' == PutBack(h, [BASE, 0x404ff][Slot([BASE, 0x404ff], 0x40440)], 0x40440)
    requires order' == PutBackOrder(h, [BASE, 0x404ff], Slot([BASE, 0x404ff], 0x40440), 0x40440)
    ensures h' == SPLIT && order' == SPLIT_ORDER && [BASE, 0x404ff][Slot([BASE, 0x404ff], 0x40440)] == BASE
  {
    assert [BASE, 0x404ff][..1] == [BASE] && Slot([BASE, 0x404ff], 0x40440) == 0;
  }

  lemma SplitDerails()
    ensures NoneFit(SPLIT, SPLIT_ORDER, 64, true)
    ensures AsksAgain(SPLIT, SPLIT_ORDER, BASE, HOLE, 64, true)
    ensures SwallowsStop(SPLIT, SPLIT_ORDER, HOLE, BELOW, true)
    ensures WholePages(FIRST) && WholePages(SECOND) && WholePages(HOLE) && WholePages(BELOW)
  {
    assert SPLIT_ORDER[..2] == [BASE, 0x40440] && Slot(SPLIT_ORDER, 0x40480) == 1;
  }

  lemma FirstPage()
    ensures Units(0) == 1 && Units(62 * UNIT_BYTES) == 63 && Units(63 * UNIT_BYTES) == 64
  {
  }

  lemma PageIsFresh(granted: imap<int, bool>)
    requires PagesOnly(granted)
    ensures Fresh(BASE, granted, 64, HOLE) && Fresh(BASE, Extend(granted, HOLE, true), 64, BELOW)
  {
  }

  /** shmem_malloc of 1 unit and of 63 units, from a first page. */
  method FillPage() returns (a: Allocator)
    ensures fresh(a) && a.Valid() && a.base == BASE && a.freep == BASE && a.order == [BASE] && a.live == {0x40440, 0x40441}
    ensures a.granted == Extend(imap[], FIRST, true)
    ensures a.heap == map[BASE := Header(BASE, 0, false), 0x40440 := Header(BASE, 1, true), 0x40441 := Header(BASE, 63, true)]
  {
    hide Sound, List, Served, Asked, AfterGrants, NoneFit, AsksAgain, SwallowsStop, KeepsLive, Slot, Units, Extend;
    FirstPage();
    a := new Allocator(BASE);
    AsksOnce(BASE, a.heap, 1, FIRST);
    var r, asked := a.MallocLocked(0, true, FIRST, Refused);
    CutFromFirst(BASE, map[BASE := Header(NULL, 0, false)], NULL, {}, 0x40440, 64, 1, r - 1, a.heap, a.order, a.freep, a.touched);
    ghost var h, w := map[BASE := Header(0x40441, 0, false), 0x40440 := Header(BASE, 1, true), 0x40441 := Header(BASE, 63, true)], a.touched;
    assert a.heap == h;
    FitsAt(h, [BASE, 0x40441], 1, 63);
    r, asked := a.MallocLocked(62 * UNIT_BYTES, true, Refused, Refused);
    CutOnly(BASE, h, w, 0x40441, 63, Refused, Refused, r - 1, a.heap, a.order, a.freep, a.touched);
  }

  lemma FitsAt(h: Heap, order: seq<int>, j: nat, n: nat)
    requires j < |order| && Fit(h, order[j], n, true)
    ensures !NoneFit(h, order, n, true)
  {
  }

  /** shmem_malloc of 63 units from a second page, and free of the 1 unit. */
  method SplitPages() returns (a: Allocator)
    ensures fresh(a) && a.Valid() && a.base == BASE && a.freep == BASE && a.heap == SPLIT && a.order == SPLIT_ORDER && PagesOnly(a.granted)
  {
    hide Sound, List, Served, Asked, AfterGrants, NoneFit, AsksAgain, SwallowsStop, KeepsLive, Slot, Units, Fits, PutBack, PutBackOrder;
    FirstPage();
    a := FillPage();
    ghost var h, w := a.heap, a.touched;
    AsksOnce(BASE, h, 63, SECOND);
    assert Fresh(BASE, a.granted, 63, SECOND);
    var r, asked := a.MallocLocked(62 * UNIT_BYTES, true, SECOND, Refused);
    CutFromFirst(BASE, h, BASE, w, 0x404c0, 64, 63, r - 1, a.heap, a.order, a.freep, a.touched);
    PagesGranted();
    ghost var h1 := a.heap;
    a.FreeLocked(0x40441);
    FreeFirst(h1, a.heap, a.order);
  }

  lemma PagesGranted()
    ensures PagesOnly(Extend(Extend(imap[], FIRST, true), SECOND, true))
  {
  }

  /** A run of the allocator, from the start, that ends derailed: shmem_malloc of 1, 63 and 63
      units, free of the first, and shmem_malloc of 64 for which the first grant fills the hole
      and the second is placed just below.  Every grant is whole pages of user memory. */
  method Derailment() returns (a: Allocator, r: int)
    ensures fresh(a) && r != NULL && List(a.base, a.heap, a.order) && r - 1 in a.order && a.freep !in a.order
  {
    hide Sound, List, Served, Asked, AfterGrants, NoneFit, AsksAgain, SwallowsStop, KeepsLive, Units, Fresh, Extend, PagesOnly;
    FirstPage();
    a := SplitPages();
    PageIsFresh(a.granted);
    SplitDerails();
    var asked;
    r, asked := a.MallocLocked(63 * UNIT_BYTES, true, HOLE, BELOW);
  }
}
