/** The free list of the typed allocator (ucore/src/libs-user-ucore/malloc.c), as values.

    Memory is measured in units of sizeof(header_t) = 64 bytes.  A header lives at a unit
    address; `shared` is the block type (false: sys_brk memory, true: shared memory).
    `order` lists the addresses of the free blocks from the static header `base` upwards. */
module FreeList {

  datatype Header = Header(ptr: int, size: nat, shared: bool)

  type Heap = map<int, Header>

  function Succ(i: nat, n: nat): nat
    requires i < n
  {
    if i + 1 < n then i + 1 else 0
  }

  /** The unit addresses of block a. */
  predicate UnitIn(h: Heap, a: int, u: int)
    requires a in h
  {
    a <= u < a + h[a].size
  }

  predicate Apart(h: Heap, a: int, b: int)
    requires a in h && b in h
  {
    a + h[a].size <= b || b + h[b].size <= a
  }

  predicate SameTypeTouching(h: Heap, a: int, b: int)
    requires a in h && b in h
  {
    h[a].shared == h[b].shared && a + h[a].size == b
  }

  /** Node a links to c, which lies above it, disjoint from it, and not mergeable with it. */
  predicate Pair(h: Heap, a: int, c: int)
    requires a in h && c in h
  {
    h[a].ptr == c && a < c && a + h[a].size <= c && !SameTypeTouching(h, a, c)
  }

  predicate PairAt(h: Heap, s: seq<int>, i: nat)
    requires (forall k :: 0 <= k < |s| ==> s[k] in h) && i + 1 < |s|
  {
    Pair(h, s[i], s[i + 1])
  }

  /** A stretch of the list: each node is properly linked to the next. */
  predicate Segment(h: Heap, s: seq<int>) {
    && (forall i :: 0 <= i < |s| ==> s[i] in h)
    && (forall i: nat :: i + 1 < |s| ==> PairAt(h, s, i))
  }

  /** The circular free list is exactly `order`: strictly ascending with one wrap back to
      base, pairwise disjoint, and no two neighbours of one type touch. */
  predicate List(base: int, h: Heap, order: seq<int>) {
    && |order| > 0 && order[0] == base
    && Segment(h, order)
    && h[order[|order| - 1]].ptr == base
    && h[base].size == 0 && !h[base].shared
    && (forall i :: 0 < i < |order| ==> h[order[i]].size > 0)
  }

  lemma SegmentJoin(h: Heap, a: seq<int>, b: seq<int>)
    requires Segment(h, a) && Segment(h, b)
    requires |a| > 0 && |b| > 0 ==> Pair(h, a[|a| - 1], b[0])
    ensures Segment(h, a + b)
  {
    forall i: nat | i + 1 < |a + b| ensures PairAt(h, a + b, i) {
      if i + 1 < |a| { assert PairAt(h, a, i); }
      else if i >= |a| { assert PairAt(h, b, i - |a|); }
    }
  }

  lemma SegmentSlice(h: Heap, s: seq<int>, lo: nat, hi: nat)
    requires Segment(h, s) && lo <= hi <= |s|
    ensures Segment(h, s[lo..hi])
  {
    forall i: nat | i + 1 < hi - lo ensures PairAt(h, s[lo..hi], i) { assert PairAt(h, s, lo + i); }
  }

  /** Changing headers outside a segment, or the link and size of its last node, keeps it. */
  lemma SegmentFrame(h: Heap, h': Heap, s: seq<int>)
    requires Segment(h, s)
    requires forall i :: 0 <= i < |s| - 1 ==> s[i] in h' && h'[s[i]] == h[s[i]]
    requires |s| > 0 ==> s[|s| - 1] in h' && h'[s[|s| - 1]].shared == h[s[|s| - 1]].shared
    ensures Segment(h', s)
  {
    forall i: nat | i + 1 < |s| ensures PairAt(h', s, i) { assert PairAt(h, s, i); }
  }

  /** Any two nodes of a segment are ascending and disjoint. */
  lemma {:induction false} Ordered(h: Heap, s: seq<int>, i: nat, j: nat)
    requires Segment(h, s) && i < j < |s|
    ensures s[i] < s[j] && s[i] + h[s[i]].size <= s[j]
    decreases j - i
  {
    assert PairAt(h, s, i);
    if i + 1 < j { Ordered(h, s, i + 1, j); }
  }

  /** Position of the list node after which address b belongs. */
  function Slot(order: seq<int>, b: int): (k: nat)
    requires |order| > 0 && order[0] < b
    ensures k < |order| && order[k] < b && (k + 1 < |order| ==> b <= order[k + 1])
  {
    if order[|order| - 1] < b then |order| - 1 else Slot(order[..|order| - 1], b)
  }

  lemma {:induction false} SlotIs(h: Heap, order: seq<int>, b: int, k: nat)
    requires Segment(h, order)
    requires k < |order| && order[k] < b && (k + 1 < |order| ==> b <= order[k + 1])
    ensures order[0] < b && Slot(order, b) == k
  {
    if k > 0 { Ordered(h, order, 0, k); }
    if k + 1 < |order| {
      var n := |order| - 1;
      if k + 1 < n { Ordered(h, order, k + 1, n); }
      SegmentSlice(h, order, 0, n);
      assert order[0..n] == order[..n];
      SlotIs(h, order[..n], b, k);
    }
  }

  // ---------------------------------------------------------------- free_locked

  /** The header block b gets when it is put back between p and p's successor
      (malloc.c:131-137). */
  function Upper(h: Heap, p: int, b: int): Header
    requires p in h && b in h && h[p].ptr in h
  {
    var n := h[p].ptr;
    if SameTypeTouching(h, b, n) then Header(h[n].ptr, h[b].size + h[n].size, h[b].shared)
    else h[b].(ptr := n)
  }

  /** The heap after block b has been put back after list node p (malloc.c:131-145). */
  function PutBack(h: Heap, p: int, b: int): Heap
    requires p in h && b in h && h[p].ptr in h && p != b
  {
    var up := Upper(h, p, b);
    if SameTypeTouching(h, p, b) then h[b := up][p := Header(up.ptr, h[p].size + up.size, h[p].shared)]
    else h[b := up][p := h[p].(ptr := b)]
  }

  predicate MergesUp(h: Heap, order: seq<int>, k: nat, b: int)
    requires k < |order| && b in h && forall i :: 0 <= i < |order| ==> order[i] in h
  {
    k + 1 < |order| && SameTypeTouching(h, b, order[k + 1])
  }

  /** The list after block b has been put back at slot k. */
  function PutBackOrder(h: Heap, order: seq<int>, k: nat, b: int): seq<int>
    requires k < |order| && b in h && forall i :: 0 <= i < |order| ==> order[i] in h
  {
    order[..k + 1]
    + (if SameTypeTouching(h, order[k], b) then [] else [b])
    + (if MergesUp(h, order, k, b) then order[k + 2..] else order[k + 1..])
  }

  /** Block b is outside every free block and lies strictly between slot k and the next. */
  predicate Fits(base: int, h: Heap, order: seq<int>, k: nat, b: int) {
    && List(base, h, order)
    && k < |order| && b in h && h[b].size > 0
    && order[k] < b && order[k] + h[order[k]].size <= b
    && (k + 1 < |order| ==> b + h[b].size <= order[k + 1])
  }

  lemma NextIs(base: int, h: Heap, order: seq<int>, k: nat, b: int)
    requires Fits(base, h, order, k, b)
    ensures b !in order && base < b
    ensures h[order[k]].ptr == if k + 1 < |order| then order[k + 1] else base
    ensures MergesUp(h, order, k, b) <==> SameTypeTouching(h, b, h[order[k]].ptr)
  {
    if k > 0 { Ordered(h, order, 0, k); }
    if k + 1 < |order| { assert PairAt(h, order, k); }
    forall i | 0 <= i < |order| ensures order[i] != b {
      if i > k + 1 { Ordered(h, order, k + 1, i); } else if i < k { Ordered(h, order, i, k); }
    }
  }

  lemma HighFrame(base: int, h: Heap, order: seq<int>, k: nat, b: int)
    requires Fits(base, h, order, k, b)
    ensures h[order[k]].ptr in h && order[k] != b
    ensures forall i :: k < i < |order| ==> PutBack(h, order[k], b)[order[i]] == h[order[i]]
    ensures forall i :: 0 <= i < k ==> PutBack(h, order[k], b)[order[i]] == h[order[i]]
  {
    NextIs(base, h, order, k, b);
    forall i | 0 <= i < |order| && i != k ensures order[i] != order[k] {
      if i < k { Ordered(h, order, i, k); } else { Ordered(h, order, k, i); }
    }
  }

  lemma PutBackSegment(base: int, h: Heap, order: seq<int>, k: nat, b: int)
    requires Fits(base, h, order, k, b)
    ensures h[order[k]].ptr in h && order[k] != b
    ensures Segment(PutBack(h, order[k], b), PutBackOrder(h, order, k, b))
  {
    NextIs(base, h, order, k, b);
    HighFrame(base, h, order, k, b);
    var h' := PutBack(h, order[k], b);
    var low := order[..k + 1];
    var mid := if SameTypeTouching(h, order[k], b) then [] else [b];
    var cut := if MergesUp(h, order, k, b) then k + 2 else k + 1;
    var high := order[cut..];
    SegmentSlice(h, order, 0, k + 1);
    assert order[0..k + 1] == low;
    SegmentFrame(h, h', low);
    SegmentSlice(h, order, cut, |order|);
    assert high == order[cut..|order|];
    SegmentFrame(h, h', high);
    if k + 1 < |order| { assert PairAt(h, order, k); }
    if k + 2 < |order| { assert PairAt(h, order, k + 1); }
    SegmentJoin(h', low, mid);
    SegmentJoin(h', low + mid, high);
  }

  /** Putting block b back keeps the list well formed, whichever neighbours it merges with. */
  lemma PutBackKeepsList(base: int, h: Heap, order: seq<int>, k: nat, b: int)
    requires Fits(base, h, order, k, b)
    ensures h[order[k]].ptr in h && order[k] != b
    ensures List(base, PutBack(h, order[k], b), PutBackOrder(h, order, k, b))
  {
    NextIs(base, h, order, k, b);
    HighFrame(base, h, order, k, b);
    PutBackSegment(base, h, order, k, b);
    var h', order' := PutBack(h, order[k], b), PutBackOrder(h, order, k, b);
    var n, n' := |order|, |order'|;
    assert h'[order'[n' - 1]].ptr == base by {
      if k + 2 < n || (k + 2 == n && !MergesUp(h, order, k, b)) {
        assert order'[n' - 1] == order[n - 1];
      } else {
        assert order'[n' - 1] == if SameTypeTouching(h, order[k], b) then order[k] else b;
      }
    }
    assert SameTypeTouching(h, order[k], b) ==> k > 0;
    forall i | 0 < i < n' ensures h'[order'[i]].size > 0 {
      if i > k + 1 { assert order'[i] in order[k + 1..]; }
    }
  }

  // ---------------------------------------------------------------- malloc_locked

  /** The heap after n units have been cut off the front of free block p, whose list
      predecessor is prev (malloc.c:98-107). */
  function TakeHeap(h: Heap, prev: int, p: int, n: nat): Heap
    requires prev in h && p in h && 0 < n <= h[p].size
  {
    if h[p].size == n then h[prev := h[prev].(ptr := h[p].ptr)]
    else
      var rest := p + n;
      var h1 := h[prev := h[prev].(ptr := rest)];
      h1[rest := Header(h1[p].ptr, h1[p].size - n, h[p].shared)][p := h1[p].(size := n)]
  }

  function TakeOrder(h: Heap, order: seq<int>, j: nat, n: nat): seq<int>
    requires j < |order| && order[j] in h
  {
    if h[order[j]].size == n then order[..j] + order[j + 1..]
    else order[..j] + [order[j] + n] + order[j + 1..]
  }

  lemma TakeFrame(base: int, h: Heap, order: seq<int>, j: nat, n: nat)
    requires List(base, h, order) && 0 < j < |order| && 0 < n <= h[order[j]].size
    ensures var h' := TakeHeap(h, order[j - 1], order[j], n);
            && (forall i :: 0 <= i < |order| && i != j && i != j - 1 ==> order[i] in h' && h'[order[i]] == h[order[i]])
            && order[j - 1] in h' && h'[order[j - 1]].shared == h[order[j - 1]].shared
            && h'[order[j - 1]].size == h[order[j - 1]].size
            && order[j] in h' && h'[order[j]].size == n && h'[order[j]].shared == h[order[j]].shared
  {
    forall i | 0 <= i < |order| && i != j ensures order[i] != order[j] && (n < h[order[j]].size ==> order[i] != order[j] + n) {
      if i < j { Ordered(h, order, i, j); } else { Ordered(h, order, j, i); }
    }
    forall i | 0 <= i < |order| && i != j && i != j - 1 ensures order[i] != order[j - 1] {
      if i < j { Ordered(h, order, i, j - 1); } else { Ordered(h, order, j - 1, i); }
    }
  }

  /** Cutting a block off a free block keeps the list well formed. */
  lemma TakeKeepsList(base: int, h: Heap, order: seq<int>, j: nat, n: nat)
    requires List(base, h, order) && 0 < j < |order| && 0 < n <= h[order[j]].size
    ensures List(base, TakeHeap(h, order[j - 1], order[j], n), TakeOrder(h, order, j, n))
  {
    TakeFrame(base, h, order, j, n);
    TakeSegment(base, h, order, j, n);
    assert PairAt(h, order, j - 1);
    hide PairAt;
  }

  lemma TakeSegment(base: int, h: Heap, order: seq<int>, j: nat, n: nat)
    requires List(base, h, order) && 0 < j < |order| && 0 < n <= h[order[j]].size
    ensures Segment(TakeHeap(h, order[j - 1], order[j], n), TakeOrder(h, order, j, n))
  {
    var h' := TakeHeap(h, order[j - 1], order[j], n);
    var low, high := order[..j], order[j + 1..];
    var mid := if h[order[j]].size == n then [] else [order[j] + n];
    TakeFrame(base, h, order, j, n);
    SegmentSlice(h, order, 0, j);
    assert order[0..j] == low;
    SegmentFrame(h, h', low);
    SegmentSlice(h, order, j + 1, |order|);
    assert order[j + 1..|order|] == high;
    SegmentFrame(h, h', high);
    assert PairAt(h, order, j - 1);
    if j + 1 < |order| { assert PairAt(h, order, j); }
    SegmentJoin(h', low, mid);
    SegmentJoin(h', low + mid, high);
    assert TakeOrder(h, order, j, n) == low + mid + high;
  }

  // ---------------------------------------------------------------- units

  /** Unit u belongs to a free block of type t. */
  ghost predicate FreeUnit(h: Heap, order: seq<int>, u: int, t: bool) {
    exists a :: a in order && a in h && UnitIn(h, a, u) && h[a].shared == t
  }

  /** Unit u belongs to a block of type t that has been handed out. */
  ghost predicate LiveUnit(h: Heap, live: set<int>, u: int, t: bool) {
    exists a :: a in live && a in h && UnitIn(h, a, u) && h[a].shared == t
  }

  /** Putting b back adds exactly b's units to the free ones. */
  lemma PutBackUnits(base: int, h: Heap, order: seq<int>, k: nat, b: int, u: int, t: bool)
    requires Fits(base, h, order, k, b)
    ensures h[order[k]].ptr in h && order[k] != b
    ensures FreeUnit(PutBack(h, order[k], b), PutBackOrder(h, order, k, b), u, t)
        <==> FreeUnit(h, order, u, t) || (UnitIn(h, b, u) && h[b].shared == t)
  {
    NextIs(base, h, order, k, b);
    HighFrame(base, h, order, k, b);
    var h', order' := PutBack(h, order[k], b), PutBackOrder(h, order, k, b);
    var p := order[k];
    if FreeUnit(h, order, u, t) {
      var a :| a in order && a in h && UnitIn(h, a, u) && h[a].shared == t;
      if a in order' {
        assert UnitIn(h', a, u);
      } else {
        assert a == order[k + 1];
        var c := if SameTypeTouching(h, p, b) then p else b;
        assert c in order' && UnitIn(h', c, u);
      }
    }
    if UnitIn(h, b, u) && h[b].shared == t {
      var c := if SameTypeTouching(h, p, b) then p else b;
      assert c in order' && UnitIn(h', c, u);
    }
    if FreeUnit(h', order', u, t) {
      var a :| a in order' && a in h' && UnitIn(h', a, u) && h'[a].shared == t;
      if !(UnitIn(h, b, u) && h[b].shared == t) {
        var c := if (a == b || a == p) && !UnitIn(h, a, u) then order[k + 1] else a;
        assert c in order && UnitIn(h, c, u) && h[c].shared == t;
      }
    }
  }

  /** Cutting a block off takes exactly its units from the free ones. */
  lemma TakeUnits(base: int, h: Heap, order: seq<int>, j: nat, n: nat, u: int, t: bool)
    requires List(base, h, order) && 0 < j < |order| && 0 < n <= h[order[j]].size
    ensures FreeUnit(h, order, u, t)
        <==> FreeUnit(TakeHeap(h, order[j - 1], order[j], n), TakeOrder(h, order, j, n), u, t)
             || (order[j] <= u < order[j] + n && h[order[j]].shared == t)
  {
    if FreeUnit(h, order, u, t) { TakeKeepsUnit(base, h, order, j, n, u, t); }
    if FreeUnit(TakeHeap(h, order[j - 1], order[j], n), TakeOrder(h, order, j, n), u, t) { TakeAddsNoUnit(base, h, order, j, n, u, t); }
    var p := order[j];
    if p <= u < p + n && h[p].shared == t { assert p in order && UnitIn(h, p, u); }
  }

  lemma TakeKeepsUnit(base: int, h: Heap, order: seq<int>, j: nat, n: nat, u: int, t: bool)
    requires List(base, h, order) && 0 < j < |order| && 0 < n <= h[order[j]].size && FreeUnit(h, order, u, t)
    ensures FreeUnit(TakeHeap(h, order[j - 1], order[j], n), TakeOrder(h, order, j, n), u, t)
            || (order[j] <= u < order[j] + n && h[order[j]].shared == t)
  {
    var h', order', p := TakeHeap(h, order[j - 1], order[j], n), TakeOrder(h, order, j, n), order[j];
    TakeFrame(base, h, order, j, n);
    var a :| a in order && a in h && UnitIn(h, a, u) && h[a].shared == t;
    if a != p { assert a in order' && UnitIn(h', a, u); }
    else if u >= p + n { assert p + n in order' && UnitIn(h', p + n, u); }
  }

  lemma TakeAddsNoUnit(base: int, h: Heap, order: seq<int>, j: nat, n: nat, u: int, t: bool)
    requires List(base, h, order) && 0 < j < |order| && 0 < n <= h[order[j]].size
    requires FreeUnit(TakeHeap(h, order[j - 1], order[j], n), TakeOrder(h, order, j, n), u, t)
    ensures FreeUnit(h, order, u, t)
  {
    var h', order', p := TakeHeap(h, order[j - 1], order[j], n), TakeOrder(h, order, j, n), order[j];
    TakeFrame(base, h, order, j, n);
    var a :| a in order' && a in h' && UnitIn(h', a, u) && h'[a].shared == t;
    var c := if a in order then a else p;
    assert c in order && UnitIn(h, c, u) && h[c].shared == t;
  }

  lemma FitsAgain(base: int, h: Heap, order: seq<int>, j: nat, n: nat)
    requires List(base, h, order) && 0 < j < |order| && 0 < n <= h[order[j]].size
    ensures var p := order[j];
            var h', order' := TakeHeap(h, order[j - 1], p, n), TakeOrder(h, order, j, n);
            && base < p && Slot(order', p) == j - 1
            && Fits(base, h', order', j - 1, p)
            && order'[j - 1] == order[j - 1] && !SameTypeTouching(h', order[j - 1], p)
  {
    var p := order[j];
    var h', order' := TakeHeap(h, order[j - 1], p, n), TakeOrder(h, order, j, n);
    TakeKeepsList(base, h, order, j, n);
    TakeFrame(base, h, order, j, n);
    Ordered(h, order, 0, j);
    assert PairAt(h, order, j - 1);
    if j + 1 < |order| { assert PairAt(h, order, j); }
    SlotIs(h', order', p, j - 1);
  }

  lemma RestoredHeaders(base: int, h: Heap, order: seq<int>, j: nat, n: nat, i: nat)
    requires List(base, h, order) && 0 < j < |order| && 0 < n <= h[order[j]].size && i < |order|
    ensures var p, q := order[j], order[j - 1];
            var h' := TakeHeap(h, q, p, n);
            p != q && h'[q].ptr in h' && !SameTypeTouching(h', q, p) && order[i] in PutBack(h', q, p) && PutBack(h', q, p)[order[i]] == h[order[i]]
  {
    var p, q := order[j], order[j - 1];
    TakeFrame(base, h, order, j, n);
    assert PairAt(h, order, j - 1);
    Ordered(h, order, 0, j);
    if j + 1 < |order| { assert PairAt(h, order, j); }
    if i != j && i != j - 1 {
      if i < j { Ordered(h, order, i, j); } else { Ordered(h, order, j, i); }
      if i < j - 1 { Ordered(h, order, i, j - 1); } else { Ordered(h, order, j - 1, i); }
    }
  }

  /** Freeing a block straight after cutting it off gives back the very same list, header by
      header: what it leaves behind is not mergeable with what came before it. */
  lemma TakeThenPutBack(base: int, h: Heap, order: seq<int>, j: nat, n: nat)
    requires List(base, h, order) && 0 < j < |order| && 0 < n <= h[order[j]].size
    ensures var p := order[j];
            var h', order' := TakeHeap(h, order[j - 1], p, n), TakeOrder(h, order, j, n);
            && base < p && Slot(order', p) == j - 1
            && Fits(base, h', order', j - 1, p) && h'[order'[j - 1]].ptr in h'
            && PutBackOrder(h', order', j - 1, p) == order
            && SameHeaders(h, PutBack(h', order'[j - 1], p), order)
  {
    hide Fits, TakeHeap, TakeOrder, PutBack, PutBackOrder, PairAt, Pair;
    var p, q := order[j], order[j - 1];
    TakeFrame(base, h, order, j, n);
    FitsAgain(base, h, order, j, n);
    RestoredOrder(base, h, order, j, n);
    RestoredHeaders(base, h, order, j, n, j);
    forall i | 0 <= i < |order| ensures order[i] in PutBack(TakeHeap(h, q, p, n), q, p)
                                     && PutBack(TakeHeap(h, q, p, n), q, p)[order[i]] == h[order[i]] {
      RestoredHeaders(base, h, order, j, n, i);
    }
  }

  predicate SameHeaders(h: Heap, h': Heap, order: seq<int>) {
    forall i :: 0 <= i < |order| ==> order[i] in h && order[i] in h' && h'[order[i]] == h[order[i]]
  }

  lemma RestoredOrder(base: int, h: Heap, order: seq<int>, j: nat, n: nat)
    requires List(base, h, order) && 0 < j < |order| && 0 < n <= h[order[j]].size
    requires var h', order' := TakeHeap(h, order[j - 1], order[j], n), TakeOrder(h, order, j, n);
             Fits(base, h', order', j - 1, order[j]) && !SameTypeTouching(h', order'[j - 1], order[j])
    ensures PutBackOrder(TakeHeap(h, order[j - 1], order[j], n), TakeOrder(h, order, j, n), j - 1, order[j]) == order
  {
    var h', order' := TakeHeap(h, order[j - 1], order[j], n), TakeOrder(h, order, j, n);
    assert order == order[..j] + [order[j]] + order[j + 1..];
    assert order'[..j] == order[..j];
    TakeMerges(base, h, order, j, n);
    hide List, Fits, TakeHeap, MergesUp, SameTypeTouching;
    if h[order[j]].size == n {
      assert order'[j..] == order[j + 1..];
    } else {
      assert order'[j + 1..] == order[j + 1..];
    }
  }

  /** The block taken touches its successor of the same type exactly if it was cut from it. */
  lemma TakeMerges(base: int, h: Heap, order: seq<int>, j: nat, n: nat)
    requires List(base, h, order) && 0 < j < |order| && 0 < n <= h[order[j]].size
    requires var h', order' := TakeHeap(h, order[j - 1], order[j], n), TakeOrder(h, order, j, n);
             order[j] in h' && forall i :: 0 <= i < |order'| ==> order'[i] in h'
    ensures var h', order' := TakeHeap(h, order[j - 1], order[j], n), TakeOrder(h, order, j, n);
            MergesUp(h', order', j - 1, order[j]) <==> h[order[j]].size != n
  {
    var p := order[j];
    var order' := TakeOrder(h, order, j, n);
    TakeFrame(base, h, order, j, n);
    if j + 1 < |order| { assert PairAt(h, order, j); }
    if h[p].size == n {
      if j < |order'| { assert order'[j] == order[j + 1]; }
    } else {
      assert order'[j] == p + n;
    }
  }
}
