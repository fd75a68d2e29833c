/** malloc, free, fork and clone under the two nested spin locks (malloc.c:33-43,
    ulib.c:11-35 and 187-196, lock.h:17-45), for any number of processes and threads.

    A step is one test-and-set, one clear, some writes inside malloc_locked/free_locked, or one
    system call.  sys_fork copies the static data, the locks and the memory from sys_brk, but shares
    the memory from sys_shmem (dup_mmap, vmm.c:433-459): the header of a shared block granted before
    a fork is one header, of both processes, and nothing keeps the two from writing it. */
module ForkLock {
  import opened FreeList
  import opened Allocator

  /** The allocator's static data and the headers a process sees, and beside them the history: the
      list, the blocks handed out, the units granted. */
  datatype Memory = Memory(base: int, heap: Heap, freep: int, order: seq<int>, live: set<int>, granted: imap<int, bool>)

  /** A call of malloc_locked, with the kernel's answers, or of free_locked. */
  datatype Call = Malloc(size: nat, shared: bool, g1: Grant, g2: Grant) | Free(ap: int)

  /** The next operation of a thread.  Inside malloc_locked and free_locked: the memory it found, the
      headers it writes and the memory it leaves if nobody interferes. */
  datatype Pc =
    | Idle
    | MLockFork(call: Call) | MLockMem(call: Call)                                             // malloc, shmem_malloc, free
    | MBody(before: Memory, call: Call, writes: set<int>, after: Memory)
    | MUnlockMem | MUnlockFork
    | FLockFork | FSysFork | FUnlockFork                                                       // fork
    | CLockFork | CClone | CUnlockFork                                                         // clone

  /** Fine as long as every call was legal and not derailed and no other process has changed a header;
      Astray when the last call was derailed and nothing has happened since; then anything. */
  datatype Health = Fine | Astray | Unknown

  /** `pages` numbers the shared memory that is mapped at each unit. */
  datatype Process = Process(forkLock: bool, memLock: bool, memory: Memory, pages: imap<int, nat>, health: Health, threads: seq<Pc>)

  /** The processes, and a number no shared memory has yet. */
  datatype World = World(procs: seq<Process>, next: nat)

  // ---------------------------------------------------------------- what a call does to memory

  ghost predicate WellFormed(m: Memory) {
    && m.base > NULL
    && if m.freep == NULL
       then m.base in m.heap && m.heap[m.base].size == 0 && !m.heap[m.base].shared && m.order == [m.base] && m.live == {} && m.granted == imap[]
       else Sound(m.base, m.heap, m.order, m.live, m.granted) && m.freep in m.order
  }

  /** freep is on no list that starts at base. */
  ghost predicate Torn(m: Memory) {
    m.freep != NULL && forall order :: List(m.base, m.heap, order) ==> m.freep !in order
  }

  /** What the caller and the kernel owe: only live blocks are freed, only new memory is granted. */
  ghost predicate Legal(m: Memory, call: Call) {
    match call
    case Malloc(size, shared, g1, g2) =>
      Fresh(m.base, m.granted, Units(size), g1) && Fresh(m.base, Extend(m.granted, g1, shared), Units(size), g2)
    case Free(ap) => ap - 1 in m.live
  }

  /** The call asks the kernel twice, and the second region swallows the node it stands on. */
  ghost predicate Derails(m: Memory, call: Call) {
    && call.Malloc?
    && AsksAgain(m.heap, m.order, From(m.base, m.freep), call.g1, Units(call.size), call.shared)
    && SwallowsStop(m.heap, m.order, call.g1, call.g2, call.shared)
  }

  /** How free_locked leaves memory, and which headers it has written. */
  ghost predicate FreeLeaves(m: Memory, ap: int, w: set<int>, m': Memory) {
    && WellFormed(m') && m'.live == m.live - {ap - 1} && m'.granted == m.granted && KeepsLive(m.heap, m'.live, m'.heap)
    && |m.order| > 0 && m.order[0] < ap - 1 && w == {ap - 1, m'.freep}
    && var k := Slot(m.order, ap - 1);
       && Fits(m.base, m.heap, m.order, k, ap - 1) && m.heap[m.order[k]].ptr in m.heap
       && m'.freep == m.order[k] && m'.heap == PutBack(m.heap, m.order[k], ap - 1)
       && m'.order == PutBackOrder(m.heap, m.order, k, ap - 1)
  }

  /** How malloc_locked leaves memory when it has made `asked` requests and returns r. */
  ghost predicate MallocLeaves(m: Memory, call: Call, w: set<int>, r: int, asked: int, m': Memory)
    requires call.Malloc?
  {
    var n := Units(call.size);
    && 0 <= asked <= 2 && (asked == 0 ==> r != NULL)
    && (asked == 2 <==> AsksAgain(m.heap, m.order, From(m.base, m.freep), call.g1, n, call.shared))
    && m'.granted == Used(m.granted, call.g1, call.g2, call.shared, asked)
    && KeepsLive(m.heap, m.live, m'.heap)
    && (r == NULL ==>
          && WellFormed(m') && m'.live == m.live && ((asked == 1 && call.g1.Refused?) || (asked == 2 && call.g2.Refused?))
          && Asked(m.base, m.heap, m.order, m.freep, {}, call.g1, call.g2, call.shared, asked - 1, m'.heap, m'.order, m'.freep, w))
    && (r != NULL && !Derails(m, call) ==>
          && WellFormed(m') && r - 1 !in m.live && m'.live == m.live + {r - 1}
          && Served(m.base, m.heap, m.order, m.freep, {}, call.g1, call.g2, call.shared, asked, r - 1, n, m'.heap, m'.order, m'.freep, w))
    && (r != NULL && Derails(m, call) ==>
          && List(m.base, m'.heap, m'.order) && r - 1 in m'.order && m'.freep !in m'.order && m'.freep != NULL
          && Misserved(m.base, m.heap, m.order, m.freep, {}, call.g1, call.g2, call.shared, r - 1, n, m'.heap, m'.order, m'.freep, w))
  }

  /** How a legal call leaves well-formed memory, having written the headers w. */
  ghost predicate Effect(m: Memory, call: Call, w: set<int>, m': Memory) {
    && m'.base == m.base
    && match call
       case Malloc(_, _, _, _) => exists r: int, asked: int :: MallocLeaves(m, call, w, r, asked, m')
       case Free(ap) => FreeLeaves(m, ap, w, m')
  }

  /** malloc_locked and free_locked do have this effect, and end. */
  method Perform(m: Memory, call: Call) returns (ghost w: set<int>, ghost m': Memory)
    requires WellFormed(m) && Legal(m, call)
    ensures Effect(m, call, w, m')
  {
    hide Sound, List, Units, Extend, Fresh, AsksAgain, SwallowsStop, Used, Asked, Served, Misserved, KeepsLive, PutBack, PutBackOrder, Fits, Slot;
    var a := new Allocator.In(m.base, m.heap, m.freep, m.order, m.live, m.granted);
    match call {
      case Malloc(size, shared, g1, g2) =>
        var r, asked := a.MallocLocked(size, shared, g1, g2);
        w, m' := a.touched, Memory(a.base, a.heap, a.freep, a.order, a.live, a.granted);
        assert MallocLeaves(m, call, w, r, asked, m');
      case Free(ap) =>
        LiveIsAbove(m, ap - 1);
        a.FreeLocked(ap);
        w, m' := a.touched, Memory(a.base, a.heap, a.freep, a.order, a.live, a.granted);
    }
  }

  lemma LiveIsAbove(m: Memory, b: int)
    requires WellFormed(m) && b in m.live
    ensures |m.order| > 0 && m.order[0] < b
  {
  }

  /** The list that starts at base is determined by the headers. */
  lemma {:induction false} SameStart(base: int, h: Heap, a: seq<int>, b: seq<int>, i: nat)
    requires List(base, h, a) && List(base, h, b) && i < |a|
    ensures i < |b| && a[i] == b[i]
  {
    if i > 0 {
      SameStart(base, h, a, b, i - 1);
      Around(base, h, a, i - 1);
      Around(base, h, b, i - 1);
    }
  }

  /** A call on well-formed memory leaves it well formed exactly unless it was derailed; then freep
      is on no list. */
  lemma CallKeeps(m: Memory, call: Call, w: set<int>, m': Memory)
    requires WellFormed(m) && Legal(m, call) && Effect(m, call, w, m')
    ensures if Derails(m, call) then Torn(m') else WellFormed(m')
    ensures WellFormed(m') ==> !Torn(m')
  {
    hide Sound, Units, Extend, Fresh, AsksAgain, Used, Asked, Served, Misserved, KeepsLive, PutBack, PutBackOrder, Fits, Slot;
    if Derails(m, call) {
      var r: int, asked: int :| MallocLeaves(m, call, w, r, asked, m');
      OffTheList(m');
    } else if WellFormed(m') && Torn(m') {
      SoundList(m'.base, m'.heap, m'.order, m'.live, m'.granted);
    }
  }

  lemma OffTheList(m: Memory)
    requires List(m.base, m.heap, m.order) && m.freep !in m.order && m.freep != NULL
    ensures Torn(m)
  {
    forall order | List(m.base, m.heap, order) ensures m.freep !in order {
      forall i | 0 <= i < |order| ensures order[i] != m.freep {
        SameStart(m.base, m.heap, order, m.order, i);
      }
    }
  }

  // ---------------------------------------------------------------- which headers a call writes

  /** Only the headers at w may differ. */
  ghost predicate OnlyAt(w: set<int>, h: Heap, h': Heap) {
    forall a :: a !in w ==> SameAt(h, h', a)
  }

  predicate SameAt(h: Heap, h': Heap, a: int) {
    (a in h <==> a in h') && (a in h ==> h[a] == h'[a])
  }

  lemma OnlyAtBoth(w: set<int>, w': set<int>, h: Heap, h1: Heap, h2: Heap)
    requires OnlyAt(w, h, h1) && OnlyAt(w', h1, h2)
    ensures OnlyAt(w + w', h, h2)
  {
    forall a | a !in w + w' ensures SameAt(h, h2, a) {
      assert SameAt(h, h1, a) && SameAt(h1, h2, a);
    }
  }

  lemma GrantWrites(base: int, h: Heap, order: seq<int>, g: Grant, t: bool, h': Heap, order': seq<int>, freep: int)
    requires GrantedTo(base, h, order, g, t, h', order', freep)
    ensures g.Region? && OnlyAt({g.start, freep}, h, h') && List(base, h', order') && freep < g.start
  {
    var hr, k := WithRegion(h, g, t), Slot(order, g.start);
    PutBackKeepsList(base, hr, order, k, g.start);
  }

  /** Where malloc searches from: the list it found, or the list of base alone. */
  lemma StartList(m: Memory)
    requires WellFormed(m)
    ensures List(m.base, Started(m.base, m.heap, m.freep), m.order) && From(m.base, m.freep) in m.order
    ensures OnlyAt(StartWrites(m.base, m.freep, {}), m.heap, Started(m.base, m.heap, m.freep))
  {
  }

  lemma AfterTwo(base: int, h: Heap, order: seq<int>, freep: int, w: set<int>, g1: Grant, g2: Grant, t: bool,
                 h': Heap, order': seq<int>, freep': int, w': set<int>) returns (h1: Heap, order1: seq<int>, freep1: int)
    requires AfterGrants(base, h, order, freep, w, g1, g2, t, 2, h', order', freep', w')
    ensures GrantedTo(base, h, order, g1, t, h1, order1, freep1) && GrantedTo(base, h1, order1, g2, t, h', order', freep')
    ensures g1.Region? && g2.Region? && w' == w + {g1.start, freep1} + {g2.start, freep'}
  {
    h1, order1, freep1 :|
      && GrantedTo(base, h, order, g1, t, h1, order1, freep1) && GrantedTo(base, h1, order1, g2, t, h', order', freep')
      && w' == w + {g1.start, freep1} + {g2.start, freep'};
  }

  lemma AskedWrites(m: Memory, call: Call, grants: int, h': Heap, order': seq<int>, freep': int, w: set<int>)
    requires WellFormed(m) && call.Malloc? && 0 <= grants <= 2
    requires Asked(m.base, m.heap, m.order, m.freep, {}, call.g1, call.g2, call.shared, grants, h', order', freep', w)
    ensures OnlyAt(w, m.heap, h') && List(m.base, h', order')
    ensures forall u :: u in w ==> u == m.base || (grants >= 1 && u <= call.g1.start) || (grants == 2 && u <= call.g2.start)
    ensures (grants >= 1 ==> call.g1.Region?) && (grants == 2 ==> call.g2.Region?)
  {
    hide List, GrantedTo, OnlyAt, Started, WellFormed;
    StartList(m);
    var h, w0 := Started(m.base, m.heap, m.freep), StartWrites(m.base, m.freep, {});
    if grants == 1 {
      GrantWrites(m.base, h, m.order, call.g1, call.shared, h', order', freep');
      OnlyAtBoth(w0, {call.g1.start, freep'}, m.heap, h, h');
    } else if grants == 2 {
      var h1, order1, freep1 := AfterTwo(m.base, h, m.order, From(m.base, m.freep), w0, call.g1, call.g2, call.shared, h', order', freep', w);
      GrantWrites(m.base, h, m.order, call.g1, call.shared, h1, order1, freep1);
      GrantWrites(m.base, h1, order1, call.g2, call.shared, h', order', freep');
      OnlyAtBoth(w0, {call.g1.start, freep1}, m.heap, h, h1);
      OnlyAtBoth(w0 + {call.g1.start, freep1}, {call.g2.start, freep'}, m.heap, h1, h');
    }
  }

  lemma CutOnlyAt(h: Heap, prev: int, p: int, n: nat)
    requires prev in h && p in h && 0 < n <= h[p].size
    ensures OnlyAt(CutWrites(h, prev, p, n), h, TakeHeap(h, prev, p, n))
  {
  }

  /** A call writes no header but those it is said to write. */
  lemma CallWrites(m: Memory, call: Call, w: set<int>, m': Memory)
    requires WellFormed(m) && Legal(m, call) && Effect(m, call, w, m')
    ensures OnlyAt(w, m.heap, m'.heap)
  {
    hide WellFormed, Asked, Served, Misserved, List, OnlyAt, KeepsLive, Fits;
    match call {
      case Malloc(size, shared, g1, g2) =>
        var r: int, asked: int :| MallocLeaves(m, call, w, r, asked, m');
        MallocWrites(m, call, w, r, asked, m');
      case Free(ap) =>
        FreeWrites(m, ap, w, m');
    }
  }

  lemma FreeWrites(m: Memory, ap: int, w: set<int>, m': Memory)
    requires FreeLeaves(m, ap, w, m')
    ensures OnlyAt(w, m.heap, m'.heap)
  {
    hide WellFormed, List, KeepsLive, PutBackOrder, Slot;
  }

  /** The number of regions put on the list. */
  function Grants(r: int, asked: int): int { if r == NULL then asked - 1 else asked }

  /** What malloc_locked has made of memory before it cuts a block off, if it does. */
  lemma BeforeCut(m: Memory, call: Call, w: set<int>, r: int, asked: int, m': Memory)
      returns (h1: Heap, order1: seq<int>, freep1: int, w1: set<int>)
    requires call.Malloc? && MallocLeaves(m, call, w, r, asked, m')
    ensures Asked(m.base, m.heap, m.order, m.freep, {}, call.g1, call.g2, call.shared, Grants(r, asked), h1, order1, freep1, w1)
    ensures 0 <= Grants(r, asked) <= 2
    ensures r == NULL ==> h1 == m'.heap && order1 == m'.order && w1 == w
    ensures r != NULL ==> && m'.freep in h1 && Fit(h1, r - 1, Units(call.size), call.shared)
                          && m'.heap == TakeHeap(h1, m'.freep, r - 1, Units(call.size))
                          && w == w1 + CutWrites(h1, m'.freep, r - 1, Units(call.size))
    ensures r != NULL && !Derails(m, call) ==> ServedFrom(h1, order1, r - 1, Units(call.size), call.shared, m'.heap, m'.order, m'.freep)
  {
    hide WellFormed, Asked, List, KeepsLive, Units, TakeHeap, CutWrites, Derails, Used, AsksAgain;
    var n := Units(call.size);
    if r == NULL {
      h1, order1, freep1, w1 := m'.heap, m'.order, m'.freep, w;
    } else if Derails(m, call) {
      DerailAsksTwice(m, call);
      order1 := m'.order;
      h1, freep1, w1 :|
        && Asked(m.base, m.heap, m.order, m.freep, {}, call.g1, call.g2, call.shared, 2, h1, m'.order, freep1, w1)
        && r - 1 in m'.order && m'.freep !in m'.order && m'.freep in h1 && Fit(h1, r - 1, n, call.shared) && 0 < n
        && m'.heap == TakeHeap(h1, m'.freep, r - 1, n) && w == w1 + CutWrites(h1, m'.freep, r - 1, n);
    } else {
      h1, order1, freep1, w1 :|
        && Asked(m.base, m.heap, m.order, m.freep, {}, call.g1, call.g2, call.shared, asked, h1, order1, freep1, w1)
        && ServedFrom(h1, order1, r - 1, n, call.shared, m'.heap, m'.order, m'.freep) && w == w1 + CutWrites(h1, m'.freep, r - 1, n);
    }
  }

  lemma DerailAsksTwice(m: Memory, call: Call)
    requires Derails(m, call)
    ensures call.Malloc? && AsksAgain(m.heap, m.order, From(m.base, m.freep), call.g1, Units(call.size), call.shared)
  {
  }

  lemma MallocWrites(m: Memory, call: Call, w: set<int>, r: int, asked: int, m': Memory)
    requires WellFormed(m) && call.Malloc? && MallocLeaves(m, call, w, r, asked, m')
    ensures OnlyAt(w, m.heap, m'.heap)
  {
    var n := Units(call.size);
    var h1, order1, freep1, w1 := BeforeCut(m, call, w, r, asked, m');
    hide WellFormed, MallocLeaves, OnlyAt, CutWrites, TakeHeap, Units;
    AskedWrites(m, call, Grants(r, asked), h1, order1, freep1, w1);
    if r != NULL {
      CutOnlyAt(h1, m'.freep, r - 1, n);
      OnlyAtBoth(w1, CutWrites(h1, m'.freep, r - 1, n), m.heap, h1, m'.heap);
    }
  }

  /** The memory a call works on lies below `line`: the units granted to it, the block it frees or hands out,
      and what is left of the free block that one was cut from. */
  ghost predicate WorksBelow(m: Memory, call: Call, m': Memory, line: int) {
    && m.base < line
    && (forall u :: u in m'.granted && u !in m.granted ==> u < line)
    && match call
       case Free(ap) => ap - 1 < line
       case Malloc(_, shared, _, _) =>
         forall b :: b in m'.live && b !in m.live ==> b < line && (LeavesRest(m', b, shared) ==> b + m'.heap[b].size < line)
  }

  ghost predicate LeavesRest(m: Memory, b: int, t: bool) {
    b in m.heap && var rest := b + m.heap[b].size; rest in m.order && rest in m.heap && m.heap[rest].shared == t
  }

  /** Such a call writes headers below `line` only, since the list ascends. */
  lemma CallStaysBelow(m: Memory, call: Call, w: set<int>, m': Memory, line: int)
    requires WellFormed(m) && Legal(m, call) && Effect(m, call, w, m') && !Derails(m, call)
    requires WorksBelow(m, call, m', line)
    ensures forall u :: u in w ==> u < line
  {
    hide WellFormed, Asked, Served, Misserved, List, KeepsLive, Fits, PutBack, PutBackOrder, Derails;
    if call.Malloc? {
      var r: int, asked: int :| MallocLeaves(m, call, w, r, asked, m');
      var n := Units(call.size);
      var h1, order1, freep1, w1 := BeforeCut(m, call, w, r, asked, m');
      AskedWrites(m, call, Grants(r, asked), h1, order1, freep1, w1);
      GrantsBelow(m, call, w, r, asked, m', line);
      if r != NULL {
        CutBelow(h1, m.base, order1, r - 1, n, call.shared, m', line);
      }
    }
  }

  lemma GrantsBelow(m: Memory, call: Call, w: set<int>, r: int, asked: int, m': Memory, line: int)
    requires call.Malloc? && MallocLeaves(m, call, w, r, asked, m') && Legal(m, call) && WorksBelow(m, call, m', line)
    ensures asked >= 1 && call.g1.Region? ==> call.g1.start < line
    ensures asked == 2 && call.g2.Region? ==> call.g2.start < line
  {
    hide WellFormed, Asked, Served, Misserved, KeepsLive, List, AsksAgain, SwallowsStop, LeavesRest;
    if asked >= 1 && call.g1.Region? { assert InRegion(call.g1, call.g1.start) && call.g1.start in m'.granted; }
    if asked == 2 && call.g2.Region? { assert InRegion(call.g2, call.g2.start) && call.g2.start in m'.granted; }
  }

  lemma CutBelow(h: Heap, base: int, order: seq<int>, p: int, n: nat, t: bool, m: Memory, line: int)
    requires List(base, h, order) && ServedFrom(h, order, p, n, t, m.heap, m.order, m.freep)
    requires p < line && (LeavesRest(m, p, t) ==> p + m.heap[p].size < line)
    ensures forall u :: u in CutWrites(h, m.freep, p, n) ==> u < line
  {
    var j :| CutAt(h, order, j, p, n, t, m.heap, m.order, m.freep);
    Ordered(h, order, j - 1, j);
    if h[p].size != n {
      assert m.order[j] == p + n;
      assert LeavesRest(m, p, t);
    }
  }

  /** Every unit from sys_brk lies below `line`.  With `line` the lowest shared unit that is how memory is laid
      out: sys_brk grows upwards from the program, and shared memory is placed from the top downwards. */
  ghost predicate BrkBelow(m: Memory, line: int) {
    m.base < line && forall u :: u in m.granted && !m.granted[u] ==> u < line
  }

  predicate Private(m: Memory, call: Call) {
    match call
    case Malloc(_, shared, _, _) => !shared
    case Free(ap) => ap - 1 in m.heap && !m.heap[ap - 1].shared
  }

  /** malloc, and free of what malloc gave, work below every shared unit. */
  lemma PrivateWorksBelow(m: Memory, call: Call, w: set<int>, m': Memory, line: int)
    requires WellFormed(m) && Legal(m, call) && Effect(m, call, w, m') && !Derails(m, call)
    requires Private(m, call) && BrkBelow(m', line)
    ensures WorksBelow(m, call, m', line)
  {
    hide Asked, Served, Misserved, List, Fits, PutBack, PutBackOrder, Derails, KeepsLive;
    match call {
      case Free(ap) =>
        BlockGranted(m.base, m.heap, m.order, m.live, m.granted, ap - 1, ap - 1);
      case Malloc(size, shared, g1, g2) =>
        var r: int, asked: int :| MallocLeaves(m, call, w, r, asked, m');
        assert forall u :: u in m'.granted && u !in m.granted ==> !m'.granted[u];
        if r != NULL {
          ServedType(m, call, w, r, asked, m');
          HandedBelow(m', r - 1, line);
        }
    }
  }

  lemma ServedType(m: Memory, call: Call, w: set<int>, r: int, asked: int, m': Memory)
    requires call.Malloc? && MallocLeaves(m, call, w, r, asked, m') && r != NULL && !Derails(m, call)
    ensures r - 1 in m'.heap && m'.heap[r - 1].shared == call.shared
  {
    var h1, order1, freep1, w1 := BeforeCut(m, call, w, r, asked, m');
    hide MallocLeaves, Asked;
    var j :| CutAt(h1, order1, j, r - 1, Units(call.size), call.shared, m'.heap, m'.order, m'.freep);
  }

  lemma HandedBelow(m: Memory, b: int, line: int)
    requires WellFormed(m) && b in m.live && b in m.heap && !m.heap[b].shared && BrkBelow(m, line)
    ensures b < line && (LeavesRest(m, b, false) ==> b + m.heap[b].size < line)
  {
    BlockGranted(m.base, m.heap, m.order, m.live, m.granted, b, b);
    if LeavesRest(m, b, false) {
      var rest := b + m.heap[b].size;
      if m.heap[rest].size > 0 {
        BlockGranted(m.base, m.heap, m.order, m.live, m.granted, rest, rest);
      } else {
        BaseOnlyEmpty(m.base, m.heap, m.order, rest);
      }
    }
  }

  lemma BaseOnlyEmpty(base: int, h: Heap, order: seq<int>, a: int)
    requires List(base, h, order) && a in order && a in h && h[a].size == 0
    ensures a == base
  {
    var i := InOrder(order, a);
  }

  // ---------------------------------------------------------------- steps

  function Goto(p: Process, i: nat, pc: Pc): Process
    requires i < |p.threads|
  {
    p.(threads := p.threads[i := pc])
  }

  /** What a child starts from: a copy taken while its parent holds fork_lock, with the calling thread as its
      only one (ulib.c:29-35) and the same shared memory. */
  function Child(p: Process): Process {
    p.(threads := [FUnlockFork])
  }

  ghost function After(health: Health, before: Memory, call: Call): Health {
    if health.Fine? then (if Derails(before, call) then Astray else Fine) else Unknown
  }

  /** A call will be served as it should be if it finds memory well formed and is legal. */
  ghost predicate Good(p: Process, call: Call) { p.health.Fine? && Legal(p.memory, call) }

  /** A thread enters malloc_locked or free_locked. */
  ghost predicate Enters(p: Process, i: nat, call: Call, w: set<int>, m: Memory, q: Process)
    requires i < |p.threads|
  {
    && (Good(p, call) ==> Effect(p.memory, call, w, m))
    && q == Goto(p, i, MBody(p.memory, call, w, m)).(memLock := true, health := if Good(p, call) then Fine else Unknown)
  }

  /** It writes some headers and freep. */
  ghost predicate Writes(p: Process, w: set<int>, q: Process) {
    && (p.health.Fine? ==> OnlyAt(w, p.memory.heap, q.memory.heap))
    && q == p.(memory := p.memory.(heap := q.memory.heap, freep := q.memory.freep))
  }

  /** It returns; shared memory granted on the way is new, so it gets the number `id`. */
  ghost predicate Leaves(p: Process, i: nat, id: nat, q: Process)
    requires i < |p.threads| && p.threads[i].MBody?
  {
    var pc := p.threads[i];
    && q.memory.base == p.memory.base && q.memory.heap == p.memory.heap && q.memory.freep == p.memory.freep
    && (p.health.Fine? ==> q.memory == pc.after)
    && q == Goto(p, i, MUnlockMem).(memory := q.memory, health := After(p.health, pc.before, pc.call),
                                    pages := Mapped(p.pages, q.memory.granted, id))
  }

  ghost function Mapped(pages: imap<int, nat>, granted: imap<int, bool>, id: nat): imap<int, nat> {
    imap u | u in pages || (u in granted && granted[u]) :: if u in pages then pages[u] else id
  }

  /** Steps of thread i inside its own process. */
  ghost predicate Local(p: Process, i: nat, id: nat, q: Process)
    requires i < |p.threads|
  {
    match p.threads[i]
    case Idle => (exists call :: q == Goto(p, i, MLockFork(call))) || q == Goto(p, i, FLockFork) || q == Goto(p, i, CLockFork)
    case MLockFork(call) => q == if p.forkLock then p else Goto(p, i, MLockMem(call)).(forkLock := true)
    case MLockMem(call) => if p.memLock then q == p else exists w, m :: Enters(p, i, call, w, m, q)
    case MBody(_, _, w, _) => Writes(p, w, q) || Leaves(p, i, id, q)
    case MUnlockMem => q == Goto(p, i, MUnlockFork).(memLock := false)
    case MUnlockFork => q == Goto(p, i, Idle).(forkLock := false)
    case FLockFork => q == if p.forkLock then p else Goto(p, i, FSysFork).(forkLock := true)
    case FSysFork => q == Goto(p, i, FUnlockFork)
    case FUnlockFork => q == Goto(p, i, Idle).(forkLock := false)
    case CLockFork => q == if p.forkLock then p else Goto(p, i, CClone).(forkLock := true)
    case CClone =>
      || q == Goto(p, i, CUnlockFork)
      || q == Goto(p, i, CUnlockFork).(threads := p.threads[i := CUnlockFork] + [Idle])
    case CUnlockFork => q == Goto(p, i, Idle).(forkLock := false)
  }

  /** The header at u is one, of both processes. */
  ghost predicate Common(p: Process, r: Process, u: int) {
    u in p.pages && u in r.pages && p.pages[u] == r.pages[u]
  }

  /** When p's headers become h, one that it has in common with r changes. */
  ghost predicate Disturbs(p: Process, h: Heap, r: Process) {
    exists u :: Common(p, r, u) && !SameAt(p.memory.heap, h, u)
  }

  /** What r sees then. */
  ghost function Seen(p: Process, h: Heap, r: Process): Heap {
    map u | u in r.memory.heap.Keys + h.Keys && (if Common(p, r, u) then u in h else u in r.memory.heap)
      :: if Common(p, r, u) then h[u] else r.memory.heap[u]
  }

  ghost function Echo(p: Process, h: Heap, r: Process): Process {
    if Disturbs(p, h, r) then r.(memory := r.memory.(heap := Seen(p, h, r)), health := Unknown) else r
  }

  /** Process n does a step that turns it into q. */
  ghost function Spread(w: World, n: nat, q: Process): seq<Process>
    requires n < |w.procs|
  {
    seq(|w.procs|, m requires 0 <= m < |w.procs| => if m == n then q else Echo(w.procs[n], q.memory.heap, w.procs[m]))
  }

  /** Thread i of process n does a step; a successful sys_fork also adds the child. */
  ghost predicate Step(w: World, n: nat, i: nat, q: Process, w': World) {
    && n < |w.procs| && i < |w.procs[n].threads|
    && Local(w.procs[n], i, w.next, q)
    && w'.next == w.next + 1
    && (|| w'.procs == Spread(w, n, q)
        || (w.procs[n].threads[i].FSysFork? && w'.procs == Spread(w, n, q) + [Child(w.procs[n])]))
  }

  ghost predicate Next(w: World, w': World) {
    exists n: nat, i: nat, q: Process :: Step(w, n, i, q, w')
  }

  /** A program starts with zeroed static storage and no shared memory. */
  ghost predicate Start(w: World) {
    && |w.procs| == 1
    && var p := w.procs[0];
       && !p.forkLock && !p.memLock && p.threads == [Idle] && p.health.Fine?
       && WellFormed(p.memory) && p.memory.freep == NULL && p.pages == imap[]
  }

  ghost predicate Run(run: seq<World>) {
    run != [] && Start(run[0]) && forall k :: 0 < k < |run| ==> Next(run[k - 1], run[k])
  }

  // ---------------------------------------------------------------- the invariant

  predicate HoldsFork(pc: Pc) {
    pc.MLockMem? || pc.MBody? || pc.MUnlockMem? || pc.MUnlockFork? || pc.FSysFork? || pc.FUnlockFork?
    || pc.CClone? || pc.CUnlockFork?
  }

  predicate HoldsMem(pc: Pc) { pc.MBody? || pc.MUnlockMem? }

  /** At most one thread holds fork_lock, and only it can hold mem_lock. */
  ghost predicate Locks(p: Process) {
    && (p.forkLock <==> exists i :: 0 <= i < |p.threads| && HoldsFork(p.threads[i]))
    && (p.memLock <==> exists i :: 0 <= i < |p.threads| && HoldsMem(p.threads[i]))
    && (forall i, j :: 0 <= i < j < |p.threads| ==> !(HoldsFork(p.threads[i]) && HoldsFork(p.threads[j])))
  }

  /** Memory is as the health says. */
  ghost predicate Tidy(m: Memory, health: Health) {
    (health.Fine? ==> WellFormed(m)) && (health.Astray? ==> Torn(m))
  }

  /** A call was entered with memory well formed, and so far only it has written. */
  ghost predicate Entered(p: Process, pc: Pc)
    requires pc.MBody?
  {
    && !p.health.Astray?
    && (p.health.Fine? ==>
          && pc.before.base == p.memory.base
          && WellFormed(pc.before) && Legal(pc.before, pc.call) && Effect(pc.before, pc.call, pc.writes, pc.after)
          && OnlyAt(pc.writes, pc.before.heap, p.memory.heap))
  }

  /** Outside malloc_locked and free_locked memory is tidy. */
  ghost predicate Memories(p: Process) {
    && ((forall i :: 0 <= i < |p.threads| ==> !p.threads[i].MBody?) ==> Tidy(p.memory, p.health))
    && (forall i :: 0 <= i < |p.threads| && p.threads[i].MBody? ==> Entered(p, p.threads[i]))
  }

  ghost predicate Inv(p: Process) { Locks(p) && Memories(p) }

  lemma OneHolder(p: Process, i: nat, j: nat)
    requires Locks(p) && i < |p.threads| && j < |p.threads| && i != j
    ensures !(HoldsFork(p.threads[i]) && HoldsFork(p.threads[j]))
  {
    var lo, hi := if i < j then i else j, if i < j then j else i;
    assert !(HoldsFork(p.threads[lo]) && HoldsFork(p.threads[hi]));
  }

  /** A step moves one thread, and clone adds an idle one. */
  lemma OthersStay(p: Process, i: nat, id: nat, q: Process)
    requires i < |p.threads| && Local(p, i, id, q)
    ensures |p.threads| <= |q.threads| && (forall j :: 0 <= j < |p.threads| && j != i ==> q.threads[j] == p.threads[j])
    ensures forall j :: |p.threads| <= j < |q.threads| ==> q.threads[j] == Idle
  {
    hide Effect, Good, After, Mapped, OnlyAt;
  }

  /** What a step does to the locks and to whose they are. */
  lemma StepLocks(p: Process, i: nat, id: nat, q: Process)
    requires i < |p.threads| && Local(p, i, id, q)
    requires HoldsFork(p.threads[i]) ==> p.forkLock
    requires HoldsMem(p.threads[i]) ==> p.memLock
    ensures |p.threads| <= |q.threads|
    ensures q.forkLock == if HoldsFork(q.threads[i]) then true else if HoldsFork(p.threads[i]) then false else p.forkLock
    ensures q.memLock == if HoldsMem(q.threads[i]) then true else if HoldsMem(p.threads[i]) then false else p.memLock
    ensures HoldsFork(q.threads[i]) && !HoldsFork(p.threads[i]) ==> !p.forkLock
    ensures HoldsMem(q.threads[i]) ==> HoldsFork(q.threads[i])
  {
    hide Effect, Good, After, Mapped, OnlyAt;
  }

  lemma LocksKept(p: Process, i: nat, id: nat, q: Process)
    requires Locks(p) && i < |p.threads| && Local(p, i, id, q)
    ensures Locks(q)
  {
    assert HoldsFork(p.threads[i]) ==> p.forkLock;
    assert HoldsMem(p.threads[i]) ==> p.memLock;
    OthersStay(p, i, id, q);
    StepLocks(p, i, id, q);
    hide Local;
    if q.forkLock && !HoldsFork(q.threads[i]) {
      var j :| 0 <= j < |p.threads| && HoldsFork(p.threads[j]);
      assert HoldsFork(q.threads[j]);
    }
    if q.memLock && !HoldsMem(q.threads[i]) {
      var j :| 0 <= j < |p.threads| && HoldsMem(p.threads[j]);
      assert HoldsMem(q.threads[j]);
    }
    if HoldsFork(p.threads[i]) { AloneInside(p, i); }
    if HoldsFork(p.threads[i]) || HoldsFork(q.threads[i]) {
      assert forall j :: 0 <= j < |q.threads| && j != i ==> !HoldsFork(q.threads[j]);
    }
  }

  /** While a thread is inside, it is the only one. */
  lemma AloneInside(p: Process, i: nat)
    requires Locks(p) && i < |p.threads| && HoldsFork(p.threads[i])
    ensures forall j :: 0 <= j < |p.threads| && j != i ==> !HoldsFork(p.threads[j])
  {
    forall j | 0 <= j < |p.threads| && j != i ensures !HoldsFork(p.threads[j]) { OneHolder(p, i, j); }
  }

  lemma MemoriesKept(p: Process, i: nat, id: nat, q: Process)
    requires Inv(p) && i < |p.threads| && Local(p, i, id, q)
    ensures Memories(q)
  {
    hide WellFormed, Torn, Legal, Derails, Effect, OnlyAt, Mapped;
    var pc := p.threads[i];
    if HoldsFork(pc) { AloneInside(p, i); }
    if pc.MBody? {
      assert Entered(p, pc);
      if q.threads[i].MUnlockMem? { CallTidy(pc.before, pc.call, pc.writes, q.memory, p.health); }
      else { OnlyAtMore(pc.writes, pc.before.heap, p.memory.heap, q.memory.heap); }
    } else if pc.MLockMem? && q != p {
      assert forall j :: 0 <= j < |p.threads| ==> !p.threads[j].MBody?;
      OnlyAtSame(p.memory.heap);
    } else {
      StepBeside(p, i, id, q);
    }
  }

  lemma OnlyAtSame(h: Heap)
    ensures forall w :: OnlyAt(w, h, h)
  {
  }

  lemma OnlyAtMore(w: set<int>, h: Heap, h1: Heap, h2: Heap)
    ensures OnlyAt(w, h, h1) && OnlyAt(w, h1, h2) ==> OnlyAt(w, h, h2)
  {
    if OnlyAt(w, h, h1) && OnlyAt(w, h1, h2) {
      OnlyAtBoth(w, w, h, h1, h2);
      assert w + w == w;
    }
  }

  lemma CallTidy(m: Memory, call: Call, w: set<int>, m': Memory, health: Health)
    requires health.Fine? ==> WellFormed(m) && Legal(m, call) && Effect(m, call, w, m')
    ensures Tidy(m', After(health, m, call))
  {
    if health.Fine? { CallKeeps(m, call, w, m'); }
    hide Effect, Legal;
  }

  /** Other steps leave memory alone. */
  lemma StepBeside(p: Process, i: nat, id: nat, q: Process)
    requires i < |p.threads| && Local(p, i, id, q) && Memories(p)
    requires !p.threads[i].MBody? && !(p.threads[i].MLockMem? && q != p)
    ensures Memories(q)
  {
    hide Local, WellFormed, Torn, Legal, Derails, Effect, OnlyAt;
    OthersStay(p, i, id, q);
    StepKeeps(p, i, id, q);
  }

  lemma StepKeeps(p: Process, i: nat, id: nat, q: Process)
    requires i < |p.threads| && Local(p, i, id, q)
    requires !p.threads[i].MBody? && !(p.threads[i].MLockMem? && q != p)
    ensures q.memory == p.memory && q.health == p.health && i < |q.threads| && !q.threads[i].MBody?
  {
    hide Enters, Writes, Leaves;
  }

  lemma ForkPoint(p: Process, i: nat)
    requires Inv(p) && i < |p.threads| && p.threads[i].FSysFork?
    ensures p.forkLock && !p.memLock && Tidy(p.memory, p.health)
  {
    hide WellFormed, Torn, Entered;
    AloneInside(p, i);
  }

  lemma ChildInv(p: Process, i: nat)
    requires Inv(p) && i < |p.threads| && p.threads[i].FSysFork?
    ensures Inv(Child(p))
  {
    hide WellFormed, Torn, Entered;
    ForkPoint(p, i);
    assert HoldsFork(Child(p).threads[0]);
  }

  /** A process that another disturbs keeps its locks. */
  lemma EchoInv(p: Process, h: Heap, r: Process)
    requires Inv(r)
    ensures Inv(Echo(p, h, r))
  {
    hide WellFormed, Torn, Effect, OnlyAt, Legal, Disturbs, Seen;
    var r' := Echo(p, h, r);
    assert r'.threads == r.threads && r'.forkLock == r.forkLock && r'.memLock == r.memLock;
    assert r' == r || r'.health.Unknown?;
  }

  lemma NextInv(w: World, w': World)
    requires (forall n :: 0 <= n < |w.procs| ==> Inv(w.procs[n])) && Next(w, w')
    ensures forall n :: 0 <= n < |w'.procs| ==> Inv(w'.procs[n])
  {
    hide Inv, Local, Child, Echo;
    var n: nat, i: nat, q: Process :| Step(w, n, i, q, w');
    var p := w.procs[n];
    OwnInv(p, i, w.next, q);
    forall m | 0 <= m < |w.procs| ensures Inv(Spread(w, n, q)[m]) {
      if m != n { EchoInv(p, q.memory.heap, w.procs[m]); }
    }
    if p.threads[i].FSysFork? { ChildInv(p, i); }
  }

  lemma OwnInv(p: Process, i: nat, id: nat, q: Process)
    requires Inv(p) && i < |p.threads| && Local(p, i, id, q)
    ensures Inv(q)
  {
    hide Locks, Memories, Local;
    LocksKept(p, i, id, q);
    MemoriesKept(p, i, id, q);
  }

  lemma {:induction false} RunInv(run: seq<World>, k: nat)
    requires Run(run) && k < |run|
    ensures forall n :: 0 <= n < |run[k].procs| ==> Inv(run[k].procs[n])
  {
    hide WellFormed, Torn, Step;
    if k > 0 {
      RunInv(run, k - 1);
      assert Next(run[k - 1], run[k]);
      NextInv(run[k - 1], run[k]);
    }
  }

  // ---------------------------------------------------------------- shared memory is one

  /** Every unit of shared memory a process was granted has a number, all numbers are taken. */
  ghost predicate Numbered(p: Process, next: nat) {
    && (forall u :: u in p.memory.granted && p.memory.granted[u] ==> u in p.pages)
    && (forall u :: u in p.pages ==> p.pages[u] < next)
  }

  /** Two processes see the same header wherever it is common. */
  ghost predicate OneHeader(p: Process, r: Process) {
    forall u :: Common(p, r, u) ==> SameAt(p.memory.heap, r.memory.heap, u)
  }

  ghost predicate Shared(w: World) {
    && (forall n :: 0 <= n < |w.procs| ==> Numbered(w.procs[n], w.next))
    && (forall n, m :: 0 <= n < |w.procs| && 0 <= m < |w.procs| ==> OneHeader(w.procs[n], w.procs[m]))
  }

  /** What a process sees at u after another has written. */
  lemma EchoAt(p: Process, h: Heap, r: Process, u: int)
    requires OneHeader(p, r)
    ensures var h' := Echo(p, h, r).memory.heap;
            if Common(p, r, u) then SameAt(h, h', u) else SameAt(r.memory.heap, h', u)
  {
  }

  lemma EchoPages(p: Process, h: Heap, r: Process)
    ensures var r' := Echo(p, h, r); r'.pages == r.pages && r'.memory.granted == r.memory.granted && r'.threads == r.threads
  {
  }

  lemma EchoBoth(p: Process, h: Heap, a: Process, b: Process)
    requires OneHeader(p, a) && OneHeader(p, b) && OneHeader(a, b)
    ensures OneHeader(Echo(p, h, a), Echo(p, h, b))
  {
    var a', b' := Echo(p, h, a), Echo(p, h, b);
    EchoPages(p, h, a);
    EchoPages(p, h, b);
    forall u | Common(a', b', u) ensures SameAt(a'.memory.heap, b'.memory.heap, u) {
      assert Common(a, b, u);
      EchoAt(p, h, a, u);
      EchoAt(p, h, b, u);
      hide Echo;
    }
  }

  /** What a step does to a process's own shared memory: it may add some that is new. */
  lemma OwnPages(p: Process, i: nat, id: nat, q: Process)
    requires i < |p.threads| && Local(p, i, id, q) && Numbered(p, id)
    ensures Numbered(q, id + 1)
    ensures forall u :: u in p.pages ==> u in q.pages && q.pages[u] == p.pages[u]
    ensures forall u :: u in q.pages && u !in p.pages ==> q.pages[u] == id
  {
    hide Effect, Good, After, OnlyAt;
    if p.threads[i].MBody? {
    } else {
      assert q.pages == p.pages && q.memory == p.memory;
    }
  }

  lemma EchoOwn(p: Process, i: nat, id: nat, q: Process, r: Process)
    requires i < |p.threads| && Local(p, i, id, q) && Numbered(p, id) && Numbered(r, id) && OneHeader(p, r)
    ensures OneHeader(q, Echo(p, q.memory.heap, r)) && OneHeader(Echo(p, q.memory.heap, r), q)
  {
    OwnPages(p, i, id, q);
    var r' := Echo(p, q.memory.heap, r);
    EchoPages(p, q.memory.heap, r);
    forall u | Common(q, r', u) ensures SameAt(q.memory.heap, r'.memory.heap, u) {
      assert u in r.pages && r.pages[u] < id;
      assert Common(p, r, u);
      EchoAt(p, q.memory.heap, r, u);
    }
    hide Echo;
    forall u | Common(r', q, u) ensures SameAt(r'.memory.heap, q.memory.heap, u) {
      assert Common(q, r', u);
    }
  }

  lemma SpreadShared(w: World, n: nat, i: nat, q: Process)
    requires Shared(w) && n < |w.procs| && i < |w.procs[n].threads| && Local(w.procs[n], i, w.next, q)
    ensures Shared(World(Spread(w, n, q), w.next + 1))
  {
    hide Local, Echo, Numbered, OneHeader;
    var p, s, id := w.procs[n], Spread(w, n, q), w.next;
    forall m | 0 <= m < |s| ensures Numbered(s[m], id + 1) {
      if m == n { OwnPages(p, i, id, q); } else { EchoNumbered(p, q.memory.heap, w.procs[m], id); }
    }
    forall a, b | 0 <= a < |s| && 0 <= b < |s| ensures OneHeader(s[a], s[b]) {
      assert OneHeader(p, w.procs[a]) && OneHeader(p, w.procs[b]) && OneHeader(w.procs[a], w.procs[b]);
      if a == n && b == n { Itself(q); }
      else if a == n { EchoOwn(p, i, id, q, w.procs[b]); }
      else if b == n { EchoOwn(p, i, id, q, w.procs[a]); }
      else { EchoBoth(p, q.memory.heap, w.procs[a], w.procs[b]); }
    }
  }

  lemma EchoNumbered(p: Process, h: Heap, r: Process, id: nat)
    requires Numbered(r, id)
    ensures Numbered(Echo(p, h, r), id + 1)
  {
    EchoPages(p, h, r);
  }

  lemma Itself(q: Process)
    ensures OneHeader(q, q)
  {
  }

  /** A process that has just come to share all of p's memory. */
  lemma ChildShares(p: Process, r: Process)
    ensures OneHeader(Child(p), p) && OneHeader(p, Child(p)) && OneHeader(Child(p), Child(p))
    ensures OneHeader(p, r) ==> OneHeader(Child(p), r)
    ensures OneHeader(r, p) ==> OneHeader(r, Child(p))
  {
    assert forall u :: Common(Child(p), r, u) <==> Common(p, r, u);
    assert forall u :: Common(r, Child(p), u) <==> Common(r, p, u);
  }

  /** At sys_fork nothing else changes. */
  lemma ForkSpread(w: World, n: nat, i: nat, q: Process)
    requires n < |w.procs| && i < |w.procs[n].threads| && w.procs[n].threads[i].FSysFork? && Local(w.procs[n], i, w.next, q)
    ensures Spread(w, n, q) == w.procs[n := q]
    ensures q.memory == w.procs[n].memory && q.pages == w.procs[n].pages
  {
    assert forall m :: 0 <= m < |w.procs| ==> !Disturbs(w.procs[n], q.memory.heap, w.procs[m]);
  }

  lemma NextShared(w: World, w': World)
    requires Shared(w) && Next(w, w')
    ensures Shared(w')
  {
    hide Local, Echo, Numbered, OneHeader, Child;
    var n: nat, i: nat, q: Process :| Step(w, n, i, q, w');
    SpreadShared(w, n, i, q);
    var s, p := Spread(w, n, q), w.procs[n];
    if w'.procs != s {
      ForkSpread(w, n, i, q);
      forall m | 0 <= m < |s| ensures OneHeader(s[m], Child(p)) && OneHeader(Child(p), s[m]) {
        assert OneHeader(s[m], s[n]) && OneHeader(s[n], s[m]);
        AsParent(q, p, s[m]);
      }
      ChildShares(p, p);
      assert Numbered(s[n], w'.next);
      ChildNumbered(p, q, w'.next);
    }
  }

  lemma AsParent(q: Process, p: Process, r: Process)
    requires q.memory == p.memory && q.pages == p.pages && OneHeader(r, q) && OneHeader(q, r)
    ensures OneHeader(r, Child(p)) && OneHeader(Child(p), r)
  {
    assert forall u :: Common(q, r, u) <==> Common(p, r, u);
    assert forall u :: Common(r, q, u) <==> Common(r, p, u);
    ChildShares(p, r);
  }

  lemma ChildNumbered(p: Process, q: Process, next: nat)
    requires q.memory == p.memory && q.pages == p.pages && Numbered(q, next)
    ensures Numbered(Child(p), next)
  {
  }

  /** In every reachable world shared memory is one: the header of a block that was granted before a fork is the
      same in both processes, always. */
  lemma {:induction false} RunShared(run: seq<World>, k: nat)
    requires Run(run) && k < |run|
    ensures Shared(run[k])
  {
    hide Step, Sound;
    if k > 0 {
      RunShared(run, k - 1);
      assert Next(run[k - 1], run[k]);
      NextShared(run[k - 1], run[k]);
    }
  }

  // ---------------------------------------------------------------- theorems

  /** No two threads of a process are ever inside malloc_locked/free_locked, and the inner
      lock is free whenever a thread comes to take it, so its spin loop never spins. */
  lemma MemLockUncontended(run: seq<World>, k: nat, n: nat, i: nat, j: nat)
    requires Run(run) && k < |run| && n < |run[k].procs|
    requires i < |run[k].procs[n].threads| && j < |run[k].procs[n].threads| && i != j
    ensures run[k].procs[n].threads[i].MLockMem? ==> !run[k].procs[n].memLock
    ensures !(run[k].procs[n].threads[i].MBody? && run[k].procs[n].threads[j].MBody?)
  {
    hide Run, Memories;
    var p := run[k].procs[n];
    RunInv(run, k);
    assert Inv(p);
    if HoldsFork(p.threads[i]) { AloneInside(p, i); }
  }

  /** Whatever the other threads are doing, the memory a child starts from has mem_lock clear.  Its free
      list is well formed as long as the parent's health is fine, and is not when its last malloc was derailed.
      The child owns fork_lock in its copy and its one thread releases it, after which both of its
      locks are free.  All shared memory the parent has is common to the two. */
  lemma ForkCopiesConsistentMemory(run: seq<World>, k: nat, n: nat, i: nat)
    requires Run(run) && k < |run| && n < |run[k].procs|
    requires i < |run[k].procs[n].threads| && run[k].procs[n].threads[i].FSysFork?
    ensures var child := Child(run[k].procs[n]);
            && !child.memLock && child.forkLock && child.threads == [FUnlockFork]
            && (child.health.Fine? ==> WellFormed(child.memory))
            && (child.health.Astray? ==> Torn(child.memory))
            && (forall u :: u in child.memory.granted && child.memory.granted[u] ==> Common(run[k].procs[n], child, u))
            && forall after :: Local(child, 0, run[k].next, after) ==>
                 !after.forkLock && !after.memLock && after.memory == child.memory && after.threads == [Idle]
  {
    hide Run, WellFormed, Torn, OneHeader, Entered;
    RunInv(run, k);
    RunShared(run, k);
    assert Inv(run[k].procs[n]) && Numbered(run[k].procs[n], run[k].next);
    ForkPoint(run[k].procs[n], i);
  }

  /** Health stays fine through every step but these: the process's own thread begins an illegal call, or
      returns from one that was derailed, or another process changes a header the two have in common. */
  lemma FineUnless(w: World, n: nat, i: nat, q: Process, w': World, m: nat)
    requires Step(w, n, i, q, w') && m < |w.procs| && w.procs[m].health.Fine?
    ensures m < |w'.procs|
    ensures w'.procs[m].health.Fine? <==>
              if m == n then !BeginsIllegal(w.procs[n], i, q) && !EndsDerailed(w.procs[n], i, q)
              else !Disturbs(w.procs[n], q.memory.heap, w.procs[m])
  {
    assert w'.procs[m] == Spread(w, n, q)[m];
    if m == n { OwnFine(w.procs[n], i, w.next, q); }
  }

  ghost predicate BeginsIllegal(p: Process, i: nat, q: Process)
    requires i < |p.threads|
  {
    p.threads[i].MLockMem? && q.memLock && !p.memLock && !Legal(p.memory, p.threads[i].call)
  }

  ghost predicate EndsDerailed(p: Process, i: nat, q: Process)
    requires i < |p.threads|
  {
    p.threads[i].MBody? && |q.threads| == |p.threads| && q.threads[i].MUnlockMem? && Derails(p.threads[i].before, p.threads[i].call)
  }

  lemma OwnFine(p: Process, i: nat, id: nat, q: Process)
    requires i < |p.threads| && Local(p, i, id, q) && p.health.Fine?
    ensures q.health.Fine? <==> !BeginsIllegal(p, i, q) && !EndsDerailed(p, i, q)
  {
    hide Effect, Legal, Derails, OnlyAt, Mapped;
  }

  /** Who disturbs: a process that is fine itself does so only inside a call, by a header among those the
      call writes. */
  lemma DisturbsByWriting(p: Process, i: nat, id: nat, q: Process, r: Process)
    requires i < |p.threads| && Local(p, i, id, q) && p.health.Fine? && Disturbs(p, q.memory.heap, r)
    ensures p.threads[i].MBody? && exists u :: u in p.threads[i].writes && Common(p, r, u)
  {
    hide Effect, Good, After, Mapped;
    assert p.threads[i].MBody? || q.memory == p.memory;
    var u :| Common(p, r, u) && !SameAt(p.memory.heap, q.memory.heap, u);
  }

  /** A call that works below everything its process shares with r disturbs r at no step: calls of malloc and of
      free on memory from sys_brk (PrivateWorksBelow), and calls on shared memory that was granted after
      the fork and placed below what was there. */
  lemma BelowDisturbsNobody(p: Process, i: nat, id: nat, q: Process, r: Process, line: int)
    requires Inv(p) && i < |p.threads| && Local(p, i, id, q) && p.health.Fine?
    requires forall u :: Common(p, r, u) ==> line <= u
    requires var pc := p.threads[i]; pc.MBody? ==> !Derails(pc.before, pc.call) && WorksBelow(pc.before, pc.call, pc.after, line)
    ensures Echo(p, q.memory.heap, r) == r
  {
    hide Local, WellFormed, Effect, Legal, Derails, WorksBelow, OnlyAt, Common, Locks;
    if Disturbs(p, q.memory.heap, r) {
      DisturbsByWriting(p, i, id, q, r);
      var pc := p.threads[i];
      assert Entered(p, pc);
      CallStaysBelow(pc.before, pc.call, pc.writes, pc.after, line);
    }
  }

  /** Shared memory granted after a fork is common to nobody. */
  lemma NewPagesAreOwn(w: World, n: nat, i: nat, q: Process, w': World, m: nat, u: int)
    requires Shared(w) && Step(w, n, i, q, w') && m < |w.procs| && m != n
    requires u in q.pages && u !in w.procs[n].pages
    ensures m < |w'.procs| && n < |w'.procs| && w'.procs[n] == q && !Common(q, w'.procs[m], u)
  {
    assert w'.procs[m] == Spread(w, n, q)[m] && w'.procs[n] == Spread(w, n, q)[n];
    assert Numbered(w.procs[m], w.next) && Numbered(w.procs[n], w.next);
    OwnPages(w.procs[n], i, w.next, q);
    EchoPages(w.procs[n], q.memory.heap, w.procs[m]);
  }

  // ---------------------------------------------------------------- exactly when a call spoils another process

  /** r has just been forked off p, or p off r: the same memory, all shared units common. */
  ghost predicate JustForked(p: Process, r: Process) {
    && r.memory == p.memory && WellFormed(p.memory) && p.memory.freep != NULL
    && forall u :: Common(p, r, u) <==> u in p.memory.granted && p.memory.granted[u]
  }

  /** A header is common exactly if its block is shared. */
  lemma CommonHeader(p: Process, r: Process, a: int)
    requires JustForked(p, r) && (a in p.memory.order || a in p.memory.live)
    ensures a in p.memory.heap && (Common(p, r, a) <==> p.memory.heap[a].shared)
  {
    var m := p.memory;
    if a in m.live || m.heap[a].size > 0 {
      BlockGranted(m.base, m.heap, m.order, m.live, m.granted, a, a);
    } else {
      BaseOnlyEmpty(m.base, m.heap, m.order, a);
      if a in m.granted { BaseNotGranted(m.base, m.heap, m.order, m.live, m.granted); }
    }
  }

  lemma BaseNotGranted(base: int, h: Heap, order: seq<int>, live: set<int>, granted: imap<int, bool>)
    requires Sound(base, h, order, live, granted)
    ensures base !in granted
  {
    if base in granted {
      assert FreeUnit(h, order, base, granted[base]) || LiveUnit(h, live, base, granted[base]);
      if FreeUnit(h, order, base, granted[base]) {
        var a :| a in order && a in h && UnitIn(h, a, base) && h[a].shared == granted[base];
        var i := InOrder(order, a);
        ListAbove(base, h, order, i);
      }
    }
  }

  /** Only what a list and live blocks say matters. */
  lemma SoundFrame(base: int, h: Heap, h': Heap, order: seq<int>, live: set<int>, granted: imap<int, bool>)
    requires Sound(base, h, order, live, granted)
    requires forall a :: a in order ==> a in h && a in h' && h'[a] == h[a]
    requires forall b :: b in live ==> b in h' && h'[b].size == h[b].size && h'[b].shared == h[b].shared
    ensures Sound(base, h', order, live, granted)
  {
    forall i | 0 <= i < |order| ensures order[i] in h' && h'[order[i]] == h[order[i]] {
      var a := order[i];
      assert a in order;
    }
    ListFrame(base, h, h', order);
    forall u, t ensures (FreeUnit(h, order, u, t) <==> FreeUnit(h', order, u, t)) && (LiveUnit(h, live, u, t) <==> LiveUnit(h', live, u, t)) {
      FreeUnitFrame(h, h', order, u, t);
      if LiveUnit(h, live, u, t) {
        var a :| a in live && a in h && UnitIn(h, a, u) && h[a].shared == t;
        assert UnitIn(h', a, u);
      }
      if LiveUnit(h', live, u, t) {
        var a :| a in live && a in h' && UnitIn(h', a, u) && h'[a].shared == t;
        assert UnitIn(h, a, u);
      }
    }
  }

  /** What the other process sees of a header that is common, or is not. */
  lemma SeenHeader(p: Process, h: Heap, r: Process, a: int)
    requires r.memory == p.memory
    ensures var h' := Echo(p, h, r).memory.heap;
            if Common(p, r, a) then SameAt(h, h', a) else SameAt(p.memory.heap, h', a)
  {
    Itself(p);
    assert OneHeader(p, r);
    EchoAt(p, h, r, a);
  }

  /** v is what the other process sees of its list and its live blocks when p's headers have become h. */
  ghost predicate View(m: Memory, h: Heap, v: Heap) {
    forall a :: a in m.order || a in m.live ==> a in m.heap && a in h && a in v && v[a] == if m.heap[a].shared then h[a] else m.heap[a]
  }

  lemma HasView(p: Process, h: Heap, r: Process)
    requires JustForked(p, r) && (forall a :: a in p.memory.heap ==> a in h)
    ensures View(p.memory, h, Echo(p, h, r).memory.heap)
    ensures var m' := Echo(p, h, r).memory; m' == p.memory.(heap := m'.heap)
  {
    var m, v := p.memory, Echo(p, h, r).memory.heap;
    forall a | a in m.order || a in m.live
      ensures a in m.heap && a in h && a in v && v[a] == if m.heap[a].shared then h[a] else m.heap[a]
    {
      CommonHeader(p, r, a);
      SeenHeader(p, h, r, a);
    }
  }

  /** free in one process, just after a fork, leaves the memory of the other well formed exactly if the free
      block before the one freed is not shared, and that one is not shared or has no free block of its
      type right behind it. */
  lemma FreeSpoilsExactly(p: Process, r: Process, b: int)
    requires JustForked(p, r) && b in p.memory.live
    ensures var m := p.memory;
            && |m.order| > 0 && m.order[0] < b
            && var k := Slot(m.order, b);
               && Fits(m.base, m.heap, m.order, k, b) && m.heap[m.order[k]].ptr in m.heap
               && (WellFormed(Echo(p, PutBack(m.heap, m.order[k], b), r).memory) <==>
                     !m.heap[m.order[k]].shared && !(m.heap[b].shared && MergesUp(m.heap, m.order, k, b)))
  {
    var m := p.memory;
    LiveIsAbove(m, b);
    LiveFits(m.base, m.heap, m.order, m.live, m.granted, b);
    var k := Slot(m.order, b);
    NextIs(m.base, m.heap, m.order, k, b);
    var h := PutBack(m.heap, m.order[k], b);
    HasView(p, h, r);
    hide Echo;
    var v := Echo(p, h, r).memory.heap;
    if !m.heap[m.order[k]].shared && !(m.heap[b].shared && MergesUp(m.heap, m.order, k, b)) {
      FreeSpares(m, v, b);
    } else {
      FreeSpoils(m, v, b);
    }
  }

  lemma FreeSpares(m: Memory, v: Heap, b: int)
    requires WellFormed(m) && m.freep != NULL && b in m.live && Fits(m.base, m.heap, m.order, Slot(m.order, b), b)
    requires var p := m.order[Slot(m.order, b)];
             && m.heap[p].ptr in m.heap && View(m, PutBack(m.heap, p, b), v)
             && !m.heap[p].shared && !(m.heap[b].shared && MergesUp(m.heap, m.order, Slot(m.order, b), b))
    ensures WellFormed(m.(heap := v))
  {
    var k := Slot(m.order, b);
    NextIs(m.base, m.heap, m.order, k, b);
    FreeFrame(m.base, m.heap, m.order, m.live, m.granted, b);
    SoundFrame(m.base, m.heap, v, m.order, m.live, m.granted);
  }

  lemma FreeSpoils(m: Memory, v: Heap, b: int)
    requires WellFormed(m) && m.freep != NULL && b in m.live && Fits(m.base, m.heap, m.order, Slot(m.order, b), b)
    requires var p := m.order[Slot(m.order, b)];
             && m.heap[p].ptr in m.heap && View(m, PutBack(m.heap, p, b), v)
             && (m.heap[p].shared || (m.heap[b].shared && MergesUp(m.heap, m.order, Slot(m.order, b), b)))
    ensures !WellFormed(m.(heap := v))
  {
    var k := Slot(m.order, b);
    NextIs(m.base, m.heap, m.order, k, b);
    assert m.order[k] in m.order;
    if m.heap[m.order[k]].shared {
      assert !Apart(v, m.order[k], b) || (v[m.order[k]].ptr == b && b !in m.order);
      if List(m.base, v, m.order) { Around(m.base, v, m.order, k); }
    } else {
      assert m.order[k + 1] in m.order && !Apart(v, m.order[k + 1], b);
    }
  }

  /** malloc in one process from a free block it has, just after a fork, leaves the memory of the other well formed
      exactly if the free block before is not shared, and the block is not shared or taken whole. */
  lemma MallocSpoilsExactly(p: Process, r: Process, j: nat, n: nat)
    requires JustForked(p, r) && 0 < j < |p.memory.order| && 0 < n
    requires p.memory.order[j] in p.memory.heap && p.memory.order[j - 1] in p.memory.heap && n <= p.memory.heap[p.memory.order[j]].size
    ensures var m := p.memory;
            WellFormed(Echo(p, TakeHeap(m.heap, m.order[j - 1], m.order[j], n), r).memory) <==>
              !m.heap[m.order[j - 1]].shared && !(m.heap[m.order[j]].shared && n < m.heap[m.order[j]].size)
  {
    var m := p.memory;
    var h := TakeHeap(m.heap, m.order[j - 1], m.order[j], n);
    HasView(p, h, r);
    hide Echo;
    var v := Echo(p, h, r).memory.heap;
    if !m.heap[m.order[j - 1]].shared && !(m.heap[m.order[j]].shared && n < m.heap[m.order[j]].size) {
      MallocSpares(m, v, j, n);
    } else {
      MallocSpoils(m, v, j, n);
    }
  }

  lemma MallocSpares(m: Memory, v: Heap, j: nat, n: nat)
    requires WellFormed(m) && m.freep != NULL && 0 < j < |m.order| && 0 < n <= m.heap[m.order[j]].size
    requires View(m, TakeHeap(m.heap, m.order[j - 1], m.order[j], n), v)
    requires !m.heap[m.order[j - 1]].shared && !(m.heap[m.order[j]].shared && n < m.heap[m.order[j]].size)
    ensures WellFormed(m.(heap := v))
  {
    TakeFrame(m.base, m.heap, m.order, j, n);
    FreeIsNotLive(m.base, m.heap, m.order, m.live, m.granted, j - 1);
    TakeKeepsLive(m.base, m.heap, m.order, m.live, m.granted, m.order[j - 1], j, n);
    SoundFrame(m.base, m.heap, v, m.order, m.live, m.granted);
  }

  lemma MallocSpoils(m: Memory, v: Heap, j: nat, n: nat)
    requires WellFormed(m) && m.freep != NULL && 0 < j < |m.order| && 0 < n <= m.heap[m.order[j]].size
    requires View(m, TakeHeap(m.heap, m.order[j - 1], m.order[j], n), v)
    requires m.heap[m.order[j - 1]].shared || (m.heap[m.order[j]].shared && n < m.heap[m.order[j]].size)
    ensures !WellFormed(m.(heap := v))
  {
    if m.heap[m.order[j - 1]].shared {
      LinkSpoils(m, v, j, n);
    } else {
      var u := m.order[j] + n;
      SplitLoses(m, v, j, n);
      assert m.order[j] in m.order && UnitIn(m.heap, m.order[j], u);
      BlockGranted(m.base, m.heap, m.order, m.live, m.granted, m.order[j], u);
    }
  }

  /** The link from the block before no longer leads to the block. */
  lemma LinkSpoils(m: Memory, v: Heap, j: nat, n: nat)
    requires List(m.base, m.heap, m.order) && 0 < j < |m.order| && 0 < n <= m.heap[m.order[j]].size
    requires View(m, TakeHeap(m.heap, m.order[j - 1], m.order[j], n), v) && m.heap[m.order[j - 1]].shared
    ensures !List(m.base, v, m.order)
  {
    var prev, p := m.order[j - 1], m.order[j];
    assert prev in m.order;
    Ordered(m.heap, m.order, j - 1, j);
    Around(m.base, m.heap, m.order, j);
    Distinct(m.base, m.heap, m.order, j, Succ(j, |m.order|));
    if List(m.base, v, m.order) { Around(m.base, v, m.order, j - 1); }
  }

  /** The rest of the block is in no block any more. */
  lemma SplitLoses(m: Memory, v: Heap, j: nat, n: nat)
    requires WellFormed(m) && m.freep != NULL && 0 < j < |m.order| && 0 < n < m.heap[m.order[j]].size
    requires View(m, TakeHeap(m.heap, m.order[j - 1], m.order[j], n), v) && m.heap[m.order[j]].shared && !m.heap[m.order[j - 1]].shared
    ensures !FreeUnit(v, m.order, m.order[j] + n, true) && !LiveUnit(v, m.live, m.order[j] + n, true)
  {
    var p := m.order[j];
    TakeFrame(m.base, m.heap, m.order, j, n);
    FreeIsNotLive(m.base, m.heap, m.order, m.live, m.granted, j - 1);
    TakeKeepsLive(m.base, m.heap, m.order, m.live, m.granted, m.order[j - 1], j, n);
    forall a | a in m.order ensures a in v && !UnitIn(v, a, p + n) {
      var i := InOrder(m.order, a);
      if i < j { Ordered(m.heap, m.order, i, j); } else if j < i { Ordered(m.heap, m.order, j, i); }
    }
    forall a | a in m.live ensures a in v && !UnitIn(v, a, p + n) {
      assert p in m.order && Apart(m.heap, p, a);
    }
  }

  // ---------------------------------------------------------------- progress

  /** Thread j gets past the operation it stands at, in one step or, inside malloc_locked or
      free_locked, when the writes that are left have been made. */
  ghost predicate Advances(p: Process, j: nat, id: nat)
    requires j < |p.threads|
  {
    exists q: Process, q': Process ::
      && |q.threads| >= |p.threads| && |q'.threads| >= |p.threads|
      && Local(p, j, id, q) && (q' == q || Local(q, j, id + 1, q')) && q'.threads[j] != p.threads[j]
  }

  /** The call that a thread is about to make is legal. */
  ghost predicate PendingLegal(p: Process) {
    forall i :: 0 <= i < |p.threads| && p.threads[i].MLockMem? ==> Legal(p.memory, p.threads[i].call)
  }

  /** Deadlock freedom: in every process of every reachable world some thread can advance.  If
      fork_lock is taken its holder can, since it waits for nothing but the uncontended mem_lock,
      and since malloc_locked and free_locked end; otherwise every thread can.  The one exception
      is a holder inside a call on memory that is no longer known to be well formed.  `legal` says
      whether the call that is about to be made is legal; it can advance either way. */
  method SomeThreadAdvances(run: seq<World>, k: nat, n: nat, legal: bool) returns (j: nat)
    requires Run(run) && k < |run| && n < |run[k].procs| && |run[k].procs[n].threads| > 0
    requires legal <==> PendingLegal(run[k].procs[n])
    ensures j < |run[k].procs[n].threads|
    ensures Advances(run[k].procs[n], j, run[k].next) || (run[k].procs[n].threads[j].MBody? && !run[k].procs[n].health.Fine?)
    ensures run[k].procs[n].forkLock ==> HoldsFork(run[k].procs[n].threads[j])
  {
    hide Run, Memories, WellFormed, Torn, Legal, Local, Effect, Derails, Advances;
    var p := run[k].procs[n];
    RunInv(run, k);
    assert Inv(p);
    j := 0;
    if p.forkLock {
      j :| 0 <= j < |p.threads| && HoldsFork(p.threads[j]);
    }
    if p.threads[j].MBody? {
      if p.health.Fine? { CanReturn(p, j, run[k].next); }
    } else if p.threads[j].MLockMem? {
      if HoldsFork(p.threads[j]) { AloneInside(p, j); }
      ghost var w, m := {}, p.memory;
      if p.health.Fine? && legal {
        AtEntry(p, j);
        w, m := Perform(p.memory, p.threads[j].call);
      }
      CanEnter(p, j, run[k].next, w, m);
    } else {
      Advance(p, j, run[k].next);
    }
  }

  lemma AtEntry(p: Process, j: nat)
    requires Inv(p) && j < |p.threads| && p.threads[j].MLockMem? && p.health.Fine?
    ensures WellFormed(p.memory)
  {
    hide WellFormed, Entered;
    AloneInside(p, j);
  }

  lemma CanEnter(p: Process, j: nat, id: nat, w: set<int>, m: Memory)
    requires Locks(p) && j < |p.threads| && p.threads[j].MLockMem?
    requires Good(p, p.threads[j].call) ==> Effect(p.memory, p.threads[j].call, w, m)
    ensures Advances(p, j, id)
  {
    AloneInside(p, j);
    hide Good, Effect;
    var call := p.threads[j].call;
    var q := Goto(p, j, MBody(p.memory, call, w, m)).(memLock := true, health := if Good(p, call) then Fine else Unknown);
    assert Enters(p, j, call, w, m, q);
    assert Local(p, j, id, q);
  }

  lemma CanReturn(p: Process, j: nat, id: nat)
    requires Memories(p) && j < |p.threads| && p.threads[j].MBody? && p.health.Fine?
    ensures Advances(p, j, id)
  {
    hide WellFormed, Torn, Legal, Effect, OnlyAt, Mapped, Derails;
    var pc := p.threads[j];
    assert Entered(p, pc);
    Rest(pc.before, pc.call, pc.writes, pc.after, p.memory.heap);
    var q := p.(memory := p.memory.(heap := pc.after.heap, freep := pc.after.freep));
    var q' := Goto(q, j, MUnlockMem).(memory := pc.after, health := After(q.health, pc.before, pc.call),
                                      pages := Mapped(q.pages, pc.after.granted, id + 1));
    assert Writes(p, pc.writes, q) && Leaves(q, j, id + 1, q');
    assert Local(p, j, id, q) && Local(q, j, id + 1, q');
  }

  /** What is left to write when some of it has been written. */
  lemma Rest(m: Memory, call: Call, w: set<int>, m': Memory, h: Heap)
    requires WellFormed(m) && Legal(m, call) && Effect(m, call, w, m') && OnlyAt(w, m.heap, h)
    ensures OnlyAt(w, h, m'.heap) && m'.base == m.base
  {
    CallWrites(m, call, w, m');
    hide WellFormed, Legal, MallocLeaves, FreeLeaves;
    forall a | a !in w ensures SameAt(h, m'.heap, a) {
      assert SameAt(m.heap, h, a) && SameAt(m.heap, m'.heap, a);
    }
  }

  lemma Advance(p: Process, j: nat, id: nat)
    requires Locks(p) && j < |p.threads| && !p.threads[j].MBody? && !p.threads[j].MLockMem?
    requires p.forkLock ==> HoldsFork(p.threads[j])
    ensures Advances(p, j, id)
  {
    hide Effect, Enters, Writes, Leaves;
    var q := match p.threads[j]
      case Idle => Goto(p, j, FLockFork)
      case MLockFork(call) => Goto(p, j, MLockMem(call)).(forkLock := true)
      case MUnlockMem => Goto(p, j, MUnlockFork).(memLock := false)
      case FLockFork => Goto(p, j, FSysFork).(forkLock := true)
      case FSysFork => Goto(p, j, FUnlockFork)
      case CLockFork => Goto(p, j, CClone).(forkLock := true)
      case CClone => Goto(p, j, CUnlockFork)
      case MUnlockFork => Goto(p, j, Idle).(forkLock := false)
      case FUnlockFork => Goto(p, j, Idle).(forkLock := false)
      case CUnlockFork => Goto(p, j, Idle).(forkLock := false);
    assert Local(p, j, id, q);
  }

  // ---------------------------------------------------------------- a run that goes wrong

  ghost predicate Reachable(w: World) {
    exists run :: Run(run) && run[|run| - 1] == w
  }

  lemma Onward(w: World, w': World)
    requires Reachable(w) && Next(w, w')
    ensures Reachable(w')
  {
    hide Start, Next;
    var run :| Run(run) && run[|run| - 1] == w;
    var longer := run + [w'];
    forall k | 0 < k < |longer| ensures Next(longer[k - 1], longer[k]) {
      if k < |run| { assert Next(run[k - 1], run[k]); }
    }
    assert Run(longer);
  }

  lemma Begin(w: World)
    requires Start(w)
    ensures Reachable(w)
  {
    assert Run([w]);
  }

  /** A step that writes no header. */
  lemma Quiet(w: World, n: nat, i: nat, q: Process)
    requires Reachable(w) && n < |w.procs| && i < |w.procs[n].threads| && Local(w.procs[n], i, w.next, q)
    requires q.memory.heap == w.procs[n].memory.heap
    ensures Reachable(World(w.procs[n := q], w.next + 1))
  {
    hide Local, Reachable;
    assert forall m :: 0 <= m < |w.procs| ==> !Disturbs(w.procs[n], q.memory.heap, w.procs[m]);
    assert Spread(w, n, q) == w.procs[n := q];
    var w' := World(w.procs[n := q], w.next + 1);
    assert Step(w, n, i, q, w');
    Onward(w, w');
  }

  /** A process whose one thread is idle and whose locks are free. */
  predicate AtRest(p: Process) { p.threads == [Idle] && !p.forkLock && !p.memLock }

  /** A process that has made a call. */
  ghost function Done(p: Process, call: Call, m: Memory, id: nat): Process {
    p.(memory := m, health := After(p.health, p.memory, call), pages := Mapped(p.pages, m.granted, id))
  }

  lemma EnterReaches(w: World, n: nat, call: Call, ws: set<int>, m: Memory)
    requires Reachable(w) && n < |w.procs| && AtRest(w.procs[n]) && Good(w.procs[n], call)
    requires Effect(w.procs[n].memory, call, ws, m)
    ensures var p := w.procs[n].(forkLock := true, memLock := true, threads := [MBody(w.procs[n].memory, call, ws, m)]);
            Reachable(World(w.procs[n := p], w.next + 3))
  {
    hide Reachable, Effect, Good;
    var p := w.procs[n];
    var p1 := p.(threads := [MLockFork(call)]);
    var p2 := p.(threads := [MLockMem(call)], forkLock := true);
    var p3 := p.(forkLock := true, memLock := true, threads := [MBody(p.memory, call, ws, m)]);
    assert p1 == Goto(p, 0, MLockFork(call));
    Quiet(w, n, 0, p1);
    var w1 := World(w.procs[n := p1], w.next + 1);
    assert p2 == Goto(p1, 0, MLockMem(call)).(forkLock := true);
    Quiet(w1, n, 0, p2);
    var w2 := World(w.procs[n := p2], w.next + 2);
    assert w1.procs[n := p2] == w2.procs;
    GoodSame(p, p2, call);
    assert p3 == Goto(p2, 0, MBody(p2.memory, call, ws, m)).(memLock := true, health := Fine);
    assert Enters(p2, 0, call, ws, m, p3);
    Quiet(w2, n, 0, p3);
    assert w2.procs[n := p3] == w.procs[n := p3];
  }

  lemma GoodSame(p: Process, q: Process, call: Call)
    requires Good(p, call) && p.memory == q.memory && p.health == q.health
    ensures Good(q, call) && q.health.Fine?
  {
  }

  /** The writes of a call, all at once. */
  lemma WriteReaches(w: World, n: nat, p: Process, call: Call, ws: set<int>, m: Memory)
    requires Reachable(w) && n < |w.procs| && p.health.Fine? && OnlyAt(ws, p.memory.heap, m.heap)
    requires w.procs[n] == p.(forkLock := true, memLock := true, threads := [MBody(p.memory, call, ws, m)])
    ensures var q := w.procs[n].(memory := p.memory.(heap := m.heap, freep := m.freep)); Reachable(World(Spread(w, n, q), w.next + 1))
  {
    hide Reachable, OnlyAt, Spread;
    var q := w.procs[n].(memory := p.memory.(heap := m.heap, freep := m.freep));
    assert Writes(w.procs[n], ws, q);
    var w' := World(Spread(w, n, q), w.next + 1);
    assert Step(w, n, 0, q, w');
    Onward(w, w');
  }

  /** The return of a call, and the two locks. */
  lemma LeaveReaches(w: World, n: nat, p: Process, call: Call, ws: set<int>, m: Memory, id: nat)
    requires Reachable(w) && n < |w.procs| && p.health.Fine? && AtRest(p) && id == w.next && m.base == p.memory.base
    requires w.procs[n] == p.(forkLock := true, memLock := true, threads := [MBody(p.memory, call, ws, m)],
                              memory := p.memory.(heap := m.heap, freep := m.freep))
    ensures Reachable(World(w.procs[n := Done(p, call, m, id)], w.next + 3))
  {
    hide Reachable, After, Mapped;
    var p4, done := w.procs[n], Done(p, call, m, id);
    var p5 := done.(forkLock := true, memLock := true, threads := [MUnlockMem]);
    assert p5 == Goto(p4, 0, MUnlockMem).(memory := m, health := After(p4.health, p.memory, call), pages := Mapped(p4.pages, m.granted, id));
    assert Leaves(p4, 0, id, p5);
    Quiet(w, n, 0, p5);
    var w5 := World(w.procs[n := p5], w.next + 1);
    var p6 := done.(forkLock := true, memLock := false, threads := [MUnlockFork]);
    assert p6 == Goto(p5, 0, MUnlockFork).(memLock := false);
    Quiet(w5, n, 0, p6);
    var w6 := World(w.procs[n := p6], w.next + 2);
    assert w5.procs[n := p6] == w6.procs;
    assert done == Goto(p6, 0, Idle).(forkLock := false);
    Quiet(w6, n, 0, done);
    assert w6.procs[n := done] == w.procs[n := done];
  }

  /** A whole call, from the first lock to the last unlock: its process has the memory the call leaves, and the
      others see what they have in common with it. */
  lemma CallReaches(w: World, n: nat, call: Call, ws: set<int>, m: Memory)
    requires Reachable(w) && n < |w.procs| && AtRest(w.procs[n]) && Good(w.procs[n], call) && WellFormed(w.procs[n].memory)
    requires Effect(w.procs[n].memory, call, ws, m)
    ensures Reachable(World(Spread(w, n, Done(w.procs[n], call, m, w.next + 4)), w.next + 7))
  {
    hide Reachable, Effect, Good, WellFormed, OnlyAt, Echo, After, Mapped, Spread, Legal;
    var p := w.procs[n];
    CallFacts(p, call, ws, m);
    EnterReaches(w, n, call, ws, m);
    var p3 := p.(forkLock := true, memLock := true, threads := [MBody(p.memory, call, ws, m)]);
    var w3 := World(w.procs[n := p3], w.next + 3);
    WriteReaches(w3, n, p, call, ws, m);
    var p4 := p3.(memory := p.memory.(heap := m.heap, freep := m.freep));
    var w4 := World(Spread(w3, n, p4), w.next + 4);
    var done := Done(p, call, m, w.next + 4);
    SpreadSame(w, w3, n, p4, done, call, m);
    LeaveReaches(w4, n, p, call, ws, m, w.next + 4);
  }

  lemma CallFacts(p: Process, call: Call, ws: set<int>, m: Memory)
    requires Good(p, call) && WellFormed(p.memory) && Effect(p.memory, call, ws, m)
    ensures p.health.Fine? && OnlyAt(ws, p.memory.heap, m.heap) && m.base == p.memory.base
  {
    hide WellFormed, OnlyAt, Legal, MallocLeaves, FreeLeaves;
    CallWrites(p.memory, call, ws, m);
  }

  lemma SpreadSame(w: World, w3: World, n: nat, p4: Process, done: Process, call: Call, m: Memory)
    requires n < |w.procs| == |w3.procs| && w3.procs == w.procs[n := w3.procs[n]]
    requires w3.procs[n].memory == w.procs[n].memory && w3.procs[n].pages == w.procs[n].pages
    requires p4.memory.heap == done.memory.heap == m.heap
    ensures |Spread(w3, n, p4)| == |w.procs| && Spread(w3, n, p4)[n] == p4 && Spread(w3, n, p4)[n := done] == Spread(w, n, done)
  {
    hide Echo;
    forall r: Process ensures Echo(w3.procs[n], m.heap, r) == Echo(w.procs[n], m.heap, r) {
      EchoSame(w.procs[n], w3.procs[n], m.heap, r);
    }
  }

  lemma EchoSame(p: Process, q: Process, h: Heap, r: Process)
    requires p.memory == q.memory && p.pages == q.pages
    ensures Echo(p, h, r) == Echo(q, h, r)
  {
    assert forall u :: Common(p, r, u) <==> Common(q, r, u);
    assert Seen(p, h, r) == Seen(q, h, r);
  }

  /** A whole fork, in both processes. */
  lemma ForkReaches(w: World, n: nat)
    requires Reachable(w) && n < |w.procs| && AtRest(w.procs[n])
    ensures Reachable(World(w.procs + [w.procs[n]], w.next + 5))
  {
    hide Reachable, Spread;
    var p := w.procs[n];
    var p1 := p.(threads := [FLockFork]);
    assert p1 == Goto(p, 0, FLockFork);
    Quiet(w, n, 0, p1);
    var p2 := p.(threads := [FSysFork], forkLock := true);
    assert p2 == Goto(p1, 0, FSysFork).(forkLock := true);
    var w1 := World(w.procs[n := p1], w.next + 1);
    Quiet(w1, n, 0, p2);
    var w2 := World(w.procs[n := p2], w.next + 2);
    assert w1.procs[n := p2] == w2.procs;
    var p3 := p.(threads := [FUnlockFork], forkLock := true);
    assert p3 == Goto(p2, 0, FUnlockFork) && p3 == Child(p2);
    ForkSpread(w2, n, 0, p3);
    var w3 := World(w2.procs[n := p3] + [p3], w.next + 3);
    assert Step(w2, n, 0, p3, w3);
    Onward(w2, w3);
    assert p == Goto(p3, 0, Idle).(forkLock := false);
    Quiet(w3, n, 0, p);
    var w4 := World(w3.procs[n := p], w.next + 4);
    assert w4.procs == w.procs + [p3];
    Quiet(w4, |w.procs|, 0, p);
    assert w4.procs[|w.procs| := p] == w.procs + [p];
  }

  /** clone adds a thread: processes of any number of threads are reachable. */
  lemma {:induction false} ThreadsReach(more: nat) returns (w: World)
    ensures Reachable(w) && |w.procs| == 1 && w.procs[0].threads == seq(more + 1, _ => Idle) && !w.procs[0].forkLock && !w.procs[0].memLock
  {
    hide Reachable;
    if more == 0 {
      w := World([Process(false, false, FRESH, imap[], Fine, [Idle])], 0);
      Begin(w);
    } else {
      var v := ThreadsReach(more - 1);
      var p := v.procs[0];
      var p1 := p.(threads := p.threads[0 := CLockFork]);
      Quiet(v, 0, 0, p1);
      var v1 := World([p1], v.next + 1);
      assert v.procs[0 := p1] == v1.procs;
      var p2 := p.(threads := p.threads[0 := CClone], forkLock := true);
      assert p2 == Goto(p1, 0, CClone).(forkLock := true);
      Quiet(v1, 0, 0, p2);
      var v2 := World([p2], v.next + 2);
      assert v1.procs[0 := p2] == v2.procs;
      var p3 := p.(threads := p.threads[0 := CUnlockFork] + [Idle], forkLock := true);
      assert p3 == Goto(p2, 0, CUnlockFork).(threads := p2.threads[0 := CUnlockFork] + [Idle]);
      Quiet(v2, 0, 0, p3);
      var v3 := World([p3], v.next + 3);
      assert v2.procs[0 := p3] == v3.procs;
      var p4 := p.(threads := seq(more + 1, _ => Idle));
      assert p4 == Goto(p3, 0, Idle).(forkLock := false);
      Quiet(v3, 0, 0, p4);
      w := World([p4], v.next + 4);
      assert v3.procs[0 := p4] == w.procs;
    }
  }

  const AT := 0x40440  // the first page granted

  /** After shmem_malloc of 4 bytes: a block of two units, and 62 free. */
  const PARENT: Heap := map[BASE := Header(AT + 2, 0, false), AT := Header(BASE, 2, true), AT + 2 := Header(BASE, 62, true)]

  const FRESH := Memory(BASE, map[BASE := Header(NULL, 0, false)], NULL, [BASE], {}, imap[])

  /** A block is served without asking only if there is one. */
  lemma ServedNeedsBlock(h: Heap, order: seq<int>, freep: int, g1: Grant, g2: Grant, t: bool, p: int, n: nat, m: Memory, ws: set<int>)
    requires Served(m.base, h, order, freep, {}, g1, g2, t, 0, p, n, m.heap, m.order, m.freep, ws)
    ensures |order| > 1
  {
    var h1, order1, freep1, w1 :|
      && Asked(m.base, h, order, freep, {}, g1, g2, t, 0, h1, order1, freep1, w1)
      && ServedFrom(h1, order1, p, n, t, m.heap, m.order, m.freep) && ws == w1 + CutWrites(h1, m.freep, p, n);
  }

  /** What that call does. */
  lemma SmallMalloc(ws: set<int>, m: Memory)
    requires Effect(FRESH, Malloc(4, true, FIRST, Refused), ws, m)
    ensures m == Memory(BASE, PARENT, BASE, [BASE, AT + 2], {AT}, Extend(imap[], FIRST, true)) && WellFormed(m)
    ensures !Derails(FRESH, Malloc(4, true, FIRST, Refused))
  {
    hide WellFormed, Served, Extend, MallocLeaves;
    var r := SmallServed(ws, m);
    CutFromFirst(BASE, FRESH.heap, NULL, {}, AT, 64, 2, r - 1, m.heap, m.order, m.freep, ws);
  }

  lemma SmallServed(ws: set<int>, m: Memory) returns (r: int)
    requires Effect(FRESH, Malloc(4, true, FIRST, Refused), ws, m)
    ensures Served(BASE, FRESH.heap, [BASE], NULL, {}, FIRST, Refused, true, 1, r - 1, 2, m.heap, m.order, m.freep, ws)
    ensures WellFormed(m) && m.live == {r - 1} && m.granted == Extend(imap[], FIRST, true)
    ensures !Derails(FRESH, Malloc(4, true, FIRST, Refused))
  {
    hide WellFormed, Asked, Served, KeepsLive, List, Misserved, Extend, AsksAgain, Units;
    var call := Malloc(4, true, FIRST, Refused);
    SmallUnits();
    AsksOnce(BASE, FRESH.heap, 2, FIRST);
    var asked: int;
    r, asked :| MallocLeaves(FRESH, call, ws, r, asked, m);
    if asked == 0 {
      ServedNeedsBlock(FRESH.heap, [BASE], NULL, FIRST, Refused, true, r - 1, 2, m, ws);
    }
  }

  lemma SmallUnits()
    ensures Units(4) == 2
  {
  }

  lemma FreeHasEffect(m: Memory, ap: int) returns (w: set<int>, m': Memory)
    requires WellFormed(m) && ap - 1 in m.live
    ensures Effect(m, Free(ap), w, m')
  {
    var b := ap - 1;
    FreeSound(m.base, m.heap, m.order, m.live, m.granted, b);
    FreeFrame(m.base, m.heap, m.order, m.live, m.granted, b);
    LiveIsAbove(m, b);
    var k := Slot(m.order, b);
    ListAbove(m.base, m.heap, m.order, k);
    hide Sound, Fits, PutBack;
    w := {b, m.order[k]};
    m' := m.(heap := PutBack(m.heap, m.order[k], b), order := PutBackOrder(m.heap, m.order, k, b), freep := m.order[k], live := m.live - {b});
    assert m'.order[k] == m.order[k];
  }

  /** The child's free of that block merges it with the 62 units, in the header the parent reads. */
  lemma FreeMerges(ws: set<int>, m: Memory, m': Memory)
    requires m.base == BASE && m.heap == PARENT && m.order == [BASE, AT + 2] && Effect(m, Free(AT + 1), ws, m')
    ensures m'.heap == PARENT[AT := Header(BASE, 64, true)][BASE := Header(AT, 0, false)]
  {
    hide WellFormed, KeepsLive, Fits, PutBackOrder;
    assert [BASE, AT + 2][..1] == [BASE] && Slot([BASE, AT + 2], AT) == 0;
  }

  /** What the parent sees: its list has the 62 units in two blocks. */
  const SPOILED: Heap := PARENT[AT := Header(BASE, 64, true)]

  lemma ParentSees(p: Process)
    requires p.memory.heap == PARENT && (forall u :: u in p.pages <==> InRegion(FIRST, u))
    ensures var r := Echo(p, PARENT[AT := Header(BASE, 64, true)][BASE := Header(AT, 0, false)], p);
            r.memory == p.memory.(heap := SPOILED) && (AtRest(p) ==> AtRest(r))
  {
    var h := PARENT[AT := Header(BASE, 64, true)][BASE := Header(AT, 0, false)];
    assert Common(p, p, AT) && !SameAt(PARENT, h, AT);
    assert Seen(p, h, p) == SPOILED;
  }

  lemma SpoiledIsIllFormed(m: Memory)
    requires m.base == BASE && m.freep == BASE && m.heap == SPOILED && m.order == [BASE, AT + 2] && m.live == {AT}
    ensures !WellFormed(m)
  {
    assert AT + 2 in m.order && !Apart(SPOILED, AT + 2, AT);
  }

  /** The first two links of a list. */
  lemma SecondAndThird(base: int, h: Heap, order: seq<int>)
    requires List(base, h, order) && h[base].ptr != base
    ensures |order| > 1 && order[1] == h[base].ptr && order[1] in h
    ensures h[order[1]].ptr != base ==> h[order[1]].ptr in h && Pair(h, order[1], h[order[1]].ptr)
  {
    Around(base, h, order, 0);
    Around(base, h, order, 1);
    if h[order[1]].ptr != base { assert PairAt(h, order, 1); }
  }

  /** free_locked(AT + 1) stops at base, and links the two overlapping blocks. */
  lemma FreeLeavesNoList(order: seq<int>)
    ensures HoldsBetween(BASE, SPOILED[BASE].ptr, AT) && !List(BASE, PutBack(SPOILED, BASE, AT), order)
  {
    var h := PutBack(SPOILED, BASE, AT);
    if List(BASE, h, order) { SecondAndThird(BASE, h, order); }
  }

  /** Memory from sys_shmem is not protected by the locks, which are copied.  This run from the start ends with the
      parent's memory ill formed, though every call was legal and none derailed: shmem_malloc of 4 bytes, fork,
      and in the child free of the block.  The free_locked of the parent would then find the place after
      base and leave no list at all. */
  method ChildFreeSpoilsParent() returns (ghost w: World)
    ensures Reachable(w) && |w.procs| == 2 && AtRest(w.procs[0]) && AT in w.procs[0].memory.live
    ensures w.procs[0].memory.heap == SPOILED && !WellFormed(w.procs[0].memory)
    ensures w.procs[1].health.Fine? && WellFormed(w.procs[1].memory)
    ensures HoldsBetween(BASE, SPOILED[BASE].ptr, AT) && forall order :: !List(BASE, PutBack(SPOILED, BASE, AT), order)
  {
    hide Reachable, Effect, Derails, Sound, Legal, WellFormed, Extend, Echo, HoldsBetween, PutBack, List;
    var malloc := Malloc(4, true, FIRST, Refused);
    FirstCalls();
    ghost var ws, m1 := Perform(FRESH, malloc);
    SmallMalloc(ws, m1);
    ghost var p := Process(false, false, FRESH, imap[], Fine, [Idle]);
    ghost var p1 := Done(p, malloc, m1, 4);
    Begin(World([p], 0));
    CallReaches(World([p], 0), 0, malloc, ws, m1);
    assert Spread(World([p], 0), 0, p1) == [p1];
    ForkReaches(World([p1], 7), 0);
    assert forall u :: u in p1.pages <==> InRegion(FIRST, u) by { FirstPageMapped(); }
    FreeLeavesNoList([]);
    forall order ensures !List(BASE, PutBack(SPOILED, BASE, AT), order) { FreeLeavesNoList(order); }
    assert [p1] + [p1] == [p1, p1];
    w := Spoiled(p1, 12);
  }

  lemma FirstCalls()
    ensures WellFormed(FRESH) && Legal(FRESH, Malloc(4, true, FIRST, Refused))
  {
  }

  lemma FirstPageMapped()
    ensures forall u, id :: u in Mapped(imap[], Extend(imap[], FIRST, true), id) <==> InRegion(FIRST, u)
  {
  }

  lemma Spoiled(p: Process, next: nat) returns (w: World)
    requires Reachable(World([p, p], next)) && AtRest(p) && p.health.Fine? && (forall u :: u in p.pages <==> InRegion(FIRST, u))
    requires p.memory == Memory(BASE, PARENT, BASE, [BASE, AT + 2], {AT}, Extend(imap[], FIRST, true)) && WellFormed(p.memory)
    ensures Reachable(w) && |w.procs| == 2 && AtRest(w.procs[0]) && AT in w.procs[0].memory.live
    ensures w.procs[0].memory.heap == SPOILED && !WellFormed(w.procs[0].memory)
    ensures w.procs[1].health.Fine? && WellFormed(w.procs[1].memory)
  {
    hide Reachable, WellFormed, Extend, Echo, PARENT;
    var w0, free := World([p, p], next), Free(AT + 1);
    var ws, m := FreeHasEffect(p.memory, AT + 1);
    assert Good(p, free);
    CallReaches(w0, 1, free, ws, m);
    CallKeeps(p.memory, free, ws, m);
    var q := Done(p, free, m, next + 4);
    w := World(Spread(w0, 1, q), next + 7);
    FreeMerges(ws, p.memory, m);
    ParentSees(p);
    SpoiledIsIllFormed(w.procs[0].memory);
  }
}
