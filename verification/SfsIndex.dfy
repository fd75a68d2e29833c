/** The block index of an SFS inode (ucore/src/ht-mksfs/mksfs.c:393-441): twelve direct
    blocks, one indirect block, one double-indirect block. */
module SfsIndex {
  import opened Basics

  const NDIRECT: nat := 12
  const BLKSIZE: nat := 4096
  const NENTRY: nat := 1024              // BLKSIZE / sizeof(uint32_t)
  const L0: nat := 12
  const L1: nat := 1036                  // NENTRY + L0
  const LN: nat := 32768                 // SFS_MAX_FILE_SIZE / BLKSIZE

  datatype Kind = File | Dir | Link

  /** An inode as mksfs caches it: the on-disk fields, then the builder's own. */
  datatype Inode = Inode(kind: Kind, size: nat, slots: nat, parent: nat, nlinks: nat, blocks: nat,
                         direct: seq<nat>, indirect: nat, dbl: nat,
                         source: nat, nblks: nat, l1: Option<nat>, l2: Option<nat>)

  /** Contents of the cached index blocks, by block number. */
  type Index = map<nat, seq<nat>>

  /** What a block of the image is for.  Index blocks of file f: level 1 is its indirect block,
      level 2 its double-indirect block, level 3 the blocks that one points to. */
  datatype Owner = InodeOf | IndexOf(f: nat, level: nat, k: nat) | BlockOf(f: nat, i: nat)

  function Zeros(): (z: seq<nat>)
    ensures |z| == NENTRY && forall i :: 0 <= i < NENTRY ==> z[i] == 0
  {
    seq<nat>(NENTRY, i => 0)
  }

  /** The block number at position i of a file, found the way a reader of the image does. */
  function Resolve(n: Inode, index: Index, i: nat): Option<nat> {
    if i < L0 then (if i < |n.direct| then Some(n.direct[i]) else None)
    else if i < L1 then Entry(index, n.indirect, i - L0)
    else
      match Entry(index, n.dbl, (i - L1) / NENTRY)
      case None => None
      case Some(b) => Entry(index, b, (i - L1) % NENTRY)
  }

  function Entry(index: Index, b: nat, k: nat): Option<nat> {
    if b in index && k < |index[b]| then Some(index[b][k]) else None
  }

  // ---------------------------------------------------------------- appending

  /** update_cache (mksfs.c:399-412) on a pointer that is zero or names the cached block: a zero
      pointer gets a fresh zeroed block. */
  function Ensure(index: Index, next: nat, b: nat): (nat, Index, nat) {
    if b == 0 then (next, index[next := Zeros()], next + 1) else (b, index, next)
  }

  function Put(index: Index, b: nat, k: nat, x: nat): Index
    requires b in index && k < |index[b]|
  {
    var entries: seq<nat> := index[b][k := x];
    index[b := entries]
  }

  datatype Step = Step(n: Inode, index: Index, next: nat)

  /** The pointers __append_block follows exist. */
  predicate Appendable(n: Inode, index: Index, next: nat) {
    && next > 0 && |n.direct| == NDIRECT && n.nblks < LN
    && (L0 <= n.nblks < L1 && n.indirect != 0 ==> n.indirect in index && |index[n.indirect]| == NENTRY)
    && (L1 <= n.nblks && n.dbl != 0 ==>
          && n.dbl in index && |index[n.dbl]| == NENTRY && n.dbl < next
          && var b := index[n.dbl][(n.nblks - L1) / NENTRY];
             b != 0 ==> b in index && |index[b]| == NENTRY)
  }

  /** __append_block (mksfs.c:414-441). */
  function Append(n: Inode, index: Index, next: nat, x: nat): Step
    requires Appendable(n, index, next)
  {
    var counted := n.(nblks := n.nblks + 1, blocks := n.blocks + 1);
    if n.nblks < L0 then
      Step(counted.(direct := n.direct[n.nblks := x]), index, next)
    else if n.nblks < L1 then
      var (b, index1, next1) := Ensure(index, next, n.indirect);
      Step(counted.(indirect := b, l1 := Some(b)), Put(index1, b, n.nblks - L0, x), next1)
    else
      var m := n.nblks - L1;
      var (d, index1, next1) := Ensure(index, next, n.dbl);
      var (b, index2, next2) := Ensure(index1, next1, index1[d][m / NENTRY]);
      var index3 := Put(index2, d, m / NENTRY, b);
      Step(counted.(dbl := d, l2 := Some(d), l1 := Some(b)), Put(index3, b, m % NENTRY, x), next2)
  }

  // ---------------------------------------------------------------- well-formed index

  predicate IsIndex(index: Index, owner: map<nat, Owner>, b: nat, o: Owner) {
    b != 0 && b in index && |index[b]| == NENTRY && b in owner && owner[b] == o
  }

  /** How many blocks the double-indirect block of a file of `len` blocks points to. */
  function Groups(len: nat): nat {
    if len <= L1 then 0 else (len - L1 - 1) / NENTRY + 1
  }

  /** Which entries of a double-indirect block are in use. */
  predicate Groups3(f: nat, entries: seq<nat>, len: nat, index: Index, owner: map<nat, Owner>) {
    forall k :: 0 <= k < |entries| ==>
      if k < Groups(len) then IsIndex(index, owner, entries[k], IndexOf(f, 3, k)) else entries[k] == 0
  }

  /** The index blocks a file of `len` blocks has, and that the builder's cached l1 and l2 name
      the ones being filled. */
  predicate Shape(f: nat, n: Inode, len: nat, index: Index, owner: map<nat, Owner>) {
    && |n.direct| == NDIRECT && n.nblks == n.blocks == len <= LN
    && (if len <= L0 then n.indirect == 0
        else IsIndex(index, owner, n.indirect, IndexOf(f, 1, 0)))
    && (if len <= L1 then n.dbl == 0
        else IsIndex(index, owner, n.dbl, IndexOf(f, 2, 0)) && n.l2 == Some(n.dbl) && Groups3(f, index[n.dbl], len, index, owner))
    && (L0 < len <= L1 ==> n.l1 == Some(n.indirect))
    && (L1 < len ==> n.l1 == Some(index[n.dbl][Groups(len) - 1]))
  }

  /** The index of file f resolves position i to its i-th appended block, for all of them. */
  predicate Indexed(f: nat, n: Inode, app: seq<nat>, index: Index, owner: map<nat, Owner>) {
    && Shape(f, n, |app|, index, owner)
    && forall i :: 0 <= i < |app| ==> Resolve(n, index, i) == Some(app[i])
  }

  // ---------------------------------------------------------------- appending keeps it

  lemma GroupOf(len: nat)
    requires L1 < len <= LN
    ensures var g := (len - L1) / NENTRY;
            && g < NENTRY && Groups(len) <= NENTRY
            && (if (len - L1) % NENTRY == 0 then Groups(len) == g else Groups(len) == g + 1)
            && Groups(len + 1) == g + 1
  {
  }

  /** The pointer __append_block follows next is zero or is the block it has cached, so
      update_cache never has to search for it. */
  predicate CacheNames(n: Inode, index: Index) {
    && (L0 <= n.nblks < L1 ==> n.indirect == 0 || n.l1 == Some(n.indirect))
    && (L1 <= n.nblks ==>
          && (n.dbl == 0 || n.l2 == Some(n.dbl))
          && (n.dbl != 0 ==>
                && n.dbl in index && (n.nblks - L1) / NENTRY < |index[n.dbl]|
                && var e := index[n.dbl][(n.nblks - L1) / NENTRY]; e == 0 || n.l1 == Some(e)))
  }

  lemma Ready(f: nat, n: Inode, app: seq<nat>, index: Index, owner: map<nat, Owner>, next: nat)
    requires Indexed(f, n, app, index, owner) && |app| < LN && next > 0
    requires forall b :: b in owner ==> b < next
    ensures Appendable(n, index, next) && CacheNames(n, index)
  {
    var len := |app|;
    if len > L1 {
      GroupOf(len);
      var g := (len - L1) / NENTRY;
      assert if g < Groups(len) then IsIndex(index, owner, index[n.dbl][g], IndexOf(f, 3, g)) else index[n.dbl][g] == 0;
    }
  }

  /** The owners after an append: any index block it had to allocate is owned by f. */
  function Owning(f: nat, n: Inode, index: Index, next: nat, owner: map<nat, Owner>): map<nat, Owner> {
    if n.nblks < L0 then owner
    else if n.nblks < L1 then (if n.indirect == 0 then owner[next := IndexOf(f, 1, 0)] else owner)
    else if n.dbl == 0 then owner[next := IndexOf(f, 2, 0)][next + 1 := IndexOf(f, 3, (n.nblks - L1) / NENTRY)]
    else
      match Entry(index, n.dbl, (n.nblks - L1) / NENTRY)
      case Some(0) => owner[next := IndexOf(f, 3, (n.nblks - L1) / NENTRY)]
      case _ => owner
  }

  lemma AppendDirect(f: nat, n: Inode, app: seq<nat>, index: Index, owner: map<nat, Owner>, next: nat, x: nat)
    requires Indexed(f, n, app, index, owner) && |app| < L0 && Appendable(n, index, next)
    ensures var st := Append(n, index, next, x); Indexed(f, st.n, app + [x], st.index, owner)
  {
  }

  lemma AppendIndirect(f: nat, n: Inode, app: seq<nat>, index: Index, owner: map<nat, Owner>, next: nat, x: nat)
    requires Indexed(f, n, app, index, owner) && L0 <= |app| < L1 && Appendable(n, index, next)
    requires forall b :: b in owner ==> b < next
    ensures var st := Append(n, index, next, x);
            Indexed(f, st.n, app + [x], st.index, Owning(f, n, index, next, owner))
  {
    var st := Append(n, index, next, x);
    var app' := app + [x];
    forall i | 0 <= i < |app'| ensures Resolve(st.n, st.index, i) == Some(app'[i]) {
      if i < |app| { assert Resolve(n, index, i) == Some(app[i]); }
    }
  }

  /** The first block past the indirect range brings two index blocks. */
  lemma AppendFirstDouble(f: nat, n: Inode, app: seq<nat>, index: Index, owner: map<nat, Owner>, next: nat, x: nat)
    requires Indexed(f, n, app, index, owner) && |app| == L1 && Appendable(n, index, next)
    requires forall b :: b in owner ==> b < next
    ensures var st := Append(n, index, next, x);
            Indexed(f, st.n, app + [x], st.index, Owning(f, n, index, next, owner))
  {
    var st := Append(n, index, next, x);
    var app' := app + [x];
    var owner' := Owning(f, n, index, next, owner);
    assert Groups(L1 + 1) == 1;
    assert st.index[next] == Zeros()[0 := next + 1];
    assert st.index[next + 1] == Zeros()[0 := x];
    assert Shape(f, st.n, |app'|, st.index, owner');
    forall i | 0 <= i < |app'| ensures Resolve(st.n, st.index, i) == Some(app'[i]) {
      if i < |app| { assert Resolve(n, index, i) == Some(app[i]); }
    }
  }

  /** What an append past the indirect range does, with d the double-indirect block and b the
      one of the group being filled. */
  lemma DoubleStep(f: nat, n: Inode, len: nat, index: Index, owner: map<nat, Owner>, next: nat, x: nat)
    requires Shape(f, n, len, index, owner) && L1 < len < LN && Appendable(n, index, next)
    requires forall b :: b in owner ==> b < next
    ensures var st, g, d := Append(n, index, next, x), (len - L1) / NENTRY, n.dbl;
            var b := if index[d][g] == 0 then next else index[d][g];
            && d != b && n.indirect != d && n.indirect != b
            && d in index && st.n == n.(nblks := len + 1, blocks := len + 1, l2 := Some(d), l1 := Some(b))
            && st.index.Keys == index.Keys + {b} && st.index[d] == index[d][g := b]
            && st.index[b] == (if index[d][g] == 0 then Zeros() else index[b])[(len - L1) % NENTRY := x]
            && (forall c :: c in index && c != d && c != b ==> st.index[c] == index[c])
            && st.next == if index[d][g] == 0 then next + 1 else next
  {
    GroupOf(len);
    var g := (len - L1) / NENTRY;
    assert if g < Groups(len) then IsIndex(index, owner, index[n.dbl][g], IndexOf(f, 3, g)) else index[n.dbl][g] == 0;
  }

  lemma AppendDoubleShape(f: nat, n: Inode, len: nat, index: Index, owner: map<nat, Owner>, next: nat, x: nat)
    requires Shape(f, n, len, index, owner) && L1 < len < LN && Appendable(n, index, next)
    requires forall b :: b in owner ==> b < next
    ensures var st := Append(n, index, next, x);
            Shape(f, st.n, len + 1, st.index, Owning(f, n, index, next, owner))
  {
    DoubleStep(f, n, len, index, owner, next, x);
    GroupOf(len);
    var st, g, d := Append(n, index, next, x), (len - L1) / NENTRY, n.dbl;
    var owner' := Owning(f, n, index, next, owner);
    hide Append, Appendable, Groups;
    var b := if index[d][g] == 0 then next else index[d][g];
    forall k | 0 <= k < NENTRY
      ensures if k < Groups(len + 1) then IsIndex(st.index, owner', st.index[d][k], IndexOf(f, 3, k)) else st.index[d][k] == 0
    {
      assert if k < Groups(len) then IsIndex(index, owner, index[d][k], IndexOf(f, 3, k)) else index[d][k] == 0;
    }
  }

  lemma AppendDouble(f: nat, n: Inode, app: seq<nat>, index: Index, owner: map<nat, Owner>, next: nat, x: nat)
    requires Indexed(f, n, app, index, owner) && L1 < |app| < LN && Appendable(n, index, next)
    requires forall b :: b in owner ==> b < next
    ensures var st := Append(n, index, next, x);
            Indexed(f, st.n, app + [x], st.index, Owning(f, n, index, next, owner))
  {
    var len := |app|;
    AppendDoubleShape(f, n, len, index, owner, next, x);
    var st := Append(n, index, next, x);
    var app' := app + [x];
    forall i | 0 <= i < |app'| ensures Resolve(st.n, st.index, i) == Some(app'[i]) {
      if i < |app| { assert Resolve(n, index, i) == Some(app[i]); }
      DoubleResolves(f, n, app, index, owner, next, x, i);
    }
  }

  lemma DoubleResolves(f: nat, n: Inode, app: seq<nat>, index: Index, owner: map<nat, Owner>, next: nat, x: nat, i: nat)
    requires Indexed(f, n, app, index, owner) && L1 < |app| < LN && Appendable(n, index, next)
    requires forall b :: b in owner ==> b < next
    requires i <= |app|
    ensures var st := Append(n, index, next, x); Resolve(st.n, st.index, i) == Some((app + [x])[i])
  {
    var len := |app|;
    DoubleStep(f, n, len, index, owner, next, x);
    GroupOf(len);
    var st, g, d := Append(n, index, next, x), (len - L1) / NENTRY, n.dbl;
    hide Append, Appendable, Groups;
    if i < len {
      assert Resolve(n, index, i) == Some(app[i]);
      if i >= L1 {
        var h := (i - L1) / NENTRY;
        assert h < Groups(len) by { GroupBelow(i, len); }
        assert IsIndex(index, owner, index[d][h], IndexOf(f, 3, h));
        if g < Groups(len) { assert IsIndex(index, owner, index[d][g], IndexOf(f, 3, g)); }
        if h == g { SameGroup(i, len); }
      }
    }
  }

  lemma GroupBelow(i: nat, len: nat)
    requires L1 <= i < len
    ensures (i - L1) / NENTRY < Groups(len)
  {
  }

  /** Two positions in one group differ within it. */
  lemma SameGroup(i: nat, j: nat)
    requires L1 <= i < j && (i - L1) / NENTRY == (j - L1) / NENTRY
    ensures (i - L1) % NENTRY != (j - L1) % NENTRY
  {
  }

  /** Appending block x to file f: the index then resolves every earlier position as before and
      the new one to x. */
  lemma AppendIndexed(f: nat, n: Inode, app: seq<nat>, index: Index, owner: map<nat, Owner>, next: nat, x: nat)
    requires Indexed(f, n, app, index, owner) && |app| < LN && next > 0
    requires forall b :: b in owner ==> b < next
    ensures Appendable(n, index, next) && CacheNames(n, index)
    ensures var st := Append(n, index, next, x);
            Indexed(f, st.n, app + [x], st.index, Owning(f, n, index, next, owner))
  {
    Ready(f, n, app, index, owner, next);
    if |app| < L0 { AppendDirect(f, n, app, index, owner, next, x); }
    else if |app| < L1 { AppendIndirect(f, n, app, index, owner, next, x); }
    else if |app| == L1 { AppendFirstDouble(f, n, app, index, owner, next, x); }
    else { AppendDouble(f, n, app, index, owner, next, x); }
  }

  /** What an append may touch: index blocks that f owns, and new ones, numbered from next on. */
  ghost predicate Confined(f: nat, st: Step, index: Index, next: nat, owner: map<nat, Owner>, owner': map<nat, Owner>) {
    && next <= st.next <= next + 2
    && (forall b :: b in st.index <==> b in index || next <= b < st.next)
    && (forall b :: b in owner' <==> b in owner || next <= b < st.next)
    && (forall b :: b in owner ==> owner'[b] == owner[b])
    && (forall b :: next <= b < st.next ==> b in owner' && owner'[b].IndexOf? && owner'[b].f == f)
    && (forall b :: b in index && b in owner && !(owner[b].IndexOf? && owner[b].f == f) ==> st.index[b] == index[b])
  }

  lemma ConfinedSmall(f: nat, n: Inode, len: nat, index: Index, owner: map<nat, Owner>, next: nat, x: nat)
    requires Shape(f, n, len, index, owner) && len <= L1 && Appendable(n, index, next)
    requires forall b :: b in owner ==> b < next
    requires forall b :: b in index ==> b in owner
    ensures Confined(f, Append(n, index, next, x), index, next, owner, Owning(f, n, index, next, owner))
  {
  }

  lemma ConfinedDouble(f: nat, n: Inode, len: nat, index: Index, owner: map<nat, Owner>, next: nat, x: nat)
    requires Shape(f, n, len, index, owner) && L1 < len < LN && Appendable(n, index, next)
    requires forall b :: b in owner ==> b < next
    requires forall b :: b in index ==> b in owner
    ensures Confined(f, Append(n, index, next, x), index, next, owner, Owning(f, n, index, next, owner))
  {
    DoubleStep(f, n, len, index, owner, next, x);
    GroupOf(len);
    var g := (len - L1) / NENTRY;
    assert if g < Groups(len) then IsIndex(index, owner, index[n.dbl][g], IndexOf(f, 3, g)) else index[n.dbl][g] == 0;
    hide Append, Appendable, Groups;
  }

  lemma AppendConfined(f: nat, n: Inode, app: seq<nat>, index: Index, owner: map<nat, Owner>, next: nat, x: nat)
    requires Indexed(f, n, app, index, owner) && |app| < LN && next > 0 && Appendable(n, index, next)
    requires forall b :: b in owner ==> b < next
    requires forall b :: b in index ==> b in owner
    ensures Confined(f, Append(n, index, next, x), index, next, owner, Owning(f, n, index, next, owner))
  {
    if |app| <= L1 { ConfinedSmall(f, n, |app|, index, owner, next, x); }
    else { ConfinedDouble(f, n, |app|, index, owner, next, x); }
  }

  /** So every other file's index is untouched. */
  lemma OtherIndexed(g: nat, n: Inode, app: seq<nat>, index: Index, owner: map<nat, Owner>,
                     index': Index, owner': map<nat, Owner>)
    requires Indexed(g, n, app, index, owner)
    requires forall b :: b in owner ==> b in owner' && owner'[b] == owner[b]
    requires forall b :: b in index && b in owner && owner[b].IndexOf? && owner[b].f == g ==> b in index' && index'[b] == index[b]
    ensures Indexed(g, n, app, index', owner')
  {
    forall i | 0 <= i < |app| ensures Resolve(n, index', i) == Some(app[i]) {
      assert Resolve(n, index, i) == Some(app[i]);
      if i >= L1 {
        GroupBelow(i, |app|);
        var h := (i - L1) / NENTRY;
        assert h < NENTRY;
        assert IsIndex(index, owner, index[n.dbl][h], IndexOf(g, 3, h));
      }
    }
    hide Resolve;
  }

  /** An empty file. */
  lemma EmptyIndexed(f: nat, n: Inode, index: Index, owner: map<nat, Owner>)
    requires |n.direct| == NDIRECT && n.nblks == n.blocks == n.indirect == n.dbl == 0
    ensures Indexed(f, n, [], index, owner)
  {
  }

  /** Where an inode refers to the index block of a given level and place. */
  function Refers(n: Inode, index: Index, level: nat, k: nat): Option<nat> {
    if level == 1 then Some(n.indirect)
    else if level == 2 then Some(n.dbl)
    else Entry(index, n.dbl, k)
  }

  /** No index block of file f is lost: each is where its inode looks for it. */
  predicate Referenced(f: nat, n: Inode, index: Index, owner: map<nat, Owner>) {
    forall b :: b in owner && owner[b].IndexOf? && owner[b].f == f ==> Refers(n, index, owner[b].level, owner[b].k) == Some(b)
  }

  lemma AppendReferenced(f: nat, n: Inode, app: seq<nat>, index: Index, owner: map<nat, Owner>, next: nat, x: nat)
    requires Indexed(f, n, app, index, owner) && |app| < LN && next > 0 && Appendable(n, index, next)
    requires forall b :: b in owner ==> b < next
    requires Referenced(f, n, index, owner) && 0 !in owner && 0 !in index
    ensures var st := Append(n, index, next, x);
            Referenced(f, st.n, st.index, Owning(f, n, index, next, owner))
  {
    var len := |app|;
    if len > L1 {
      DoubleStep(f, n, len, index, owner, next, x);
      GroupOf(len);
      hide Append, Appendable;
    } else if len == L1 {
      FirstDoubleStep(f, n, index, owner, next, x);
      hide Append, Appendable;
      forall b | b in owner && owner[b].IndexOf? && owner[b].f == f ensures owner[b].level == 1 {
        assert Refers(n, index, owner[b].level, owner[b].k) == Some(b);
      }
    }
  }

  lemma FirstDoubleStep(f: nat, n: Inode, index: Index, owner: map<nat, Owner>, next: nat, x: nat)
    requires Shape(f, n, L1, index, owner) && Appendable(n, index, next)
    ensures var st := Append(n, index, next, x);
            && st.n == n.(nblks := L1 + 1, blocks := L1 + 1, dbl := next, l2 := Some(next), l1 := Some(next + 1))
            && next in st.index && st.index[next] == Zeros()[0 := next + 1]
  {
  }

  // ---------------------------------------------------------------- how many blocks

  /** The index blocks a file of `len` blocks has. */
  function IndexCost(len: nat): nat {
    if len <= L0 then 0 else if len <= L1 then 1 else 2 + Groups(len)
  }

  /** All its blocks. */
  function FileCost(len: nat): nat { len + IndexCost(len) }

  lemma FileCostRises(a: nat, b: nat)
    requires a <= b
    ensures FileCost(a) <= FileCost(b) && (a < b ==> FileCost(a) < FileCost(b))
  {
    if L1 < a { GroupsRise(a, b); }
  }

  lemma GroupsRise(a: nat, b: nat)
    requires L1 < a <= b
    ensures Groups(a) <= Groups(b)
  {
    var x, y := a - L1 - 1, b - L1 - 1;
    assert x == NENTRY * (x / NENTRY) + x % NENTRY && y == NENTRY * (y / NENTRY) + y % NENTRY;
  }

  /** An append allocates exactly the index blocks the longer file has more. */
  lemma AppendCost(f: nat, n: Inode, len: nat, index: Index, owner: map<nat, Owner>, next: nat, x: nat)
    requires Shape(f, n, len, index, owner) && len < LN && Appendable(n, index, next)
    requires forall b :: b in owner ==> b < next
    ensures Append(n, index, next, x).next == next + IndexCost(len + 1) - IndexCost(len)
  {
    if len > L1 {
      DoubleStep(f, n, len, index, owner, next, x);
      GroupOf(len);
      var g := (len - L1) / NENTRY;
      assert if g < Groups(len) then IsIndex(index, owner, index[n.dbl][g], IndexOf(f, 3, g)) else index[n.dbl][g] == 0;
      hide Append, Appendable, Groups;
    } else if len == L1 {
      assert Groups(L1 + 1) == 1;
    }
  }
}
