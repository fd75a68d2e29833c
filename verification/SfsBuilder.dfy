/** mksfs (ucore/src/ht-mksfs/mksfs.c) as an object that updates its tables in place. */
module SfsBuilder {
  import opened Basics
  import opened SfsIndex
  import opened SfsState
  import opened SfsTree

  const HASH_PRIME: nat := 0x9e370001

  /** hash32 with HASH_SHIFT 10 (mksfs.c:42-51). */
  function Hash32(val: nat): nat {
    ((val * HASH_PRIME) % 0x1_0000_0000) / 0x40_0000
  }

  type Slot = s: seq<Byte> | |s| == 256 witness seq(256, i => 0)

  ghost predicate Filing(index: Index, bucket: map<nat, nat>) {
    bucket.Keys == index.Keys && forall b :: b in bucket ==> bucket[b] == Hash32(0)
  }

  lemma FilingPut(index: Index, bucket: map<nat, nat>, b: nat, k: nat, x: nat)
    requires Filing(index, bucket) && b in index && k < |index[b]|
    ensures Filing(Put(index, b, k, x), bucket)
  {
  }

  /** How a step of the program ends: done, or given up because the disk is full, because
      something exceeds the format's limits, because a directory turns up twice, or because the
      source file system failed. */
  datatype Outcome = Done | Full | Unfit | Again | Broken

  class Builder {
    const ninos: nat
    const flaky: bool               // whether system calls on the source may fail or fall short
    var next: nat
    var unused: int
    var inodes: map<nat, Inode>
    var latest: map<nat, nat>       // what search_cache_inode finds for a source inode
    var index: Index                // the cached index blocks ...
    var bucket: map<nat, nat>       // ... and the hash chain each is filed in
    var image: map<nat, Content>    // blocks written so far
    var slot: Slot                  // the name buffer of add_entry, kept from call to call
    ghost var owner: map<nat, Owner>
    ghost var app: map<nat, seq<nat>>
    ghost var made: seq<(nat, nat)>
    ghost var open: set<nat>

    ghost function View(): Fs
      reads this
    {
      Fs(FirstFree(ninos), ninos, next, unused, inodes, latest, index, image, owner, app, made, open)
    }

    /** Every cached index block is filed, and in the chain of zero: alloc_cache_block hashes the
        number it was asked for, not the one it got (mksfs.c:190-198). */
    ghost predicate Filed()
      reads this`bucket, this`index
    {
      Filing(index, bucket)
    }

    /** create_sfs for an image of n blocks with room for more than the free map. */
    constructor (n: nat, flaky: bool)
      requires FirstFree(n) < n
      ensures View() == Fresh(n) && Valid(View()) && Filed() && this.flaky == flaky
    {
      this.flaky := flaky;
      ninos, next, unused := n, FirstFree(n), n - FirstFree(n);
      inodes, latest := map[ROOT := Blank(Dir, 0, ROOT, 2)], map[0 := ROOT];
      index, bucket, image, slot := map[], map[], map[], seq(256, i => 0);
      owner, app, made, open := map[ROOT := InodeOf], map[ROOT := []], [], {ROOT};
      new;
      FreshValid(n);
    }

    /** sfs_alloc_ino (mksfs.c:181-188). */
    method AllocIno() returns (ok: bool, ino: nat)
      modifies this`next, this`unused
      ensures ok <==> old(next) < ninos
      ensures ok ==> ino == old(next) && next == old(next) + 1 && unused == old(unused) - 1
      ensures !ok ==> next == old(next) && unused == old(unused)
    {
      if next < ninos {
        unused := unused - 1;
        next := next + 1;
        return true, next - 1;
      }
      return false, 0;
    }

    /** write_block (mksfs.c:304-317): no block is ever written twice. */
    method WriteBlock(ino: nat, c: Content)
      requires ino < ninos && ino !in image
      modifies this`image
      ensures image == old(image)[ino := c]
    {
      image := image[ino := c];
    }

    /** update_cache (mksfs.c:399-412).  A search looks in the chain of the block's own number, where
        a cached block is exactly if that number hashes like zero. */
    method UpdateCache(cb: Option<nat>, ino: nat) returns (ok: bool, b: nat, searched: bool)
      requires Filed()
      modifies this`next, this`unused, this`index, this`bucket
      ensures searched <==> ino != 0 && cb != Some(ino)
      ensures !searched ==> (ok <==> ino != 0 || old(next) < ninos)
      ensures !searched && ok ==> (b, index, next) == Ensure(old(index), old(next), ino)
      ensures unused == old(unused) - (next - old(next))
      ensures !searched && !ok ==> next == old(next)
      ensures Filed()
      ensures searched ==> (ok <==> ino in index && Hash32(ino) == Hash32(0)) && index == old(index)
    {
      searched, b := false, ino;
      if ino == 0 {
        ok, b := AllocIno();
        if ok {
          index := index[b := Zeros()];
          bucket := bucket[b := Hash32(0)];
        }
      } else if cb != Some(ino) {
        searched := true;
        ok := ino in bucket && bucket[ino] == Hash32(ino);
        assert ino in bucket <==> ino in index;
      } else {
        ok := true;
      }
    }

    /** __append_block (mksfs.c:414-441).  The cached l1 and l2 always name the blocks it needs, so
        it never searches. */
    method AppendBlock(f: nat, x: nat) returns (ok: bool, searched: bool)
      requires f in inodes && next <= ninos && Filed()
      requires inodes[f].nblks < LN ==> Appendable(inodes[f], index, next) && CacheNames(inodes[f], index)
      modifies this`next, this`unused, this`index, this`bucket, this`inodes
      ensures ok <==> old(inodes[f].nblks) < LN && Append(old(inodes[f]), old(index), old(next), x).next <= ninos
      ensures !ok && old(inodes[f].nblks) < LN ==> next == ninos
      ensures !searched && Filed()
      ensures ok ==>
                var st := Append(old(inodes[f]), old(index), old(next), x);
                index == st.index && next == st.next && inodes == old(inodes)[f := st.n] && unused == old(unused) - (next - old(next))
    {
      hide Filing;
      var n := inodes[f];
      searched := false;
      if n.nblks >= LN {
        return false, false;
      }
      if n.nblks < L0 {
        n := n.(direct := n.direct[n.nblks := x]);
      } else if n.nblks < L1 {
        var b;
        ok, b, searched := UpdateCache(n.l1, n.indirect);
        if !ok {
          return;
        }
        FilingPut(index, bucket, b, n.nblks - L0, x);
        index := Put(index, b, n.nblks - L0, x);
        n := n.(indirect := b, l1 := Some(b));
      } else {
        ok, searched, n := AppendDouble(n, x);
        if !ok {
          return;
        }
      }
      n := n.(nblks := n.nblks + 1, blocks := n.blocks + 1);
      inodes := inodes[f := n];
      ok := true;
    }

    method AppendDouble(n0: Inode, x: nat) returns (ok: bool, searched: bool, n: Inode)
      requires next <= ninos && Filed() && L1 <= n0.nblks && Appendable(n0, index, next) && CacheNames(n0, index)
      modifies this`next, this`unused, this`index, this`bucket
      ensures ok <==> Append(n0, old(index), old(next), x).next <= ninos
      ensures !ok ==> next == ninos
      ensures !searched && Filed()
      ensures ok ==>
                var st := Append(n0, old(index), old(next), x);
                && index == st.index && next == st.next && unused == old(unused) - (next - old(next))
                && n.(nblks := n.nblks + 1, blocks := n.blocks + 1) == st.n
    {
      hide Filing;
      n := n0;
      var m := n.nblks - L1;
      var d, b, second;
      ok, d, searched := UpdateCache(n.l2, n.dbl);
      if !ok {
        return;
      }
      ok, b, second := UpdateCache(n.l1, index[d][m / NENTRY]);
      searched := searched || second;
      if !ok {
        return;
      }
      FilingPut(index, bucket, d, m / NENTRY, b);
      index := Put(index, d, m / NENTRY, b);
      FilingPut(index, bucket, b, m % NENTRY, x);
      index := Put(index, b, m % NENTRY, x);
      n := n.(dbl := d, l2 := Some(d), l1 := Some(b));
    }

    /** A block is allocated, written and appended to file f; for a file, `grow` bytes are new. */
    method AppendNew(f: nat, c: Content, grow: nat) returns (out: Outcome)
      requires Valid(View()) && Filed() && f in inodes
      requires !inodes[f].kind.Dir? ==> inodes[f].size % BLKSIZE == 0 && 0 < grow <= BLKSIZE
      modifies this
      ensures Filed()
      ensures f in old(app) && old(inodes[f].nblks) == |old(app[f])|
      ensures Ends(out, |old(app[f])| < LN, false, old(next) + NextCost(|old(app[f])|)) && !out.Broken?
      ensures out.Done? ==> CanGrow(old(View()), f, grow) && GrowsTo(old(View()), f, c, grow, View()) && Valid(View())
    {
      hide Valid, Append, Appendable, CacheNames, Owning, GrowsTo, Resized, CanGrow, Grown, FirstFree, NextCost, Filed;
      ghost var s := View();
      Prepared(s, f, c, grow);
      out := StoreBlock(f, c, grow);
      if out.Done? {
        owner := Owning(f, Resized(s.inodes[f], grow), s.index, s.next + 1, s.owner[s.next := BlockOf(f, |s.app[f]|)]);
        app := app[f := app[f] + [s.next]];
        IsGrown(s, f, c, grow, View());
      }
    }

    /** The statements behind AppendNew. */
    method StoreBlock(f: nat, c: Content, grow: nat) returns (out: Outcome)
      requires f in inodes && next <= ninos && next !in image && Filed() && Resized(inodes[f], grow).nblks == inodes[f].nblks
      requires inodes[f].nblks < LN ==> Appendable(Resized(inodes[f], grow), index, next + 1) && CacheNames(Resized(inodes[f], grow), index)
      modifies this`next, this`unused, this`index, this`bucket, this`inodes, this`image
      ensures Filed() && (out.Done? || out.Full? || out.Unfit?)
      ensures out.Unfit? ==> old(inodes[f].nblks) >= LN
      ensures out.Full? ==> next == ninos && (old(next) == ninos || (old(inodes[f].nblks) < LN &&
                              Append(Resized(old(inodes[f]), grow), old(index), old(next) + 1, old(next)).next > ninos))
      ensures out.Done? ==>
                && old(inodes[f].nblks) < LN
                && var n := Resized(old(inodes[f]), grow);
                   var st := Append(n, old(index), old(next) + 1, old(next));
                   && next == st.next <= ninos && unused == old(unused) - (next - old(next)) && index == st.index
                   && inodes == old(inodes)[f := n][f := st.n] && image == old(image)[old(next) := c]
    {
      hide Append, Appendable, CacheNames, Resized, Filed;
      var got, x := AllocIno();
      if !got {
        return Full;
      }
      WriteBlock(x, c);
      inodes := inodes[f := Resized(inodes[f], grow)];
      var big := inodes[f].nblks >= LN;
      var ok, _ := AppendBlock(f, x);
      out := if ok then Done else if big then Unfit else Full;
    }

    /** alloc_cache_inode and, for a directory, init_dir_cache_inode (mksfs.c:209-237). */
    method NewInode(kind: Kind, id: nat, parent: nat) returns (ok: bool, ino: nat)
      requires Valid(View()) && Filed() && (kind.Dir? ==> parent in inodes && inodes[parent].kind.Dir?)
      modifies this
      ensures Filed()
      ensures !ok ==> next == old(next) == ninos
      ensures ok ==> ino == old(next) && next == ino + 1 && ino !in old(inodes) && View() == WithInode(old(View()), kind, id, parent)
      ensures ok ==> Valid(View()) && Grows(old(View()), View())
    {
      hide Valid, Grows, FirstFree, WithInode, Filed, Blank, Bumped;
      ghost var s := View();
      Room(s);
      ok, ino := StoreInode(kind, id, parent);
      if ok {
        NewValid(s, kind, id, parent);
        NewGrows(s, kind, id, parent);
        owner, app, open := owner[ino := InodeOf], app[ino := []], open + {ino};
        IsWithInode(s, kind, id, parent, View());
      }
    }

    /** The statements behind NewInode. */
    method StoreInode(kind: Kind, id: nat, parent: nat) returns (ok: bool, ino: nat)
      requires next <= ninos && (kind.Dir? ==> parent in inodes)
      modifies this`next, this`unused, this`inodes, this`latest
      ensures ok <==> old(next) < ninos
      ensures !ok ==> next == old(next)
      ensures ok ==>
                && ino == old(next) && next == ino + 1 && unused == old(unused) - 1 && latest == old(latest)[id := ino]
                && inodes == (var all := old(inodes)[ino := Blank(kind, id, 0, 0)];
                              if kind.Dir? then var one := all[ino := Blank(kind, id, 0, 1)];
                                                one[parent := Bumped(one[parent])][ino := one[parent := Bumped(one[parent])][ino].(parent := parent)]
                              else all)
    {
      ok, ino := AllocIno();
      if !ok {
        return;
      }
      inodes := inodes[ino := Blank(kind, id, 0, 0)];
      latest := latest[id := ino];
      if kind.Dir? {
        inodes := inodes[ino := inodes[ino].(nlinks := 1)];
        inodes := inodes[parent := Bumped(inodes[parent])];
        inodes := inodes[ino := inodes[ino].(parent := parent)];
      }
    }

    /** Why a step ended as it did.  `fits` says whether its input is within the limits and
        `repeats` whether it leads to a directory met before, and goal is where next_ino has to get to;
        it gives up for no reason but these. */
    ghost predicate Ends(out: Outcome, fits: bool, repeats: bool, goal: nat)
      reads this
    {
      match out
      case Done => fits && !repeats && next == goal
      case Full => next == ninos < goal
      case Unfit => !fits
      case Again => repeats
      case Broken => flaky
    }

    /** Whether a system call on the source fails. */
    method CallFails() returns (fails: bool)
      ensures fails ==> flaky
    {
      fails := *;
      fails := fails && flaky;
    }

    /** How many bytes a read of one block returns when `rest` are left. */
    method Read(rest: nat) returns (n: nat)
      ensures n <= rest && n <= BLKSIZE && (n == 0 <==> rest == 0) && (!flaky ==> n == Min(BLKSIZE, rest))
    {
      n := Min(BLKSIZE, rest);
      if flaky && n > 0 {
        n :| 0 < n <= Min(BLKSIZE, rest);
      }
    }

    /** add_entry (mksfs.c:460-469). */
    method AddEntry(dir: nat, target: nat, name: Name) returns (out: Outcome)
      requires Valid(View()) && Filed() && CanEnter(View(), dir, target) && inodes[dir].kind.Dir? && dir in open && dir in app
      requires |name| <= NAME_MAX
      modifies this
      ensures Filed()
      ensures Ends(out, |old(app[dir])| < LN, false, old(next) + NextCost(|old(app[dir])|)) && !out.Broken?
      ensures out.Done? ==> Enters(old(View()), dir, target, name, View())
    {
      hide Valid, GrowsTo, CanEnter, Enters, Entered, FirstFree, CName, Stored, NextCost;
      ghost var s := View();
      Enterable(s, dir, target);
      Blocks(s, dir);
      StoredReadsBack(name, slot);
      slot := name + [0] + slot[|name| + 1..];
      var raw := slot[..NAME_KEPT];
      out := AppendNew(dir, EntryBlock(target, raw), 0);
      if out.Done? {
        ghost var t := View();
        EnterStep(s, dir, target, name, raw, t);
        inodes := inodes[target := Bumped(inodes[target])];
        made, open := made + [(dir, target)], open - {target};
        IsEntered(t, dir, target, View());
      }
    }

    /** open_file (mksfs.c:547-561). */
    method OpenFile(f: nat, data: seq<Byte>) returns (out: Outcome)
      requires Valid(View()) && Filed() && f in inodes && f in open && inodes[f].kind.File? && Holds(View(), f, [])
      modifies this
      ensures Filed()
      ensures Ends(out, |data| <= LN * BLKSIZE, false, old(next) + FileCost(BlocksFor(|data|)))
      ensures out.Done? ==> Valid(View()) && Grows(old(View()), View()) && Fills(old(View()), f, View()) && Holds(View(), f, data)
    {
      hide Valid, GrowsTo, CanGrow, Grows, Holds, Fills, FirstFree, FileCost, NextCost;
      ghost var s := View();
      NoNeed({});
      var pos, last := 0, BLKSIZE;
      assert data[..0] == [];
      GrowsRefl(s);
      FillsRefl(s, f);
      while true
        invariant 0 <= pos <= |data| && 0 <= last <= BLKSIZE
        invariant last == BLKSIZE ==> pos % BLKSIZE == 0
        invariant last < BLKSIZE && !flaky ==> pos == |data|
        invariant Valid(View()) && Grows(s, View()) && Fills(s, f, View()) && Holds(View(), f, data[..pos])
        invariant next == s.next + FileCost(BlocksFor(pos)) && Filed()
        decreases |data| - pos
      {
        var fails := CallFails();
        if fails {
          return Broken;
        }
        var n := Read(|data| - pos);
        if n == 0 {
          break;
        }
        if last != BLKSIZE {
          return Broken;
        }
        ghost var m := View();
        FileState(m, s, f, data, pos);
        MoreBlocks(pos, pos + n, |data|);
        out := AppendNew(f, Bytes(data[pos..pos + n]), n);
        if !out.Done? {
          return;
        }
        FileStep(s, m, f, data, pos, pos + n, View());
        pos, last := pos + n, n;
      }
      assert data[..pos] == data;
      Held(View(), f, data);
      out := Done;
    }

    /** add_file (mksfs.c:482-490): a file met before gets another entry, not another copy. */
    method AddFile(cur: nat, e: DirEntry, ghost c: DirEntry, ghost src: map<nat, Tree>) returns (out: Outcome)
      requires Valid(View()) && Filed() && InDir(View(), cur) && Known(View(), src)
      requires e.node.Regular? && |e.name| <= NAME_MAX && c.name == e.name && ReadsAs(latest.Keys, e.node, c.node) && Consistent(src, c.node)
      modifies this
      ensures Filed()
      ensures Ends(out, NodeFits(c.node) && |old(app[cur])| < LN, false, old(next) + Need(old(latest).Keys, c.node) + NextCost(|old(app[cur])|))
      ensures out.Done? ==> Added(old(View()), cur, c, View()) && Known(View(), src)
    {
      hide Valid, InDir, Known, Grows, Enters, Added, WithInode, Fills, Filled, Apart, Tallies, CanEnter, Holds, Represents, FirstFree, FileCost, NextCost;
      ghost var s := View();
      IsDir(s, cur);
      var id, target := e.node.id, 0;
      if id in latest {
        target := latest[id];
        FoundFile(s, cur, c, src);
      } else {
        var ok;
        ok, target := NewInode(File, id, 0);
        if !ok {
          return Full;
        }
        NewFileReady(s, File, id, cur);
        ghost var m0 := View();
        out := OpenFile(target, e.node.data);
        if !out.Done? {
          return;
        }
        FileFilled(s, cur, c, m0, target, View());
      }
      ghost var m := View();
      IsDir(m, cur);
      out := AddEntry(cur, target, e.name);
      if out.Done? {
        FileAdded(s, m, cur, c, target, View(), src);
      }
    }

    /** add_link and open_link (mksfs.c:492-497, 563-573). */
    method AddLink(cur: nat, e: DirEntry, ghost src: map<nat, Tree>) returns (out: Outcome)
      requires Valid(View()) && Filed() && InDir(View(), cur) && Known(View(), src)
      requires e.node.Symlink? && |e.name| <= NAME_MAX && Consistent(src, e.node)
      modifies this
      ensures Filed()
      ensures Ends(out, NodeFits(e.node) && |old(app[cur])| < LN, false, old(next) + Need(old(latest).Keys, e.node) + NextCost(|old(app[cur])|))
      ensures out.Done? ==> Added(old(View()), cur, e, View()) && Known(View(), src)
    {
      hide Valid, InDir, Known, Grows, Enters, Added, WithInode, Fills, Filled, Apart, Tallies, CanEnter, Holds, Represents, FirstFree, FileCost, NextCost;
      ghost var s := View();
      IsDir(s, cur);
      var ok, x := NewInode(Link, e.node.id, 0);
      if !ok {
        return Full;
      }
      NewFileReady(s, Link, e.node.id, cur);
      out := OpenLink(x, e.node.target);
      if !out.Done? {
        return;
      }
      ghost var m := View();
      FileFilled(s, cur, e, WithInode(s, Link, e.node.id, 0), x, m);
      IsDir(m, cur);
      out := AddEntry(cur, x, e.name);
      if out.Done? {
        FileAdded(s, m, cur, e, x, View(), src);
      }
    }

    method OpenLink(f: nat, target: seq<Byte>) returns (out: Outcome)
      requires Valid(View()) && Filed() && f in inodes && f in open && inodes[f].kind.Link? && Holds(View(), f, [])
      modifies this
      ensures Filed()
      ensures Ends(out, 0 < |target| < BLKSIZE, false, old(next) + FileCost(1))
      ensures out.Done? ==> Valid(View()) && Grows(old(View()), View()) && Fills(old(View()), f, View()) && Holds(View(), f, target)
    {
      hide Valid, GrowsTo, CanGrow, Grows, Holds, Fills, FirstFree, FileCost, NextCost;
      ghost var s := View();
      NoNeed({});
      Room(s);
      if next >= ninos {
        return Full;
      }
      var fails := CallFails();
      if fails {
        return Broken;
      }
      if |target| == 0 || |target| >= BLKSIZE {
        return Unfit;
      }
      GrowsRefl(s);
      FillsRefl(s, f);
      assert target[..0] == [] && target[0..|target|] == target && target[..|target|] == target;
      FileState(s, s, f, target, 0);
      out := AppendNew(f, Bytes(target), |target|);
      if out.Done? {
        FileStep(s, s, f, target, 0, |target|, View());
      }
    }

    /** add_dir (mksfs.c:471-480): a directory met twice ends the program. */
    method AddDir(cur: nat, e: DirEntry, ghost c: DirEntry, ghost src: map<nat, Tree>) returns (out: Outcome)
      requires Valid(View()) && Filed() && InDir(View(), cur) && Known(View(), src)
      requires e.node.Folder? && |e.name| <= NAME_MAX && c.name == e.name && ReadsAs(latest.Keys, e.node, c.node) && Consistent(src, c.node)
      modifies this
      ensures Filed()
      ensures Ends(out, NodeFits(c.node) && |old(app[cur])| < LN, RepeatsAt(old(latest).Keys, c.node),
                   old(next) + Need(old(latest).Keys, c.node) + NextCost(|old(app[cur])|))
      ensures out.Done? ==> Added(old(View()), cur, c, View()) && Known(View(), src)
      decreases e, 1
    {
      hide Valid, InDir, Known, Grows, Enters, Added, WithInode, Filled, Apart, Tallies, CanEnter, Represents, Lists, FirstFree, FileCost, NextCost,
           NodeFits, Need, RepeatsAt;
      ghost var s := View();
      IsDir(s, cur);
      var x;
      out, x := BuildDir(cur, e, c, src);
      if !out.Done? {
        return;
      }
      ghost var m := View();
      IsDir(m, cur);
      out := AddEntry(cur, x, e.name);
      if out.Done? {
        DirAdded(s, m, cur, c, x, View(), src);
      }
    }

    /** The new directory, before it is entered (mksfs.c:472-478). */
    method BuildDir(cur: nat, e: DirEntry, ghost c: DirEntry, ghost src: map<nat, Tree>) returns (out: Outcome, x: nat)
      requires Valid(View()) && Filed() && InDir(View(), cur) && Known(View(), src)
      requires e.node.Folder? && ReadsAs(latest.Keys, e.node, c.node) && Consistent(src, c.node)
      modifies this
      ensures Filed()
      ensures Ends(out, NodeFits(c.node), RepeatsAt(old(latest).Keys, c.node), old(next) + Need(old(latest).Keys, c.node))
      ensures out.Done? ==>
                && Valid(View()) && Known(View(), src) && x in inodes && x != cur && x in open && inodes[x].parent == cur
                && InDir(View(), cur) && CanEnter(View(), cur, x) && Filled(View(), c.node, x)
                && Grows(old(View()), View()) && Tallies(old(View()), View()) && Apart(old(View()), cur, View())
                && cur in old(app) && app[cur] == old(app[cur]) && open - {x} == old(open)
                && latest.Keys == old(latest).Keys + NodeIds(c.node)
      decreases e, 0
    {
      hide Valid, InDir, Known, Grows, Enters, Added, WithInode, Filled, Apart, Tallies, CanEnter, Represents, Lists, FirstFree, FileCost, NextCost,
           Fits, Repeats, Ids, AllReadAs, AllConsistent;
      ghost var s := View();
      x := 0;
      IsDir(s, cur);
      if e.node.id in latest {
        return Again, x;
      }
      var ok;
      ok, x := NewInode(Dir, e.node.id, cur);
      if !ok {
        return Full, x;
      }
      ghost var m0 := View();
      NewDirReady(s, cur, c, src);
      assert latest.Keys == s.latest.Keys + {e.node.id};
      out := OpenDir(x, e.node.entries, c.node.entries, src);
      if !out.Done? {
        return;
      }
      IsDir(View(), x);
      DirFilled(s, cur, c, m0, x, View());
    }

    /** The body of open_dir's loop (mksfs.c:505-543). */
    method AddOne(cur: nat, e: DirEntry, ghost c: DirEntry, ghost src: map<nat, Tree>) returns (out: Outcome)
      requires Valid(View()) && Filed() && InDir(View(), cur) && Known(View(), src)
      requires EntryReadsAs(latest.Keys, e, c) && (!Skipped(c) ==> Consistent(src, c.node))
      modifies this
      ensures Filed()
      ensures Ends(out, EntryFits(c) && (Skipped(c) || |old(app[cur])| < LN), !Skipped(c) && RepeatsAt(old(latest).Keys, c.node),
                   old(next) + if Skipped(c) then 0 else Need(old(latest).Keys, c.node) + NextCost(|old(app[cur])|))
      ensures out.Done? ==> if Skipped(c) then View() == old(View()) else Added(old(View()), cur, c, View())
      ensures out.Done? ==> Known(View(), src)
      decreases e, 2
    {
      hide Valid, Known, Added, Consistent, FirstFree, Need, NextCost, AllReadAs;
      if Hidden(e) {
        return Done;
      }
      if |e.name| > NAME_MAX {
        return Unfit;
      }
      var fails := CallFails();
      if fails {
        return Broken;
      }
      match e.node {
        case Regular(_, _) => out := AddFile(cur, e, c, src);
        case Symlink(_, _) => out := AddLink(cur, e, src);
        case Folder(_, _) => out := AddDir(cur, e, c, src);
        case Special => out := Done;
      }
    }

    /** open_dir (mksfs.c:499-545).  `canon` is what it reads: a regular file whose number it has met is entered
        without being looked at. */
    method OpenDir(cur: nat, entries: seq<DirEntry>, ghost canon: seq<DirEntry>, ghost src: map<nat, Tree>) returns (out: Outcome)
      requires Valid(View()) && Filed() && InDir(View(), cur) && Known(View(), src) && app[cur] == []
      requires AllReadAs(latest.Keys, entries, canon) && AllConsistent(src, canon)
      modifies this
      ensures Filed()
      ensures Ends(out, Fits(canon), Repeats(old(latest).Keys, canon), old(next) + DirNeed(old(latest).Keys, canon))
      ensures out.Done? ==> Valid(View()) && Grows(old(View()), View()) && open == old(open) && Apart(old(View()), cur, View()) && Tallies(old(View()), View())
      ensures out.Done? ==> InDir(View(), cur) && Lists(View(), cur, canon, app[cur]) && Known(View(), src)
      ensures out.Done? ==> latest.Keys == old(latest).Keys + Ids(canon)
      decreases entries, 1
    {
      hide Listing, Known, Added, Consistent, FirstFree, Repeats, RepeatsAt, EntryFits, Fits, Need, NextCost, DirNeed, Valid, InDir, Filed, EntryReadsAs;
      ghost var s := View();
      var fails := CallFails();
      if fails {
        return Broken;
      }
      StartListing(s, cur, canon, src);
      var i := 0;
      while i < |entries|
        invariant 0 <= i <= |entries| && Listing(s, View(), cur, canon, i, src) && Filed()
      {
        ghost var m := View();
        BeforeEntry(s, m, cur, entries, canon, i, src);
        out := AddOne(cur, entries[i], canon[i], src);
        if !out.Done? {
          GivingUp(s, m, cur, canon, i, src);
          return;
        }
        AfterEntry(s, m, cur, canon, i, View(), src);
        i := i + 1;
      }
      EndListing(s, View(), cur, canon, src);
      out := Done;
    }
  }

  /** What holds of a new directory before it is filled. */
  lemma NewDirReady(s: Fs, cur: nat, e: DirEntry, src: map<nat, Tree>)
    requires Valid(s) && InDir(s, cur) && s.next !in s.inodes && Known(s, src) && e.node.Folder? && Consistent(src, e.node)
    requires Grows(s, WithInode(s, Dir, e.node.id, cur))
    ensures var m, x := WithInode(s, Dir, e.node.id, cur), s.next;
            && InDir(m, cur) && InDir(m, x) && m.inodes[x].parent == cur && Known(m, src) && x !in s.app && x != ROOT && x != cur
            && m.open == s.open + {x} && x !in s.open && m.app == s.app[x := []] && m.latest == s.latest[e.node.id := x] && Tallies(s, m)
    ensures AllConsistent(src, e.node.entries)
  {
    hide Files, Counted, Found, Located, Known, Grows;
    NewDirKnown(s, cur, e, src);
  }

  lemma NewDirKnown(s: Fs, cur: nat, e: DirEntry, src: map<nat, Tree>)
    requires cur in s.inodes && Known(s, src) && e.node.Folder? && Consistent(src, e.node)
    requires Grows(s, WithInode(s, Dir, e.node.id, cur))
    ensures Known(WithInode(s, Dir, e.node.id, cur), src)
  {
    hide Known, Grows;
    KnownGrows(s, WithInode(s, Dir, e.node.id, cur), src, e.node.id);
  }

  /** What holds of it afterwards. */
  lemma DirFilled(s: Fs, cur: nat, e: DirEntry, m0: Fs, x: nat, m: Fs)
    requires x !in s.app && x !in s.open && x != ROOT && x != cur && InDir(s, cur) && InDir(m0, cur) && InDir(m0, x)
    requires m0.inodes[x].parent == cur && m0.open == s.open + {x} && m0.app == s.app[x := []]
    requires Grows(s, m0) && Tallies(s, m0) && Tallies(m0, m) && Grows(m0, m) && m.open == m0.open && Apart(m0, x, m) && InDir(m, x)
    requires e.node.Folder? && Lists(m, x, e.node.entries, m.app[x])
    ensures x in m.inodes && InDir(m, cur) && CanEnter(m, cur, x) && Filled(m, e.node, x) && m.inodes[x].parent == cur
    ensures Grows(s, m) && Tallies(s, m) && Apart(s, cur, m) && m.app[cur] == s.app[cur] && m.open - {x} == s.open
  {
    hide Lists;
    assert Kept(m0, m, cur) && Kept(m0, m, x);
    GrowsTransitive(s, m0, m);
    hide Grows;
  }

  lemma DirAdded(s: Fs, m: Fs, cur: nat, e: DirEntry, x: nat, u: Fs, src: map<nat, Tree>)
    requires InDir(s, cur) && InDir(m, cur) && e.node.Folder? && Consistent(src, e.node) && Known(m, src)
    requires Grows(s, m) && Tallies(s, m) && Apart(s, cur, m) && m.app[cur] == s.app[cur]
    requires x in m.inodes && x != cur && m.inodes[x].parent == cur && Enters(m, cur, x, e.name, u) && Filled(m, e.node, x)
    requires m.open - {x} == s.open && m.latest.Keys == s.latest.Keys + NodeIds(e.node)
    ensures Added(s, cur, e, u) && Known(u, src)
  {
    hide Valid, Known, Filled, Grows, Represents, Apart, SameFile;
    EnteredAdded(s, m, cur, e, x, u);
    KnownGrows(m, u, src, e.node.id);
  }

  lemma NothingListed(s: Fs, cur: nat)
    requires Valid(s) && InDir(s, cur) && s.app[cur] == []
    ensures Ids([]) == {} && DirNeed(s.latest.Keys, []) == 0 && !Repeats(s.latest.Keys, []) && Lists(s, cur, [], s.app[cur])
    ensures Grows(s, s) && Apart(s, cur, s) && Tallies(s, s)
  {
    GrowsRefl(s);
  }

  /** Between s and m the first i entries have been put into directory cur. */
  ghost predicate Listing(s: Fs, m: Fs, cur: nat, entries: seq<DirEntry>, i: int, src: map<nat, Tree>) {
    && 0 <= i <= |entries| && InDir(m, cur) && Known(m, src)
    && Valid(m) && Grows(s, m) && m.open == s.open && Apart(s, cur, m) && Tallies(s, m)
    && Lists(m, cur, entries[..i], m.app[cur])
    && (forall k :: 0 <= k < i ==> EntryFits(entries[k]))
    && m.next == s.next + DirNeed(s.latest.Keys, entries[..i])
    && m.latest.Keys == s.latest.Keys + Ids(entries[..i]) && !Repeats(s.latest.Keys, entries[..i])
  }

  lemma StartListing(s: Fs, cur: nat, entries: seq<DirEntry>, src: map<nat, Tree>)
    requires Valid(s) && InDir(s, cur) && s.app[cur] == [] && Known(s, src)
    ensures Listing(s, s, cur, entries, 0, src)
  {
    NothingListed(s, cur);
    assert entries[..0] == [];
    hide Valid, Grows, Lists, Apart, Tallies, Known, DirNeed, Repeats, Ids;
  }

  lemma BeforeEntry(s: Fs, m: Fs, cur: nat, entries: seq<DirEntry>, canon: seq<DirEntry>, i: nat, src: map<nat, Tree>)
    requires Listing(s, m, cur, canon, i, src) && AllReadAs(s.latest.Keys, entries, canon) && i < |entries| && AllConsistent(src, canon)
    ensures Valid(m) && InDir(m, cur) && cur in m.app && Known(m, src)
    ensures |canon| == |entries| && (!Skipped(canon[i]) ==> Consistent(src, canon[i].node)) && EntryReadsAs(m.latest.Keys, entries[i], canon[i])
  {
    hide Valid, Grows, Lists, Apart, Tallies, Known, DirNeed, Repeats, Ids, Consistent, EntryReadsAs;
    assert canon[i] in canon;
  }

  /** What stops at entry i stops the directory. */
  lemma GivingUp(s: Fs, m: Fs, cur: nat, entries: seq<DirEntry>, i: nat, src: map<nat, Tree>)
    requires Listing(s, m, cur, entries, i, src) && i < |entries|
    ensures var e := entries[i];
            && cur in m.app
            && (!(EntryFits(e) && (Skipped(e) || |m.app[cur]| < LN)) ==> !Fits(entries))
            && (!Skipped(e) && RepeatsAt(m.latest.Keys, e.node) ==> Repeats(s.latest.Keys, entries))
            && m.next + (if Skipped(e) then 0 else Need(m.latest.Keys, e.node) + NextCost(|m.app[cur]|))
               <= s.next + DirNeed(s.latest.Keys, entries)
  {
    hide Valid, Grows, Apart, Tallies, Known, DirNeed, Repeats, RepeatsAt, Ids, Need, NextCost, Fits, EntryFits, Lists;
    RepeatsMore(s.latest.Keys, entries, i);
    NeedMore(s.latest.Keys, entries, i);
    ListsShown(m, cur, entries[..i], m.app[cur]);
    TooMuch(m, cur, entries, i);
    NeedPrefix(s.latest.Keys, entries, i + 1);
    if Repeats(s.latest.Keys, entries[..i + 1]) { RepeatsPrefix(s.latest.Keys, entries, i + 1); }
  }

  lemma AfterEntry(s: Fs, m: Fs, cur: nat, entries: seq<DirEntry>, i: nat, u: Fs, src: map<nat, Tree>)
    requires Listing(s, m, cur, entries, i, src) && i < |entries| && Known(u, src) && EntryFits(entries[i]) && cur in m.app
    requires if Skipped(entries[i]) then u == m else Added(m, cur, entries[i], u) && !RepeatsAt(m.latest.Keys, entries[i].node)
    requires u.next == m.next + if Skipped(entries[i]) then 0 else Need(m.latest.Keys, entries[i].node) + NextCost(|m.app[cur]|)
    ensures Listing(s, u, cur, entries, i + 1, src)
  {
    hide Valid, Grows, Apart, Tallies, Known, DirNeed, Repeats, RepeatsAt, Ids, Need, NextCost, EntryFits, Lists, Added;
    RepeatsMore(s.latest.Keys, entries, i);
    NeedMore(s.latest.Keys, entries, i);
    ListsShown(m, cur, entries[..i], m.app[cur]);
    Listed(s, m, cur, entries, i, u);
  }

  lemma EndListing(s: Fs, m: Fs, cur: nat, entries: seq<DirEntry>, src: map<nat, Tree>)
    requires Listing(s, m, cur, entries, |entries|, src)
    ensures Valid(m) && Grows(s, m) && m.open == s.open && Apart(s, cur, m) && Tallies(s, m)
    ensures InDir(m, cur) && Lists(m, cur, entries, m.app[cur]) && Known(m, src) && Fits(entries)
    ensures m.next == s.next + DirNeed(s.latest.Keys, entries)
    ensures m.latest.Keys == s.latest.Keys + Ids(entries) && !Repeats(s.latest.Keys, entries)
  {
    hide Valid, Grows, Apart, Tallies, Known, DirNeed, Repeats, Ids, EntryFits, Lists, Fits;
    assert entries[..|entries|] == entries;
    AllFits(m, cur, entries);
  }

  /** Entry i has been dealt with. */
  lemma Listed(s: Fs, m: Fs, cur: nat, entries: seq<DirEntry>, i: nat, u: Fs)
    requires i < |entries| && InDir(m, cur) && Grows(s, m) && Apart(s, cur, m) && Tallies(s, m) && m.open == s.open && Valid(m)
    requires Lists(m, cur, entries[..i], m.app[cur])
    requires if Skipped(entries[i]) then u == m else Added(m, cur, entries[i], u)
    ensures InDir(u, cur) && Valid(u) && Grows(s, u) && Apart(s, cur, u) && Tallies(s, u) && u.open == s.open
    ensures Lists(u, cur, entries[..i + 1], u.app[cur])
    ensures u.latest.Keys == m.latest.Keys + (if Skipped(entries[i]) then {} else NodeIds(entries[i].node))
  {
    hide Lists, Valid, EntryAt, Represents;
    assert entries[..i + 1] == entries[..i] + [entries[i]];
    if Skipped(entries[i]) {
      ListsSkip(m, cur, entries[..i], entries[i], m.app[cur]);
    } else {
      assert Kept(m, u, cur);
      ListsMore(m, cur, entries[..i], entries[i], u);
      GrowsTransitive(s, m, u);
      hide Grows;
    }
  }

  /** If entry i does not fit, or comes after LN others, the directory does not fit. */
  lemma TooMuch(m: Fs, cur: nat, entries: seq<DirEntry>, i: nat)
    requires i < |entries| && InDir(m, cur) && Lists(m, cur, entries[..i], m.app[cur])
    ensures !(EntryFits(entries[i]) && (Skipped(entries[i]) || |m.app[cur]| < LN)) ==> !Fits(entries)
  {
    ListsShown(m, cur, entries[..i], m.app[cur]);
    assert entries[..i + 1][..i] == entries[..i];
    ShownPrefix(entries, i + 1);
    hide Lists, Shown;
    assert !EntryFits(entries[i]) ==> !Fits(entries);
  }

  lemma AllFits(s: Fs, cur: nat, entries: seq<DirEntry>)
    requires Valid(s) && InDir(s, cur) && Lists(s, cur, entries, s.app[cur])
    requires forall k :: 0 <= k < |entries| ==> EntryFits(entries[k])
    ensures Fits(entries)
  {
    ListsShown(s, cur, entries, s.app[cur]);
    Blocks(s, cur);
    hide Lists, Valid;
  }

  /** cur is a directory being filled. */
  predicate InDir(s: Fs, cur: nat) {
    cur in s.inodes && cur in s.app && s.inodes[cur].kind.Dir? && cur in s.open
  }

  lemma IsDir(s: Fs, cur: nat)
    requires InDir(s, cur)
    ensures cur in s.inodes && cur in s.app && s.inodes[cur].kind.Dir? && cur in s.open
  {
  }

  lemma Room(s: Fs)
    requires Valid(s)
    ensures s.next <= s.ninos
  {
  }

  /** A regular file met before is there, finished. */
  lemma FoundFile(s: Fs, cur: nat, e: DirEntry, src: map<nat, Tree>)
    requires Valid(s) && InDir(s, cur) && Known(s, src) && e.node.Regular? && Consistent(src, e.node) && e.node.id in s.latest
    ensures var f := s.latest[e.node.id];
            f in s.inodes && f != cur && CanEnter(s, cur, f) && Filled(s, e.node, f) && f !in s.open && s.inodes[f].kind.File?
    ensures NodeFits(e.node) && Grows(s, s) && Tallies(s, s) && Apart(s, cur, s)
  {
    hide Valid, Grows, Known, Represents, Filled, Holds;
    GrowsRefl(s);
    FoundIs(s, e.node, src);
    var f := s.latest[e.node.id];
    RegularHeld(s, e.node, f);
    Held(s, f, e.node.data);
    RootIsDir(s);
  }

  lemma FoundIs(s: Fs, t: Tree, src: map<nat, Tree>)
    requires Known(s, src) && t.Regular? && Consistent(src, t) && t.id in s.latest
    ensures Represents(s, t, s.latest[t.id])
  {
    hide Represents;
  }

  lemma RegularHeld(s: Fs, t: Tree, f: nat)
    requires t.Regular? && Represents(s, t, f)
    ensures Filled(s, t, f) && Holds(s, f, t.data) && f !in s.open && f in s.inodes && s.inodes[f].kind.File?
  {
    hide Holds;
  }

  lemma RootIsDir(s: Fs)
    requires Valid(s)
    ensures ROOT in s.inodes && s.inodes[ROOT].kind.Dir?
  {
    hide Files, Counted, Found, Owned;
  }

  /** What holds of a new file or link before it is filled. */
  lemma NewFileReady(s: Fs, kind: Kind, id: nat, cur: nat)
    requires Valid(s) && InDir(s, cur) && !kind.Dir? && s.next !in s.inodes
    ensures var m, x := WithInode(s, kind, id, 0), s.next;
            && InDir(m, cur) && x in m.inodes && m.inodes[x].kind == kind && x in m.open && Holds(m, x, []) && x !in s.open && x != cur
            && m.open == s.open + {x} && m.latest == s.latest[id := x] && m.app == s.app[x := []] && x !in s.app && x != ROOT && Tallies(s, m)
  {
    hide Files, Counted, Found, Located;
  }

  /** What holds of it afterwards. */
  lemma FileFilled(s: Fs, cur: nat, e: DirEntry, m0: Fs, x: nat, m: Fs)
    requires x !in s.app && x != ROOT && x != cur && x in m0.inodes && InDir(s, cur) && InDir(m0, cur)
    requires Grows(s, m0) && Tallies(s, m0) && Grows(m0, m) && Fills(m0, x, m) && (e.node.Regular? || e.node.Symlink?)
    requires m0.open == s.open + {x} && m0.latest == s.latest[e.node.id := x] && m0.app == s.app[x := []]
    requires m0.inodes[x].kind == (if e.node.Regular? then File else Link)
    requires Holds(m, x, if e.node.Regular? then e.node.data else e.node.target)
    ensures x in m.inodes && InDir(m, cur) && CanEnter(m, cur, x) && Filled(m, e.node, x)
    ensures Grows(s, m) && Tallies(s, m) && Apart(s, cur, m) && m.app[cur] == s.app[cur] && m.open == s.open + {x} && m.latest == s.latest[e.node.id := x]
  {
    hide Grows, Holds, Lists;
    GrowsTransitive(s, m0, m);
  }

  /** A file or link that has been filled and entered. */
  lemma FileAdded(s: Fs, m: Fs, cur: nat, e: DirEntry, x: nat, u: Fs, src: map<nat, Tree>)
    requires InDir(s, cur) && InDir(m, cur) && (e.node.Regular? || e.node.Symlink?) && Consistent(src, e.node) && Known(s, src)
    requires Grows(s, m) && Tallies(s, m) && Apart(s, cur, m) && m.app[cur] == s.app[cur]
    requires x in m.inodes && x != cur && Enters(m, cur, x, e.name, u) && Filled(m, e.node, x)
    requires m.open - {x} == s.open && m.latest == s.latest[e.node.id := x]
    ensures Added(s, cur, e, u) && Known(u, src)
  {
    hide Valid, Known, Filled, Grows, Represents, Apart, SameFile;
    EnteredAdded(s, m, cur, e, x, u);
    assert u.image[u.app[cur][|s.app[cur]|]].ino == x;
    KnownGrows(s, u, src, e.node.id);
  }

  lemma Blocks(s: Fs, f: nat)
    requires Valid(s) && f in s.inodes
    ensures f in s.app && s.inodes[f].nblks == |s.app[f]| <= LN
  {
    assert FileOk(s, f);
  }

  lemma Enterable(s: Fs, dir: nat, target: nat)
    requires CanEnter(s, dir, target)
    ensures dir in s.inodes && target in s.inodes && dir != target
  {
  }

  lemma IsEntered(t: Fs, dir: nat, target: nat, u: Fs)
    requires target in t.inodes
    requires u == t.(inodes := t.inodes[target := Bumped(t.inodes[target])], made := t.made + [(dir, target)], open := t.open - {target})
    ensures u == Entered(t, dir, target)
  {
  }

  lemma GrowsRefl(s: Fs)
    requires Valid(s)
    ensures Grows(s, s)
  {
    hide Files, Counted, Found, Located, Structured;
  }

  lemma FillsRefl(s: Fs, f: nat)
    requires Valid(s) && f in s.inodes
    ensures Fills(s, f, s)
  {
    hide Files, Counted, Found, Located, Structured;
    assert s.inodes[f := s.inodes[f]] == s.inodes;
    assert s.app[f := s.app[f]] == s.app;
  }

  /** One block more of a file, after full blocks. */
  lemma MoreBlocks(pos: nat, end: nat, size: nat)
    requires pos % BLKSIZE == 0 && pos < end <= size && end <= pos + BLKSIZE
    ensures FileCost(BlocksFor(pos)) + NextCost(BlocksFor(pos)) == FileCost(BlocksFor(end)) <= FileCost(BlocksFor(size))
    ensures LN <= BlocksFor(pos) ==> size > LN * BLKSIZE
  {
    assert BlocksFor(end) == BlocksFor(pos) + 1 <= BlocksFor(size);
    FileCostRises(BlocksFor(end), BlocksFor(size));
    hide FileCost;
  }

  lemma FileState(m: Fs, s: Fs, f: nat, data: seq<Byte>, pos: nat)
    requires Valid(m) && Fills(s, f, m) && pos <= |data| && Holds(m, f, data[..pos])
    ensures f in m.inodes && m.inodes[f].size == pos && m.inodes[f].kind == s.inodes[f].kind && m.open == s.open
    ensures |m.app[f]| == m.inodes[f].nblks == (pos + BLKSIZE - 1) / BLKSIZE
  {
    Blocks(m, f);
  }

  lemma FileStep(s: Fs, m: Fs, f: nat, data: seq<Byte>, pos: nat, end: nat, t: Fs)
    requires Valid(m) && f in m.open && Grows(s, m) && Fills(s, f, m) && !s.inodes[f].kind.Dir?
    requires pos % BLKSIZE == 0 && pos < end <= |data| && end <= pos + BLKSIZE && Holds(m, f, data[..pos])
    requires GrowsTo(m, f, Bytes(data[pos..end]), end - pos, t)
    ensures Grows(s, t) && Fills(s, f, t) && Holds(t, f, data[..end])
  {
    assert m.next !in m.image && Space(m) && Allocated(m);
    hide Valid, Grows, GrowsTo, Holds, Allocated, Space;
    GrownGrows(m, f, Bytes(data[pos..end]), end - pos, t);
    GrowsTransitive(s, m, t);
    GrownFills(m, f, data[pos..end], end - pos, t);
    FillsTransitive(s, f, m, t);
    HoldsMore(m, f, data, pos, end, t);
  }

  /** What a file holds is within the limit. */
  lemma Held(s: Fs, f: nat, data: seq<Byte>)
    requires Valid(s) && Holds(s, f, data)
    ensures |data| <= LN * BLKSIZE
  {
    Blocks(s, f);
  }

  lemma IsWithInode(s: Fs, kind: Kind, id: nat, parent: nat, t: Fs)
    requires kind.Dir? ==> parent in s.inodes && parent != s.next
    requires t == s.(next := s.next + 1, unused := s.unused - 1, inodes := t.inodes, latest := s.latest[id := s.next],
                     owner := s.owner[s.next := InodeOf], app := s.app[s.next := []], open := s.open + {s.next})
    requires t.inodes == (var all := s.inodes[s.next := Blank(kind, id, 0, 0)];
                          if kind.Dir? then var one := all[s.next := Blank(kind, id, 0, 1)];
                                            one[parent := Bumped(one[parent])][s.next := one[parent := Bumped(one[parent])][s.next].(parent := parent)]
                          else all)
    ensures t == WithInode(s, kind, id, parent)
  {
    assert t.inodes == WithInode(s, kind, id, parent).inodes;
  }

  lemma IsGrown(s: Fs, f: nat, c: Content, grow: nat, t: Fs)
    requires f in s.inodes && f in s.app && Appendable(Resized(s.inodes[f], grow), s.index, s.next + 1)
    requires var x, n := s.next, Resized(s.inodes[f], grow);
             var st := Append(n, s.index, x + 1, x);
             t == s.(next := st.next, unused := s.unused - (st.next - x), inodes := s.inodes[f := n][f := st.n], index := st.index,
                     image := s.image[x := c], owner := Owning(f, n, s.index, x + 1, s.owner[x := BlockOf(f, |s.app[f]|)]),
                     app := s.app[f := s.app[f] + [x]])
    ensures t == Grown(s, f, c, grow)
  {
    hide Append, Appendable, Owning;
    assert t.inodes == Grown(s, f, c, grow).inodes;
  }

  lemma GrownBy(s: Fs, f: nat, c: Content, grow: nat)
    requires f in s.inodes && f in s.app && Appendable(Resized(s.inodes[f], grow), s.index, s.next + 1)
    ensures Grown(s, f, c, grow).next == Append(Resized(s.inodes[f], grow), s.index, s.next + 1, s.next).next
  {
    hide Append, Appendable, Owning;
  }

  /** What AppendNew needs to know before it starts. */
  lemma Prepared(s: Fs, f: nat, c: Content, grow: nat)
    requires Valid(s) && f in s.inodes
    requires !s.inodes[f].kind.Dir? ==> s.inodes[f].size % BLKSIZE == 0 && 0 < grow <= BLKSIZE
    ensures f in s.app && s.inodes[f].nblks == |s.app[f]| && NextCost(|s.app[f]|) > 0
    ensures f in s.app && s.next <= s.ninos && s.next !in s.image && Resized(s.inodes[f], grow).nblks == s.inodes[f].nblks
    ensures s.inodes[f].nblks < LN ==>
              && CanGrow(s, f, grow)
              && Appendable(Resized(s.inodes[f], grow), s.index, s.next + 1) && CacheNames(Resized(s.inodes[f], grow), s.index)
              && GrowsTo(s, f, c, grow, Grown(s, f, c, grow))
              && Grown(s, f, c, grow).next == s.next + NextCost(|s.app[f]|)
              && Append(Resized(s.inodes[f], grow), s.index, s.next + 1, s.next).next == s.next + NextCost(|s.app[f]|)
              && (Grown(s, f, c, grow).next <= s.ninos ==> Valid(Grown(s, f, c, grow)))
  {
    assert FileOk(s, f);
    FileCostRises(|s.app[f]|, |s.app[f]| + 1);
    hide Files, FileOk, Counted, Structured, Found, Located, Append, Appendable, CacheNames, Owning, GrowsTo, Grown, FileCost;
    if s.inodes[f].nblks < LN {
      GrownValid(s, f, c, grow);
      GrownNext(s, f, c, grow);
      GrownBy(s, f, c, grow);
    }
  }

  /** A search would miss index blocks: block 3, say, is filed in chain 0 and looked for in chain
      874. */
  lemma SearchWouldMiss()
    ensures Hash32(0) == 0 && Hash32(3) == 874
  {
  }
}
