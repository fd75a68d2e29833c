/** The state of an SFS image under construction (ucore/src/ht-mksfs/mksfs.c), as a value, and
    what every step of the builder keeps true of it. */
module SfsState {
  import opened Basics
  import opened SfsIndex

  /** File names are C strings: no byte of them is zero. */
  type NameByte = b: Byte | b != 0 witness 1
  type Name = seq<NameByte>

  const ROOT: nat := 1
  const FREEMAP: nat := 2
  const BLKBITS: nat := 32768
  const NAME_KEPT: nat := 252    // 256 bytes written, of which four are the inode number

  // ---------------------------------------------------------------- source trees

  /** A source directory tree.  `id` is the st_ino of the source file system. */
  datatype Tree =
    | Regular(id: nat, data: seq<Byte>)
    | Symlink(id: nat, target: seq<Byte>)
    | Folder(id: nat, entries: seq<DirEntry>)
    | Special

  datatype DirEntry = DirEntry(name: Name, node: Tree)

  /** Entries the builder passes over: hidden names, and anything but files, links and
      directories (mksfs.c:508-513, 532-540). */
  predicate Skipped(e: DirEntry) {
    Hidden(e) || e.node.Special?
  }

  predicate Hidden(e: DirEntry) { |e.name| > 0 && e.name[0] == 46 }

  /** What an entry block holds of a name. */
  function Stored(name: Name): Name {
    if |name| <= NAME_KEPT then name else name[..NAME_KEPT]
  }

  /** The C string at the start of raw. */
  function CName(raw: seq<Byte>): seq<Byte> {
    if raw == [] || raw[0] == 0 then [] else [raw[0]] + CName(raw[1..])
  }

  lemma {:induction false} CNameOf(name: Name, rest: seq<Byte>)
    requires rest == [] || rest[0] == 0
    ensures CName(name + rest) == name
  {
    if name == [] {
      assert name + rest == rest;
    } else {
      CNameOf(name[1..], rest);
      assert (name + rest)[1..] == name[1..] + rest;
    }
  }

  /** A name copied over whatever the buffer held before reads back as itself, up to its 252nd
      byte. */
  lemma StoredReadsBack(name: Name, before: seq<Byte>)
    requires |name| < 256 == |before|
    ensures CName((name + [0] + before[|name| + 1..])[..NAME_KEPT]) == Stored(name)
  {
    var slot := name + [0] + before[|name| + 1..];
    if |name| < NAME_KEPT {
      CNameOf(name, slot[|name|..NAME_KEPT]);
      assert slot[..NAME_KEPT] == name + slot[|name|..NAME_KEPT];
    } else {
      CNameOf(Stored(name), []);
      assert slot[..NAME_KEPT] == Stored(name) + [];
    }
  }

  // ---------------------------------------------------------------- states

  /** What is written to a block: file data; a directory entry, with what the entry buffer held
      of the name; and, when the image is closed, the rest. */
  datatype Content =
    | Bytes(data: seq<Byte>)
    | EntryBlock(ino: nat, raw: seq<Byte>)
    | SuperBlock(blocks: nat, unused: int)
    | FreeMap(words: seq<nat>)
    | InodeBlock(n: Inode)
    | IndexBlock(entries: seq<nat>)

  /** The builder's variables, and beside them the history the proofs speak about: who owns each
      block, the blocks appended to each file, the entries made (directory, target), and the
      inodes still being filled. */
  datatype Fs = Fs(start: nat, ninos: nat, next: nat, unused: int,
                   inodes: map<nat, Inode>, latest: map<nat, nat>, index: Index, image: map<nat, Content>,
                   owner: map<nat, Owner>, app: map<nat, seq<nat>>, made: seq<(nat, nat)>, open: set<nat>)

  /** Blocks taken before anything is built: super block, root inode, free map (mksfs.c:248). */
  function FirstFree(ninos: nat): nat {
    FREEMAP + (ninos + BLKBITS - 1) / BLKBITS
  }

  ghost predicate Space(s: Fs) {
    && s.start == FirstFree(s.ninos) && FREEMAP < s.start <= s.next <= s.ninos
    && s.unused == s.ninos - s.next
  }

  /** Every allocated block has exactly one owner: an inode, an index block, or the block at one
      position of one file; and exactly the file blocks have been written. */
  ghost predicate Owned(s: Fs) {
    Allocated(s) && Located(s)
  }

  ghost predicate Allocated(s: Fs) {
    && (forall x :: x in s.owner <==> x == ROOT || s.start <= x < s.next)
    && (forall x :: x in s.inodes <==> x in s.owner && s.owner[x].InodeOf?)
    && (forall x :: x in s.index <==> x in s.owner && s.owner[x].IndexOf?)
    && (forall x :: x in s.image <==> x in s.owner && s.owner[x].BlockOf?)
    && (forall x :: x in s.app <==> x in s.inodes)
  }

  ghost predicate Located(s: Fs) {
    && (forall x :: x in s.owner && s.owner[x].BlockOf? ==> Placed(s, x))
    && (forall x :: x in s.owner && s.owner[x].IndexOf? ==> s.owner[x].f in s.inodes)
    && (forall f, i :: f in s.app && 0 <= i < |s.app[f]| ==> s.app[f][i] in s.owner && s.owner[s.app[f][i]] == BlockOf(f, i))
  }

  predicate Placed(s: Fs, x: nat)
    requires x in s.owner && s.owner[x].BlockOf?
  {
    var o := s.owner[x];
    o.f in s.app && o.i < |s.app[o.f]| && s.app[o.f][o.i] == x
  }

  /** Blocks and size of a file agree; a directory has one block per slot. */
  predicate Sized(n: Inode, len: nat) {
    if n.kind.Dir? then n.slots == len else len == (n.size + BLKSIZE - 1) / BLKSIZE
  }

  ghost predicate FileOk(s: Fs, f: nat)
    requires f in s.inodes && f in s.app
  {
    && Indexed(f, s.inodes[f], s.app[f], s.index, s.owner)
    && Referenced(f, s.inodes[f], s.index, s.owner)
    && Sized(s.inodes[f], |s.app[f]|)
  }

  ghost predicate Files(s: Fs) {
    forall f :: f in s.inodes ==> f in s.app && FileOk(s, f)
  }

  // ---------------------------------------------------------------- links

  /** How many of the entries made name inode i. */
  function Named(made: seq<(nat, nat)>, i: nat): nat {
    if made == [] then 0 else Named(made[..|made| - 1], i) + if made[|made| - 1].1 == i then 1 else 0
  }

  /** The directories whose parent is i; the root is its own. */
  function Kids(inodes: map<nat, Inode>, i: nat): set<nat> {
    set c | c in inodes && inodes[c].kind.Dir? && inodes[c].parent == i
  }

  /** What nlinks counts: the entries naming the inode and, for a directory, itself once and
      every directory inside it. */
  function Links(s: Fs, i: nat): nat
    requires i in s.inodes
  {
    Named(s.made, i) + if s.inodes[i].kind.Dir? then 1 + |Kids(s.inodes, i)| else 0
  }

  const LINK_MAX: nat := 65536   // nlinks is 16 bits wide

  ghost predicate Counted(s: Fs) {
    forall i :: i in s.inodes ==> s.inodes[i].nlinks == Links(s, i) % LINK_MAX
  }

  /** A finished inode is named by some entry, a finished directory by exactly one, one still open
      by none; the root stays open to the end and is its own parent. */
  ghost predicate Structured(s: Fs) {
    && (forall i :: i in s.inodes && s.inodes[i].kind.Dir? ==> Named(s.made, i) == if i in s.open then 0 else 1)
    && (forall i :: i in s.inodes && i !in s.open ==> Named(s.made, i) >= 1)
    && (forall e :: e in s.made ==> e.0 in s.inodes && e.1 in s.inodes)
    && ROOT in s.open && s.open <= s.inodes.Keys
    && ROOT in s.inodes && s.inodes[ROOT].kind.Dir? && s.inodes[ROOT].parent == ROOT
    && (forall c :: c in s.inodes && s.inodes[c].kind.Dir? ==> s.inodes[c].parent in s.inodes)
  }

  /** search_cache_inode finds the inode last allocated for a source file. */
  ghost predicate Found(s: Fs) {
    forall r :: r in s.latest ==> s.latest[r] in s.inodes && s.inodes[s.latest[r]].source == r
  }

  ghost predicate Valid(s: Fs) {
    Space(s) && Owned(s) && Files(s) && Counted(s) && Structured(s) && Found(s)
  }

  // ---------------------------------------------------------------- a fresh image

  function Blank(kind: Kind, id: nat, parent: nat, nlinks: nat): Inode {
    Inode(kind, 0, 0, parent, nlinks, 0, seq<nat>(NDIRECT, i => 0), 0, 0, id, 0, None, None)
  }

  /** create_sfs (mksfs.c:239-271): only the root directory, with "." and ".." to itself. */
  function Fresh(ninos: nat): Fs
    requires FirstFree(ninos) < ninos
  {
    var start := FirstFree(ninos);
    Fs(start, ninos, start, ninos - start, map[ROOT := Blank(Dir, 0, ROOT, 2)], map[0 := ROOT], map[], map[],
       map[ROOT := InodeOf], map[ROOT := []], [], {ROOT})
  }

  lemma FreshValid(ninos: nat)
    requires FirstFree(ninos) < ninos
    ensures Valid(Fresh(ninos))
  {
    var s := Fresh(ninos);
    assert Kids(s.inodes, ROOT) == {ROOT};
    EmptyIndexed(ROOT, s.inodes[ROOT], s.index, s.owner);
  }

  // ---------------------------------------------------------------- a new inode

  function Bumped(n: Inode): Inode { n.(nlinks := (n.nlinks + 1) % LINK_MAX) }

  /** alloc_cache_inode and, for a directory, init_dir_cache_inode (mksfs.c:209-237). */
  function WithInode(s: Fs, kind: Kind, id: nat, parent: nat): Fs
    requires kind.Dir? ==> parent in s.inodes
  {
    var x := s.next;
    var n := if kind.Dir? then Blank(kind, id, parent, 1) else Blank(kind, id, 0, 0);
    var others := if kind.Dir? then s.inodes[parent := Bumped(s.inodes[parent])] else s.inodes;
    s.(next := x + 1, unused := s.unused - 1, inodes := others[x := n], latest := s.latest[id := x],
       owner := s.owner[x := InodeOf], app := s.app[x := []], open := s.open + {x})
  }

  lemma NewAllocated(s: Fs, kind: Kind, id: nat, parent: nat)
    requires Space(s) && Allocated(s) && (kind.Dir? ==> parent in s.inodes)
    ensures Allocated(WithInode(s, kind, id, parent)) && s.next !in s.inodes && s.next !in s.owner
  {
    NextIsUnowned(s);
    NewTables(s, kind, id, parent);
    hide WithInode, Space;
  }

  lemma NextIsUnowned(s: Fs)
    requires Space(s) && Allocated(s)
    ensures s.next !in s.owner && s.next !in s.inodes && s.start <= s.next && s.next != ROOT
  {
  }

  lemma NewTables(s: Fs, kind: Kind, id: nat, parent: nat)
    requires kind.Dir? ==> parent in s.inodes
    ensures var t, x := WithInode(s, kind, id, parent), s.next;
            && t.start == s.start && t.next == s.next + 1 && t.owner == s.owner[x := InodeOf] && t.app == s.app[x := []]
            && t.index == s.index && t.image == s.image && t.inodes.Keys == s.inodes.Keys + {x}
  {
  }

  lemma NewLocated(s: Fs, kind: Kind, id: nat, parent: nat)
    requires Space(s) && Owned(s) && (kind.Dir? ==> parent in s.inodes)
    ensures Located(WithInode(s, kind, id, parent))
  {
    NextIsUnowned(s);
    hide Placed, Space, WithInode, Allocated;
    NewPlaced(s, kind, id, parent);
    NewTables(s, kind, id, parent);
    var t := WithInode(s, kind, id, parent);
    forall f, i | f in t.app && 0 <= i < |t.app[f]| ensures t.app[f][i] in t.owner && t.owner[t.app[f][i]] == BlockOf(f, i) {
      assert f in s.app && s.app[f][i] in s.owner;
    }
  }

  lemma NewPlaced(s: Fs, kind: Kind, id: nat, parent: nat)
    requires Owned(s) && s.next !in s.owner && s.next !in s.inodes && (kind.Dir? ==> parent in s.inodes)
    ensures var t := WithInode(s, kind, id, parent); forall x :: x in t.owner && t.owner[x].BlockOf? ==> Placed(t, x)
  {
    var t := WithInode(s, kind, id, parent);
    forall x | x in t.owner && t.owner[x].BlockOf? ensures Placed(t, x) {
      assert Placed(s, x);
    }
  }

  lemma NewOwned(s: Fs, kind: Kind, id: nat, parent: nat)
    requires Valid(s) && (kind.Dir? ==> parent in s.inodes)
    ensures Owned(WithInode(s, kind, id, parent)) && s.next !in s.inodes && s.next !in s.owner
  {
    hide Files, Counted, Found, Structured;
    NewAllocated(s, kind, id, parent);
    NewLocated(s, kind, id, parent);
    hide Allocated, Located;
  }

  /** The two inodes have the same block index. */
  predicate SameIndex(n: Inode, m: Inode) {
    n.direct == m.direct && n.indirect == m.indirect && n.dbl == m.dbl && n.nblks == m.nblks && n.blocks == m.blocks
    && n.l1 == m.l1 && n.l2 == m.l2
  }

  lemma SameIndexIndexed(f: nat, n: Inode, m: Inode, app: seq<nat>, index: Index, owner: map<nat, Owner>)
    requires SameIndex(n, m) && Indexed(f, n, app, index, owner)
    ensures Indexed(f, m, app, index, owner)
  {
    forall i | 0 <= i < |app| ensures Resolve(m, index, i) == Some(app[i]) {
      assert Resolve(n, index, i) == Some(app[i]);
    }
  }

  lemma SameIndexReferenced(f: nat, n: Inode, m: Inode, index: Index, owner: map<nat, Owner>)
    requires SameIndex(n, m) && Referenced(f, n, index, owner)
    ensures Referenced(f, m, index, owner)
  {
  }

  lemma NewFiles(s: Fs, kind: Kind, id: nat, parent: nat)
    requires Valid(s) && s.next < s.ninos && (kind.Dir? ==> parent in s.inodes)
    ensures Files(WithInode(s, kind, id, parent))
  {
    hide Valid, Indexed, Referenced, Owned, FileOk;
    NewOwned(s, kind, id, parent);
    ValidFiles(s);
    NewFileItself(s, kind, id, parent);
    var t, x := WithInode(s, kind, id, parent), s.next;
    forall f | f in t.inodes ensures f in t.app && FileOk(t, f) {
      if f != x { NewFile(s, kind, id, parent, f); }
    }
  }

  lemma ValidFiles(s: Fs)
    requires Valid(s)
    ensures Owned(s) && Files(s)
  {
  }

  lemma NewFileItself(s: Fs, kind: Kind, id: nat, parent: nat)
    requires Owned(s) && s.next !in s.inodes && (kind.Dir? ==> parent in s.inodes)
    ensures var t := WithInode(s, kind, id, parent); s.next in t.inodes && s.next in t.app && FileOk(t, s.next)
  {
    var t, x := WithInode(s, kind, id, parent), s.next;
    EmptyIndexed(x, t.inodes[x], t.index, t.owner);
    NewReferenced(s, kind, id, parent);
    hide Indexed, Referenced, Owned;
  }

  lemma NewFile(s: Fs, kind: Kind, id: nat, parent: nat, f: nat)
    requires Owned(s) && s.next !in s.owner && (kind.Dir? ==> parent in s.inodes) && f in s.inodes && FileOk(s, f)
    ensures FileOk(WithInode(s, kind, id, parent), f)
  {
    var t := WithInode(s, kind, id, parent);
    hide Indexed, Referenced;
    SameIndexIndexed(f, s.inodes[f], t.inodes[f], s.app[f], s.index, s.owner);
    OtherIndexed(f, t.inodes[f], s.app[f], s.index, s.owner, t.index, t.owner);
    SameIndexReferenced(f, s.inodes[f], t.inodes[f], s.index, s.owner);
    OwnerReferenced(f, t.inodes[f], s.index, s.owner, t.owner);
  }

  lemma OwnerReferenced(f: nat, n: Inode, index: Index, owner: map<nat, Owner>, owner': map<nat, Owner>)
    requires Referenced(f, n, index, owner)
    requires forall b :: b in owner' && owner'[b].IndexOf? ==> b in owner && owner[b] == owner'[b]
    ensures Referenced(f, n, index, owner')
  {
  }

  lemma NewReferenced(s: Fs, kind: Kind, id: nat, parent: nat)
    requires Owned(s) && s.next !in s.inodes && (kind.Dir? ==> parent in s.inodes)
    ensures var t := WithInode(s, kind, id, parent); Referenced(s.next, t.inodes[s.next], t.index, t.owner)
  {
  }

  lemma {:induction false} NamedAbsent(made: seq<(nat, nat)>, i: nat)
    requires forall e :: e in made ==> e.1 != i
    ensures Named(made, i) == 0
  {
    if made != [] {
      assert made[|made| - 1] in made;
      NamedAbsent(made[..|made| - 1], i);
    }
  }

  lemma NewKids(s: Fs, kind: Kind, id: nat, parent: nat, i: nat)
    requires s.next !in s.inodes && (kind.Dir? ==> parent in s.inodes && parent != s.next)
    ensures var t := WithInode(s, kind, id, parent);
            Kids(t.inodes, i) == Kids(s.inodes, i) + (if kind.Dir? && i == parent then {s.next} else {})
    ensures s.next !in Kids(s.inodes, i)
  {
  }

  lemma NewCounted(s: Fs, kind: Kind, id: nat, parent: nat)
    requires Valid(s) && s.next < s.ninos && (kind.Dir? ==> parent in s.inodes && s.inodes[parent].kind.Dir?)
    ensures Counted(WithInode(s, kind, id, parent))
  {
    var t, x := WithInode(s, kind, id, parent), s.next;
    NewOwned(s, kind, id, parent);
    NamedAbsent(s.made, x);
    NoKids(s, x);
    hide Files, Found, Owned, Space, Structured, Kids, Named, Links;
    forall i | i in t.inodes ensures t.inodes[i].nlinks == Links(t, i) % LINK_MAX {
      NewLinks(s, kind, id, parent, i);
    }
  }

  lemma NewStructured(s: Fs, kind: Kind, id: nat, parent: nat)
    requires Structured(s) && Found(s) && s.next !in s.inodes && (kind.Dir? ==> parent in s.inodes && s.inodes[parent].kind.Dir?)
    ensures Structured(WithInode(s, kind, id, parent)) && Found(WithInode(s, kind, id, parent))
  {
    NamedAbsent(s.made, s.next);
    NewFields(s, kind, id, parent);
    hide Named, WithInode;
  }

  /** What a new inode leaves of the tables the links speak about. */
  lemma NewFields(s: Fs, kind: Kind, id: nat, parent: nat)
    requires s.next !in s.inodes && (kind.Dir? ==> parent in s.inodes)
    ensures var t, x := WithInode(s, kind, id, parent), s.next;
            && t.made == s.made && t.open == s.open + {x} && t.latest == s.latest[id := x] && t.inodes.Keys == s.inodes.Keys + {x}
            && t.inodes[x].kind == kind && t.inodes[x].source == id && (kind.Dir? ==> t.inodes[x].parent == parent)
            && (forall i :: i in s.inodes ==>
                  t.inodes[i].kind == s.inodes[i].kind && t.inodes[i].parent == s.inodes[i].parent && t.inodes[i].source == s.inodes[i].source)
  {
  }

  /** A new inode keeps everything. */
  lemma NewValid(s: Fs, kind: Kind, id: nat, parent: nat)
    requires Valid(s) && s.next < s.ninos && (kind.Dir? ==> parent in s.inodes && s.inodes[parent].kind.Dir?)
    ensures Valid(WithInode(s, kind, id, parent)) && s.next !in s.inodes
  {
    hide Files, Owned, Counted, Structured, Found, WithInode, FirstFree;
    NewSpace(s, kind, id, parent);
    NewOwned(s, kind, id, parent);
    NewFiles(s, kind, id, parent);
    NewCounted(s, kind, id, parent);
    NewStructured(s, kind, id, parent);
  }

  lemma NewSpace(s: Fs, kind: Kind, id: nat, parent: nat)
    requires Space(s) && s.next < s.ninos && (kind.Dir? ==> parent in s.inodes)
    ensures Space(WithInode(s, kind, id, parent))
  {
    hide FirstFree;
  }

  lemma NewLinks(s: Fs, kind: Kind, id: nat, parent: nat, i: nat)
    requires s.next !in s.inodes && (kind.Dir? ==> parent in s.inodes && s.inodes[parent].kind.Dir?)
    requires i in s.inodes ==> s.inodes[i].nlinks == Links(s, i) % LINK_MAX
    requires Named(s.made, s.next) == 0 && Kids(s.inodes, s.next) == {}
    requires i in WithInode(s, kind, id, parent).inodes
    ensures WithInode(s, kind, id, parent).inodes[i].nlinks == Links(WithInode(s, kind, id, parent), i) % LINK_MAX
  {
    hide Kids, Named, WithInode;
    var t := WithInode(s, kind, id, parent);
    NewFields(s, kind, id, parent);
    NewNlinks(s, kind, id, parent, i);
    NewKids(s, kind, id, parent, i);
    if kind.Dir? && i == parent {
      assert |Kids(t.inodes, i)| == |Kids(s.inodes, i)| + 1;
      ModBump(Links(s, i));
    }
  }

  lemma NewNlinks(s: Fs, kind: Kind, id: nat, parent: nat, i: nat)
    requires s.next !in s.inodes && (kind.Dir? ==> parent in s.inodes) && i in WithInode(s, kind, id, parent).inodes
    ensures WithInode(s, kind, id, parent).inodes[i].nlinks ==
              if i == s.next then (if kind.Dir? then 1 else 0)
              else if kind.Dir? && i == parent then (s.inodes[i].nlinks + 1) % LINK_MAX
              else s.inodes[i].nlinks
  {
  }

  lemma ModBump(a: nat)
    ensures (a % LINK_MAX + 1) % LINK_MAX == (a + 1) % LINK_MAX
  {
  }

  lemma NoKids(s: Fs, x: nat)
    requires Structured(s) && x !in s.inodes
    ensures Kids(s.inodes, x) == {}
  {
  }

  // ---------------------------------------------------------------- a block appended

  /** append_block_size and append_block_slot (mksfs.c:443-458), before the index is updated. */
  function Resized(n: Inode, grow: nat): Inode {
    if n.kind.Dir? then n.(slots := n.slots + 1) else n.(size := n.size + grow)
  }

  /** A block is allocated, written and appended to file f (mksfs.c:465-467, 553-555, 566-572). */
  function Grown(s: Fs, f: nat, c: Content, grow: nat): Fs
    requires f in s.inodes && f in s.app && Appendable(Resized(s.inodes[f], grow), s.index, s.next + 1)
  {
    var x, n := s.next, Resized(s.inodes[f], grow);
    var st := Append(n, s.index, x + 1, x);
    var owner1 := s.owner[x := BlockOf(f, |s.app[f]|)];
    s.(next := st.next, unused := s.unused - (st.next - x), inodes := s.inodes[f := st.n], index := st.index,
       image := s.image[x := c], owner := Owning(f, n, s.index, x + 1, owner1), app := s.app[f := s.app[f] + [x]])
  }

  /** What may be appended: not past the largest file, and to a file only after full blocks. */
  predicate CanGrow(s: Fs, f: nat, grow: nat) {
    && f in s.inodes && f in s.app && |s.app[f]| < LN
    && (!s.inodes[f].kind.Dir? ==> s.inodes[f].size % BLKSIZE == 0 && 0 < grow <= BLKSIZE)
  }

  /** Everything the index theory says about the file that grows. */
  lemma GrownIndex(s: Fs, f: nat, grow: nat)
    requires Space(s) && Owned(s) && Files(s) && CanGrow(s, f, grow)
    ensures var x, n := s.next, Resized(s.inodes[f], grow);
            var owner1 := s.owner[x := BlockOf(f, |s.app[f]|)];
            && Appendable(n, s.index, x + 1) && CacheNames(n, s.index)
            && var st, owner2 := Append(n, s.index, x + 1, x), Owning(f, n, s.index, x + 1, owner1);
               && Indexed(f, st.n, s.app[f] + [x], st.index, owner2)
               && Referenced(f, st.n, st.index, owner2)
               && Confined(f, st, s.index, x + 1, owner1, owner2)
  {
    var x, n, app := s.next, Resized(s.inodes[f], grow), s.app[f];
    var owner1 := s.owner[x := BlockOf(f, |app|)];
    assert x !in s.owner && 0 !in s.owner && 0 !in s.index;
    assert FileOk(s, f);
    hide Indexed, Referenced, Append, Confined, Owning, Appendable, CacheNames;
    SameIndexIndexed(f, s.inodes[f], n, app, s.index, s.owner);
    OtherIndexed(f, n, app, s.index, s.owner, s.index, owner1);
    SameIndexReferenced(f, s.inodes[f], n, s.index, s.owner);
    OwnerReferenced(f, n, s.index, s.owner, owner1);
    AppendIndexed(f, n, app, s.index, owner1, x + 1, x);
    AppendConfined(f, n, app, s.index, owner1, x + 1, x);
    AppendReferenced(f, n, app, s.index, owner1, x + 1, x);
  }

  lemma OtherReferenced(g: nat, n: Inode, app: seq<nat>, index: Index, owner: map<nat, Owner>, index': Index, owner': map<nat, Owner>)
    requires Indexed(g, n, app, index, owner) && Referenced(g, n, index, owner) && 0 !in index && 0 !in owner
    requires forall b :: b in owner' && owner'[b].IndexOf? && owner'[b].f == g ==> b in owner && owner[b] == owner'[b]
    requires forall b :: b in index && b in owner && owner[b].IndexOf? && owner[b].f == g ==> b in index' && index'[b] == index[b]
    ensures Referenced(g, n, index', owner')
  {
    forall b | b in owner' && owner'[b].IndexOf? && owner'[b].f == g
      ensures Refers(n, index', owner'[b].level, owner'[b].k) == Some(b)
    {
      assert Refers(n, index, owner[b].level, owner[b].k) == Some(b);
    }
  }

  /** Appending changes nothing but the block index of the inode. */
  lemma AppendKeeps(n: Inode, index: Index, next: nat, x: nat)
    requires Appendable(n, index, next)
    ensures SameBut(n, Append(n, index, next, x).n)
  {
  }

  predicate SameBut(n: Inode, m: Inode) {
    m.kind == n.kind && m.size == n.size && m.slots == n.slots && m.parent == n.parent
    && m.nlinks == n.nlinks && m.source == n.source
  }

  /** How t differs from s when f has grown by one block. */
  ghost predicate GrowsTo(s: Fs, f: nat, c: Content, grow: nat, t: Fs) {
    && FieldsGrow(s, f, c, grow, t) && s.next < t.next
    && OwnersGrow(s, f, t) && IndexGrows(s, f, t)
    && Indexed(f, t.inodes[f], t.app[f], t.index, t.owner) && Referenced(f, t.inodes[f], t.index, t.owner)
  }

  ghost predicate OwnersGrow(s: Fs, f: nat, t: Fs) {
    && f in s.app
    && (forall b :: b in t.owner <==> b in s.owner || s.next <= b < t.next)
    && (forall b :: b in s.owner ==> t.owner[b] == s.owner[b])
    && s.next in t.owner && t.owner[s.next] == BlockOf(f, |s.app[f]|)
    && (forall b :: s.next < b < t.next ==> t.owner[b].IndexOf? && t.owner[b].f == f)
  }

  ghost predicate IndexGrows(s: Fs, f: nat, t: Fs) {
    && (forall b :: b in t.index <==> b in s.index || s.next < b < t.next)
    && (forall b :: b in s.index && b in s.owner && !(s.owner[b].IndexOf? && s.owner[b].f == f) ==> t.index[b] == s.index[b])
  }

  lemma GrowthConfined(s: Fs, f: nat, t: Fs, st: Step)
    requires f in s.app && s.next !in s.owner && s.next !in s.index
    requires t.index == st.index && t.next == st.next
    requires Confined(f, st, s.index, s.next + 1, s.owner[s.next := BlockOf(f, |s.app[f]|)], t.owner)
    ensures s.next < t.next && OwnersGrow(s, f, t) && IndexGrows(s, f, t)
  {
    var owner1 := s.owner[s.next := BlockOf(f, |s.app[f]|)];
    assert forall b :: b in s.owner ==> owner1[b] == s.owner[b];
  }

  ghost predicate FieldsGrow(s: Fs, f: nat, c: Content, grow: nat, t: Fs) {
    && f in s.inodes && f in s.app && f in t.inodes
    && t == s.(next := t.next, unused := t.unused, inodes := t.inodes, index := t.index, image := t.image, owner := t.owner, app := t.app)
    && t.unused == s.unused - (t.next - s.next)
    && t.inodes == s.inodes[f := t.inodes[f]] && SameBut(Resized(s.inodes[f], grow), t.inodes[f])
    && t.app == s.app[f := s.app[f] + [s.next]] && t.image == s.image[s.next := c]
  }

  lemma GrownFields(s: Fs, f: nat, c: Content, grow: nat)
    requires f in s.inodes && f in s.app && Appendable(Resized(s.inodes[f], grow), s.index, s.next + 1)
    ensures FieldsGrow(s, f, c, grow, Grown(s, f, c, grow))
  {
    AppendKeeps(Resized(s.inodes[f], grow), s.index, s.next + 1, s.next);
    hide Append, Owning, Appendable;
  }

  lemma NextIsFree(s: Fs)
    requires Space(s) && Owned(s)
    ensures s.next !in s.owner && s.next !in s.index
  {
  }

  lemma CanGrowIn(s: Fs, f: nat, grow: nat)
    requires CanGrow(s, f, grow)
    ensures f in s.inodes && f in s.app
  {
  }

  lemma GrownIs(s: Fs, f: nat, c: Content, grow: nat)
    requires Space(s) && Owned(s) && Files(s) && CanGrow(s, f, grow)
    ensures Appendable(Resized(s.inodes[f], grow), s.index, s.next + 1) && CacheNames(Resized(s.inodes[f], grow), s.index)
    ensures GrowsTo(s, f, c, grow, Grown(s, f, c, grow))
  {
    hide Append, Owning, Indexed, Referenced, Appendable, CacheNames, Files, Owned, Space, Confined, OwnersGrow, IndexGrows, FieldsGrow, CanGrow, Resized;
    CanGrowIn(s, f, grow);
    NextIsFree(s);
    GrownIndex(s, f, grow);
    GrownFields(s, f, c, grow);
    var n := Resized(s.inodes[f], grow);
    GrowthConfined(s, f, Grown(s, f, c, grow), Append(n, s.index, s.next + 1, s.next));
  }

  lemma GrownAllocated(s: Fs, f: nat, c: Content, grow: nat, t: Fs)
    requires Space(s) && Allocated(s) && GrowsTo(s, f, c, grow, t)
    ensures Allocated(t)
  {
    hide Indexed, Referenced;
  }

  lemma GrownLocated(s: Fs, f: nat, c: Content, grow: nat, t: Fs)
    requires Space(s) && Owned(s) && GrowsTo(s, f, c, grow, t)
    ensures Located(t)
  {
    hide Indexed, Referenced;
    assert s.next !in s.owner;
    forall y | y in t.owner && t.owner[y].BlockOf? ensures Placed(t, y) {
      if y != s.next { assert Placed(s, y); }
    }
    forall g, i | g in t.app && 0 <= i < |t.app[g]| ensures t.app[g][i] in t.owner && t.owner[t.app[g][i]] == BlockOf(g, i) {
      if g in s.app && i < |s.app[g]| { assert s.app[g][i] in s.owner; }
    }
  }

  lemma GrownSize(n: Inode, len: nat, grow: nat)
    requires Sized(n, len) && (!n.kind.Dir? ==> n.size % BLKSIZE == 0 && 0 < grow <= BLKSIZE)
    ensures Sized(Resized(n, grow), len + 1)
  {
  }

  lemma GrownOther(s: Fs, f: nat, c: Content, grow: nat, t: Fs, g: nat)
    requires Space(s) && Allocated(s) && GrowsTo(s, f, c, grow, t) && g in s.inodes && g in s.app && FileOk(s, g) && g != f
    ensures g in t.inodes && g in t.app && FileOk(t, g)
  {
    assert s.next !in s.owner && 0 !in s.owner && 0 !in s.index;
    hide Indexed, Referenced, Allocated, Space;
    OtherIndexed(g, s.inodes[g], s.app[g], s.index, s.owner, t.index, t.owner);
    OtherReferenced(g, s.inodes[g], s.app[g], s.index, s.owner, t.index, t.owner);
  }

  lemma GrownFiles(s: Fs, f: nat, c: Content, grow: nat, t: Fs)
    requires Space(s) && Allocated(s) && Files(s) && CanGrow(s, f, grow) && GrowsTo(s, f, c, grow, t)
    ensures Files(t)
  {
    assert FileOk(s, f);
    GrownSize(s.inodes[f], |s.app[f]|, grow);
    hide Indexed, Referenced, Allocated, Space;
    forall g | g in t.inodes ensures g in t.app && FileOk(t, g) {
      if g != f { GrownOther(s, f, c, grow, t, g); }
    }
  }

  lemma KidsSame(inodes: map<nat, Inode>, inodes': map<nat, Inode>, i: nat)
    requires inodes'.Keys == inodes.Keys
    requires forall c :: c in inodes ==> inodes'[c].kind == inodes[c].kind && inodes'[c].parent == inodes[c].parent
    ensures Kids(inodes', i) == Kids(inodes, i)
  {
  }

  lemma GrownCounted(s: Fs, f: nat, c: Content, grow: nat, t: Fs)
    requires Counted(s) && GrowsTo(s, f, c, grow, t)
    ensures Counted(t)
  {
    hide Indexed, Referenced, OwnersGrow, IndexGrows, Named, Kids;
    assert t.inodes.Keys == s.inodes.Keys;
    forall i | i in t.inodes ensures t.inodes[i].nlinks == Links(t, i) % LINK_MAX {
      KidsSame(s.inodes, t.inodes, i);
      assert s.inodes[i].nlinks == Links(s, i) % LINK_MAX;
    }
  }

  lemma GrownStructured(s: Fs, f: nat, c: Content, grow: nat, t: Fs)
    requires Structured(s) && Found(s) && GrowsTo(s, f, c, grow, t)
    ensures Structured(t) && Found(t)
  {
    hide Indexed, Referenced, OwnersGrow, IndexGrows, Named;
    assert t.inodes.Keys == s.inodes.Keys;
  }

  /** How many blocks appending one more takes, with those of the index. */
  function NextCost(len: nat): nat {
    FileCostRises(len, len + 1);
    FileCost(len + 1) - FileCost(len)
  }

  lemma GrownNext(s: Fs, f: nat, c: Content, grow: nat)
    requires Space(s) && Owned(s) && Files(s) && CanGrow(s, f, grow) && Appendable(Resized(s.inodes[f], grow), s.index, s.next + 1)
    ensures Grown(s, f, c, grow).next == s.next + NextCost(|s.app[f]|)
  {
    hide Files, Append, Owning, Appendable, Shape, Space, Owned, IndexCost, Resized, CanGrow;
    CanGrowIn(s, f, grow);
    BelowLimit(s, f, grow);
    GrownShape(s, f, grow);
    OwnersBelow(s);
    AppendCost(f, Resized(s.inodes[f], grow), |s.app[f]|, s.index, s.owner, s.next + 1, s.next);
  }

  lemma BelowLimit(s: Fs, f: nat, grow: nat)
    requires CanGrow(s, f, grow)
    ensures |s.app[f]| < LN
  {
  }

  lemma GrownShape(s: Fs, f: nat, grow: nat)
    requires Files(s) && f in s.inodes
    ensures f in s.app && Shape(f, Resized(s.inodes[f], grow), |s.app[f]|, s.index, s.owner)
  {
    assert FileOk(s, f);
    hide Files, Referenced, Groups3, Resolve;
  }

  lemma OwnersBelow(s: Fs)
    requires Space(s) && Owned(s)
    ensures forall b :: b in s.owner ==> b < s.next + 1
  {
  }

  /** Appending a block keeps everything, as long as it fits. */
  lemma GrownValid(s: Fs, f: nat, c: Content, grow: nat)
    requires Valid(s) && CanGrow(s, f, grow)
    ensures Appendable(Resized(s.inodes[f], grow), s.index, s.next + 1) && CacheNames(Resized(s.inodes[f], grow), s.index)
    ensures GrowsTo(s, f, c, grow, Grown(s, f, c, grow))
    ensures Grown(s, f, c, grow).next <= s.ninos ==> Valid(Grown(s, f, c, grow))
  {
    hide Append, Owning, Indexed, Referenced, Appendable, Allocated, Located, Files, Counted, Structured, Found, CacheNames, OwnersGrow, IndexGrows, CanGrow, Grown;
    GrownIs(s, f, c, grow);
    var t := Grown(s, f, c, grow);
    GrownAllocated(s, f, c, grow, t);
    GrownLocated(s, f, c, grow, t);
    GrownFiles(s, f, c, grow, t);
    GrownCounted(s, f, c, grow, t);
    GrownStructured(s, f, c, grow, t);
  }

  // ---------------------------------------------------------------- an entry made

  /** add_entry (mksfs.c:460-469), after the block of directory `dir` has been appended: the
      target gains a link and counts as finished. */
  function Entered(s: Fs, dir: nat, target: nat): Fs
    requires target in s.inodes
  {
    s.(inodes := s.inodes[target := Bumped(s.inodes[target])], made := s.made + [(dir, target)], open := s.open - {target})
  }

  lemma NamedMore(made: seq<(nat, nat)>, dir: nat, target: nat, i: nat)
    ensures Named(made + [(dir, target)], i) == Named(made, i) + if target == i then 1 else 0
  {
    assert (made + [(dir, target)])[..|made|] == made;
  }

  /** An entry may name a finished file any number of times, and a directory once. */
  predicate CanEnter(s: Fs, dir: nat, target: nat) {
    && dir in s.inodes && target in s.inodes && target != ROOT && dir != target
    && (s.inodes[target].kind.Dir? ==> target in s.open)
  }

  lemma EnteredOwned(s: Fs, dir: nat, target: nat)
    requires Owned(s) && target in s.inodes
    ensures Owned(Entered(s, dir, target))
  {
    var t := Entered(s, dir, target);
    forall x | x in t.owner && t.owner[x].BlockOf? ensures Placed(t, x) { assert Placed(s, x); }
  }

  lemma EnteredFiles(s: Fs, dir: nat, target: nat)
    requires Files(s) && target in s.inodes
    ensures Files(Entered(s, dir, target))
  {
    var t := Entered(s, dir, target);
    hide Indexed, Referenced;
    forall f | f in t.inodes ensures f in t.app && FileOk(t, f) {
      assert FileOk(s, f);
      SameIndexIndexed(f, s.inodes[f], t.inodes[f], s.app[f], s.index, s.owner);
      SameIndexReferenced(f, s.inodes[f], t.inodes[f], s.index, s.owner);
    }
  }

  lemma EnteredCounted(s: Fs, dir: nat, target: nat)
    requires Counted(s) && CanEnter(s, dir, target)
    ensures Counted(Entered(s, dir, target))
  {
    var t := Entered(s, dir, target);
    hide Kids, Named;
    forall i | i in t.inodes ensures t.inodes[i].nlinks == Links(t, i) % LINK_MAX {
      KidsSame(s.inodes, t.inodes, i);
      NamedMore(s.made, dir, target, i);
      assert s.inodes[i].nlinks == Links(s, i) % LINK_MAX;
      if i == target { ModBump(Links(s, i)); }
    }
  }

  lemma EnteredStructured(s: Fs, dir: nat, target: nat)
    requires Structured(s) && Found(s) && CanEnter(s, dir, target)
    ensures Structured(Entered(s, dir, target)) && Found(Entered(s, dir, target))
  {
    var t := Entered(s, dir, target);
    forall i | i in t.inodes && t.inodes[i].kind.Dir? ensures Named(t.made, i) == if i in t.open then 0 else 1 {
      NamedMore(s.made, dir, target, i);
    }
    forall i | i in t.inodes && i !in t.open ensures Named(t.made, i) >= 1 {
      NamedMore(s.made, dir, target, i);
    }
    hide Named;
  }

  lemma EnteredValid(s: Fs, dir: nat, target: nat)
    requires Valid(s) && CanEnter(s, dir, target)
    ensures Valid(Entered(s, dir, target))
  {
    EnteredOwned(s, dir, target);
    EnteredFiles(s, dir, target);
    EnteredCounted(s, dir, target);
    EnteredStructured(s, dir, target);
    hide Owned, Files, Counted, Structured, Found;
  }
}
