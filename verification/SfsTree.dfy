/** What it means for an image under construction to hold a source tree, and that nothing the
    builder does later disturbs what it has finished. */
module SfsTree {
  import opened Basics
  import opened SfsIndex
  import opened SfsState

  // ---------------------------------------------------------------- representation

  /** The j-th block-sized piece of a file. */
  function Chunk(data: seq<Byte>, j: nat): seq<Byte>
    requires j * BLKSIZE <= |data|
  {
    data[j * BLKSIZE..Min((j + 1) * BLKSIZE, |data|)]
  }

  /** The blocks of file f hold data, and its size says so. */
  predicate Holds(s: Fs, f: nat, data: seq<Byte>) {
    && f in s.inodes && f in s.app && s.inodes[f].size == |data|
    && |s.app[f]| == (|data| + BLKSIZE - 1) / BLKSIZE
    && forall j :: 0 <= j < |s.app[f]| ==> HoldsChunk(s, f, data, j)
  }

  predicate HoldsChunk(s: Fs, f: nat, data: seq<Byte>, j: nat)
    requires f in s.app && j < |s.app[f]|
  {
    j * BLKSIZE <= |data| && s.app[f][j] in s.image && s.image[s.app[f][j]] == Bytes(Chunk(data, j))
  }

  /** Inode ino holds everything of tree t. */
  predicate Filled(s: Fs, t: Tree, ino: nat)
    decreases t, 1
  {
    && ino in s.inodes && ino in s.app
    && match t
       case Regular(_, data) => s.inodes[ino].kind.File? && Holds(s, ino, data)
       case Symlink(_, target) => s.inodes[ino].kind.Link? && Holds(s, ino, target)
       case Folder(_, entries) => s.inodes[ino].kind.Dir? && Lists(s, ino, entries, s.app[ino])
       case Special => false
  }

  /** ... and is finished. */
  predicate Represents(s: Fs, t: Tree, ino: nat)
    decreases t, 2
  {
    ino !in s.open && Filled(s, t, ino)
  }

  /** The blocks of directory dir list the entries, in order, leaving out the skipped ones. */
  predicate Lists(s: Fs, dir: nat, entries: seq<DirEntry>, blocks: seq<nat>)
    decreases entries, 0
  {
    if entries == [] then blocks == []
    else
      var e, init := entries[|entries| - 1], entries[..|entries| - 1];
      if Skipped(e) then Lists(s, dir, init, blocks)
      else
        && blocks != [] && Lists(s, dir, init, blocks[..|blocks| - 1])
        && var b := blocks[|blocks| - 1];
           && EntryAt(s, b, dir, e)
           && Represents(s, e.node, s.image[b].ino)
  }

  /** Block b is the entry for e in directory dir. */
  predicate EntryAt(s: Fs, b: nat, dir: nat, e: DirEntry) {
    && b in s.image && s.image[b].EntryBlock? && |s.image[b].raw| == NAME_KEPT && CName(s.image[b].raw) == Stored(e.name) && s.image[b].ino in s.inodes
    && (e.node.Folder? ==> s.inodes[s.image[b].ino].parent == dir)
  }

  // ---------------------------------------------------------------- growth

  /** Only the number of links may differ. */
  predicate SameFile(n: Inode, m: Inode) {
    m == n.(nlinks := m.nlinks)
  }

  /** How a later state t may differ from s: finished inodes keep everything but their link
      count, open ones only gain blocks, written blocks stay. */
  ghost predicate Grows(s: Fs, t: Fs) {
    && t.start == s.start && t.ninos == s.ninos && s.next <= t.next
    && (forall i :: i in s.inodes ==> Kept(s, t, i))
    && (forall x :: x in s.image ==> x in t.image && t.image[x] == s.image[x])
  }

  ghost predicate Kept(s: Fs, t: Fs, i: nat)
    requires i in s.inodes
  {
    && i in t.inodes && i in s.app && i in t.app
    && (i in t.open ==> i in s.open)
    && if i in s.open then
         && t.inodes[i].kind == s.inodes[i].kind && t.inodes[i].parent == s.inodes[i].parent
         && t.inodes[i].source == s.inodes[i].source && s.app[i] <= t.app[i]
       else SameFile(s.inodes[i], t.inodes[i]) && t.app[i] == s.app[i]
  }

  lemma GrowsTransitive(s: Fs, t: Fs, u: Fs)
    requires Grows(s, t) && Grows(t, u)
    ensures Grows(s, u)
  {
    forall i | i in s.inodes ensures Kept(s, u, i) {
      assert Kept(s, t, i) && Kept(t, u, i);
    }
  }

  lemma HoldsGrows(s: Fs, t: Fs, f: nat, data: seq<Byte>)
    requires Grows(s, t) && f !in s.open && Holds(s, f, data)
    ensures Holds(t, f, data)
  {
    assert Kept(s, t, f);
    forall j | 0 <= j < |t.app[f]| ensures HoldsChunk(t, f, data, j) { assert HoldsChunk(s, f, data, j); }
  }

  /** What has been finished stays as it is. */
  lemma {:induction false} RepresentsGrows(s: Fs, t: Fs, tree: Tree, ino: nat)
    requires Grows(s, t) && Represents(s, tree, ino)
    ensures Represents(t, tree, ino)
    decreases tree, 1
  {
    assert Kept(s, t, ino);
    match tree
    case Regular(_, data) => HoldsGrows(s, t, ino, data);
    case Symlink(_, target) => HoldsGrows(s, t, ino, target);
    case Folder(_, entries) => ListsGrows(s, t, ino, entries, s.app[ino]);
    case Special =>
  }

  lemma {:induction false} ListsGrows(s: Fs, t: Fs, dir: nat, entries: seq<DirEntry>, blocks: seq<nat>)
    requires Grows(s, t) && Lists(s, dir, entries, blocks)
    ensures Lists(t, dir, entries, blocks)
    decreases entries, 0
  {
    if entries != [] {
      var e, init := entries[|entries| - 1], entries[..|entries| - 1];
      if Skipped(e) {
        ListsGrows(s, t, dir, init, blocks);
      } else {
        var b := blocks[|blocks| - 1];
        ListsGrows(s, t, dir, init, blocks[..|blocks| - 1]);
        RepresentsGrows(s, t, e.node, s.image[b].ino);
        assert Kept(s, t, s.image[b].ino);
      }
    }
  }

  // ---------------------------------------------------------------- every step is growth

  lemma NewGrows(s: Fs, kind: Kind, id: nat, parent: nat)
    requires Valid(s) && s.next !in s.inodes && (kind.Dir? ==> parent in s.inodes)
    ensures Grows(s, WithInode(s, kind, id, parent))
  {
    hide Files, Counted, Found, Located, Structured;
    var t := WithInode(s, kind, id, parent);
    forall i | i in s.inodes ensures Kept(s, t, i) { }
  }

  lemma GrownGrows(s: Fs, f: nat, c: Content, grow: nat, t: Fs)
    requires Space(s) && Allocated(s) && GrowsTo(s, f, c, grow, t) && f in s.open
    ensures Grows(s, t)
  {
    hide Indexed, Referenced, OwnersGrow, IndexGrows;
    assert s.next !in s.image;
    forall i | i in s.inodes ensures Kept(s, t, i) { }
  }

  lemma EnteredGrows(s: Fs, dir: nat, target: nat)
    requires Allocated(s) && target in s.inodes
    ensures Grows(s, Entered(s, dir, target))
  {
    var t := Entered(s, dir, target);
    forall i | i in s.inodes ensures Kept(s, t, i) { }
  }

  // ---------------------------------------------------------------- inode numbers of the source

  /** A regular file is the one `src` has for its number; links and directories have other numbers. */
  predicate Consistent(src: map<nat, Tree>, t: Tree)
    decreases t, 1
  {
    match t
    case Regular(id, _) => 0 < id && id in src && src[id] == t
    case Symlink(id, _) => id !in src
    case Folder(id, entries) => id !in src && AllConsistent(src, entries)
    case Special => true
  }

  predicate AllConsistent(src: map<nat, Tree>, entries: seq<DirEntry>)
    decreases entries, 0
  {
    forall e :: e in entries && !Skipped(e) ==> Consistent(src, e.node)
  }

  /** The inode numbers met in a tree. */
  function NodeIds(t: Tree): set<nat>
    decreases t, 1
  {
    match t
    case Regular(id, _) => {id}
    case Symlink(id, _) => {id}
    case Folder(id, entries) => {id} + Ids(entries)
    case Special => {}
  }

  function Ids(entries: seq<DirEntry>): set<nat>
    decreases entries, 0
  {
    if entries == [] then {}
    else
      var e := entries[|entries| - 1];
      Ids(entries[..|entries| - 1]) + if Skipped(e) then {} else NodeIds(e.node)
  }

  /** How the builder reads a tree when it has met the numbers in `seen`: as c, which differs from t only in the
      data of regular files whose numbers have been met, since those are not read again. */
  predicate ReadsAs(seen: set<nat>, t: Tree, c: Tree)
    decreases t, 1
  {
    match t
    case Regular(id, _) => c.Regular? && c.id == id && (id !in seen ==> c == t)
    case Folder(id, entries) => c.Folder? && c.id == id && AllReadAs(seen + {id}, entries, c.entries)
    case _ => c == t
  }

  predicate EntryReadsAs(seen: set<nat>, e: DirEntry, c: DirEntry)
    decreases e, 0
  {
    c.name == e.name && if Skipped(e) then c == e else ReadsAs(seen, e.node, c.node)
  }

  predicate AllReadAs(seen: set<nat>, entries: seq<DirEntry>, canon: seq<DirEntry>)
    decreases entries, 0
  {
    |canon| == |entries| && forall i :: 0 <= i < |entries| ==> EntryReadsAs(seen + Ids(canon[..i]), entries[i], canon[i])
  }

  /** Whether going through the entries in order, with the numbers in `seen` met before, comes to
      a directory whose number has been met. */
  predicate Repeats(seen: set<nat>, entries: seq<DirEntry>)
    decreases entries, 0
  {
    && entries != []
    && var e, init := entries[|entries| - 1], entries[..|entries| - 1];
       Repeats(seen, init) || (!Skipped(e) && RepeatsAt(seen + Ids(init), e.node))
  }

  predicate RepeatsAt(seen: set<nat>, t: Tree)
    decreases t, 1
  {
    t.Folder? && (t.id in seen || Repeats(seen + {t.id}, t.entries))
  }

  lemma RepeatsMore(seen: set<nat>, entries: seq<DirEntry>, i: nat)
    requires i < |entries|
    ensures var e, init := entries[i], entries[..i];
            && Ids(entries[..i + 1]) == Ids(init) + (if Skipped(e) then {} else NodeIds(e.node))
            && (Repeats(seen, entries[..i + 1]) <==> Repeats(seen, init) || (!Skipped(e) && RepeatsAt(seen + Ids(init), e.node)))
  {
    assert entries[..i + 1][..i] == entries[..i];
  }

  lemma {:induction false} RepeatsPrefix(seen: set<nat>, entries: seq<DirEntry>, i: nat)
    requires i <= |entries| && Repeats(seen, entries[..i])
    ensures Repeats(seen, entries)
    decreases |entries| - i
  {
    if i == |entries| {
      assert entries[..i] == entries;
    } else {
      RepeatsMore(seen, entries, i);
      RepeatsPrefix(seen, entries, i + 1);
    }
  }

  /** Every regular file the builder would find again is finished. */
  ghost predicate Known(s: Fs, src: map<nat, Tree>) {
    forall r :: r in s.latest && r in src ==> Represents(s, src[r], s.latest[r])
  }

  lemma KnownGrows(s: Fs, t: Fs, src: map<nat, Tree>, except: nat)
    requires Known(s, src) && Grows(s, t)
    requires forall r :: r in t.latest && r != except ==> r in s.latest && t.latest[r] == s.latest[r]
    requires except in t.latest && except in src ==> Represents(t, src[except], t.latest[except])
    ensures Known(t, src)
  {
    forall r | r in t.latest && r in src ensures Represents(t, src[r], t.latest[r]) {
      if r != except { RepresentsGrows(s, t, src[r], s.latest[r]); }
    }
  }

  // ---------------------------------------------------------------- entries counted

  /** The entry blocks that name inode i. */
  function EntriesFor(image: map<nat, Content>, i: nat): set<nat> {
    set b | b in image && image[b].EntryBlock? && image[b].ino == i
  }

  /** The entries made are the entry blocks written; the other blocks written hold file data. */
  ghost predicate Tallied(s: Fs) {
    && (forall i :: Named(s.made, i) == |EntriesFor(s.image, i)|)
    && (forall b :: b in s.image ==> s.image[b].Bytes? || s.image[b].EntryBlock?)
  }

  ghost predicate Tallies(s: Fs, t: Fs) {
    Tallied(s) ==> Tallied(t)
  }

  lemma DataTallies(s: Fs, data: seq<Byte>, t: Fs)
    requires s.next !in s.image && t.made == s.made && t.image == s.image[s.next := Bytes(data)]
    ensures Tallies(s, t)
  {
    forall i ensures EntriesFor(t.image, i) == EntriesFor(s.image, i) { }
  }

  lemma EntryTallies(s: Fs, dir: nat, target: nat, raw: seq<Byte>, t: Fs)
    requires s.next !in s.image && t.made == s.made + [(dir, target)] && t.image == s.image[s.next := EntryBlock(target, raw)]
    ensures Tallies(s, t)
  {
    if Tallied(s) {
      forall i ensures Named(t.made, i) == |EntriesFor(t.image, i)| {
        NamedMore(s.made, dir, target, i);
        assert Named(s.made, i) == |EntriesFor(s.image, i)|;
        assert EntriesFor(t.image, i) == EntriesFor(s.image, i) + if i == target then {s.next} else {};
      }
    }
  }

  // ---------------------------------------------------------------- an entry made

  /** What add_entry (mksfs.c:460-469) does: directory dir gains one block, the entry for target;
      target gains a link and is finished; nothing else changes. */
  ghost predicate Enters(s: Fs, dir: nat, target: nat, name: Name, u: Fs) {
    && Valid(u) && Grows(s, u)
    && dir in s.app && u.next == s.next + NextCost(|s.app[dir]|) && u.app == s.app[dir := s.app[dir] + [s.next]]
    && s.next in u.image && u.image == s.image[s.next := u.image[s.next]]
    && u.image[s.next].EntryBlock? && u.image[s.next].ino == target && |u.image[s.next].raw| == NAME_KEPT
    && CName(u.image[s.next].raw) == Stored(name)
    && u.open == s.open - {target} && u.made == s.made + [(dir, target)] && u.latest == s.latest
    && u.inodes.Keys == s.inodes.Keys && target in u.inodes && Tallies(s, u)
    && (forall i :: i in s.inodes && i != dir ==> SameFile(s.inodes[i], u.inodes[i]))
  }

  lemma GrownCanEnter(s: Fs, dir: nat, target: nat, c: Content, t: Fs)
    requires CanEnter(s, dir, target) && s.inodes[dir].kind.Dir? && GrowsTo(s, dir, c, 0, t)
    ensures CanEnter(t, dir, target)
  {
    hide Indexed, Referenced, OwnersGrow, IndexGrows;
  }

  lemma EntersFields(s: Fs, dir: nat, target: nat, name: Name, raw: seq<Byte>, t: Fs)
    requires CanEnter(s, dir, target) && s.inodes[dir].kind.Dir? && GrowsTo(s, dir, EntryBlock(target, raw), 0, t)
    requires |raw| == NAME_KEPT && CName(raw) == Stored(name)
    requires target in t.inodes && Valid(Entered(t, dir, target)) && Grows(s, Entered(t, dir, target)) && s.next !in s.image
    requires dir in s.app && t.next == s.next + NextCost(|s.app[dir]|)
    ensures Enters(s, dir, target, name, Entered(t, dir, target))
  {
    hide Indexed, Referenced, OwnersGrow, IndexGrows, Valid, Grows, Tallies, NextCost;
    var u := Entered(t, dir, target);
    EntryTallies(s, dir, target, raw, u);
    assert u.inodes.Keys == s.inodes.Keys;
  }

  lemma NextUnwritten(s: Fs)
    requires Valid(s)
    ensures s.next !in s.image
  {
    hide Files, Counted, Structured, Found, Located;
  }

  lemma EnterStep(s: Fs, dir: nat, target: nat, name: Name, raw: seq<Byte>, t: Fs)
    requires Valid(s) && CanEnter(s, dir, target) && s.inodes[dir].kind.Dir? && dir in s.open
    requires dir in s.app && t.next == s.next + NextCost(|s.app[dir]|)
    requires GrowsTo(s, dir, EntryBlock(target, raw), 0, t) && Valid(t) && |raw| == NAME_KEPT && CName(raw) == Stored(name)
    ensures target in t.inodes && Enters(s, dir, target, name, Entered(t, dir, target))
  {
    hide GrowsTo, Enters, Files, Counted, Structured, Found, Allocated, Located, Grows, Entered, CName, Stored, NextCost;
    var c := EntryBlock(target, raw);
    NextUnwritten(s);
    GrownCanEnter(s, dir, target, c, t);
    GrownGrows(s, dir, c, 0, t);
    EnteredValid(t, dir, target);
    EnteredGrows(t, dir, target);
    GrowsTransitive(s, t, Entered(t, dir, target));
    EntersFields(s, dir, target, name, raw, t);
  }

  lemma HoldsSame(s: Fs, t: Fs, f: nat, data: seq<Byte>)
    requires Grows(s, t) && Holds(s, f, data) && f in t.inodes && SameFile(s.inodes[f], t.inodes[f]) && f in t.app && t.app[f] == s.app[f]
    ensures Holds(t, f, data)
  {
    forall j | 0 <= j < |t.app[f]| ensures HoldsChunk(t, f, data, j) { assert HoldsChunk(s, f, data, j); }
  }

  /** An open inode that has been filled and is left alone stays filled. */
  lemma FilledSame(s: Fs, t: Fs, tree: Tree, ino: nat)
    requires Grows(s, t) && Filled(s, tree, ino)
    requires ino in t.inodes && SameFile(s.inodes[ino], t.inodes[ino]) && ino in t.app && t.app[ino] == s.app[ino]
    ensures Filled(t, tree, ino)
  {
    match tree
    case Regular(_, data) => HoldsSame(s, t, ino, data);
    case Symlink(_, target) => HoldsSame(s, t, ino, target);
    case Folder(_, entries) => ListsGrows(s, t, ino, entries, s.app[ino]);
    case Special =>
  }

  /** No inode of s but cur has gained blocks. */
  ghost predicate Apart(s: Fs, cur: nat, t: Fs) {
    forall i :: i in s.app && i != cur ==> i in t.app && t.app[i] == s.app[i]
  }

  /** Between s and u, entry e has been added to directory cur. */
  ghost predicate Added(s: Fs, cur: nat, e: DirEntry, u: Fs) {
    && Valid(u) && Grows(s, u) && u.open == s.open && Apart(s, cur, u) && Tallies(s, u)
    && u.latest.Keys == s.latest.Keys + NodeIds(e.node)
    && cur in s.app && cur in u.app && |u.app[cur]| == |s.app[cur]| + 1 && s.app[cur] <= u.app[cur]
    && var b := u.app[cur][|s.app[cur]|];
       EntryAt(u, b, cur, e) && Represents(u, e.node, u.image[b].ino)
  }

  /** A filled inode, once entered, is represented. */
  lemma EnteredAdded(s: Fs, m: Fs, cur: nat, e: DirEntry, target: nat, u: Fs)
    requires Grows(s, m) && Apart(s, cur, m) && Tallies(s, m) && cur in s.app && cur in m.app && m.app[cur] == s.app[cur]
    requires Enters(m, cur, target, e.name, u) && target in m.inodes && target != cur && Filled(m, e.node, target)
    requires e.node.Folder? ==> m.inodes[target].parent == cur
    requires u.open == s.open && m.latest.Keys == s.latest.Keys + NodeIds(e.node)
    ensures Added(s, cur, e, u)
  {
    hide Valid;
    GrowsTransitive(s, m, u);
    FilledSame(m, u, e.node, target);
  }

  // ---------------------------------------------------------------- a file filled

  /** Only file f has changed, and only by blocks. */
  ghost predicate Fills(s: Fs, f: nat, t: Fs) {
    && f in s.inodes && f in t.inodes && f in t.app
    && t.made == s.made && t.open == s.open && t.latest == s.latest
    && t.inodes == s.inodes[f := t.inodes[f]] && t.app == s.app[f := t.app[f]]
    && t.inodes[f].kind == s.inodes[f].kind && Tallies(s, t)
  }

  lemma GrownFills(s: Fs, f: nat, data: seq<Byte>, grow: nat, t: Fs)
    requires GrowsTo(s, f, Bytes(data), grow, t) && s.next !in s.image
    ensures Fills(s, f, t)
  {
    hide Indexed, Referenced, OwnersGrow, IndexGrows, Tallies;
    DataTallies(s, data, t);
  }

  lemma FillsTransitive(s: Fs, f: nat, t: Fs, u: Fs)
    requires Fills(s, f, t) && Fills(t, f, u)
    ensures Fills(s, f, u)
  {
    assert s.inodes[f := t.inodes[f]][f := u.inodes[f]] == s.inodes[f := u.inodes[f]];
    assert s.app[f := t.app[f]][f := u.app[f]] == s.app[f := u.app[f]];
  }

  lemma ChunkOfPrefix(data: seq<Byte>, pos: nat, end: nat, j: nat)
    requires pos % BLKSIZE == 0 && (j + 1) * BLKSIZE <= pos <= end <= |data|
    ensures Chunk(data[..pos], j) == Chunk(data[..end], j)
  {
  }

  lemma LastChunk(data: seq<Byte>, pos: nat, end: nat, j: nat)
    requires j * BLKSIZE == pos <= end <= |data| && end <= pos + BLKSIZE
    ensures Chunk(data[..end], j) == data[pos..end]
  {
  }

  /** One more block of a file. */
  lemma HoldsMore(s: Fs, f: nat, data: seq<Byte>, pos: nat, end: nat, t: Fs)
    requires pos % BLKSIZE == 0 && pos < end <= |data| && end <= pos + BLKSIZE
    requires Holds(s, f, data[..pos]) && !s.inodes[f].kind.Dir? && s.next !in s.image
    requires GrowsTo(s, f, Bytes(data[pos..end]), end - pos, t)
    ensures Holds(t, f, data[..end])
  {
    hide Indexed, Referenced, OwnersGrow, IndexGrows;
    var k := |s.app[f]|;
    assert k * BLKSIZE == pos;
    forall j | 0 <= j < |t.app[f]| ensures HoldsChunk(t, f, data[..end], j) {
      if j < k {
        assert HoldsChunk(s, f, data[..pos], j);
        ChunkOfPrefix(data, pos, end, j);
      } else {
        LastChunk(data, pos, end, j);
      }
    }
  }

  // ---------------------------------------------------------------- a directory listed

  lemma ListsMore(s: Fs, cur: nat, entries: seq<DirEntry>, e: DirEntry, u: Fs)
    requires cur in s.app && Lists(s, cur, entries, s.app[cur]) && Added(s, cur, e, u) && !Skipped(e)
    ensures Lists(u, cur, entries + [e], u.app[cur])
  {
    hide Valid, Represents;
    ListsGrows(s, u, cur, entries, s.app[cur]);
    hide Grows;
    assert (entries + [e])[..|entries|] == entries;
    var blocks := u.app[cur];
    assert blocks[..|blocks| - 1] == s.app[cur];
  }

  lemma ListsSkip(s: Fs, cur: nat, entries: seq<DirEntry>, e: DirEntry, blocks: seq<nat>)
    requires Lists(s, cur, entries, blocks) && Skipped(e)
    ensures Lists(s, cur, entries + [e], blocks)
  {
    assert (entries + [e])[..|entries|] == entries;
  }

  // ---------------------------------------------------------------- what fits an image

  const NAME_MAX: nat := 255

  /** How many entries a directory's blocks list. */
  function Shown(entries: seq<DirEntry>): nat {
    if entries == [] then 0
    else Shown(entries[..|entries| - 1]) + if Skipped(entries[|entries| - 1]) then 0 else 1
  }

  lemma {:induction false} ListsShown(s: Fs, cur: nat, entries: seq<DirEntry>, blocks: seq<nat>)
    requires Lists(s, cur, entries, blocks)
    ensures |blocks| == Shown(entries)
  {
    if entries != [] {
      var e, init := entries[|entries| - 1], entries[..|entries| - 1];
      ListsShown(s, cur, init, if Skipped(e) then blocks else blocks[..|blocks| - 1]);
    }
  }

  lemma {:induction false} ShownPrefix(entries: seq<DirEntry>, i: nat)
    requires i <= |entries|
    ensures Shown(entries[..i]) <= Shown(entries)
    decreases |entries| - i
  {
    if i == |entries| {
      assert entries[..i] == entries;
    } else {
      assert entries[..i + 1][..i] == entries[..i];
      ShownPrefix(entries, i + 1);
    }
  }

  /** The limits of the format: names of at most 255 bytes, files of at most 128 MB and directories of at most
      32768 entries, link targets of 1 to 4095 bytes. */
  predicate Fits(entries: seq<DirEntry>)
    decreases entries, 0
  {
    Shown(entries) <= 32768 && forall e :: e in entries ==> EntryFits(e)
  }

  predicate EntryFits(e: DirEntry)
    decreases e, 1
  {
    Hidden(e) || (|e.name| <= 255 && NodeFits(e.node))
  }

  predicate NodeFits(t: Tree)
    decreases t, 0
  {
    match t
    case Regular(_, data) => |data| <= 0x800_0000
    case Symlink(_, target) => 0 < |target| < 4096
    case Folder(_, entries) => Fits(entries)
    case Special => true
  }

  // ---------------------------------------------------------------- how many blocks a tree takes

  function BlocksFor(size: nat): nat { (size + BLKSIZE - 1) / BLKSIZE }

  /** The blocks a node takes, without its entry, when the numbers in `seen` have been met: its
      inode, its contents and their index; nothing for a file met before. */
  function Need(seen: set<nat>, t: Tree): nat
    decreases t, 1
  {
    match t
    case Regular(id, data) => if id in seen then 0 else 1 + FileCost(BlocksFor(|data|))
    case Symlink(_, _) => 1 + FileCost(1)
    case Folder(id, entries) => 1 + NeedAll(seen + {id}, entries) + FileCost(Shown(entries))
    case Special => 0
  }

  function NeedAll(seen: set<nat>, entries: seq<DirEntry>): nat
    decreases entries, 0
  {
    if entries == [] then 0
    else
      var e, init := entries[|entries| - 1], entries[..|entries| - 1];
      NeedAll(seen, init) + if Skipped(e) then 0 else Need(seen + Ids(init), e.node)
  }

  /** The blocks a directory's entries and what they name take. */
  function DirNeed(seen: set<nat>, entries: seq<DirEntry>): nat {
    NeedAll(seen, entries) + FileCost(Shown(entries))
  }

  lemma NeedMore(seen: set<nat>, entries: seq<DirEntry>, i: nat)
    requires i < |entries|
    ensures var e, init := entries[i], entries[..i];
            DirNeed(seen, entries[..i + 1]) == DirNeed(seen, init) + if Skipped(e) then 0 else Need(seen + Ids(init), e.node) + NextCost(Shown(init))
  {
    assert entries[..i + 1][..i] == entries[..i];
  }

  lemma {:induction false} NeedPrefix(seen: set<nat>, entries: seq<DirEntry>, i: nat)
    requires i <= |entries|
    ensures DirNeed(seen, entries[..i]) <= DirNeed(seen, entries)
    decreases |entries| - i
  {
    if i == |entries| {
      assert entries[..i] == entries;
    } else {
      NeedMore(seen, entries, i);
      hide DirNeed;
      NeedPrefix(seen, entries, i + 1);
    }
  }

  lemma NoNeed(seen: set<nat>)
    ensures DirNeed(seen, []) == 0 && FileCost(0) == 0 && FileCost(1) == 1 && NextCost(0) == 1
  {
  }
}
