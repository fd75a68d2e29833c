/** Closing an image (close_sfs) and building one from start to end (create_sfs, create_img). */
module SfsImage {
  import opened Basics
  import opened SfsIndex
  import opened SfsState
  import opened SfsTree
  import opened SfsSource
  import opened SfsDisk
  import opened SfsBuilder

  // ---------------------------------------------------------------- bits

  const BITS: nat := 32

  predicate Bit(w: nat, k: nat)
    decreases k
  {
    if k == 0 then w % 2 == 1 else Bit(w / 2, k - 1)
  }

  /** w | (1 << k). */
  function SetBit(w: nat, k: nat): nat
    decreases k
  {
    if k == 0 then (if w % 2 == 1 then w else w + 1) else w % 2 + 2 * SetBit(w / 2, k - 1)
  }

  function Pow2(n: nat): nat { if n == 0 then 1 else 2 * Pow2(n - 1) }

  lemma {:induction false} SetBitSets(w: nat, k: nat, j: nat)
    ensures Bit(SetBit(w, k), j) <==> j == k || Bit(w, j)
    decreases k
  {
    if k > 0 {
      assert SetBit(w, k) / 2 == SetBit(w / 2, k - 1);
      if j > 0 { SetBitSets(w / 2, k - 1, j - 1); }
    } else if j > 0 {
      assert SetBit(w, k) / 2 == w / 2;
    }
  }

  lemma {:induction false} SetBitBound(w: nat, k: nat, n: nat)
    requires w < Pow2(n) && k < n
    ensures SetBit(w, k) < Pow2(n)
    decreases k
  {
    assert Pow2(n) == 2 * Pow2(n - 1);
    if k > 0 {
      assert w / 2 < Pow2(n - 1);
      SetBitBound(w / 2, k - 1, n - 1);
      assert SetBit(w, k) == 2 * SetBit(w / 2, k - 1) + w % 2;
    } else {
      assert SetBit(w, 0) == 2 * (w / 2) + 1;
    }
  }

  lemma {:induction false} NoBits(k: nat)
    ensures !Bit(0, k)
  {
    if k > 0 { NoBits(k - 1); }
  }

  lemma WordBound()
    ensures Pow2(BITS) == WORD
  {
    assert Pow2(8) == 256;
    assert Pow2(16) == 65536;
    assert Pow2(24) == 16777216;
  }

  predicate BitAt(words: seq<nat>, j: nat) {
    j / BITS < |words| && Bit(words[j / BITS], j % BITS)
  }

  lemma SetBitAt(words: seq<nat>, k: nat, j: nat)
    requires k / BITS < |words|
    ensures var ws: seq<nat> := words[k / BITS := SetBit(words[k / BITS], k % BITS)];
            BitAt(ws, j) <==> j == k || BitAt(words, j)
  {
    SetBitSets(words[k / BITS], k % BITS, j % BITS);
    assert j == BITS * (j / BITS) + j % BITS && k == BITS * (k / BITS) + k % BITS;
  }

  /** The bits of the words are those from start to end. */
  ghost predicate BitsAre(words: seq<nat>, start: nat, end: nat) {
    && |words| == NENTRY
    && (forall w :: 0 <= w < NENTRY ==> words[w] < WORD)
    && (forall j :: 0 <= j < BLKBITS ==> (BitAt(words, j) <==> start <= j < end))
  }

  lemma OneMoreBit(words: seq<nat>, start: nat, j: nat)
    requires BitsAre(words, start, j) && start <= j < BLKBITS
    ensures BitsAre(words[j / BITS := SetBit(words[j / BITS], j % BITS)], start, j + 1)
  {
    var ws: seq<nat> := words[j / BITS := SetBit(words[j / BITS], j % BITS)];
    WordBound();
    SetBitBound(words[j / BITS], j % BITS, BITS);
    forall i | 0 <= i < BLKBITS ensures BitAt(ws, i) <==> start <= i < j + 1 { SetBitAt(words, j, i); }
  }

  /** The inner loop of close_sfs (mksfs.c:346-348), on the zeroed buffer. */
  method FillBits(data: array<nat>, start: nat, end: nat)
    requires data.Length == NENTRY && BitsAre(data[..], start, start) && start <= end <= BLKBITS
    modifies data
    ensures BitsAre(data[..], start, end)
  {
    var j := start;
    while j < end
      invariant start <= j <= end && BitsAre(data[..], start, j)
    {
      OneMoreBit(data[..], start, j);
      ghost var words := data[..];
      data[j / BITS] := SetBit(data[j / BITS], j % BITS);
      assert data[..] == words[j / BITS := SetBit(words[j / BITS], j % BITS)];
      j := j + 1;
    }
  }

  /** One block of the free map (mksfs.c:335-349): the bits of the blocks from i on. */
  method FreeMapBlock(i: nat, next: nat, ninos: nat) returns (words: seq<nat>)
    requires next <= ninos && i < ninos
    ensures |words| == NENTRY && MapsFree(words, i, next, ninos)
  {
    var data := new nat[NENTRY](k => 0);
    forall k ensures !Bit(0, k) { NoBits(k); }
    if i + BLKBITS > next {
      var start: nat, end: nat := 0, BLKBITS;
      if i < next {
        start := next - i;
      }
      if i + BLKBITS > ninos {
        end := ninos - i;
      }
      FillBits(data, start, end);
    } else {
      assert BitsAre(data[..], 0, 0);
    }
    words := data[..];
  }

  /** The words are the free map of the blocks i, i + 1, ...: bit j is set exactly if block i + j
      is free. */
  ghost predicate MapsFree(words: seq<nat>, i: nat, next: nat, ninos: nat) {
    && |words| == NENTRY
    && (forall w :: 0 <= w < NENTRY ==> words[w] < WORD)
    && (forall j :: 0 <= j < BLKBITS ==> (BitAt(words, j) <==> next <= i + j < ninos))
  }

  // ---------------------------------------------------------------- close_sfs

  /** c is the block of the free map with number k. */
  ghost predicate MapBlock(k: nat, c: Content, next: nat, ninos: nat) {
    FREEMAP <= k && c.FreeMap? && MapsFree(c.words, (k - FREEMAP) * BLKBITS, next, ninos)
  }

  function Span(lo: nat, hi: nat): (r: set<nat>)
    ensures forall x :: x in r <==> lo <= x < hi
    decreases hi
  {
    if hi <= lo then {} else Span(lo, hi - 1) + {hi - 1}
  }

  /** A closed image: exactly the blocks below next are written; besides file blocks they are the
      super block, the free map, and every inode and index block. */
  ghost predicate Closed(s: Fs, image: map<nat, Content>) {
    && (forall b: nat :: b in image <==> b < s.next)
    && Written(s, image)
    && 0 in image && image[0] == SuperBlock(s.ninos, s.unused)
    && (forall k :: FREEMAP <= k < s.start ==> k in image && MapBlock(k, image[k], s.next, s.ninos))
  }

  /** Between s.image and image only the blocks in `more` have been written. */
  ghost predicate Extends(before: map<nat, Content>, image: map<nat, Content>, more: set<nat>) {
    && (forall b :: b in image <==> b in before || b in more)
    && (forall b :: b in before ==> image[b] == before[b])
  }

  /** The blocks from lo on have been written to the free map, up to hi. */
  ghost predicate Mapped(before: map<nat, Content>, image: map<nat, Content>, hi: nat, next: nat, ninos: nat) {
    && Extends(before, image, Span(FREEMAP, hi))
    && forall k :: FREEMAP <= k < hi ==> k in image && MapBlock(k, image[k], next, ninos)
  }

  lemma MappedNone(before: map<nat, Content>, next: nat, ninos: nat)
    ensures Mapped(before, before, FREEMAP, next, ninos)
  {
  }

  lemma MappedMore(before: map<nat, Content>, image: map<nat, Content>, hi: nat, next: nat, ninos: nat, words: seq<nat>)
    requires Mapped(before, image, hi, next, ninos) && FREEMAP <= hi && hi !in before
    requires MapsFree(words, (hi - FREEMAP) * BLKBITS, next, ninos)
    ensures hi !in image && Mapped(before, image[hi := FreeMap(words)], hi + 1, next, ninos)
  {
    hide MapsFree;
  }

  /** The outer loop of close_sfs (mksfs.c:334-351). */
  method WriteFreeMap(b: Builder)
    requires b.next <= b.ninos && FirstFree(b.ninos) <= b.ninos && forall x :: x in b.image ==> FirstFree(b.ninos) <= x
    modifies b`image
    ensures Mapped(old(b.image), b.image, FirstFree(b.ninos), b.next, b.ninos)
  {
    hide MapsFree, Mapped;
    ghost var before := b.image;
    MappedNone(before, b.next, b.ninos);
    var i: nat, ino: nat := 0, FREEMAP;
    while i < b.ninos
      invariant FREEMAP <= ino && i == (ino - FREEMAP) * BLKBITS && i < b.ninos + BLKBITS
      invariant Mapped(before, b.image, ino, b.next, b.ninos)
    {
      var words := FreeMapBlock(i, b.next, b.ninos);
      MappedMore(before, b.image, ino, b.next, b.ninos, words);
      b.WriteBlock(ino, FreeMap(words));
      ino, i := ino + 1, i + BLKBITS;
    }
    assert ino == FirstFree(b.ninos);
  }

  /** Where the blocks of a valid state lie. */
  ghost predicate Low(s: Fs) {
    && s.next <= s.ninos && FREEMAP < s.start <= s.next
    && (forall x :: x in s.image || x in s.index ==> s.start <= x < s.next)
    && (forall x :: x in s.inodes ==> x == ROOT || s.start <= x < s.next)
    && (forall x :: x == ROOT || s.start <= x < s.next ==> x in s.image || x in s.index || x in s.inodes)
    && (forall x :: x in s.image ==> x !in s.index && x !in s.inodes)
    && (forall x :: x in s.index ==> x !in s.inodes)
  }

  lemma LowBlocks(s: Fs)
    requires Valid(s)
    ensures Low(s) && Space(s)
  {
    assert ROOT in s.inodes;
    hide Files, Counted, Structured, Found, Located, Allocated, Low;
    AllocatedLow(s);
  }

  lemma AllocatedLow(s: Fs)
    requires Space(s) && Allocated(s) && ROOT in s.inodes
    ensures Low(s)
  {
    forall x | x == ROOT || s.start <= x < s.next ensures x in s.image || x in s.index || x in s.inodes {
      assert x in s.owner;
    }
  }

  /** flush_cache_block on every cached block (mksfs.c:319-322, 355-359). */
  method FlushBlocks(b: Builder)
    requires forall x :: x in b.index ==> x < b.ninos && x !in b.image
    modifies b`image
    ensures Extends(old(b.image), b.image, b.index.Keys)
    ensures forall x :: x in b.index ==> x in b.image && b.image[x] == IndexBlock(b.index[x])
  {
    var todo := b.index.Keys;
    ghost var before := b.image;
    while todo != {}
      invariant todo <= b.index.Keys && Extends(before, b.image, b.index.Keys - todo)
      invariant forall x :: x in b.index && x !in todo ==> x in b.image && b.image[x] == IndexBlock(b.index[x])
      decreases todo
    {
      var x :| x in todo;
      b.WriteBlock(x, IndexBlock(b.index[x]));
      todo := todo - {x};
    }
  }

  /** flush_cache_inode on every cached inode (mksfs.c:324-327, 360-364). */
  method FlushInodes(b: Builder)
    requires forall x :: x in b.inodes ==> x < b.ninos && x !in b.image
    modifies b`image
    ensures Extends(old(b.image), b.image, b.inodes.Keys)
    ensures forall x :: x in b.inodes ==> x in b.image && b.image[x] == InodeBlock(b.inodes[x])
  {
    var todo := b.inodes.Keys;
    ghost var before := b.image;
    while todo != {}
      invariant todo <= b.inodes.Keys && Extends(before, b.image, b.inodes.Keys - todo)
      invariant forall x :: x in b.inodes && x !in todo ==> x in b.image && b.image[x] == InodeBlock(b.inodes[x])
      decreases todo
    {
      var x :| x in todo;
      b.WriteBlock(x, InodeBlock(b.inodes[x]));
      todo := todo - {x};
    }
  }

  /** close_sfs (mksfs.c:329-366).  Every write is to a block not written before. */
  method CloseSfs(b: Builder)
    requires Valid(b.View())
    modifies b`image
    ensures Closed(old(b.View()), b.image)
  {
    hide Valid, MapBlock, Mapped, Closed, FirstFree, Extends;
    ghost var s := b.View();
    LowBlocks(s);
    WriteFreeMap(b);
    ghost var m := b.image;
    BeforeSuper(s, m);
    b.WriteBlock(0, SuperBlock(b.ninos, b.unused));
    FlushBlocks(b);
    ghost var n := b.image;
    BeforeInodes(s, m, n);
    FlushInodes(b);
    IsClosed(s, m, n, b.image);
  }

  lemma BeforeSuper(s: Fs, m: map<nat, Content>)
    requires Low(s) && Mapped(s.image, m, s.start, s.next, s.ninos)
    ensures 0 !in m && 0 < s.ninos && forall x :: x in s.index ==> x < s.ninos && x !in m && x != 0
  {
    hide MapBlock;
  }

  lemma BeforeInodes(s: Fs, m: map<nat, Content>, n: map<nat, Content>)
    requires Low(s) && Mapped(s.image, m, s.start, s.next, s.ninos) && Extends(m[0 := SuperBlock(s.ninos, s.unused)], n, s.index.Keys)
    ensures forall x :: x in s.inodes ==> x < s.ninos && x !in n
  {
    hide MapBlock;
  }

  /** Which blocks have been written in the end, and what to those of the free map. */
  lemma ClosedBlocks(s: Fs, m: map<nat, Content>, n: map<nat, Content>, image: map<nat, Content>)
    requires Low(s) && Mapped(s.image, m, s.start, s.next, s.ninos)
    requires Extends(m[0 := SuperBlock(s.ninos, s.unused)], n, s.index.Keys) && Extends(n, image, s.inodes.Keys)
    ensures forall b: nat :: b in image <==> b < s.next
    ensures forall k :: FREEMAP <= k < s.start ==> MapBlock(k, image[k], s.next, s.ninos)
    ensures forall x :: x in s.image ==> image[x] == s.image[x]
    ensures image[0] == SuperBlock(s.ninos, s.unused)
    ensures forall x :: x in s.index ==> image[x] == n[x]
  {
    hide MapBlock;
    forall b: nat ensures b in image <==> b < s.next {
      assert b == 0 || b == ROOT || FREEMAP <= b;
      assert b in image <==> b in s.image || FREEMAP <= b < s.start || b == 0 || b in s.index || b in s.inodes;
    }
    forall k | FREEMAP <= k < s.start ensures image[k] == m[k] {
      var m0 := m[0 := SuperBlock(s.ninos, s.unused)];
      assert k in m0 && m0[k] == m[k] && n[k] == m0[k];
    }
  }

  lemma IsClosed(s: Fs, m: map<nat, Content>, n: map<nat, Content>, image: map<nat, Content>)
    requires Low(s) && Mapped(s.image, m, s.start, s.next, s.ninos)
    requires Extends(m[0 := SuperBlock(s.ninos, s.unused)], n, s.index.Keys) && Extends(n, image, s.inodes.Keys)
    requires forall x :: x in s.index ==> x in n && n[x] == IndexBlock(s.index[x])
    requires forall x :: x in s.inodes ==> x in image && image[x] == InodeBlock(s.inodes[x])
    ensures Closed(s, image)
  {
    ClosedBlocks(s, m, n, image);
    hide MapBlock, Mapped, Extends;
  }

  // ---------------------------------------------------------------- what a closed image says

  /** The free map's bit for block b. */
  predicate FreeOn(disk: Disk, b: nat) {
    var k := FREEMAP + b / BLKBITS;
    k in disk && |disk[k]| == BLKSIZE && Bit(WordAt(disk[k], b % BLKBITS / BITS), b % BLKBITS % BITS)
  }

  function FreeBlocks(disk: Disk, blocks: nat): set<nat> {
    set b | b in Span(0, blocks) && FreeOn(disk, b)
  }

  /** Exactly the blocks not used are marked free. */
  lemma FreeMapReads(s: Fs, image: map<nat, Content>, b: nat)
    requires Low(s) && s.start == FirstFree(s.ninos) && Closed(s, image) && b < s.ninos
    ensures FreeOn(DiskOf(image), b) <==> s.next <= b
  {
    hide Closed, Low, Bit, WordAt, DiskOf, FirstFree, MapBlock;
    var k, j := FREEMAP + b / BLKBITS, b % BLKBITS;
    MapPlace(b, s.ninos);
    ClosedMap(s, image, k);
    MapBlockReads(k, image[k], s.next, s.ninos, j);
    OnDiskToo(image, k);
  }

  lemma MapPlace(b: nat, ninos: nat)
    requires b < ninos
    ensures FREEMAP + b / BLKBITS < FirstFree(ninos) && b == b / BLKBITS * BLKBITS + b % BLKBITS
  {
  }

  lemma ClosedMap(s: Fs, image: map<nat, Content>, k: nat)
    requires Closed(s, image) && FREEMAP <= k < s.start
    ensures k in image && MapBlock(k, image[k], s.next, s.ninos)
  {
    hide MapBlock, Written;
  }

  lemma MapBlockReads(k: nat, c: Content, next: nat, ninos: nat, j: nat)
    requires MapBlock(k, c, next, ninos) && j < BLKBITS
    ensures Bit(WordAt(Block(c), j / BITS), j % BITS) <==> next <= (k - FREEMAP) * BLKBITS + j < ninos
  {
    var w := c.words;
    MapBits(w, (k - FREEMAP) * BLKBITS, next, ninos, j);
    assert Block(c) == Fit(Words(w));
    hide Words, Fit, WordAt, Block, Bit, MapsFree;
    FitsSmall(w, j / BITS);
  }

  lemma MapBits(words: seq<nat>, i: nat, next: nat, ninos: nat, j: nat)
    requires MapsFree(words, i, next, ninos) && j < BLKBITS
    ensures j / BITS < |words| == NENTRY && words[j / BITS] < WORD
    ensures Bit(words[j / BITS], j % BITS) <==> next <= i + j < ninos
  {
    hide Bit;
    assert BitAt(words, j) <==> next <= i + j < ninos;
  }

  lemma {:induction false} SpanSize(lo: nat, hi: nat)
    requires lo <= hi
    ensures |Span(lo, hi)| == hi - lo
    decreases hi
  {
    if lo < hi { SpanSize(lo, hi - 1); }
  }

  /** ... and there are as many as the super block says. */
  lemma FreeCount(s: Fs, image: map<nat, Content>)
    requires Low(s) && s.start == FirstFree(s.ninos) && Closed(s, image)
    ensures FreeBlocks(DiskOf(image), s.ninos) == Span(s.next, s.ninos)
    ensures |FreeBlocks(DiskOf(image), s.ninos)| == s.ninos - s.next
  {
    hide Closed, Low, FreeOn, DiskOf;
    forall b: nat | b < s.ninos ensures FreeOn(DiskOf(image), b) <==> s.next <= b { FreeMapReads(s, image, b); }
    assert FreeBlocks(DiskOf(image), s.ninos) == Span(s.next, s.ninos);
    assert s.next <= s.ninos by { LowNext(s); }
    SpanSize(s.next, s.ninos);
  }

  lemma LowNext(s: Fs)
    requires Low(s)
    ensures s.next <= s.ninos
  {
  }

  lemma SuperReads(blocks: nat, unused: nat)
    requires blocks < WORD && unused < WORD
    ensures var b := Block(SuperBlock(blocks, unused)); WordAt(b, 0) == 0x2f8dbe2a && WordAt(b, 1) == blocks && WordAt(b, 2) == unused
  {
    var ws := [MAGIC, blocks, unused];
    assert Block(SuperBlock(blocks, unused)) == Fit(Words(ws));
    hide Words, Fit, WordAt, Block;
    FitsSmall(ws, 0);
    FitsSmall(ws, 1);
    FitsSmall(ws, 2);
  }

  // ---------------------------------------------------------------- links

  /** The directories inside directory i; the root counts itself. */
  function SubDirs(image: map<nat, Content>, i: nat): set<nat> {
    set c | c in image && image[c].InodeBlock? && image[c].n.kind.Dir? && image[c].n.parent == i
  }

  /** Link counts: a file's or link's is the number of entries naming it, at least one; a
      directory's is two more than the directories in it.  All modulo 65536. */
  predicate LinksAgree(image: map<nat, Content>, i: nat)
    requires i in image && image[i].InodeBlock?
  {
    var n, named := image[i].n, |EntriesFor(image, i)|;
    if n.kind.Dir? then
      && named == (if i == ROOT then 0 else 1)
      && n.nlinks == (1 + named + |SubDirs(image, i)|) % 65536
    else named >= 1 && n.nlinks == named % 65536
  }

  lemma ClosedKinds(s: Fs, image: map<nat, Content>, b: nat)
    requires Low(s) && Closed(s, image) && Tallied(s) && b in image
    ensures image[b].InodeBlock? <==> b in s.inodes
    ensures image[b].EntryBlock? <==> b in s.image && s.image[b].EntryBlock?
    ensures b in s.inodes ==> image[b] == InodeBlock(s.inodes[b])
    ensures b in s.image ==> image[b] == s.image[b]
  {
    if FREEMAP <= b < s.start { assert MapBlock(b, image[b], s.next, s.ninos); }
    hide MapBlock, EntriesFor;
  }

  lemma ClosedSets(s: Fs, image: map<nat, Content>, i: nat)
    requires Low(s) && Closed(s, image) && Tallied(s)
    ensures EntriesFor(image, i) == EntriesFor(s.image, i) && SubDirs(image, i) == Kids(s.inodes, i)
  {
    assert forall b :: b in s.image || b in s.inodes ==> b in image;
    hide Low, Tallied, Closed;
    forall b | b in image
      ensures image[b].EntryBlock? <==> b in s.image && s.image[b].EntryBlock?
      ensures b in s.image ==> image[b] == s.image[b]
      ensures image[b].InodeBlock? <==> b in s.inodes
      ensures b in s.inodes ==> image[b] == InodeBlock(s.inodes[b])
    {
      ClosedKinds(s, image, b);
    }
  }

  /** When only the root is still open, every link count is right. */
  lemma LinksAreRight(s: Fs, image: map<nat, Content>, i: nat)
    requires Valid(s) && Low(s) && Closed(s, image) && Tallied(s) && s.open == {ROOT} && i in s.inodes
    ensures i in image && image[i] == InodeBlock(s.inodes[i]) && LinksAgree(image, i)
  {
    hide Valid, Closed, Low, Tallied, Named, Kids, EntriesFor, SubDirs;
    LinkFacts(s, i);
    ClosedSets(s, image, i);
    InodeWritten(s, image, i);
    TallyOf(s, i);
  }

  lemma LinkFacts(s: Fs, i: nat)
    requires Valid(s) && i in s.inodes
    ensures s.inodes[i].nlinks == (Named(s.made, i) + if s.inodes[i].kind.Dir? then 1 + |Kids(s.inodes, i)| else 0) % LINK_MAX
    ensures s.inodes[i].kind.Dir? ==> Named(s.made, i) == if i in s.open then 0 else 1
    ensures i !in s.open ==> Named(s.made, i) >= 1
    ensures ROOT in s.inodes && s.inodes[ROOT].kind.Dir?
  {
    hide Owned, Files, Found, Space, Named, Kids;
  }

  lemma InodeWritten(s: Fs, image: map<nat, Content>, i: nat)
    requires Closed(s, image) && i in s.inodes
    ensures i in image && image[i] == InodeBlock(s.inodes[i])
  {
  }

  lemma TallyOf(s: Fs, i: nat)
    requires Tallied(s)
    ensures Named(s.made, i) == |EntriesFor(s.image, i)|
  {
  }

  // ---------------------------------------------------------------- blocks of files

  predicate InodeAt(image: map<nat, Content>, f: nat) {
    f in image && image[f].InodeBlock?
  }

  /** Where a reader finds position i of the file with inode f. */
  function Spot(image: map<nat, Content>, f: nat, i: nat): Option<nat>
    requires f in image
  {
    Locate(DiskOf(image), ReadInode(Block(image[f])), i)
  }

  /** Position i of f is one of its blocks, and it is block b. */
  predicate Holding(image: map<nat, Content>, f: nat, i: nat, b: nat) {
    InodeAt(image, f) && i < image[f].n.blocks && Spot(image, f, i) == Some(b)
  }

  /** b is one of the index blocks of f. */
  predicate Indexing(image: map<nat, Content>, f: nat, b: nat) {
    && InodeAt(image, f)
    && var n := image[f].n;
       n.indirect == b || n.dbl == b || (n.dbl in image && image[n.dbl].IndexBlock? && b in image[n.dbl].entries)
  }

  /** No two positions of files share a block, and no two files an index block. */
  ghost predicate Exclusive(image: map<nat, Content>) {
    && (forall f, i, g, j, b {:trigger Holding(image, f, i, b), Holding(image, g, j, b)} ::
          Holding(image, f, i, b) && Holding(image, g, j, b) ==> f == g && i == j)
    && (forall f, g, b {:trigger Indexing(image, f, b), Indexing(image, g, b)} ::
          b in image && image[b].IndexBlock? && Indexing(image, f, b) && Indexing(image, g, b) ==> f == g)
  }

  /** Every block of data, of a directory or of an index belongs to some file. */
  ghost predicate NoneLost(image: map<nat, Content>) {
    forall b :: b in image ==>
      && (image[b].Bytes? || image[b].EntryBlock? ==> exists f, i :: Holding(image, f, i, b))
      && (image[b].IndexBlock? ==> exists f :: Indexing(image, f, b))
  }

  /** The number of blocks agrees with the size, or with the number of entries. */
  predicate SizesAgree(n: Inode) {
    n.blocks == if n.kind.Dir? then n.slots else (n.size + BLKSIZE - 1) / BLKSIZE
  }

  lemma SizesRight(s: Fs, f: nat)
    requires Valid(s) && f in s.inodes
    ensures SizesAgree(s.inodes[f]) && f in s.app && s.inodes[f].blocks == |s.app[f]|
  {
    assert FileOk(s, f);
    hide Owned, Files, Counted, Structured, Found, Referenced, Groups3, Resolve;
  }

  /** What the reader finds at a position is what was appended there. */
  lemma SpotIs(s: Fs, image: map<nat, Content>, f: nat, i: nat)
    requires Valid(s) && s.ninos <= MAX_NBLKS && Closed(s, image) && f in s.inodes && i < s.inodes[f].blocks
    ensures f in image && f in s.app && i < |s.app[f]| && Spot(image, f, i) == Some(s.app[f][i])
    ensures s.app[f][i] in s.owner && s.owner[s.app[f][i]] == BlockOf(f, i)
  {
    assert Written(s, image);
    SizesRight(s, f);
    InodeWritten(s, image, f);
    OwnerOf(s, f, i);
    hide Valid, Closed, Written, Locate, ReadInode, Block;
    LocateReads(s, image, f, i);
  }

  lemma OwnerOf(s: Fs, f: nat, i: nat)
    requires Valid(s) && f in s.app && i < |s.app[f]|
    ensures s.app[f][i] in s.owner && s.owner[s.app[f][i]] == BlockOf(f, i)
  {
    hide Files, Counted, Structured, Found, Allocated;
  }

  lemma NothingShared(s: Fs, image: map<nat, Content>)
    requires Valid(s) && Low(s) && Tallied(s) && s.ninos <= MAX_NBLKS && Closed(s, image)
    ensures Exclusive(image)
  {
    hide Valid, Low, Tallied, Closed, Spot, Indexing;
    forall f, g, b | b in image && image[b].IndexBlock? && Indexing(image, f, b) && Indexing(image, g, b) ensures f == g {
      IndexOfOne(s, image, f, b);
      IndexOfOne(s, image, g, b);
    }
    forall f, i, g, j, b | Holding(image, f, i, b) && Holding(image, g, j, b) ensures f == g && i == j {
      ClosedKinds(s, image, f);
      ClosedKinds(s, image, g);
      SpotIs(s, image, f, i);
      SpotIs(s, image, g, j);
    }
  }

  /** An index block a file refers to is that file's. */
  lemma IndexOfOne(s: Fs, image: map<nat, Content>, f: nat, b: nat)
    requires Valid(s) && Low(s) && Tallied(s) && Closed(s, image) && b in image && image[b].IndexBlock? && Indexing(image, f, b)
    ensures b in s.owner && s.owner[b].IndexOf? && s.owner[b].f == f
  {
    hide Valid, Low, Tallied, Resolve;
    ClosedKinds(s, image, f);
    var n := s.inodes[f];
    FileShape(s, f);
    assert Written(s, image);
    if n.indirect != b && n.dbl != b {
      var k :| 0 <= k < |image[n.dbl].entries| && image[n.dbl].entries[k] == b;
      assert image[n.dbl].entries == s.index[n.dbl];
    }
  }

  lemma FileShape(s: Fs, f: nat)
    requires Valid(s) && f in s.inodes
    ensures f in s.app && Shape(f, s.inodes[f], |s.app[f]|, s.index, s.owner)
  {
    assert FileOk(s, f);
    hide Owned, Files, Counted, Structured, Found, Referenced, Groups3, Resolve;
  }

  lemma BlockHeld(s: Fs, image: map<nat, Content>, b: nat)
    requires Valid(s) && s.ninos <= MAX_NBLKS && Closed(s, image) && b in s.image
    ensures exists f, i :: Holding(image, f, i, b)
  {
    assert b in s.owner && s.owner[b].BlockOf? && Placed(s, b) && s.owner[b].f in s.inodes;
    var f, i := s.owner[b].f, s.owner[b].i;
    SizesRight(s, f);
    SpotIs(s, image, f, i);
    InodeWritten(s, image, f);
    hide Valid, Closed, Spot;
    assert Holding(image, f, i, b);
  }

  lemma IndexHeld(s: Fs, image: map<nat, Content>, b: nat)
    requires Valid(s) && Closed(s, image) && b in s.index
    ensures exists f :: Indexing(image, f, b)
  {
    hide Valid, Referenced;
    IndexOwner(s, b);
    var f := s.owner[b].f;
    InodeWritten(s, image, f);
    assert Written(s, image);
    hide Closed;
    assert Indexing(image, f, b);
  }

  lemma IndexOwner(s: Fs, b: nat)
    requires Valid(s) && b in s.index
    ensures b in s.owner && s.owner[b].IndexOf? && s.owner[b].f in s.inodes
    ensures var n := s.inodes[s.owner[b].f]; n.indirect == b || n.dbl == b || (n.dbl in s.index && b in s.index[n.dbl])
  {
    hide Files, Counted, Structured, Found, Indexed, Located;
    IndexOwned(s, b);
    var o := s.owner[b];
    FileRefers(s, o.f);
    assert Refers(s.inodes[o.f], s.index, o.level, o.k) == Some(b);
  }

  lemma IndexOwned(s: Fs, b: nat)
    requires Owned(s) && b in s.index
    ensures b in s.owner && s.owner[b].IndexOf? && s.owner[b].f in s.inodes
  {
  }

  lemma FileRefers(s: Fs, f: nat)
    requires Files(s) && f in s.inodes
    ensures Referenced(f, s.inodes[f], s.index, s.owner)
  {
    assert FileOk(s, f);
    hide Indexed, Referenced;
  }

  lemma NothingLost(s: Fs, image: map<nat, Content>)
    requires Valid(s) && Low(s) && Tallied(s) && s.ninos <= MAX_NBLKS && Closed(s, image)
    ensures NoneLost(image)
  {
    hide Valid, Tallied, Holding, Indexing;
    forall b | b in image
      ensures image[b].Bytes? || image[b].EntryBlock? ==> exists f, i :: Holding(image, f, i, b)
      ensures image[b].IndexBlock? ==> exists f :: Indexing(image, f, b)
    {
      if FREEMAP <= b < s.start { assert MapBlock(b, image[b], s.next, s.ninos); }
      if b in s.image { BlockHeld(s, image, b); }
      if b in s.index { IndexHeld(s, image, b); }
      DataOnly(s, b);
    }
  }

  lemma DataOnly(s: Fs, b: nat)
    requires Tallied(s)
    ensures b in s.image ==> s.image[b].Bytes? || s.image[b].EntryBlock?
  {
  }

  // ---------------------------------------------------------------- the whole run

  /** An image of `blocks` blocks, of which `used` are taken, that holds exactly the entries. */
  ghost predicate Faithful(image: map<nat, Content>, entries: seq<DirEntry>, blocks: nat, used: nat) {
    && used <= blocks && (forall b: nat :: b in image <==> b < used)
    && Shows(image, entries)
    && SpaceAgrees(image, blocks, used)
    && (forall i :: InodeAt(image, i) ==> LinksAgree(image, i) && SizesAgree(image[i].n))
    && Exclusive(image) && NoneLost(image)
  }

  /** However deep a reader goes, past the bottom of the tree, it sees the source from the root. */
  ghost predicate Shows(image: map<nat, Content>, entries: seq<DirEntry>) {
    forall depth: nat :: 1 + DepthAll(entries) <= depth ==> ReadNode(DiskOf(image), ROOT, depth) == SeenDir(ShowAll(entries))
  }

  /** Super block and free map agree with what is written. */
  ghost predicate SpaceAgrees(image: map<nat, Content>, blocks: nat, used: nat) {
    && 0 in image
    && WordAt(Block(image[0]), 0) == 0x2f8dbe2a && WordAt(Block(image[0]), 1) == blocks
    && WordAt(Block(image[0]), 2) == blocks - used == |FreeBlocks(DiskOf(image), blocks)|
    && (forall b: nat :: b < blocks ==> (FreeOn(DiskOf(image), b) <==> used <= b))
  }

  lemma ShowsTree(s: Fs, image: map<nat, Content>, entries: seq<DirEntry>)
    requires Valid(s) && s.ninos <= MAX_NBLKS && Closed(s, image) && InDir(s, ROOT) && Lists(s, ROOT, entries, s.app[ROOT])
    ensures Shows(image, entries)
  {
    hide Valid, Closed, Written, DiskOf, Filled, ReadNode, Lists, InDir;
    var t := Folder(0, entries);
    ClosedWritten(s, image);
    RootFilled(s, entries);
    forall depth: nat | 1 + DepthAll(entries) <= depth ensures ReadNode(DiskOf(image), ROOT, depth) == SeenDir(ShowAll(entries)) {
      TreeReads(s, image, t, ROOT, depth);
    }
  }

  lemma ClosedWritten(s: Fs, image: map<nat, Content>)
    requires Closed(s, image)
    ensures Written(s, image)
  {
  }

  lemma RootFilled(s: Fs, entries: seq<DirEntry>)
    requires InDir(s, ROOT) && Lists(s, ROOT, entries, s.app[ROOT])
    ensures Filled(s, Folder(0, entries), ROOT)
  {
    hide Lists;
  }

  lemma SpaceRight(s: Fs, image: map<nat, Content>)
    requires Low(s) && Space(s) && s.ninos <= MAX_NBLKS && Closed(s, image)
    ensures SpaceAgrees(image, s.ninos, s.next)
  {
    assert image[0] == SuperBlock(s.ninos, s.unused) && s.unused == s.ninos - s.next >= 0;
    SuperReads(s.ninos, s.unused);
    FreeCount(s, image);
    hide Block, WordAt, FreeOn, DiskOf, Low, Closed;
    forall b: nat | b < s.ninos ensures FreeOn(DiskOf(image), b) <==> s.next <= b { FreeMapReads(s, image, b); }
  }

  lemma InodesRight(s: Fs, image: map<nat, Content>, i: nat)
    requires Valid(s) && Low(s) && Tallied(s) && Closed(s, image) && s.open == {ROOT} && InodeAt(image, i)
    ensures LinksAgree(image, i) && SizesAgree(image[i].n)
  {
    hide Valid, Low, Tallied, Closed, LinksAgree, SizesAgree;
    ClosedKinds(s, image, i);
    LinksAreRight(s, image, i);
    SizesRight(s, i);
  }

  lemma IsLow(s: Fs, image: map<nat, Content>)
    requires Valid(s) && Closed(s, image)
    ensures Low(s) && Space(s) && forall b: nat :: b in image <==> b < s.next
  {
    hide Valid, Low, Space;
    LowBlocks(s);
  }

  lemma IsFaithful(s: Fs, image: map<nat, Content>, entries: seq<DirEntry>)
    requires Valid(s) && s.ninos <= MAX_NBLKS && Tallied(s) && Closed(s, image) && s.open == {ROOT}
    requires InDir(s, ROOT) && Lists(s, ROOT, entries, s.app[ROOT])
    ensures Faithful(image, entries, s.ninos, s.next)
  {
    hide Valid, Low, Tallied, Closed, LinksAgree, SizesAgree, Shows, SpaceAgrees, Exclusive, NoneLost, Lists, InDir;
    IsLow(s, image);
    ShowsTree(s, image, entries);
    SpaceRight(s, image);
    NothingShared(s, image);
    NothingLost(s, image);
    forall i | InodeAt(image, i) ensures LinksAgree(image, i) && SizesAgree(image[i].n) { InodesRight(s, image, i); }
  }

  /** How many blocks of an image file of `size` bytes are used (mksfs.c:243-247); the number goes
      through a uint32. */
  function Capacity(size: nat): nat { Min(size / BLKSIZE % WORD, MAX_NBLKS) }

  /** `blocks` is as many whole blocks as an image file of `size` bytes holds, and no more than the format has
      room for.  Of a file of 16 TB or more only what exceeds a multiple of that counts. */
  predicate WholeBlocks(blocks: nat, size: nat) {
    var counted := size % 0x1000_0000_0000;
    blocks * 4096 <= counted && blocks <= 524288 && (blocks == 524288 || counted < (blocks + 1) * 4096)
  }

  lemma CapacityIsWholeBlocks(size: nat)
    ensures WholeBlocks(Capacity(size), size) && (Capacity(size) < 4 <==> size % 0x1000_0000_0000 < 4 * 4096)
    ensures forall n: nat :: WholeBlocks(n, size) ==> n == Capacity(size)
  {
    var q, counted := size / 4096, size % 0x1000_0000_0000;
    assert size == 4096 * q + size % 4096 && q == WORD * (q / WORD) + q % WORD;
    assert size == 0x1000_0000_0000 * (q / WORD) + (4096 * (q % WORD) + size % 4096);
    Quotient(size, q / WORD, 4096 * (q % WORD) + size % 4096);
    assert counted == 4096 * (q % WORD) + size % 4096;
  }

  lemma Quotient(size: nat, a: nat, r: nat)
    requires size == 0x1000_0000_0000 * a + r && r < 0x1000_0000_0000
    ensures size % 0x1000_0000_0000 == r
  {
  }

  /** Behind the super block and the root directory as many blocks are reserved as a bit for every block takes, and no
      more (mksfs.c:248). */
  lemma MapIsJustEnough(n: nat)
    requires n > 0
    ensures var maps := FirstFree(n) - 2; maps > 0 && (maps - 1) * 8 * BLKSIZE < n <= maps * 8 * BLKSIZE
  {
  }

  /** The smallest image has four blocks. */
  lemma EnoughRoom(n: nat)
    ensures FirstFree(n) < n <==> n >= 4
  {
  }

  lemma FreshKnown(n: nat, src: map<nat, Tree>)
    requires FirstFree(n) < n && 0 !in src
    ensures Known(Fresh(n), src) && Tallied(Fresh(n)) && InDir(Fresh(n), ROOT)
  {
    forall i: nat ensures EntriesFor(Fresh(n).image, i) == {} { }
  }

  /** Where next_ino gets to when the tree is built into an image of `size` bytes. */
  function Reached(size: nat, entries: seq<DirEntry>): nat {
    FirstFree(Capacity(size)) + DirNeed({0}, entries)
  }

  /** The image has room for its own tables and the tree, the tree is within the limits of the
      format, and no directory is met twice. */
  predicate Buildable(size: nat, entries: seq<DirEntry>) {
    Capacity(size) >= 4 && Reached(size, entries) <= Capacity(size) && Fits(entries) && !Repeats({0}, entries)
  }

  // ---------------------------------------------------------------- the source by its numbers

  lemma {:induction false} ByNumberShows(src: map<nat, Tree>, entries: seq<DirEntry>)
    requires FilesByNumber(src) && RegularIds(entries) <= src.Keys
    ensures |ShowAll(ByNumber(src, entries))| == |ShowAll(entries)|
    ensures ShowAll(ByNumber(src, entries)) == ShowAll(entries) <==> Agrees(src, entries)
    decreases entries, 0
  {
    if entries != [] {
      hide Agrees, ShowAll, ByNumberOf, AgreesOf, Show, Stored;
      var e, init, r := entries[|entries| - 1], entries[..|entries| - 1], ByNumber(src, entries);
      ByNumberShows(src, init);
      assert r[..|r| - 1] == ByNumber(src, init);
      AgreesMore(src, entries);
      ShowMore(entries);
      ShowMore(r);
      if !Skipped(e) {
        ByNumberOfShows(src, e.node);
        LastSeen(ShowAll(ByNumber(src, init)), ShowAll(init),
                 SeenEntry(Stored(e.name), Show(ByNumberOf(src, e.node))), SeenEntry(Stored(e.name), Show(e.node)));
      }
    } else {
      assert Agrees(src, entries);
    }
  }

  lemma AgreesMore(src: map<nat, Tree>, entries: seq<DirEntry>)
    requires entries != []
    ensures var e, init := entries[|entries| - 1], entries[..|entries| - 1];
            Agrees(src, entries) <==> Agrees(src, init) && (Skipped(e) || AgreesOf(src, e.node))
  {
    hide AgreesOf;
    assert entries == entries[..|entries| - 1] + [entries[|entries| - 1]];
  }

  lemma ShowMore(entries: seq<DirEntry>)
    requires entries != []
    ensures var e, init := entries[|entries| - 1], entries[..|entries| - 1];
            ShowAll(entries) == if Skipped(e) then ShowAll(init) else ShowAll(init) + [SeenEntry(Stored(e.name), Show(e.node))]
  {
  }

  lemma LastSeen(a: seq<SeenEntry>, b: seq<SeenEntry>, x: SeenEntry, y: SeenEntry)
    requires |a| == |b|
    ensures a + [x] == b + [y] <==> a == b && x == y
  {
    if a + [x] == b + [y] {
      assert a == (a + [x])[..|a|] && b == (b + [y])[..|b|];
      assert (a + [x])[|a|] == x && (b + [y])[|b|] == y;
    }
  }

  lemma {:induction false} ByNumberOfShows(src: map<nat, Tree>, t: Tree)
    requires FilesByNumber(src) && RegularIdsOf(t) <= src.Keys
    ensures Show(ByNumberOf(src, t)) == Show(t) <==> AgreesOf(src, t)
    ensures ByNumberOf(src, t).Special? <==> t.Special?
    decreases t, 1
  {
    match t
    case Folder(_, entries) => ByNumberShows(src, entries);
    case _ =>
  }

  /** What mksfs reads looks like the source exactly if regular files with one number have the same data. */
  lemma CanonShowsSource(entries: seq<DirEntry>)
    ensures ShowAll(Canon(entries)) == ShowAll(entries) <==> NumbersAgree(entries)
  {
    FirstsHas(map[], entries);
    ByNumberShows(Firsts(map[], entries), entries);
  }

  /** mksfs from start to end (mksfs.c:239-271, 575-590): the image holds exactly the tree that mksfs reads,
      in exactly the blocks it needs, or the program gives up for one of the reasons there are.  With a source
      that does not fail it succeeds exactly on what can be built.  What it reads has every regular file as the
      first one met with its number, which is the source itself exactly if those have the same data. */
  method CreateImg(size: nat, entries: seq<DirEntry>, flaky: bool)
    returns (out: Outcome, used: nat, image: map<nat, Content>)
    requires Separate(entries)
    ensures out.Done? ==> Faithful(image, Canon(entries), Capacity(size), used) && used == Reached(size, Canon(entries))
    ensures out.Done? ==> Buildable(size, Canon(entries))
    ensures out.Done? ==> 0 in image && WholeBlocks(WordAt(Block(image[0]), 1), size)
    ensures out.Done? ==>
              var blocks, maps := WordAt(Block(image[0]), 1), used - 2 - DirNeed({0}, Canon(entries));
              maps > 0 && (maps - 1) * 8 * BLKSIZE < blocks <= maps * 8 * BLKSIZE
    ensures out.Full? ==> size % 0x1000_0000_0000 < 4 * 4096 || WholeBlocks(used, size)
    ensures !flaky ==> (out.Done? <==> Buildable(size, Canon(entries)))
    ensures out.Full? ==> Capacity(size) < 4 || (used == Capacity(size) < Reached(size, Canon(entries)))
    ensures out.Unfit? ==> !Fits(Canon(entries))
    ensures out.Again? ==> Repeats({0}, Canon(entries))
    ensures out.Broken? ==> flaky
    ensures ShowAll(Canon(entries)) == ShowAll(entries) <==> NumbersAgree(entries)
  {
    hide Valid, Known, Tallied, Tallies, InDir, Lists, Grows, Apart, Closed, Faithful, Repeats, Fits, FirstFree, DirNeed,
         Canon, Firsts, Separate, AllReadAs, AllConsistent, ShowAll, NumbersAgree, WholeBlocks, WordAt, Block;
    CanonShowsSource(entries);
    CanonIsRead(entries);
    CapacityIsWholeBlocks(size);
    ghost var canon, src := Canon(entries), Firsts(map[], entries);
    var n := Capacity(size);
    used, image := 0, map[];
    EnoughRoom(n);
    if n > 0 { MapIsJustEnough(n); }
    if FirstFree(n) >= n {
      return Full, used, image;
    }
    var b := new Builder(n, flaky);
    FreshNext(n);
    FreshKnown(n, src);
    FreshHas(n);
    out := b.OpenDir(ROOT, entries, canon, src);
    used := b.next;
    if !out.Done? {
      return;
    }
    ghost var s := b.View();
    Tally(Fresh(n), s);
    Room(s);
    CloseSfs(b);
    image := b.image;
    IsFaithful(s, image, canon);
    FaithfulSize(image, canon, n, used);
  }

  lemma FaithfulSize(image: map<nat, Content>, entries: seq<DirEntry>, blocks: nat, used: nat)
    requires Faithful(image, entries, blocks, used)
    ensures 0 in image && WordAt(Block(image[0]), 1) == blocks
  {
    hide Shows, Exclusive, NoneLost, LinksAgree, SizesAgree, InodeAt;
  }

  lemma FreshNext(n: nat)
    requires FirstFree(n) < n
    ensures Fresh(n).next == FirstFree(n)
  {
  }

  lemma FreshHas(n: nat)
    requires FirstFree(n) < n
    ensures Fresh(n).latest.Keys == {0} && Fresh(n).open == {ROOT} && ROOT in Fresh(n).app && Fresh(n).app[ROOT] == []
  {
  }

  lemma Tally(s: Fs, t: Fs)
    requires Tallied(s) && Tallies(s, t)
    ensures Tallied(t)
  {
  }
}
