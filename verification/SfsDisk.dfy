/** An SFS image as bytes: how mksfs lays out each block, and a reader that sees nothing but the
    blocks.  The main result is that reading a finished image gives back the source tree. */
module SfsDisk {
  import opened Basics
  import opened SfsIndex
  import opened SfsState
  import opened SfsTree

  const MAGIC: nat := 0x2f8dbe2a
  const TYPE_FILE: nat := 1
  const TYPE_DIR: nat := 2
  const TYPE_LINK: nat := 3
  const WORD: nat := 0x1_0000_0000

  type Disk = map<nat, seq<Byte>>

  // ---------------------------------------------------------------- words

  /** A little-endian uint32. */
  function Word(n: nat): (w: seq<Byte>)
    ensures |w| == 4
  {
    [(n % 256) as Byte, (n / 256 % 256) as Byte, (n / 65536 % 256) as Byte, (n / 16777216 % 256) as Byte]
  }

  function WordAt(b: seq<Byte>, k: nat): nat
    requires 4 * k + 4 <= |b|
  {
    b[4 * k] as nat + 256 * b[4 * k + 1] as nat + 65536 * b[4 * k + 2] as nat + 16777216 * b[4 * k + 3] as nat
  }

  function Words(ws: seq<nat>): (r: seq<Byte>)
    ensures |r| == 4 * |ws|
  {
    if ws == [] then [] else Words(ws[..|ws| - 1]) + Word(ws[|ws| - 1])
  }

  lemma WordRoundTrip(n: nat)
    ensures WordAt(Word(n), 0) == n % WORD
  {
    var a, b, c := n / 256, n / 65536, n / 16777216;
    assert b == a / 256 && c == b / 256;
    assert n == n % 256 + 256 * a && a == a % 256 + 256 * b && b == b % 256 + 256 * c && c == c % 256 + 256 * (c / 256);
    Remainder(n, c / 256, n % 256 + 256 * (a % 256) + 65536 * (b % 256) + 16777216 * (c % 256));
  }

  lemma Remainder(n: nat, q: nat, r: nat)
    requires n == r + WORD * q && r < WORD
    ensures n % WORD == r
  {
  }

  lemma {:induction false} WordsRoundTrip(ws: seq<nat>, rest: seq<Byte>, k: nat)
    requires k < |ws|
    ensures WordAt(Words(ws) + rest, k) == ws[k] % WORD
    decreases |ws|
  {
    var init, w := ws[..|ws| - 1], ws[|ws| - 1];
    assert Words(ws) + rest == Words(init) + (Word(w) + rest);
    if k < |init| {
      WordsRoundTrip(init, Word(w) + rest, k);
    } else {
      WordRoundTrip(w);
    }
  }

  // ---------------------------------------------------------------- blocks

  /** write_block (mksfs.c:304-317): what falls short of a block is filled up with zeros. */
  function Fit(b: seq<Byte>): (r: seq<Byte>)
    ensures |r| == BLKSIZE
  {
    if |b| < BLKSIZE then b + seq(BLKSIZE - |b|, i => 0) else b[..BLKSIZE]
  }

  function TypeOf(k: Kind): nat {
    match k
    case File => TYPE_FILE
    case Dir => TYPE_DIR
    case Link => TYPE_LINK
  }

  /** struct inode (mksfs.c:134-150): size shares its place with slots; type and nlinks are 16
      bits each. */
  function InodeWords(n: Inode): seq<nat> {
    [if n.kind.Dir? then n.slots else n.size, if n.kind.Dir? then n.parent else 0, TypeOf(n.kind) + 65536 * n.nlinks, n.blocks]
    + n.direct + [n.indirect, n.dbl]
  }

  function Block(c: Content): (r: seq<Byte>)
    ensures |r| == BLKSIZE
  {
    Fit(match c
        case Bytes(data) => data
        case EntryBlock(ino, raw) => Word(ino) + raw
        case SuperBlock(blocks, unused) => Words([MAGIC, blocks, if unused < 0 then 0 else unused])
        case FreeMap(words) => Words(words)
        case InodeBlock(n) => Words(InodeWords(n))
        case IndexBlock(entries) => Words(entries))
  }

  function DiskOf(image: map<nat, Content>): Disk {
    map b | b in image :: Block(image[b])
  }

  // ---------------------------------------------------------------- the reader

  datatype OnDisk = OnDisk(first: nat, parent: nat, typ: nat, nlinks: nat, blocks: nat, direct: seq<nat>, indirect: nat, dbl: nat)

  function ReadInode(b: seq<Byte>): OnDisk
    requires |b| == BLKSIZE
  {
    OnDisk(WordAt(b, 0), WordAt(b, 1), WordAt(b, 2) % 65536, WordAt(b, 2) / 65536, WordAt(b, 3),
           seq(NDIRECT, (i: nat) requires i < NDIRECT => WordAt(b, 4 + i)), WordAt(b, 16), WordAt(b, 17))
  }

  function EntryOn(disk: Disk, b: nat, k: nat): Option<nat> {
    if b in disk && 4 * k + 4 <= |disk[b]| then Some(WordAt(disk[b], k)) else None
  }

  /** The block at position i of a file. */
  function Locate(disk: Disk, n: OnDisk, i: nat): Option<nat> {
    if i < L0 then (if i < |n.direct| then Some(n.direct[i]) else None)
    else if i < L1 then EntryOn(disk, n.indirect, i - L0)
    else
      match EntryOn(disk, n.dbl, (i - L1) / NENTRY)
      case None => None
      case Some(b) => EntryOn(disk, b, (i - L1) % NENTRY)
  }

  function Gather(disk: Disk, n: OnDisk, count: nat): seq<Byte> {
    if count == 0 then []
    else
      Gather(disk, n, count - 1)
      + match Locate(disk, n, count - 1)
        case Some(b) => if b in disk then disk[b] else []
        case None => []
  }

  function ReadFile(disk: Disk, n: OnDisk): seq<Byte> {
    var all := Gather(disk, n, (n.first + BLKSIZE - 1) / BLKSIZE);
    if n.first <= |all| then all[..n.first] else all
  }

  datatype Seen = SeenFile(data: seq<Byte>) | SeenLink(target: seq<Byte>) | SeenDir(entries: seq<SeenEntry>) | Garbled

  datatype SeenEntry = SeenEntry(name: seq<Byte>, node: Seen)

  /** What a reader sees at inode ino, going at most `depth` levels down. */
  function ReadNode(disk: Disk, ino: nat, depth: nat): Seen
    decreases depth, 0
  {
    if depth == 0 || ino !in disk || |disk[ino]| != BLKSIZE then Garbled
    else
      var n := ReadInode(disk[ino]);
      if n.typ == TYPE_FILE then SeenFile(ReadFile(disk, n))
      else if n.typ == TYPE_LINK then SeenLink(ReadFile(disk, n))
      else if n.typ == TYPE_DIR then SeenDir(ReadEntries(disk, n, n.first, depth - 1))
      else Garbled
  }

  function ReadEntries(disk: Disk, n: OnDisk, count: nat, depth: nat): seq<SeenEntry>
    decreases depth, 1, count
  {
    if count == 0 then [] else ReadEntries(disk, n, count - 1, depth) + [ReadEntry(disk, Locate(disk, n, count - 1), depth)]
  }

  function ReadEntry(disk: Disk, b: Option<nat>, depth: nat): SeenEntry
    decreases depth, 1, 0
  {
    if b.Some? && b.value in disk && |disk[b.value]| == BLKSIZE then
      SeenEntry(CName(disk[b.value][4..]), ReadNode(disk, WordAt(disk[b.value], 0), depth))
    else SeenEntry([], Garbled)
  }

  // ---------------------------------------------------------------- what should be seen

  /** The source tree as the image is meant to show it: without inode numbers, hidden names and
      special files, and with names cut to 252 bytes. */
  function Show(t: Tree): Seen
    decreases t, 1
  {
    match t
    case Regular(_, data) => SeenFile(data)
    case Symlink(_, target) => SeenLink(target)
    case Folder(_, entries) => SeenDir(ShowAll(entries))
    case Special => Garbled
  }

  function ShowAll(entries: seq<DirEntry>): seq<SeenEntry>
    decreases entries, 0
  {
    if entries == [] then []
    else
      var e, init := entries[|entries| - 1], entries[..|entries| - 1];
      ShowAll(init) + if Skipped(e) then [] else [SeenEntry(Stored(e.name), Show(e.node))]
  }

  function Depth(t: Tree): nat
    decreases t, 1
  {
    if t.Folder? then 1 + DepthAll(t.entries) else 1
  }

  function DepthAll(entries: seq<DirEntry>): nat
    decreases entries, 0
  {
    if entries == [] then 0
    else
      var d, r := Depth(entries[|entries| - 1].node), DepthAll(entries[..|entries| - 1]);
      if d < r then r else d
  }

  lemma {:induction false} ShowPast(a: seq<DirEntry>, b: seq<DirEntry>)
    ensures ShowAll(a + b) == ShowAll(a) + ShowAll(b)
    decreases |b|
  {
    if b == [] {
      assert a + b == a;
    } else {
      var init := b[..|b| - 1];
      ShowPast(a, init);
      assert (a + b)[..|a + b| - 1] == a + init && (a + b)[|a + b| - 1] == b[|b| - 1];
    }
  }

  /** Which entries of the source show, and where: all but those whose name begins with a dot and those that are
      neither files nor links nor directories, in the order of the source. */
  lemma EntryShows(entries: seq<DirEntry>, i: nat)
    requires i < |entries|
    ensures var e, rest := entries[i], ShowAll(entries[..i]) + ShowAll(entries[i + 1..]);
            if e.node.Special? || (e.name != [] && e.name[0] == '.' as int as Byte) then ShowAll(entries) == rest
            else var at := |ShowAll(entries[..i])|;
                 && at < |ShowAll(entries)| == |rest| + 1 && ShowAll(entries)[at] == SeenEntry(Stored(e.name), Show(e.node))
                 && ShowAll(entries)[..at] + ShowAll(entries)[at + 1..] == rest
  {
    assert entries == entries[..i] + ([entries[i]] + entries[i + 1..]);
    ShowPast(entries[..i], [entries[i]] + entries[i + 1..]);
    ShowPast([entries[i]], entries[i + 1..]);
    assert [entries[i]][..0] == [];
  }

  // ---------------------------------------------------------------- reading back what was written

  /** The image holds the blocks of s, its cached index blocks and its inodes. */
  ghost predicate Written(s: Fs, image: map<nat, Content>) {
    && (forall b :: b in s.image ==> b in image && image[b] == s.image[b])
    && (forall b :: b in s.index ==> b in image && image[b] == IndexBlock(s.index[b]))
    && (forall i :: i in s.inodes ==> i in image && image[i] == InodeBlock(s.inodes[i]))
  }

  lemma FitsAt(ws: seq<nat>, k: nat)
    requires k < |ws| <= NENTRY
    ensures WordAt(Fit(Words(ws)), k) == ws[k] % WORD
  {
    hide Words, WordAt;
    var b := Words(ws);
    FitPads(b);
    WordsRoundTrip(ws, Fit(b)[|b|..], k);
  }

  lemma FitsSmall(ws: seq<nat>, k: nat)
    requires k < |ws| <= NENTRY && ws[k] < WORD
    ensures WordAt(Fit(Words(ws)), k) == ws[k]
  {
    hide Words, Fit, WordAt;
    FitsAt(ws, k);
  }

  lemma FitPads(b: seq<Byte>)
    requires |b| <= BLKSIZE
    ensures Fit(b) == b + Fit(b)[|b|..] && forall k :: |b| <= k < BLKSIZE ==> Fit(b)[k] == 0
  {
  }

  lemma InodeWordsAre(n: Inode)
    requires |n.direct| == NDIRECT
    ensures var ws := InodeWords(n);
            && |ws| == 18 && ws[0] == (if n.kind.Dir? then n.slots else n.size) && ws[1] == (if n.kind.Dir? then n.parent else 0)
            && ws[2] == TypeOf(n.kind) + 65536 * n.nlinks && ws[3] == n.blocks && ws[16] == n.indirect && ws[17] == n.dbl
            && forall i :: 0 <= i < NDIRECT ==> ws[4 + i] == n.direct[i]
  {
  }

  lemma HalfWords(t: nat, l: nat)
    requires t < 65536 && l < 65536
    ensures t + 65536 * l < WORD && (t + 65536 * l) % 65536 == t && (t + 65536 * l) / 65536 == l
  {
  }

  /** Every number in the inode fits its field. */
  predicate Narrow(n: Inode) {
    && |n.direct| == NDIRECT && n.nlinks < 65536 && n.blocks < WORD && n.indirect < WORD && n.dbl < WORD
    && if n.kind.Dir? then n.slots < WORD && n.parent < WORD else n.size < WORD
  }

  lemma FieldsRead(n: Inode)
    requires Narrow(n)
    ensures var r := ReadInode(Block(InodeBlock(n)));
            && r.first == (if n.kind.Dir? then n.slots else n.size) && r.parent == (if n.kind.Dir? then n.parent else 0)
            && r.typ == TypeOf(n.kind) && r.nlinks == n.nlinks && r.blocks == n.blocks && r.indirect == n.indirect && r.dbl == n.dbl
            && |r.direct| == NDIRECT
  {
    var ws := InodeWords(n);
    InodeWordsAre(n);
    assert Block(InodeBlock(n)) == Fit(Words(ws));
    hide Words, Fit, WordAt, InodeWords, Block;
    FitsSmall(ws, 0);
    FitsSmall(ws, 1);
    HalfWords(TypeOf(n.kind), n.nlinks);
    FitsSmall(ws, 2);
    FitsSmall(ws, 3);
    FitsSmall(ws, 16);
    FitsSmall(ws, 17);
  }

  lemma DirectReads(n: Inode, i: nat)
    requires |n.direct| == NDIRECT && i < NDIRECT
    ensures var r := ReadInode(Block(InodeBlock(n))); |r.direct| == NDIRECT && r.direct[i] == n.direct[i] % WORD
  {
    var ws := InodeWords(n);
    InodeWordsAre(n);
    assert ws[4 + i] == n.direct[i];
    assert Block(InodeBlock(n)) == Fit(Words(ws));
    hide Words, Fit, WordAt, InodeWords, Block;
    FitsAt(ws, 4 + i);
  }

  /** What a reader makes of an inode block. */
  lemma InodeReads(n: Inode)
    requires Narrow(n)
    ensures var r := ReadInode(Block(InodeBlock(n)));
            && r.first == (if n.kind.Dir? then n.slots else n.size) && r.parent == (if n.kind.Dir? then n.parent else 0)
            && r.typ == TypeOf(n.kind) && r.nlinks == n.nlinks && r.blocks == n.blocks && r.indirect == n.indirect && r.dbl == n.dbl
            && |r.direct| == NDIRECT && forall i :: 0 <= i < NDIRECT ==> r.direct[i] == n.direct[i] % WORD
  {
    FieldsRead(n);
    hide ReadInode, Block;
    forall i: nat | i < NDIRECT ensures ReadInode(Block(InodeBlock(n))).direct[i] == n.direct[i] % WORD { DirectReads(n, i); }
  }

  const MAX_NBLKS: nat := 524288

  /** Every number an inode holds fits its field. */
  lemma InodeBounds(s: Fs, f: nat)
    requires Valid(s) && s.ninos <= MAX_NBLKS && f in s.inodes
    ensures Narrow(s.inodes[f]) && f in s.app
  {
    assert FileOk(s, f);
    assert s.inodes[f].nlinks == Links(s, f) % LINK_MAX;
    hide Files, Counted, Located, Found, Links, Groups3, Resolve;
  }

  lemma BlockBounds(s: Fs, f: nat, j: nat)
    requires Valid(s) && s.ninos <= MAX_NBLKS && f in s.app && j < |s.app[f]|
    ensures s.app[f][j] < WORD && s.app[f][j] in s.image
  {
    hide Files, Counted, Found, Structured;
  }

  lemma IndexReads(s: Fs, image: map<nat, Content>, b: nat, k: nat)
    requires Written(s, image) && b in s.index && |s.index[b]| == NENTRY && k < NENTRY
    ensures EntryOn(DiskOf(image), b, k) == Some(s.index[b][k] % WORD)
  {
    var ws := s.index[b];
    assert DiskOf(image)[b] == Fit(Words(ws));
    hide Words, Fit, WordAt;
    FitsAt(ws, k);
  }

  /** The reader finds every block where it was appended. */
  lemma LocateReads(s: Fs, image: map<nat, Content>, f: nat, j: nat)
    requires Valid(s) && s.ninos <= MAX_NBLKS && Written(s, image) && f in s.inodes && f in s.app && j < |s.app[f]|
    ensures Locate(DiskOf(image), ReadInode(Block(InodeBlock(s.inodes[f]))), j) == Some(s.app[f][j])
  {
    hide Valid, Written, WordAt, ReadInode, Block, EntryOn, DiskOf;
    var n := s.inodes[f];
    BlockBounds(s, f, j);
    InodeBounds(s, f);
    InodeReads(n);
    IndexShape(s, f, j);
    if j < L0 {
      DirectReads(n, j);
    } else if j < L1 {
      IndexReads(s, image, n.indirect, j - L0);
    } else {
      IndexReads(s, image, n.dbl, (j - L1) / NENTRY);
      IndexReads(s, image, s.index[n.dbl][(j - L1) / NENTRY], (j - L1) % NENTRY);
    }
  }

  /** The index blocks on the way to position j. */
  lemma IndexShape(s: Fs, f: nat, j: nat)
    requires Valid(s) && s.ninos <= MAX_NBLKS && f in s.inodes && f in s.app && j < |s.app[f]|
    ensures var n, index := s.inodes[f], s.index;
            && |n.direct| == NDIRECT && Resolve(n, index, j) == Some(s.app[f][j])
            && (L0 <= j < L1 ==> n.indirect in index && |index[n.indirect]| == NENTRY)
            && (L1 <= j ==>
                  && n.dbl in index && |index[n.dbl]| == NENTRY && (j - L1) / NENTRY < NENTRY
                  && var b := index[n.dbl][(j - L1) / NENTRY];
                     b in index && |index[b]| == NENTRY && b < WORD)
  {
    assert FileOk(s, f) && Space(s) && Allocated(s);
    hide Files, Counted, Found, Structured, Located, Referenced, Resolve;
    if j >= L1 {
      GroupBelow(j, |s.app[f]|);
      GroupOf(|s.app[f]|);
      var h, n := (j - L1) / NENTRY, s.inodes[f];
      hide Groups;
      assert IsIndex(s.index, s.owner, s.index[n.dbl][h], IndexOf(f, 3, h));
    }
  }

  // ---------------------------------------------------------------- files

  lemma ChunkOnDisk(s: Fs, image: map<nat, Content>, f: nat, data: seq<Byte>, j: nat)
    requires Written(s, image) && Holds(s, f, data) && j < |s.app[f]|
    ensures s.app[f][j] in image && DiskOf(image)[s.app[f][j]] == Fit(Chunk(data, j)) && j * BLKSIZE < |data|
  {
    assert HoldsChunk(s, f, data, j);
  }

  lemma ChunkExtends(got: seq<Byte>, data: seq<Byte>, j: nat)
    requires j * BLKSIZE < |data| && got == data[..j * BLKSIZE]
    ensures var more := got + Fit(Chunk(data, j));
            |more| == (j + 1) * BLKSIZE && var m := Min((j + 1) * BLKSIZE, |data|); more[..m] == data[..m]
  {
    var c := Chunk(data, j);
    var m := Min((j + 1) * BLKSIZE, |data|);
    FitPads(c);
    assert (got + Fit(c))[..m] == got + c;
  }

  lemma {:induction false} GatherReads(s: Fs, image: map<nat, Content>, f: nat, data: seq<Byte>, k: nat)
    requires Valid(s) && s.ninos <= MAX_NBLKS && Written(s, image) && f in s.inodes && Holds(s, f, data) && k <= |s.app[f]|
    ensures var got := Gather(DiskOf(image), ReadInode(Block(InodeBlock(s.inodes[f]))), k);
            |got| == k * BLKSIZE && var m := Min(k * BLKSIZE, |data|); got[..m] == data[..m]
    decreases k
  {
    hide Valid, Written, Holds, Locate, ReadInode, Block, DiskOf, Fit, Chunk;
    if k > 0 {
      HoldsSize(s, f, data);
      GatherReads(s, image, f, data, k - 1);
      LocateReads(s, image, f, k - 1);
      ChunkOnDisk(s, image, f, data, k - 1);
      OnDiskToo(image, s.app[f][k - 1]);
      var got := Gather(DiskOf(image), ReadInode(Block(InodeBlock(s.inodes[f]))), k - 1);
      assert got == got[..(k - 1) * BLKSIZE];
      ChunkExtends(got, data, k - 1);
    }
  }

  lemma HoldsSize(s: Fs, f: nat, data: seq<Byte>)
    requires Holds(s, f, data)
    ensures f in s.app && f in s.inodes && s.inodes[f].size == |data| && |s.app[f]| == (|data| + BLKSIZE - 1) / BLKSIZE
  {
  }

  lemma OnDiskToo(image: map<nat, Content>, b: nat)
    requires b in image
    ensures b in DiskOf(image) && DiskOf(image)[b] == Block(image[b])
  {
  }

  /** A file reads back as what was put into it. */
  lemma FileReads(s: Fs, image: map<nat, Content>, f: nat, data: seq<Byte>)
    requires Valid(s) && s.ninos <= MAX_NBLKS && Written(s, image) && f in s.inodes && !s.inodes[f].kind.Dir? && Holds(s, f, data)
    ensures ReadFile(DiskOf(image), ReadInode(Block(InodeBlock(s.inodes[f])))) == data
  {
    hide Valid, Written, Holds, ReadInode, Block, DiskOf, Gather, Narrow;
    HoldsSize(s, f, data);
    InodeBounds(s, f);
    InodeReads(s.inodes[f]);
    GatherReads(s, image, f, data, |s.app[f]|);
    assert data[..|data|] == data;
  }

  // ---------------------------------------------------------------- directories

  lemma {:induction false} CNamePadded(raw: seq<Byte>, rest: seq<Byte>)
    requires rest == [] || rest[0] == 0
    ensures CName(raw + rest) == CName(raw)
  {
    if raw == [] {
      assert raw + rest == rest;
    } else {
      CNamePadded(raw[1..], rest);
      assert (raw + rest)[1..] == raw[1..] + rest;
    }
  }

  lemma EntryReads(ino: nat, raw: seq<Byte>)
    requires |raw| == NAME_KEPT && ino < WORD
    ensures var b := Block(EntryBlock(ino, raw)); WordAt(b, 0) == ino && CName(b[4..]) == CName(raw)
  {
    var b := Word(ino) + raw;
    assert |Word(ino)| == 4;
    EntryBytes(ino, raw);
    WordRoundTrip(ino);
    hide Word, CName, Fit, Block;
    FitPads(b);
    var rest := Fit(b)[|b|..];
    assert Fit(b)[4..] == raw + rest;
    CNamePadded(raw, rest);
    FirstWord(Fit(b), Word(ino));
  }

  lemma EntryBytes(ino: nat, raw: seq<Byte>)
    requires |raw| == NAME_KEPT
    ensures Block(EntryBlock(ino, raw)) == Fit(Word(ino) + raw)
  {
  }

  lemma FirstWord(b: seq<Byte>, w: seq<Byte>)
    requires |w| == 4 && |b| >= 4 && b[..4] == w
    ensures WordAt(b, 0) == WordAt(w, 0)
  {
    assert forall k :: 0 <= k < 4 ==> b[k] == b[..4][k];
  }

  lemma EntryAtReads(s: Fs, image: map<nat, Content>, b: nat, dir: nat, e: DirEntry, depth: nat)
    requires Valid(s) && s.ninos <= MAX_NBLKS && Written(s, image) && EntryAt(s, b, dir, e)
    ensures ReadEntry(DiskOf(image), Some(b), depth) == SeenEntry(Stored(e.name), ReadNode(DiskOf(image), s.image[b].ino, depth))
  {
    InodeNumbers(s, s.image[b].ino);
    OnDiskToo(image, b);
    hide Valid, DiskOf, Block, WordAt, CName, Stored, ReadNode;
    EntryReads(s.image[b].ino, s.image[b].raw);
  }

  /** The builder takes names of up to 255 bytes, but an entry reads back with its own name exactly
      if the name has at most 252. */
  lemma NameReadsExactly(s: Fs, image: map<nat, Content>, b: nat, dir: nat, e: DirEntry, depth: nat)
    requires Valid(s) && s.ninos <= MAX_NBLKS && Written(s, image) && EntryAt(s, b, dir, e)
    ensures ReadEntry(DiskOf(image), Some(b), depth).name == e.name <==> |e.name| <= 252
  {
    hide Valid, Written, ReadEntry, DiskOf, EntryAt;
    EntryAtReads(s, image, b, dir, e, depth);
  }

  lemma InodeNumbers(s: Fs, i: nat)
    requires Valid(s) && s.ninos <= MAX_NBLKS && i in s.inodes
    ensures i < WORD
  {
    hide Files, Counted, Found, Structured, Located;
  }

  // ---------------------------------------------------------------- the tree

  lemma InodeOnDisk(s: Fs, image: map<nat, Content>, i: nat)
    requires Written(s, image) && i in s.inodes
    ensures i in DiskOf(image) && DiskOf(image)[i] == Block(InodeBlock(s.inodes[i]))
  {
  }

  /** Reading at an inode that has been filled with tree t gives t. */
  lemma {:induction false} TreeReads(s: Fs, image: map<nat, Content>, t: Tree, ino: nat, depth: nat)
    requires Valid(s) && s.ninos <= MAX_NBLKS && Written(s, image) && Filled(s, t, ino) && Depth(t) <= depth
    ensures ReadNode(DiskOf(image), ino, depth) == Show(t)
    decreases t, 1
  {
    hide Valid, Written, ReadInode, Block, DiskOf, Holds, Narrow, ReadFile, ReadEntries, Lists;
    InodeOnDisk(s, image, ino);
    InodeBounds(s, ino);
    InodeReads(s.inodes[ino]);
    match t
    case Regular(_, data) => FileReads(s, image, ino, data);
    case Symlink(_, target) => FileReads(s, image, ino, target);
    case Folder(_, entries) =>
      DirSize(s, ino);
      EntriesRead(s, image, ino, entries, s.app[ino], depth - 1);
    case Special =>
  }

  lemma DirSize(s: Fs, f: nat)
    requires Valid(s) && f in s.inodes && s.inodes[f].kind.Dir?
    ensures f in s.app && s.inodes[f].slots == |s.app[f]|
  {
    assert FileOk(s, f);
  }

  lemma {:induction false} EntriesRead(s: Fs, image: map<nat, Content>, dir: nat, entries: seq<DirEntry>, blocks: seq<nat>, depth: nat)
    requires Valid(s) && s.ninos <= MAX_NBLKS && Written(s, image) && dir in s.inodes && dir in s.app
    requires blocks <= s.app[dir] && Lists(s, dir, entries, blocks) && DepthAll(entries) <= depth
    ensures ReadEntries(DiskOf(image), ReadInode(Block(InodeBlock(s.inodes[dir]))), |blocks|, depth) == ShowAll(entries)
    decreases entries, 0
  {
    hide Valid, Written, ReadInode, Block, DiskOf, ReadEntry, Filled, Locate, ReadNode;
    if entries != [] {
      var e, init := entries[|entries| - 1], entries[..|entries| - 1];
      if Skipped(e) {
        EntriesRead(s, image, dir, init, blocks, depth);
      } else {
        var k := |blocks| - 1;
        EntriesRead(s, image, dir, init, blocks[..k], depth);
        LocateReads(s, image, dir, k);
        EntryAtReads(s, image, blocks[k], dir, e, depth);
        TreeReads(s, image, e.node, s.image[blocks[k]].ino, depth);
      }
    }
  }
}
