/** The source tree as mksfs reads it (ucore/src/ht-mksfs/mksfs.c:482-490).  A regular file is known by its inode number
    alone, so a second file with the same number is taken for the first one: rightly within one file system, and
    not across two. */
module SfsSource {
  import opened Basics
  import opened SfsIndex
  import opened SfsState
  import opened SfsTree

  // ---------------------------------------------------------------- numbers

  /** The numbers of regular files. */
  function RegularIds(entries: seq<DirEntry>): set<nat>
    decreases entries, 0
  {
    if entries == [] then {}
    else
      var e := entries[|entries| - 1];
      RegularIds(entries[..|entries| - 1]) + if Skipped(e) then {} else RegularIdsOf(e.node)
  }

  function RegularIdsOf(t: Tree): set<nat>
    decreases t, 1
  {
    match t
    case Regular(id, _) => {id}
    case Folder(_, entries) => RegularIds(entries)
    case _ => {}
  }

  /** The numbers of links and directories. */
  function OtherIds(entries: seq<DirEntry>): set<nat>
    decreases entries, 0
  {
    if entries == [] then {}
    else
      var e := entries[|entries| - 1];
      OtherIds(entries[..|entries| - 1]) + if Skipped(e) then {} else OtherIdsOf(e.node)
  }

  function OtherIdsOf(t: Tree): set<nat>
    decreases t, 1
  {
    match t
    case Symlink(id, _) => {id}
    case Folder(id, entries) => {id} + OtherIds(entries)
    case _ => {}
  }

  /** No regular file has the number of a link or a directory, or number 0, under which mksfs files the root. */
  predicate Separate(entries: seq<DirEntry>) {
    RegularIds(entries) !! OtherIds(entries) && 0 !in RegularIds(entries)
  }

  // ---------------------------------------------------------------- the first file met with each number

  /** The first regular file met with each number, beside those in f. */
  function Firsts(f: map<nat, Tree>, entries: seq<DirEntry>): map<nat, Tree>
    decreases entries, 0
  {
    if entries == [] then f
    else
      var e, init := entries[|entries| - 1], Firsts(f, entries[..|entries| - 1]);
      if Skipped(e) then init else FirstsOf(init, e.node)
  }

  function FirstsOf(f: map<nat, Tree>, t: Tree): map<nat, Tree>
    decreases t, 1
  {
    match t
    case Regular(id, _) => if id in f then f else f[id := t]
    case Folder(_, entries) => Firsts(f, entries)
    case _ => f
  }

  /** The tree with every regular file replaced by the one that src has for its number. */
  function ByNumber(src: map<nat, Tree>, entries: seq<DirEntry>): (r: seq<DirEntry>)
    ensures |r| == |entries|
    decreases entries, 0
  {
    if entries == [] then []
    else
      var e := entries[|entries| - 1];
      ByNumber(src, entries[..|entries| - 1]) + [if Skipped(e) then e else e.(node := ByNumberOf(src, e.node))]
  }

  function ByNumberOf(src: map<nat, Tree>, t: Tree): Tree
    decreases t, 1
  {
    match t
    case Regular(id, _) => if id in src then src[id] else t
    case Folder(id, entries) => Folder(id, ByNumber(src, entries))
    case _ => t
  }

  /** What mksfs reads. */
  function Canon(entries: seq<DirEntry>): seq<DirEntry> { ByNumber(Firsts(map[], entries), entries) }

  // ---------------------------------------------------------------- the builder reads that

  predicate FilesByNumber(src: map<nat, Tree>) {
    forall r :: r in src ==> src[r].Regular? && src[r].id == r
  }

  /** src has everything f has. */
  predicate Includes(src: map<nat, Tree>, f: map<nat, Tree>) {
    forall r :: r in f ==> r in src && src[r] == f[r]
  }

  lemma {:induction false} FirstsHas(f: map<nat, Tree>, entries: seq<DirEntry>)
    requires FilesByNumber(f)
    ensures FilesByNumber(Firsts(f, entries)) && Includes(Firsts(f, entries), f)
    ensures Firsts(f, entries).Keys == f.Keys + RegularIds(entries)
    ensures RegularIds(entries) <= Ids(entries)
    decreases entries, 0
  {
    if entries != [] {
      var e, init := entries[|entries| - 1], entries[..|entries| - 1];
      FirstsHas(f, init);
      if !Skipped(e) { FirstsOfHas(Firsts(f, init), e.node); }
    }
  }

  lemma {:induction false} FirstsOfHas(f: map<nat, Tree>, t: Tree)
    requires FilesByNumber(f)
    ensures FilesByNumber(FirstsOf(f, t)) && Includes(FirstsOf(f, t), f)
    ensures FirstsOf(f, t).Keys == f.Keys + RegularIdsOf(t)
    ensures RegularIdsOf(t) <= NodeIds(t)
    decreases t, 1
  {
    match t
    case Regular(_, _) =>
    case Folder(_, entries) => FirstsHas(f, entries);
    case _ =>
  }

  /** Nothing but data is replaced. */
  lemma {:induction false} SameIds(src: map<nat, Tree>, entries: seq<DirEntry>)
    requires FilesByNumber(src)
    ensures Ids(ByNumber(src, entries)) == Ids(entries)
    decreases entries, 0
  {
    if entries != [] {
      var e, init := entries[|entries| - 1], entries[..|entries| - 1];
      SameIds(src, init);
      var r := ByNumber(src, entries);
      assert r[..|r| - 1] == ByNumber(src, init);
      if !Skipped(e) { SameIdsOf(src, e.node); }
    }
  }

  lemma {:induction false} SameIdsOf(src: map<nat, Tree>, t: Tree)
    requires FilesByNumber(src)
    ensures NodeIds(ByNumberOf(src, t)) == NodeIds(t) && (ByNumberOf(src, t).Special? <==> t.Special?)
    decreases t, 1
  {
    match t
    case Folder(_, entries) => SameIds(src, entries);
    case _ =>
  }

  lemma {:induction false} ByNumberAt(src: map<nat, Tree>, entries: seq<DirEntry>, i: nat)
    requires i < |entries|
    ensures ByNumber(src, entries)[i] == if Skipped(entries[i]) then entries[i] else entries[i].(node := ByNumberOf(src, entries[i].node))
    ensures ByNumber(src, entries)[..i] == ByNumber(src, entries[..i])
  {
    var init, r := entries[..|entries| - 1], ByNumber(src, entries);
    assert r[..|r| - 1] == ByNumber(src, init);
    if i < |init| {
      ByNumberAt(src, init, i);
      assert r[..i] == ByNumber(src, init)[..i] && init[..i] == entries[..i];
    }
  }

  /** The firsts of a prefix are among the firsts of the whole. */
  lemma {:induction false} FirstsPrefix(f: map<nat, Tree>, entries: seq<DirEntry>, i: nat)
    requires FilesByNumber(f) && i < |entries|
    ensures var f1 := Firsts(f, entries[..i]);
            Includes(Firsts(f, entries), if Skipped(entries[i]) then f1 else FirstsOf(f1, entries[i].node))
  {
    var e, init := entries[|entries| - 1], entries[..|entries| - 1];
    FirstsHas(f, init);
    if i < |init| {
      FirstsPrefix(f, init, i);
      assert init[..i] == entries[..i];
      if !Skipped(e) { FirstsOfHas(Firsts(f, init), e.node); }
    } else {
      assert entries[..i] == init;
    }
  }

  /** A builder that has met the files in f, and maybe more numbers, reads src's files wherever src goes on from f. */
  lemma {:induction false} ReadsByNumber(seen: set<nat>, f: map<nat, Tree>, entries: seq<DirEntry>, src: map<nat, Tree>)
    requires FilesByNumber(f) && FilesByNumber(src) && f.Keys <= seen && Includes(src, Firsts(f, entries))
    ensures AllReadAs(seen, entries, ByNumber(src, entries))
    decreases entries, 0
  {
    var canon := ByNumber(src, entries);
    forall i | 0 <= i < |entries| ensures EntryReadsAs(seen + Ids(canon[..i]), entries[i], canon[i]) {
      ByNumberAt(src, entries, i);
      SameIds(src, entries[..i]);
      FirstsHas(f, entries[..i]);
      FirstsPrefix(f, entries, i);
      if !Skipped(entries[i]) {
        ReadsByNumberOf(seen + Ids(canon[..i]), Firsts(f, entries[..i]), entries[i].node, src);
      }
    }
  }

  lemma {:induction false} ReadsByNumberOf(seen: set<nat>, f: map<nat, Tree>, t: Tree, src: map<nat, Tree>)
    requires FilesByNumber(f) && FilesByNumber(src) && f.Keys <= seen && Includes(src, FirstsOf(f, t))
    ensures ReadsAs(seen, t, ByNumberOf(src, t))
    decreases t, 1
  {
    match t
    case Regular(id, _) => assert id in FirstsOf(f, t);
    case Folder(id, entries) => ReadsByNumber(seen + {id}, f, entries, src);
    case _ =>
  }

  lemma {:induction false} ByNumberConsistent(src: map<nat, Tree>, entries: seq<DirEntry>)
    requires FilesByNumber(src) && 0 !in src && RegularIds(entries) <= src.Keys && OtherIds(entries) !! src.Keys
    ensures AllConsistent(src, ByNumber(src, entries))
    decreases entries, 0
  {
    if entries != [] {
      var e, init := entries[|entries| - 1], entries[..|entries| - 1];
      ByNumberConsistent(src, init);
      if !Skipped(e) { ByNumberOfConsistent(src, e.node); }
    }
  }

  lemma {:induction false} ByNumberOfConsistent(src: map<nat, Tree>, t: Tree)
    requires FilesByNumber(src) && 0 !in src && RegularIdsOf(t) <= src.Keys && OtherIdsOf(t) !! src.Keys
    ensures Consistent(src, ByNumberOf(src, t))
    decreases t, 1
  {
    match t
    case Folder(_, entries) => ByNumberConsistent(src, entries);
    case _ =>
  }

  /** For every source tree in which regular files have numbers of their own. */
  lemma CanonIsRead(entries: seq<DirEntry>)
    requires Separate(entries)
    ensures AllReadAs({0}, entries, Canon(entries)) && AllConsistent(Firsts(map[], entries), Canon(entries)) && 0 !in Firsts(map[], entries)
  {
    var src := Firsts(map[], entries);
    FirstsHas(map[], entries);
    ReadsByNumber({0}, map[], entries, src);
    ByNumberConsistent(src, entries);
  }

  // ---------------------------------------------------------------- when that is the source

  /** Every regular file has the data that src has for its number. */
  predicate Agrees(src: map<nat, Tree>, entries: seq<DirEntry>)
    decreases entries, 0
  {
    forall e :: e in entries && !Skipped(e) ==> AgreesOf(src, e.node)
  }

  predicate AgreesOf(src: map<nat, Tree>, t: Tree)
    decreases t, 1
  {
    match t
    case Regular(id, data) => id in src && src[id].Regular? && src[id].data == data
    case Folder(_, entries) => Agrees(src, entries)
    case _ => true
  }

  /** Files with one number have the same data, namely that of the first. */
  predicate NumbersAgree(entries: seq<DirEntry>) { Agrees(Firsts(map[], entries), entries) }
}
