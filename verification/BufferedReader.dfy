/** Buffered reading (go/src/libbio: bgetc.c, bread.c, brdline.c, brdstr.c, bseek.c, boffset.c,
    bflush.c), proved to be a plain cursor over the file whatever way the kernel chops reads.

    The buffer is one array: BUNGETSIZE bytes of unget space, then bsize bytes.  The source's
    pointers bbuf, ebuf and gbuf are the indices BUNGETSIZE, BUNGETSIZE + bsize and gbuf. */
module BufferedReader {
  import opened Basics

  const BUNGETSIZE: nat := 4
  const BEOF: int := -1

  datatype State = Ractive | Racteof

  /** memmove within one array. */
  method Memmove(a: array<Byte>, dst: nat, src: nat, n: nat)
    requires dst + n <= a.Length && src + n <= a.Length
    modifies a
    ensures forall i :: dst <= i < dst + n ==> a[i] == old(a[i - dst + src])
    ensures forall i :: 0 <= i < dst || dst + n <= i < a.Length ==> a[i] == old(a[i])
  {
    forall i | dst <= i < dst + n {
      a[i] := a[i - dst + src];
    }
  }

  /** The bytes of buf from index `from` up to index `end` are the file's bytes that end at `offset`. */
  predicate Mirrors(buf: array<Byte>, from: int, end: int, file: seq<Byte>, offset: int)
    reads buf
  {
    && 0 <= from <= end <= buf.Length
    && (from < end ==> end - from <= offset <= |file|)
    && forall i :: from <= i < end ==> buf[i] == file[offset - end + i]
  }

  /** memmove of the n bytes at src, of which those from `from` on mirror the file: so do the
      copies, and nothing outside the target changes. */
  method MoveData(a: array<Byte>, dst: nat, src: nat, n: nat, ghost from: int, ghost file: seq<Byte>, ghost offset: int)
    requires dst + n <= a.Length && src <= from && Mirrors(a, from, src + n, file, offset)
    modifies a
    ensures Mirrors(a, from - src + dst, dst + n, file, offset)
    ensures forall i :: 0 <= i < dst || dst + n <= i < a.Length ==> a[i] == old(a[i])
  {
    Memmove(a, dst, src, n);
  }

  lemma TakenAll(file: seq<Byte>, cur: int, count: nat, out: seq<Byte>)
    requires cur >= 0 && |out| <= count && (|out| > 0 ==> cur + |out| <= |file| && out == file[cur..cur + |out|])
    requires |out| < count ==> cur + |out| >= |file|
    ensures out == Taken(file, cur, count)
  {
  }

  lemma SliceMore(file: seq<Byte>, cur: int, out: seq<Byte>, more: seq<Byte>)
    requires cur >= 0 && (|out| > 0 ==> cur + |out| <= |file| && out == file[cur..cur + |out|])
    requires |more| > 0 ==> cur + |out| + |more| <= |file| && more == file[cur + |out|..cur + |out| + |more|]
    ensures |out + more| > 0 ==> cur + |out + more| <= |file| && out + more == file[cur..cur + |out + more|]
  {
    if more == [] { assert out + more == out; }
  }

  class Reader {
    const file: seq<Byte>   // what the file descriptor gives, in full
    const bsize: nat
    const buf: array<Byte>
    var fpos: nat           // the kernel's file position
    var chop: seq<nat>      // how the kernel will cut the reads to come
    var icount: int
    var gbuf: nat
    var offset: int
    var state: State
    var rdline: nat
    ghost var good: nat     // where the bytes that do mirror the file really begin

    ghost predicate Valid()
      reads this, buf
    {
      && bsize > 0 && buf.Length == BUNGETSIZE + bsize
      && 0 <= offset == fpos && icount <= 0
      && BUNGETSIZE <= gbuf <= buf.Length
      && 0 <= good <= buf.Length + icount
      && Mirrors(buf, good, buf.Length, file, offset)
      && (state == Racteof ==> icount == 0 && |file| <= offset)
    }

    /** The position of the unbuffered cursor this reader stands for (boffset.c:41-44). */
    function Cursor(): int
      reads this
    {
      offset + icount
    }

    /** How many bytes before the cursor can be read again. */
    ghost function Back(): int
      reads this, buf
    {
      buf.Length - good + icount
    }

    /** gbuf bounds data that does mirror the file, so seeking by it is safe. */
    ghost predicate Exact()
      reads this
    {
      good <= gbuf
    }

    /** Binits for reading (binit.c:83-117). */
    constructor (contents: seq<Byte>, size: nat, cuts: seq<nat>)
      requires size > 0
      ensures Valid() && Exact() && fresh(buf) && file == contents && bsize == size && chop == cuts
      ensures Cursor() == 0 && state == Ractive && Back() == 0 && icount == 0
    {
      file, bsize, chop := contents, size, cuts;
      buf := new Byte[BUNGETSIZE + size];
      fpos, icount, offset, rdline := 0, 0, 0, 0;
      gbuf, good := BUNGETSIZE + size, BUNGETSIZE + size;
      state := Ractive;
    }

    /** read(2): some bytes, at least one, of those asked for; none only at the end. */
    method Read(at: nat, n: nat) returns (k: nat)
      requires n > 0 && at + n <= buf.Length
      modifies buf, this`fpos, this`chop
      ensures k == 0 <==> old(fpos) >= |file|
      ensures k <= n && fpos == old(fpos) + k && (k > 0 ==> fpos <= |file|)
      ensures forall i :: at <= i < at + k ==> buf[i] == file[old(fpos) + i - at]
      ensures forall i :: 0 <= i < at || at + k <= i < buf.Length ==> buf[i] == old(buf[i])
      ensures old(chop) == [] && k > 0 ==> chop == [] && k == Min(n, |file| - old(fpos))
    {
      if fpos >= |file| {
        return 0;
      }
      var limit := if chop == [] || chop[0] == 0 then n else Min(n, chop[0]);
      chop := if chop == [] then [] else chop[1..];
      k := Min(limit, |file| - fpos);
      forall i | at <= i < at + k {
        buf[i] := file[fpos + i - at];
      }
      fpos := fpos + k;
    }

    /** A read that continues bytes already mirroring the file. */
    method Fetch(at: nat, n: nat, ghost from: int) returns (k: nat)
      requires n > 0 && at + n <= buf.Length && 0 <= offset == fpos && Mirrors(buf, from, at, file, offset)
      modifies buf, this`fpos, this`chop
      ensures k == 0 <==> offset >= |file|
      ensures k <= n && fpos == offset + k && Mirrors(buf, from, at + k, file, offset + k)
      ensures forall i :: 0 <= i < at || at + k <= i < buf.Length ==> buf[i] == old(buf[i])
      ensures old(chop) == [] && k > 0 ==> chop == [] && k == Min(n, |file| - offset)
    {
      k := Read(at, n);
    }

    /** Boffset (boffset.c:41-44). */
    method Boffset() returns (n: int)
      requires Valid()
      ensures n == Cursor()
    {
      n := offset + icount;
    }

    /** The refill of Bgetc (bgetc.c:51-65): up to BUNGETSIZE bytes of the old buffer stay
        readable before the new ones. */
    method Refill() returns (eof: bool)
      requires Valid() && icount == 0 && state == Ractive
      modifies this, buf
      ensures Valid() && Cursor() == old(Cursor())
      ensures eof <==> old(offset) >= |file|
      ensures eof ==> icount == 0 && state == Racteof && Back() >= Min(old(Back()), bsize)
      ensures eof ==> gbuf == BUNGETSIZE && forall j :: BUNGETSIZE <= j < buf.Length ==> buf[j] == old(buf[j])
      ensures !eof ==> 0 - bsize <= icount < 0 && state == Ractive && Exact() && Back() >= Min(old(Back()), BUNGETSIZE)
    {
      var end := buf.Length;
      ghost var kept := Min(end - good, BUNGETSIZE);
      MoveData(buf, 0, end - BUNGETSIZE, BUNGETSIZE, end - kept, file, offset);
      var i := Fetch(BUNGETSIZE, bsize, BUNGETSIZE - kept);
      gbuf := BUNGETSIZE;
      if i == 0 {
        state := Racteof;
        good := Max(good, BUNGETSIZE);
        return true;
      }
      Settle(i, BUNGETSIZE, BUNGETSIZE - kept);
      eof := false;
    }

    /** The i bytes just read at bbuf, and `keep` bytes before them, are moved to the end of the
        buffer and become pending (bgetc.c:60-65, bread.c:55-61). */
    method Settle(i: nat, keep: nat, ghost from: int)
      requires bsize > 0 && buf.Length == BUNGETSIZE + bsize && 0 < i <= bsize && keep <= BUNGETSIZE
      requires 0 <= offset && fpos == offset + i && BUNGETSIZE - keep <= from <= BUNGETSIZE
      requires Mirrors(buf, from, BUNGETSIZE + i, file, offset + i) && state == Ractive
      modifies this`gbuf, this`icount, this`offset, this`good, buf
      ensures Valid() && offset == old(offset) + i && icount == 0 - i && Exact()
      ensures good == buf.Length - i - (BUNGETSIZE - from) && gbuf == (if i < bsize then buf.Length - i else BUNGETSIZE)
      ensures forall j :: 0 <= j < buf.Length - i - keep ==> buf[j] == old(buf[j])
    {
      var end := buf.Length;
      gbuf := BUNGETSIZE;
      if i < bsize {
        MoveData(buf, end - i - keep, BUNGETSIZE - keep, i + keep, from, file, offset + i);
        gbuf := end - i;
      }
      icount := 0 - i;
      offset := offset + i;
      good := end - i - (BUNGETSIZE - from);
    }

    /** Bgetc (bgetc.c:30-67). */
    method Bgetc() returns (c: int)
      requires Valid()
      modifies this, buf
      ensures Valid()
      ensures if old(Cursor()) < |file| then c == file[old(Cursor())] as int && Cursor() == old(Cursor()) + 1
              else c == BEOF && Cursor() == old(Cursor())
      ensures c != BEOF ==> Back() >= 1 + Min(old(Back()), BUNGETSIZE) && state == Ractive
      ensures c == BEOF ==> Back() >= Min(old(Back()), bsize)
      ensures c != BEOF ==> old(Exact()) ==> Exact()
      ensures c != BEOF ==> 0 - icount < Max(bsize, 0 - old(icount))
      ensures c == BEOF ==> icount == 0 && state == (if old(state) == Racteof then Ractive else Racteof)
      ensures c == BEOF && old(state) == Racteof ==> Exact() == old(Exact())
      ensures c == BEOF ==> gbuf == (if old(state) == Racteof then old(gbuf) else BUNGETSIZE)
      ensures c == BEOF ==> forall j :: BUNGETSIZE <= j < buf.Length ==> buf[j] == old(buf[j])
    {
      if icount == 0 {
        if state != Ractive {
          state := Ractive;
          return BEOF;
        }
        var eof := Refill();
        if eof {
          return BEOF;
        }
      }
      icount := icount + 1;
      c := buf[buf.Length + icount - 1] as int;
    }

    /** Bungetc (bgetc.c:69-79).  It never refuses; the byte that comes back is the file's exactly if
        one is still retained. */
    method Bungetc() returns (r: int)
      requires Valid()
      modifies this`icount, this`state
      ensures r == 1 && state == Ractive && (Valid() <==> old(Back()) >= 1)
      ensures Cursor() == old(Cursor()) - 1 && Back() == old(Back()) - 1 && Exact() == old(Exact())
    {
      if state == Racteof {
        state := Ractive;
      }
      icount := icount - 1;
      r := 1;
    }

    /** The i bytes from position `at` of the file, put at bbuf and then moved to the end of the buffer, are still
        at bbuf as far as the move has not overwritten them. */
    predicate LeftOver(at: int, i: int)
      reads buf
    {
      forall j :: BUNGETSIZE <= j < buf.Length && j < buf.Length - i && j < BUNGETSIZE + i ==>
        0 <= at + j - BUNGETSIZE < |file| && buf[j] == file[at + j - BUNGETSIZE]
    }

    /** Bread will refill the buffer once, with as many bytes as fit. */
    predicate OneRefill(count: nat)
      reads this
    {
      icount == 0 && state == Ractive && chop == [] && 0 < count <= Min(bsize, |file| - offset)
    }

    /** The refill of Bread (bread.c:48-61): nothing of the old buffer is kept. */
    method RefillPlain() returns (eof: bool)
      requires Valid() && icount == 0 && state == Ractive
      modifies this, buf
      ensures Valid() && Cursor() == old(Cursor()) && (eof <==> Cursor() >= |file|)
      ensures eof ==> icount == 0 && state == Racteof && Exact() == old(Exact()) && Back() == old(Back())
      ensures !eof ==> 0 < 0 - icount <= bsize && Exact() && state == Ractive
      ensures !eof && old(chop) == [] ==> chop == [] && 0 - icount == Min(bsize, |file| - old(offset))
      ensures !eof ==> LeftOver(old(offset), 0 - icount)
    {
      var i := Fetch(BUNGETSIZE, bsize, BUNGETSIZE);
      if i == 0 {
        state := Racteof;
        return true;
      }
      Settle(i, 0, BUNGETSIZE);
      eof := false;
    }

    /** memmove of the next n bytes out of the buffer (bread.c:64-67). */
    method TakeOut(n: nat) returns (more: seq<Byte>)
      requires Valid() && 0 < n <= 0 - icount
      modifies this`icount
      ensures Valid() && icount == old(icount) + n && Cursor() == old(Cursor()) + n && (old(Exact()) ==> Exact())
      ensures Back() == old(Back()) + n
      ensures 0 <= old(Cursor()) && old(Cursor()) + n <= |file| && more == file[old(Cursor())..old(Cursor()) + n]
    {
      var from := buf.Length + icount;
      more := buf[from..from + n];
      icount := icount + n;
    }

    lemma CursorBounds()
      requires Valid()
      ensures Cursor() >= 0 && (icount < 0 ==> offset <= |file|)
    {
    }

    /** One round of Bread (bread.c:43-68): a refill, or bytes out of the buffer. */
    method ReadOn(c: nat) returns (more: seq<Byte>, stop: bool)
      requires Valid() && c > 0
      modifies this, buf
      ensures Valid() && Cursor() == old(Cursor()) + |more| && |more| <= c && (old(Exact()) ==> Exact()) && old(Cursor()) >= 0
      ensures |more| > 0 ==> Cursor() <= |file| && more == file[old(Cursor())..Cursor()]
      ensures stop ==> more == [] && Cursor() >= |file| && Back() == old(Back()) && state == Racteof && icount == old(icount) == 0
      ensures !stop ==> state == old(state) && (old(icount) == 0 || |more| > 0)
      ensures |more| > 0 ==> |more| == Min(0 - old(icount), c) && icount == old(icount) + |more| && Back() == old(Back()) + |more|
      ensures |more| > 0 ==> chop == old(chop) && forall at, i :: old(LeftOver(at, i)) ==> LeftOver(at, i)
      ensures more == [] && !stop ==> old(icount) == 0 && 0 < 0 - icount <= bsize && Back() >= 0
      ensures more == [] && !stop && old(chop) == [] ==>
                chop == [] && 0 - icount == Min(bsize, |file| - old(offset)) && LeftOver(old(offset), 0 - icount)
    {
      hide Mirrors, LeftOver;
      CursorBounds();
      var n := Min(0 - icount, c);
      more, stop := [], false;
      if n > 0 {
        more := TakeOut(n);
      } else if state != Ractive {
        stop := true;
      } else {
        stop := RefillPlain();
      }
    }

    /** Bread (bread.c:30-71). */
    method Bread(count: nat) returns (out: seq<Byte>)
      requires Valid()
      modifies this, buf
      ensures Valid() && out == Taken(file, old(Cursor()), count) && Cursor() == old(Cursor()) + |out|
      ensures old(Exact()) ==> Exact()
      ensures 0 - icount <= Max(0 - old(icount), bsize)
      ensures Back() >= if |out| == 0 then old(Back()) else 1
      ensures state == if |out| < count then Racteof else old(state)
      ensures old(OneRefill(count)) ==>
                var i := Min(bsize, |file| - old(offset)); chop == [] && icount == count - i && LeftOver(old(offset), i)
    {
      hide Mirrors, LeftOver, Taken;
      CursorBounds();
      out := [];
      var c := count;
      ghost var cur, one, at := Cursor(), OneRefill(count), offset;
      ghost var i: int := Min(bsize, |file| - at);
      while c > 0
        invariant Valid() && 0 <= c && c + |out| == count && Cursor() == cur + |out|
        invariant |out| > 0 ==> cur + |out| <= |file| && out == file[cur..cur + |out|]
        invariant old(Exact()) ==> Exact()
        invariant 0 - icount <= Max(0 - old(icount), bsize)
        invariant state == old(state)
        invariant one ==> chop == [] && (|out| == 0 || |out| == count)
        invariant one ==> (|out| == 0 && icount == 0 && offset == at) || (icount == |out| - i && LeftOver(at, i))
        invariant if |out| > 0 then c == 0 || icount == 0 ==> Back() >= 1 else count == 0 || icount == 0 ==> Back() == old(Back())
        decreases c, if icount == 0 then 1 else 0
      {
        var more, stop := ReadOn(c);
        if stop {
          break;
        }
        SliceMore(file, cur, out, more);
        out := out + more;
        c := c - |more|;
      }
      assert c > 0 ==> Cursor() >= |file|;
      TakenAll(file, cur, count, out);
    }

    /** memchr over the n bytes at `from`: the first occurrence, or -1. */
    method Memchr(from: nat, n: nat, delim: Byte) returns (at: int)
      requires from + n <= buf.Length
      ensures at == -1 || from <= at < from + n
      ensures at >= 0 ==> buf[at] == delim
      ensures forall i :: from <= i < (if at < 0 then from + n else at) ==> buf[i] != delim
    {
      at := from;
      while at < from + n
        invariant from <= at <= from + n
        invariant forall i :: from <= i < at ==> buf[i] != delim
      {
        if buf[at] == delim {
          return;
        }
        at := at + 1;
      }
      at := -1;
    }

    /** The part of Brdline that appends to the buffer looking for the delimiter
        (brdline.c:72-112), with the i pending bytes already at bbuf. */
    method Extend(i0: nat, delim: Byte) returns (ip: int)
      requires bsize > 0 && buf.Length == BUNGETSIZE + bsize && i0 < bsize && state == Ractive
      requires 0 <= offset == fpos && Mirrors(buf, BUNGETSIZE, BUNGETSIZE + i0, file, offset)
      requires Absent(file, offset - i0, i0, delim)
      modifies this, buf
      ensures Valid() && Exact() && state == Ractive && 0 - icount <= bsize
      ensures ip >= 0 ==>
                && Ends(file, old(offset) - i0, rdline, delim) && Cursor() == old(offset) - i0 + rdline
                && Mirrors(buf, ip, ip + rdline, file, Cursor()) && rdline <= bsize && Back() >= 1
      ensures ip < 0 ==> i0 <= rdline && gbuf == buf.Length - rdline && (rdline == 0 ==> forall k :: 0 <= k < buf.Length ==> buf[k] == old(buf[k]))
      ensures ip < 0 ==>
                && Cursor() == old(offset) - i0 && rdline == 0 - icount && Absent(file, Cursor(), rdline, delim)
                && (rdline == bsize || Cursor() + rdline >= |file|)
    {
      hide Mirrors, Absent, Ends;
      var i := i0;
      ghost var cur := offset - i0;
      gbuf := BUNGETSIZE;
      while i < bsize
        invariant i <= bsize && 0 <= offset == fpos == cur + i && state == Ractive
        invariant Mirrors(buf, BUNGETSIZE, BUNGETSIZE + i, file, offset)
        invariant Absent(file, cur, i, delim) && gbuf == BUNGETSIZE
        invariant i0 <= i
        invariant i == 0 ==> forall k :: 0 <= k < buf.Length ==> buf[k] == old(buf[k])
        decreases bsize - i
      {
        var j := Fetch(BUNGETSIZE + i, bsize - i, BUNGETSIZE);
        if j == 0 {
          Lodge(i);
          rdline := i;
          return -1;
        }
        offset := offset + j;
        var ep := Memchr(BUNGETSIZE + i, j, delim);
        StillAbsent(buf, file, cur, i, j, ep, delim);
        i := i + j;
        if ep >= 0 {
          ip := Hit(i, ep, delim, cur);
          return;
        }
      }
      Lodge(i);
      rdline := bsize;
      ip := -1;
    }

    /** The delimiter was found at index ep among the i bytes at bbuf (brdline.c:93-101). */
    method Hit(i: nat, ep: nat, delim: Byte, ghost cur: int) returns (ip: int)
      requires bsize > 0 && buf.Length == BUNGETSIZE + bsize && i <= bsize && state == Ractive
      requires 0 <= offset == fpos == cur + i && Mirrors(buf, BUNGETSIZE, BUNGETSIZE + i, file, offset)
      requires BUNGETSIZE <= ep < BUNGETSIZE + i && buf[ep] == delim && Absent(file, cur, ep - BUNGETSIZE, delim)
      modifies this`gbuf, this`icount, this`good, this`rdline, buf
      ensures Valid() && Exact() && state == Ractive && 0 - icount <= bsize
      ensures 0 <= ip && Ends(file, cur, rdline, delim) && Cursor() == cur + rdline
      ensures Mirrors(buf, ip, ip + rdline, file, Cursor()) && rdline <= bsize && Back() >= 1
    {
      Lodge(i);
      ip := buf.Length - i;
      rdline := ep - BUNGETSIZE + 1;
      icount := rdline - i;
    }

    /** The i bytes at bbuf go to the end of the buffer and become pending. */
    method Lodge(i: nat)
      requires bsize > 0 && buf.Length == BUNGETSIZE + bsize && i <= bsize && state == Ractive
      requires 0 <= offset == fpos && Mirrors(buf, BUNGETSIZE, BUNGETSIZE + i, file, offset)
      modifies this`gbuf, this`icount, this`good, buf
      ensures Valid() && Exact() && icount == 0 - i && good == gbuf == buf.Length - i
      ensures i == 0 ==> forall k :: 0 <= k < buf.Length ==> buf[k] == old(buf[k])
    {
      if i < bsize {
        MoveData(buf, buf.Length - i, BUNGETSIZE, i, BUNGETSIZE, file, offset);
      }
      icount := 0 - i;
      gbuf, good := buf.Length - i, buf.Length - i;
    }

    /** The pending bytes move to the front and the rest of the line is read behind them
        (brdline.c:65-104). */
    method FromFront(i: nat, delim: Byte) returns (ip: int)
      requires Valid() && i == 0 - icount < bsize && state == Ractive && Absent(file, Cursor(), i, delim)
      modifies this, buf
      ensures Valid() && Exact() && state == Ractive && 0 - icount <= bsize
      ensures ip >= 0 ==>
                && Ends(file, old(Cursor()), rdline, delim) && Cursor() == old(Cursor()) + rdline
                && Mirrors(buf, ip, ip + rdline, file, Cursor()) && rdline <= bsize && Back() >= 1
      ensures ip < 0 && rdline == 0 ==> Back() == old(Back())
      ensures ip < 0 ==>
                && Cursor() == old(Cursor()) && rdline == 0 - icount && Absent(file, Cursor(), rdline, delim)
                && (rdline == bsize || Cursor() + rdline >= |file|)
    {
      hide Absent, Ends, Mirrors;
      PendingMirrors();
      ghost var before, kept := buf[..], good;
      MirrorsSays(buf, good, file, offset);
      MoveData(buf, BUNGETSIZE, buf.Length - i, i, buf.Length - i, file, offset);
      ip := Extend(i, delim);
      if ip < 0 && rdline == 0 {
        StillMirrors(buf, before, kept, file, offset);
        good := kept;
      }
    }

    /** Brdline (brdline.c:30-113).  It returns the index of a line and its length in rdline, or
        -1 with the bytes it has without finding the delimiter: a full buffer or the rest of the
        file.  The cursor then stays put, unless more than bsize bytes were pending, in which
        case the excess is silently skipped. */
    method Brdline(delim: Byte) returns (ip: int)
      requires Valid()
      modifies this, buf
      ensures Valid() && state == Ractive && (old(Exact()) || ip < 0 ==> Exact())
      ensures 0 - icount <= Max(bsize, 0 - old(icount))
      ensures ip >= 0 ==>
                && Ends(file, old(Cursor()), rdline, delim) && Cursor() == old(Cursor()) + rdline
                && Mirrors(buf, ip, ip + rdline, file, Cursor()) && rdline <= Max(bsize, 0 - old(icount)) && Back() >= 1
      ensures ip < 0 && rdline == 0 ==> Back() == old(Back())
      ensures ip < 0 ==> Absent(file, old(Cursor()), 0 - old(icount), delim)
      ensures ip < 0 ==>
                && Cursor() == old(Cursor()) + Max(0, 0 - old(icount) - bsize)
                && rdline == 0 - icount <= bsize && Absent(file, Cursor(), rdline, delim)
                && (rdline == bsize || Cursor() + rdline >= |file|)
    {
      var i := 0 - icount;
      if i == 0 && state != Ractive {
        state := Ractive;
        rdline := 0;
        gbuf := buf.Length;
        return -1;
      }
      hide Absent, Ends, Mirrors;
      ip := FirstTry(i, delim);
      if ip < 0 {
        if i < bsize {
          ip := FromFront(i, delim);
        } else {
          FullBuffer(delim);
        }
      }
    }

    lemma PendingMirrors()
      requires Valid()
      ensures Mirrors(buf, buf.Length + icount, buf.Length, file, offset)
    {
    }

    /** The search in the bytes already pending (brdline.c:53-60). */
    method FirstTry(i: nat, delim: Byte) returns (ip: int)
      requires Valid() && i == 0 - icount && state == Ractive
      modifies this`rdline, this`icount
      ensures Valid()
      ensures ip >= 0 ==>
                && Ends(file, old(Cursor()), rdline, delim) && Cursor() == old(Cursor()) + rdline
                && Mirrors(buf, ip, ip + rdline, file, Cursor()) && rdline <= i && Back() >= 1
      ensures ip < 0 ==> icount == old(icount) && Absent(file, Cursor(), i, delim)
    {
      ip := buf.Length - i;
      var ep := Memchr(ip, i, delim);
      NotSeen(buf, good, buf.Length, file, offset, ip, if ep < 0 then buf.Length else ep, delim);
      if ep >= 0 {
        rdline := ep - ip + 1;
        icount := icount + rdline;
        return;
      }
      ip := -1;
    }

    /** A full buffer without the delimiter (brdline.c:106-112). */
    method FullBuffer(delim: Byte)
      requires Valid() && 0 - icount >= bsize && Absent(file, Cursor(), 0 - icount, delim) && state == Ractive
      modifies this`gbuf, this`rdline, this`icount
      ensures Valid() && Exact() && icount == 0 - bsize && rdline == bsize && Absent(file, Cursor(), bsize, delim)
    {
      gbuf := BUNGETSIZE;
      rdline := bsize;
      icount := 0 - bsize;
    }

    /** How many bytes Brdline skips: those pending beyond a buffer, if no delimiter is pending. */
    ghost function Excess(delim: Byte): nat
      reads this
    {
      if 0 - icount > bsize && Absent(file, Cursor(), 0 - icount, delim) then 0 - icount - bsize else 0
    }

    /** Brdstr (brdstr.c:27-60): the bytes up to and including the next delimiter, or the rest of
        the file, whatever the buffer size and however the reads are cut.  They begin at the cursor
        exactly unless more than a buffer is pending without a delimiter. */
    method Brdstr(delim: Byte, nulldelim: bool) returns (r: Option<seq<Byte>>)
      requires Valid()
      modifies this, buf
      ensures Valid() && 0 - icount <= Max(bsize, 0 - old(icount)) && (old(Exact()) ==> Exact()) && state == Ractive
      ensures r == None <==> old(Cursor()) >= |file|
      ensures r == None ==> Cursor() == old(Cursor()) && Back() == old(Back())
      ensures r.Some? ==> Back() >= 1
      ensures r.Some? ==> IsLine(file, old(Cursor()) + old(Excess(delim)), delim, nulldelim, r.value, Cursor())
    {
      hide Mirrors, Absent, Ends, IsSlice, IsLine, LineEnd, Taken, Excess;
      ghost var start := Cursor() + Excess(delim);
      var found, q := NextPiece(delim);  // the first round, the only one that may skip
      if |q| == 0 {
        return None;
      }
      while !found
        invariant Valid() && 0 - icount <= (if found then Max(bsize, 0 - old(icount)) else bsize) && (old(Exact()) ==> Exact()) && state == Ractive
        invariant q != [] && Cursor() == start + |q| && Cursor() <= |file| && Back() >= 1 && IsSlice(file, start, q)
        invariant if found then Ends(file, start, |q|, delim) else Absent(file, start, |q|, delim)
        decreases |file| - Cursor(), !found
      {
        NoExcess(delim);
        var piece;
        found, piece := NextPiece(delim);
        SliceAppend(file, start, q, piece, delim);
        if !found && |piece| == 0 {
          break;
        }
        q := q + piece;
      }
      WholeLine(file, start, q, found, delim, nulldelim);
      if found && nulldelim {
        q := q[|q| - 1 := 0];
      }
      r := Some(q);
    }

    lemma NoExcess(delim: Byte)
      ensures 0 - icount <= bsize ==> Excess(delim) == 0
    {
    }

    /** One Brdline with, when it finds no delimiter, the Bread that follows it
        (brdstr.c:36-56). */
    method NextPiece(delim: Byte) returns (found: bool, piece: seq<Byte>)
      requires Valid()
      modifies this, buf
      ensures Valid() && 0 - icount <= (if found then Max(bsize, 0 - old(icount)) else bsize) && (old(Exact()) ==> Exact()) && state == Ractive
      ensures var start := old(Cursor()) + old(Excess(delim));
              && Cursor() == (if |piece| == 0 then old(Cursor()) else start + |piece|) && IsSlice(file, start, piece)
              && if found then Ends(file, start, |piece|, delim) else Absent(file, start, |piece|, delim)
      ensures |piece| == 0 <==> old(Cursor()) >= |file|
      ensures |piece| > 0 ==> Cursor() <= |file|
      ensures found ==> |piece| > 0
      ensures if |piece| == 0 then Back() == old(Back()) && old(Excess(delim)) == 0 else Back() >= 1
    {
      hide Absent, Ends, Mirrors, IsSlice, Taken;
      CursorBounds();
      ghost var cur := Cursor();
      var p := Brdline(delim);
      found := p >= 0;
      if found {
        EndsWithin(file, cur, rdline, delim);
        if 0 - old(icount) > bsize { EndsNotAbsent(file, cur, rdline, 0 - old(icount), delim); }
        MirrorsSlice(buf, p, p + rdline, file, Cursor());
        piece := buf[p..p + rdline];
      } else if rdline == 0 {
        NothingYet(file, cur, delim);
        piece := [];
      } else {
        AbsentWithin(file, Cursor(), rdline, delim);
        TakenSlice(file, Cursor(), rdline);
        piece := Bread(rdline);
      }
    }

    /** lseek(2) with base 0 or 2; a position before the start is refused. */
    method Lseek(n: int, base: int) returns (r: int)
      modifies this`fpos
      ensures var to := if base == 0 then n else |file| + n;
              if to < 0 then r == -1 && fpos == old(fpos) else r == to == fpos
    {
      var to := if base == 0 then n else |file| + n;
      if to < 0 {
        return -1;
      }
      fpos := to;
      r := to;
    }

    /** Where a seek is meant to go. */
    function Target(off: int, base: int): int
      reads this
    {
      if base == 0 then off else if base == 1 then Cursor() + off else |file| + off
    }

    /** Moving the cursor by d stays within what gbuf says is buffered (bseek.c:64-75). */
    predicate InBuffer(d: int)
      reads this, buf
    {
      && gbuf <= buf.Length && gbuf - buf.Length <= d <= buf.Length - gbuf
      && if d >= 0 then icount + d <= 0 else 0 - (icount + d) <= buf.Length - gbuf
    }

    /** Bseek (bseek.c:43-92).  To a target that exists it always reports success, and the bytes
        that follow are vouched for as the file's exactly unless the seek stayed in the buffer and
        went back past what is retained, which needs a gbuf that is not exact; the bytes there may
        still be right by luck.  A target before the start leaves the reader believing it stands at -1. */
    method Bseek(off: int, base: int) returns (r: int)
      requires Valid() && 0 <= base <= 2
      modifies this
      ensures old(state == Racteof || Exact()) ==>
                var to := old(Target(off, base));
                if to >= 0 then r == to && Valid() && Exact() && Cursor() == to && state == Ractive
                                && 0 - icount <= Max(bsize, 0 - old(icount))
                else r == -1 && offset == -1 && !Valid()
      ensures old(Target(off, base)) >= 0 ==> r == old(Target(off, base)) == Cursor() && state == Ractive
      ensures old(Target(off, base)) >= 0 ==>
                (Valid() <==> !old(state == Ractive && base < 2 && InBuffer(Target(off, base) - Cursor()) && Target(off, base) < Cursor() - Back()))
      ensures old(Target(off, base)) >= 0 && (base == 2 || old(Target(off, base) < Cursor() - bsize)) ==> Exact()
      ensures 0 - icount <= Max(bsize, 0 - old(icount))
      ensures old(state == Ractive && base < 2 && InBuffer(Target(off, base) - Cursor())) ==>
                r == old(Target(off, base)) && icount == r - offset
                && unchanged(this`offset, this`gbuf, this`fpos, this`good)
    {
      assert buf.Length - good <= offset;
      hide Mirrors;
      var b := base;
      if state == Racteof {
        state := Ractive;
        icount := 0;
        gbuf := buf.Length;
      }
      var n := off;
      if b == 1 {
        n := n + (offset + icount);
        b := 0;
      }
      if b == 0 {
        var d := n - (offset + icount);
        var bufsz := buf.Length - gbuf;
        if 0 - bufsz <= d <= bufsz {
          icount := icount + d;
          if d >= 0 {
            if icount <= 0 {
              return n;
            }
          } else {
            if buf.Length - gbuf >= 0 - icount {
              return n;
            }
          }
        }
      }
      n := Lseek(n, b);
      NothingMirrors(buf, file, n);
      icount := 0;
      gbuf, good := buf.Length, buf.Length;
      offset := n;
      r := n;
    }

    /** Bflush on a reader (bflush.c:50-56): buffered bytes are forgotten, so the cursor jumps to
        where the kernel stands. */
    method Bflush() returns (r: int)
      requires Valid()
      modifies this`icount, this`gbuf, this`state
      ensures Valid() && Exact() && r == 0 && state == Ractive && Cursor() == old(offset)
    {
      state := Ractive;
      icount := 0;
      gbuf := buf.Length;
      r := 0;
    }
  }

  /** Three bytes read through a two-byte buffer, then end of file met by one Bgetc and cleared by another.
      gbuf now covers the whole buffer although its first byte is left over from the last, short refill.
      Seeking to the second byte stays in the buffer, and the byte pending there is the third. */
  method StaleSeek(x: Byte, y: Byte, z: Byte) returns (b: Reader, c: int)
    requires y != z
    ensures fresh(b) && b.file == [x, y, z] && b.Cursor() == 1 && c == z as int != b.file[1] as int
  {
    b := ReadThree(x, y, z);
    hide Mirrors, Reader.LeftOver;
    var end := b.Bgetc();
    end := b.Bgetc();
    var r := b.Bseek(1, 0);
    c := b.buf[b.buf.Length + b.icount] as int;
  }

  method ReadThree(x: Byte, y: Byte, z: Byte) returns (b: Reader)
    ensures fresh(b) && fresh(b.buf) && b.Valid() && b.file == [x, y, z] && b.bsize == 2 && b.offset == 3 && b.icount == 0 && b.state == Ractive
    ensures b.buf[BUNGETSIZE] == z
  {
    hide Mirrors;
    b := new Reader([x, y, z], 2, []);
    var first := b.Bread(2);
    var second := b.Bread(1);
  }

  /** The n bytes of the file from cur on do not contain the delimiter. */
  predicate Absent(file: seq<Byte>, cur: int, n: nat, delim: Byte) {
    cur >= 0 && (n > 0 ==> cur + n <= |file|) && forall k :: cur <= k < cur + n ==> file[k] != delim
  }

  /** What is not in the buffer is not in the file where the two agree. */
  lemma NotSeen(buf: array<Byte>, from: int, end: int, file: seq<Byte>, offset: int, lo: int, hi: int, delim: Byte)
    requires Mirrors(buf, from, end, file, offset) && from <= lo <= hi <= end
    requires forall i :: lo <= i < hi ==> buf[i] != delim
    ensures forall k :: offset - end + lo <= k < offset - end + hi ==> 0 <= k < |file| && file[k] != delim
  {
    forall k | offset - end + lo <= k < offset - end + hi ensures 0 <= k < |file| && file[k] != delim {
      assert buf[k - offset + end] != delim;
    }
  }

  /** j more bytes at the end of those at bbuf, searched up to ep. */
  lemma StillAbsent(buf: array<Byte>, file: seq<Byte>, cur: int, i: nat, j: nat, ep: int, delim: Byte)
    requires Mirrors(buf, BUNGETSIZE, BUNGETSIZE + i + j, file, cur + i + j) && j > 0 && Absent(file, cur, i, delim)
    requires ep == -1 || BUNGETSIZE + i <= ep < BUNGETSIZE + i + j
    requires forall k :: BUNGETSIZE + i <= k < (if ep < 0 then BUNGETSIZE + i + j else ep) ==> buf[k] != delim
    ensures if ep < 0 then Absent(file, cur, i + j, delim) else Absent(file, cur, ep - BUNGETSIZE, delim)
  {
    NotSeen(buf, BUNGETSIZE, BUNGETSIZE + i + j, file, cur + i + j, BUNGETSIZE + i, if ep < 0 then BUNGETSIZE + i + j else ep, delim);
  }

  /** The n bytes of the file from cur on end with its first delimiter there. */
  predicate Ends(file: seq<Byte>, cur: int, n: nat, delim: Byte) {
    n > 0 && Absent(file, cur, n - 1, delim) && cur + n <= |file| && file[cur + n - 1] == delim
  }

  predicate IsSlice(file: seq<Byte>, cur: int, q: seq<Byte>) {
    q == [] || (0 <= cur && cur + |q| <= |file| && q == file[cur..cur + |q|])
  }

  lemma MirrorsSays(buf: array<Byte>, lo: nat, file: seq<Byte>, end: int)
    requires Mirrors(buf, lo, buf.Length, file, end)
    ensures lo <= buf.Length && (lo < buf.Length ==> buf.Length - lo <= end <= |file|)
    ensures forall k :: lo <= k < buf.Length ==> buf[..][k] == file[end - buf.Length + k]
  {
  }

  lemma NothingMirrors(buf: array<Byte>, file: seq<Byte>, end: int)
    ensures Mirrors(buf, buf.Length, buf.Length, file, end)
  {
  }

  lemma StillMirrors(buf: array<Byte>, before: seq<Byte>, lo: nat, file: seq<Byte>, end: int)
    requires |before| == buf.Length && lo <= buf.Length && (forall k :: 0 <= k < buf.Length ==> buf[k] == before[k])
    requires lo < buf.Length ==> buf.Length - lo <= end <= |file|
    requires forall k :: lo <= k < buf.Length ==> before[k] == file[end - buf.Length + k]
    ensures Mirrors(buf, lo, buf.Length, file, end)
  {
  }

  lemma MirrorsSlice(buf: array<Byte>, lo: nat, hi: nat, file: seq<Byte>, end: int)
    requires lo <= hi && Mirrors(buf, lo, hi, file, end)
    ensures hi <= buf.Length && IsSlice(file, end - (hi - lo), buf[lo..hi])
  {
  }

  lemma EndsWithin(file: seq<Byte>, cur: int, n: nat, delim: Byte)
    requires Ends(file, cur, n, delim)
    ensures n > 0 && 0 <= cur && cur + n <= |file|
  {
  }

  lemma EndsNotAbsent(file: seq<Byte>, cur: int, n: nat, m: nat, delim: Byte)
    requires Ends(file, cur, n, delim) && n <= m
    ensures !Absent(file, cur, m, delim)
  {
    assert file[cur + n - 1] == delim;
  }

  lemma AbsentWithin(file: seq<Byte>, cur: int, n: nat, delim: Byte)
    requires Absent(file, cur, n, delim) && n > 0
    ensures 0 <= cur && cur + n <= |file|
  {
  }

  lemma TakenSlice(file: seq<Byte>, cur: int, n: nat)
    requires cur >= 0
    ensures IsSlice(file, cur, Taken(file, cur, n)) && (cur + n <= |file| ==> |Taken(file, cur, n)| == n)
  {
  }

  lemma NothingYet(file: seq<Byte>, cur: int, delim: Byte)
    requires cur >= 0
    ensures Absent(file, cur, 0, delim) && IsSlice(file, cur, [])
  {
  }

  lemma SliceAppend(file: seq<Byte>, cur: int, q: seq<Byte>, piece: seq<Byte>, delim: Byte)
    requires IsSlice(file, cur, q) && IsSlice(file, cur + |q|, piece) && Absent(file, cur, |q|, delim)
    ensures IsSlice(file, cur, q + piece)
    ensures Absent(file, cur + |q|, |piece|, delim) ==> Absent(file, cur, |q + piece|, delim)
    ensures Ends(file, cur + |q|, |piece|, delim) ==> Ends(file, cur, |q + piece|, delim)
    ensures |piece| > 0 ==> cur + |q + piece| <= |file|
  {
    if q == [] { assert q + piece == piece; } else if piece == [] { assert q + piece == q; }
  }

  /** The string Brdstr makes of the bytes it has collected. */
  lemma AsText(file: seq<Byte>, cur: int, q: seq<Byte>, delim: Byte, nulldelim: bool)
    requires q != [] && IsSlice(file, cur, q)
    ensures q[|q| - 1] == file[cur + |q| - 1] && file[cur..cur + |q|] == q
    ensures q[|q| - 1 := 0] == file[cur..cur + |q| - 1] + [0]
  {
  }

  /** What Brdstr returns when it has collected a line, or the rest of the file. */
  predicate IsLine(file: seq<Byte>, start: int, delim: Byte, nulldelim: bool, r: seq<Byte>, end: int) {
    && 0 <= start < end <= |file| && end == LineEnd(file, start, delim)
    && r == (if nulldelim && file[end - 1] == delim then file[start..end - 1] + [0] else file[start..end])
  }

  /** The position just past the first delimiter at or after cur, or the end of the file. */
  function LineEnd(file: seq<Byte>, cur: int, delim: Byte): (e: int)
    requires cur >= 0
    ensures cur < |file| ==> cur < e <= |file|
    decreases |file| - cur
  {
    if cur >= |file| then |file| else if file[cur] == delim then cur + 1 else LineEnd(file, cur + 1, delim)
  }

  lemma {:induction false} LineEndAbsent(file: seq<Byte>, cur: int, n: nat, delim: Byte)
    requires Absent(file, cur, n, delim) || (n == 0 && cur >= 0)
    ensures LineEnd(file, cur, delim) == LineEnd(file, cur + n, delim)
    decreases n
  {
    if n > 0 { LineEndAbsent(file, cur + 1, n - 1, delim); }
  }

  lemma LineEndAt(file: seq<Byte>, cur: int, n: nat, delim: Byte)
    requires Ends(file, cur, n, delim)
    ensures LineEnd(file, cur, delim) == cur + n
  {
    LineEndAbsent(file, cur, n - 1, delim);
  }

  lemma LineEndRest(file: seq<Byte>, cur: int, n: nat, delim: Byte)
    requires n > 0 && Absent(file, cur, n, delim) && cur + n >= |file|
    ensures LineEnd(file, cur, delim) == cur + n == |file| && file[cur + n - 1] != delim
  {
    LineEndAbsent(file, cur, n, delim);
  }

  lemma WholeLine(file: seq<Byte>, start: int, q: seq<Byte>, found: bool, delim: Byte, nulldelim: bool)
    requires q != [] && IsSlice(file, start, q)
    requires if found then Ends(file, start, |q|, delim) else Absent(file, start, |q|, delim) && start + |q| >= |file|
    ensures IsLine(file, start, delim, nulldelim, if found && nulldelim then q[|q| - 1 := 0] else q, start + |q|)
  {
    if found { LineEndAt(file, start, |q|, delim); } else { LineEndRest(file, start, |q|, delim); }
    AsText(file, start, q, delim, nulldelim);
  }

  /** What reading n bytes from position cur of the file gives. */
  function Taken(file: seq<Byte>, cur: int, n: nat): seq<Byte>
    requires cur >= 0
  {
    if cur >= |file| then [] else file[cur..Min(cur + n, |file|)]
  }

  // ---------------------------------------------------------------- whole runs

  datatype Op =
    | Getc | Ungetc | Get(n: nat) | RdLine(delim: Byte) | GetLine(delim: Byte, nulldelim: bool) | Seek(off: int, base: int) | Tell

  datatype Reply = Char(c: int) | Bytes(bytes: seq<Byte>) | NoLine(pending: nat) | Line(line: Option<seq<Byte>>) | Position(pos: int)

  /** An unbuffered cursor, with what a caller must know to use the buffered one properly: how
      many bytes it may certainly unget, how many it has put back beyond a buffer's worth, and
      whether an end of file has been met by Getc (`eof`) and since been cleared (`!exact`). */
  datatype Plain = Plain(cur: int, credit: nat, excess: nat, exact: bool, eof: bool)

  function Goal(file: seq<Byte>, cur: int, off: int, base: int): int {
    if base == 0 then off else if base == 1 then cur + off else |file| + off
  }

  /** The calls the buffered reader supports: unget what is retained, read lines with no more than
      a buffer pending, seek to a position that exists; after a cleared end of file, not backwards
      past what is certainly retained unless it is out of reach of the buffer. */
  predicate Legal(file: seq<Byte>, bsize: nat, p: Plain, op: Op) {
    match op
    case Ungetc => p.credit > 0
    case RdLine(_) => p.excess == 0
    case GetLine(_, _) => p.excess == 0
    case Seek(off, base) =>
      var goal := Goal(file, p.cur, off, base);
      0 <= base <= 2 && goal >= 0 && (p.exact || p.eof || base == 2 || goal >= p.cur - p.credit || goal < p.cur - bsize)
    case _ => true
  }

  /** What the unbuffered cursor answers, and where it then stands. */
  function Answer(file: seq<Byte>, bsize: nat, p: Plain, op: Op): Reply
    requires p.cur >= 0
  {
    match op
    case Getc => Char(if p.cur < |file| then file[p.cur] as int else BEOF)
    case Ungetc => Char(1)
    case Get(n) => Bytes(Taken(file, p.cur, n))
    case RdLine(delim) =>
      if LineWithin(file, bsize, p.cur, delim) then Bytes(file[p.cur..LineEnd(file, p.cur, delim)])
      else NoLine(|Taken(file, p.cur, bsize)|)
    case GetLine(delim, nulldelim) => Line(LineText(file, p.cur, delim, nulldelim))
    case Seek(off, base) => Position(Goal(file, p.cur, off, base))
    case Tell => Position(p.cur)
  }

  /** The next delimiter is among the bsize bytes from cur on. */
  predicate LineWithin(file: seq<Byte>, bsize: nat, cur: int, delim: Byte)
    requires cur >= 0
  {
    cur < |file| && LineEnd(file, cur, delim) <= cur + bsize && file[LineEnd(file, cur, delim) - 1] == delim
  }

  function LineText(file: seq<Byte>, cur: int, delim: Byte, nulldelim: bool): Option<seq<Byte>>
    requires cur >= 0
  {
    if cur >= |file| then None
    else
      var end := LineEnd(file, cur, delim);
      Some(if nulldelim && file[end - 1] == delim then file[cur..end - 1] + [0] else file[cur..end])
  }

  function Advance(file: seq<Byte>, bsize: nat, p: Plain, op: Op): Plain
    requires p.cur >= 0
  {
    match op
    case Getc =>
      if p.cur < |file| then Plain(p.cur + 1, 1 + Min(p.credit, BUNGETSIZE), Max(p.excess - 1, 0), p.exact, false)
      else Plain(p.cur, Min(p.credit, bsize), 0, p.eof && p.exact, !p.eof)
    case Ungetc => Plain(p.cur - 1, Max(p.credit - 1, 0), p.excess + 1, p.exact, false)
    case Get(n) =>
      var taken := |Taken(file, p.cur, n)|;
      Plain(p.cur + taken, if taken == 0 then p.credit else 1, p.excess, p.exact, taken < n || p.eof)
    case RdLine(delim) =>
      if LineWithin(file, bsize, p.cur, delim) then Plain(LineEnd(file, p.cur, delim), 1, 0, p.exact, false)
      else Plain(p.cur, if p.cur >= |file| then p.credit else 0, 0, true, false)
    case GetLine(delim, _) =>
      if p.cur >= |file| then Plain(p.cur, p.credit, 0, p.exact, false) else Plain(LineEnd(file, p.cur, delim), 1, 0, p.exact, false)
    case Seek(off, base) =>
      var goal := Goal(file, p.cur, off, base);
      Plain(goal, 0, p.excess, p.exact || p.eof || base == 2 || goal < p.cur - bsize, false)
    case Tell => p
  }

  /** The buffered reader stands where the plain cursor does, and owes it no less. */
  ghost predicate Stands(b: Reader, p: Plain)
    reads b, b.buf
  {
    && b.Valid() && b.Cursor() == p.cur && p.credit <= b.Back() && 0 - b.icount <= b.bsize + p.excess
    && (p.exact ==> b.Exact()) && (p.eof <==> b.state == Racteof)
  }

  /** One call. */
  method Perform(b: Reader, ghost p: Plain, op: Op) returns (reply: Reply)
    requires Stands(b, p) && Legal(b.file, b.bsize, p, op)
    modifies b, b.buf
    ensures p.cur >= 0 && reply == Answer(b.file, b.bsize, p, op) && Stands(b, Advance(b.file, b.bsize, p, op))
  {
    assert p.cur >= 0;
    hide Mirrors, LineEnd, Legal, Stands, Answer, Advance;
    match op {
      case Get(n) => reply := PerformGet(b, p, n);
      case RdLine(delim) => reply := PerformRdLine(b, p, delim);
      case GetLine(delim, nulldelim) => reply := PerformGetLine(b, p, delim, nulldelim);
      case Seek(off, base) => reply := PerformSeek(b, p, off, base);
      case _ => reply := PerformChar(b, p, op);
    }
  }

  method PerformChar(b: Reader, ghost p: Plain, op: Op) returns (reply: Reply)
    requires Stands(b, p) && Legal(b.file, b.bsize, p, op) && (op.Getc? || op.Ungetc? || op.Tell?)
    modifies b, b.buf
    ensures p.cur >= 0 && reply == Answer(b.file, b.bsize, p, op) && Stands(b, Advance(b.file, b.bsize, p, op))
  {
    assert p.cur >= 0;
    hide Mirrors, LineEnd;
    match op {
      case Getc => var c := b.Bgetc(); reply := Char(c);
      case Ungetc => var r := b.Bungetc(); reply := Char(r);
      case Tell => var n := b.Boffset(); reply := Position(n);
    }
  }

  method PerformGet(b: Reader, ghost p: Plain, n: nat) returns (reply: Reply)
    requires Stands(b, p) && Legal(b.file, b.bsize, p, Get(n))
    modifies b, b.buf
    ensures p.cur >= 0 && reply == Answer(b.file, b.bsize, p, Get(n)) && Stands(b, Advance(b.file, b.bsize, p, Get(n)))
  {
    assert p.cur >= 0;
    hide Mirrors, LineEnd;
    var bytes := b.Bread(n);
    reply := Bytes(bytes);
  }

  method PerformGetLine(b: Reader, ghost p: Plain, delim: Byte, nulldelim: bool) returns (reply: Reply)
    requires Stands(b, p) && Legal(b.file, b.bsize, p, GetLine(delim, nulldelim))
    modifies b, b.buf
    ensures p.cur >= 0 && reply == Answer(b.file, b.bsize, p, GetLine(delim, nulldelim))
    ensures Stands(b, Advance(b.file, b.bsize, p, GetLine(delim, nulldelim)))
  {
    assert p.cur >= 0;
    hide Mirrors, LineEnd;
    var line := b.Brdstr(delim, nulldelim);
    reply := Line(line);
  }

  method PerformRdLine(b: Reader, ghost p: Plain, delim: Byte) returns (reply: Reply)
    requires Stands(b, p) && Legal(b.file, b.bsize, p, RdLine(delim))
    modifies b, b.buf
    ensures p.cur >= 0 && reply == Answer(b.file, b.bsize, p, RdLine(delim)) && Stands(b, Advance(b.file, b.bsize, p, RdLine(delim)))
  {
    assert p.cur >= 0;
    hide Mirrors, LineEnd, LineWithin, Taken;
    reply := LineReply(b, delim);
  }

  /** A Brdline with at most a buffer pending: its answer depends on file, cursor and buffer size
      alone. */
  method LineReply(b: Reader, delim: Byte) returns (reply: Reply)
    requires b.Valid() && b.Cursor() >= 0 && 0 - b.icount <= b.bsize
    modifies b, b.buf
    ensures b.Valid() && b.state == Ractive && 0 - b.icount <= b.bsize
    ensures if LineWithin(b.file, b.bsize, old(b.Cursor()), delim) then
              && reply == Bytes(b.file[old(b.Cursor())..LineEnd(b.file, old(b.Cursor()), delim)])
              && b.Cursor() == LineEnd(b.file, old(b.Cursor()), delim) && b.Back() >= 1 && (old(b.Exact()) ==> b.Exact())
            else
              && reply == NoLine(|Taken(b.file, old(b.Cursor()), b.bsize)|) && b.Cursor() == old(b.Cursor()) && b.Exact()
              && (b.Cursor() >= |b.file| ==> b.Back() == old(b.Back()))
  {
    hide Mirrors, LineEnd, Ends, Absent, LineWithin, Taken, IsSlice;
    ghost var cur := b.Cursor();
    var ip := b.Brdline(delim);
    if ip >= 0 {
      EndsWithin(b.file, cur, b.rdline, delim);
      MirrorsSlice(b.buf, ip, ip + b.rdline, b.file, b.Cursor());
      LineFound(b.file, b.bsize, cur, b.rdline, delim, b.buf[ip..ip + b.rdline]);
      reply := Bytes(b.buf[ip..ip + b.rdline]);
    } else {
      LineMissing(b.file, b.bsize, cur, b.rdline, delim);
      reply := NoLine(b.rdline);
    }
  }

  lemma LineFound(file: seq<Byte>, bsize: nat, cur: int, n: nat, delim: Byte, line: seq<Byte>)
    requires cur >= 0 && n <= bsize && Ends(file, cur, n, delim) && IsSlice(file, cur, line) && |line| == n
    ensures LineWithin(file, bsize, cur, delim) && LineEnd(file, cur, delim) == cur + n && line == file[cur..cur + n]
  {
    LineEndAt(file, cur, n, delim);
  }

  lemma LineMissing(file: seq<Byte>, bsize: nat, cur: int, n: nat, delim: Byte)
    requires cur >= 0 && n <= bsize && Absent(file, cur, n, delim) && (n == bsize || cur + n >= |file|)
    ensures !LineWithin(file, bsize, cur, delim) && |Taken(file, cur, bsize)| == n && (cur >= |file| ==> n == 0)
  {
    LineEndAbsent(file, cur, n, delim);
  }

  method PerformSeek(b: Reader, ghost p: Plain, off: int, base: int) returns (reply: Reply)
    requires Stands(b, p) && Legal(b.file, b.bsize, p, Seek(off, base))
    modifies b, b.buf
    ensures p.cur >= 0 && reply == Answer(b.file, b.bsize, p, Seek(off, base)) && Stands(b, Advance(b.file, b.bsize, p, Seek(off, base)))
  {
    assert p.cur >= 0;
    hide Mirrors, LineEnd;
    var n := b.Bseek(off, base);
    reply := Position(n);
  }

  /** Every call of a run is legal where it happens. */
  predicate LegalRun(file: seq<Byte>, bsize: nat, p: Plain, ops: seq<Op>)
    decreases |ops|
  {
    ops == [] || (p.cur >= 0 && Legal(file, bsize, p, ops[0]) && LegalRun(file, bsize, Advance(file, bsize, p, ops[0]), ops[1..]))
  }

  function Answers(file: seq<Byte>, bsize: nat, p: Plain, ops: seq<Op>): seq<Reply>
    requires LegalRun(file, bsize, p, ops)
    decreases |ops|
  {
    if ops == [] then []
    else [Answer(file, bsize, p, ops[0])] + Answers(file, bsize, Advance(file, bsize, p, ops[0]), ops[1..])
  }

  method Continue(b: Reader, ghost p: Plain, ops: seq<Op>) returns (replies: seq<Reply>)
    requires Stands(b, p) && LegalRun(b.file, b.bsize, p, ops)
    modifies b, b.buf
    ensures replies == Answers(b.file, b.bsize, p, ops)
    decreases |ops|
  {
    if ops == [] {
      return [];
    }
    var first := Perform(b, p, ops[0]);
    var rest := Continue(b, Advance(b.file, b.bsize, p, ops[0]), ops[1..]);
    replies := [first] + rest;
  }

  const AT_START := Plain(0, 0, 0, true, false)

  /** Whole runs: opened on any file with any buffer size, and with the kernel cutting reads any
      way it likes, every legal run of calls gives exactly the answers of the plain cursor. */
  method Transcript(file: seq<Byte>, bsize: nat, cuts: seq<nat>, ops: seq<Op>) returns (replies: seq<Reply>)
    requires bsize > 0 && LegalRun(file, bsize, AT_START, ops)
    ensures replies == Answers(file, bsize, AT_START, ops)
  {
    var b := new Reader(file, bsize, cuts);
    replies := Continue(b, AT_START, ops);
  }
}
