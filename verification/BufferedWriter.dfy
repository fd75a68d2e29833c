/** Buffered writing (go/src/libbio: bputc.c, bwrite.c, bflush.c, boffset.c, binit.c): the file
    followed by the buffer is everything that was put, until the kernel refuses a write. */
module BufferedWriter {
  import opened Basics

  const BEOF: int := -1

  datatype State = Wactive | Inactive

  /** The kernel takes all n bytes of each of the next `writes` writes. */
  predicate Takes(limits: seq<nat>, writes: nat, n: nat) {
    forall i :: 0 <= i < writes && i < |limits| ==> limits[i] >= n
  }

  /** What the kernel will take after that many writes. */
  function Later(limits: seq<nat>, writes: nat): seq<nat> {
    if writes <= |limits| then limits[writes..] else []
  }

  /** How many times the buffer is full and more is to come when len bytes are put behind the f in it. */
  function Fulls(f: int, len: nat, bsize: nat): nat
    requires bsize > 0 && f >= 0
  {
    if len == 0 then 0 else (f + len - 1) / bsize
  }

  function Buffers(full: nat, bsize: nat): nat { full * bsize }

  lemma FullsAre(f: int, len: nat, bsize: nat, full: nat, p: int)
    requires bsize > 0 && f >= 0 && len > 0 && f + len == Buffers(full, bsize) + p && 1 <= p <= bsize
    ensures Fulls(f, len, bsize) == full
  {
    DivIs(f + len - 1, bsize, full, p - 1);
  }

  lemma DivIs(x: int, d: nat, q: int, r: int)
    requires d > 0 && x == q * d + r && 0 <= r < d
    ensures x / d == q
  {
    var k := q - x / d;
    assert x == d * (x / d) + x % d;
    assert k * d == x % d - r;
    if k >= 1 { AtLeast(k, d); } else if k <= -1 { AtLeast(-k, d); }
  }

  lemma AtLeast(k: nat, d: nat)
    requires k >= 1
    ensures k * d >= d
  {
    assert k * d == (k - 1) * d + d && (k - 1) * d >= 0;
  }

  lemma MoreFulls(f: int, len: nat, bsize: nat, full: nat)
    requires bsize > 0 && f >= 0 && f + len > Buffers(full, bsize) + bsize && len > 0
    ensures Fulls(f, len, bsize) > full && Buffers(full + 1, bsize) == Buffers(full, bsize) + bsize
  {
    var q := (f + len - 1) / bsize;
    assert f + len - 1 == bsize * q + (f + len - 1) % bsize;
    if q < full { AtLeast(full - q, bsize); }
  }

  lemma TakesMore(limits: seq<nat>, full: nat, writes: nat, n: nat)
    requires full < writes && Takes(limits, full, n)
    ensures Takes(limits, writes, n) ==> Takes(Later(limits, full), 1, n)
    ensures Takes(Later(limits, full), 1, n) ==> Takes(limits, full + 1, n)
    ensures Later(Later(limits, full), 1) == Later(limits, full + 1)
  {
    if full < |limits| { assert Later(limits, full)[0] == limits[full]; }
  }

  /** After c of len bytes put behind the f in the buffer, p are in it and `full` buffers have gone out. */
  ghost predicate Sent(limits: seq<nat>, f: int, c: nat, len: nat, p: int, bsize: nat, full: nat, now: seq<nat>) {
    && bsize > 0 && f >= 0 && c <= len && 0 <= p <= bsize && f + c == Buffers(full, bsize) + p
    && (c == len > 0 ==> p > 0) && (len == 0 ==> full == 0)
    && Takes(limits, full, bsize) && now == Later(limits, full)
  }

  lemma NothingSent(limits: seq<nat>, f: int, len: nat, bsize: nat)
    requires 0 <= f <= bsize && bsize > 0
    ensures Sent(limits, f, 0, len, f, bsize, 0, limits)
  {
  }

  lemma OneSent(limits: seq<nat>, f: int, c: nat, len: nat, bsize: nat, full: nat, now: seq<nat>)
    requires Sent(limits, f, c, len, bsize, bsize, full, now) && c < len
    ensures Takes(limits, Fulls(f, len, bsize), bsize) ==> Takes(now, 1, bsize)
    ensures Takes(now, 1, bsize) ==> Sent(limits, f, c, len, 0, bsize, full + 1, Later(now, 1))
  {
    hide Takes, Later, Fulls, Buffers;
    MoreFulls(f, len, bsize, full);
    TakesMore(limits, full, Fulls(f, len, bsize), bsize);
  }

  lemma MoreToSend(limits: seq<nat>, f: int, c: nat, len: nat, p: int, n: nat, bsize: nat, full: nat, now: seq<nat>)
    requires Sent(limits, f, c, len, p, bsize, full, now) && n > 0 && c + n <= len && p + n <= bsize
    ensures Sent(limits, f, c + n, len, p + n, bsize, full, now)
  {
    hide Takes, Later, Buffers;
  }

  lemma AllSent(limits: seq<nat>, f: int, len: nat, p: int, bsize: nat, full: nat, now: seq<nat>)
    requires Sent(limits, f, len, len, p, bsize, full, now)
    ensures Fulls(f, len, bsize) == full && Takes(limits, full, bsize) && now == Later(limits, full)
  {
    if len > 0 { FullsAre(f, len, bsize, full, p); }
  }

  class Writer {
    const bsize: nat
    const buf: array<Byte>
    var ocount: int
    var offset: int
    var state: State
    var disk: seq<Byte>     // the file, created empty
    var limits: seq<nat>    // how many bytes the kernel will take of the writes to come

    predicate Valid()
      reads this
    {
      && bsize > 0 && buf.Length == bsize && 0 - bsize <= ocount <= 0
      && (state == Wactive ==> offset == |disk|)
    }

    /** Everything put so far: what is in the file, then what is in the buffer. */
    function Stream(): seq<Byte>
      requires Valid()
      reads this, buf
    {
      disk + buf[..bsize + ocount]
    }

    /** How many bytes are in the buffer. */
    function Pending(): int
      reads this
    {
      bsize + ocount
    }

    /** Binits for writing (binit.c:83-117). */
    constructor (size: nat, cuts: seq<nat>)
      requires size > 0
      ensures Valid() && fresh(buf) && state == Wactive && Stream() == [] && bsize == size && limits == cuts
    {
      bsize, buf, limits := size, new Byte[size], cuts;
      ocount, offset, state, disk := 0 - size, 0, Wactive, [];
    }

    /** write(2) of the first n bytes of the buffer; fewer than n means failure. */
    method Write(n: nat) returns (k: nat)
      requires n <= buf.Length
      modifies this`disk, this`limits
      ensures k <= n && disk == old(disk) + buf[..k]
      ensures (k == n <==> Takes(old(limits), 1, n)) && limits == Later(old(limits), 1)
    {
      k := if limits == [] then n else Min(n, limits[0]);
      limits := if limits == [] then [] else limits[1..];
      disk := disk + buf[..k];
    }

    /** Boffset (boffset.c:46-48). */
    method Boffset() returns (n: int)
      requires Valid()
      ensures state == Wactive ==> n == |Stream()|
      ensures state == Inactive ==> n == BEOF
    {
      n := if state == Wactive then offset + (bsize + ocount) else BEOF;
    }

    /** Bflush (bflush.c:35-48, 58). */
    method Bflush() returns (r: int)
      requires Valid()
      modifies this
      ensures Valid() && (r == 0 || r == BEOF)
      ensures r == 0 ==> old(state) == state == Wactive && disk == Stream() == old(Stream()) && ocount == 0 - bsize
      ensures r == BEOF ==> state == Inactive && disk <= old(Stream())
      ensures old(state) == Inactive ==> disk == old(disk)
      ensures r == 0 <==> old(state) == Wactive && (old(Pending()) == 0 || Takes(old(limits), 1, old(Pending())))
      ensures limits == Later(old(limits), if old(state) == Wactive && old(Pending()) > 0 then 1 else 0)
    {
      if state == Inactive {
        return BEOF;
      }
      var n := bsize + ocount;
      if n == 0 {
        return 0;
      }
      var c := Write(n);
      if n == c {
        offset := offset + n;
        ocount := 0 - bsize;
        return 0;
      }
      state := Inactive;
      ocount := 0;
      r := BEOF;
    }

    /** Bputc (bputc.c:30-46).  After a refused Bwrite the buffer may still have room, and then a
        byte is accepted that can never reach the file. */
    method Bputc(c: Byte) returns (r: int)
      requires Valid()
      modifies this, buf
      ensures Valid() && (r == 0 || r == BEOF)
      ensures old(state) == Wactive && r == 0 ==> state == Wactive && Stream() == old(Stream()) + [c]
      ensures r == BEOF ==> state == Inactive && disk <= old(Stream())
      ensures old(state) == Inactive ==> disk == old(disk) && (r == 0 <==> old(ocount) != 0)
      ensures old(state) == Wactive ==> (r == 0 <==> old(Pending()) < bsize || Takes(old(limits), 1, bsize))
      ensures old(state) == Wactive ==> limits == Later(old(limits), if old(Pending()) < bsize then 0 else 1)
    {
      if ocount == 0 {
        r := Bflush();
        if r == BEOF {
          return;
        }
      }
      Store(c);
      r := 0;
    }

    method Store(c: Byte)
      requires Valid() && ocount != 0
      modifies this`ocount, buf
      ensures Valid() && Stream() == old(Stream()) + [c]
    {
      ghost var before := buf[..bsize + ocount];
      buf[bsize + ocount] := c;
      ocount := ocount + 1;
      assert buf[..bsize + ocount] == before + [c];
    }

    /** The full buffer goes out (bwrite.c:48-53). */
    method WriteBuffer() returns (ok: bool)
      requires Valid() && state == Wactive
      modifies this`disk, this`limits, this`offset, this`state
      ensures Valid() && (ok <==> state == Wactive) && disk <= old(disk) + buf[..]
      ensures ok ==> disk == old(disk) + buf[..]
      ensures (ok <==> Takes(old(limits), 1, bsize)) && limits == Later(old(limits), 1)
    {
      var i := Write(bsize);
      assert buf[..bsize] == buf[..];
      ok := i == bsize;
      if ok {
        offset := offset + i;
      } else {
        state := Inactive;
      }
    }

    /** Bwrite (bwrite.c:30-64).  ocount is only written back when all of the data has gone in. */
    method Bwrite(data: seq<Byte>) returns (r: int)
      requires Valid()
      modifies this, buf
      ensures Valid() && (r == |data| || r == BEOF)
      ensures old(state) == Wactive && r != BEOF ==> state == Wactive && Stream() == old(Stream()) + data
      ensures r == BEOF ==> state == Inactive && (old(state) == Wactive ==> disk <= old(Stream()) + data)
      ensures old(state) == Inactive ==> disk == old(disk)
      ensures old(state) == Wactive ==> (r != BEOF <==> Takes(old(limits), Fulls(old(Pending()), |data|, bsize), bsize))
      ensures old(state) == Wactive && r != BEOF ==> limits == Later(old(limits), Fulls(old(Pending()), |data|, bsize))
    {
      hide Takes, Later, Fulls, Sent;
      var c, oc := 0, ocount;
      assert data[..0] == [];
      ghost var full: nat, f := 0, Pending();
      NothingSent(limits, f, |data|, bsize);
      while c < |data|
        invariant state == Wactive ==> Sent(old(limits), f, c, |data|, bsize + oc, bsize, full, limits)
        invariant 0 <= c <= |data| && 0 - bsize <= oc <= 0 && Valid() && state == old(state) && ocount == old(ocount)
        invariant state == Wactive ==> disk + buf[..bsize + oc] == old(Stream()) + data[..c]
        invariant state == Inactive ==> disk == old(disk)
        decreases |data| - c, if oc == 0 then 1 else 0
      {
        var n := Min(0 - oc, |data| - c);
        if n == 0 {
          if state != Wactive {
            return BEOF;
          }
          assert buf[..bsize + oc] == buf[..];
          OneSent(old(limits), f, c, |data|, bsize, full, limits);
          var ok := WriteBuffer();
          PrefixOf(old(Stream()), data, c, disk);
          if !ok {
            return BEOF;
          }
          oc, full := 0 - bsize, full + 1;
          assert disk + buf[..bsize + oc] == disk;
        } else {
          ghost var kept := buf[..bsize + oc];
          Fill(bsize + oc, data[c..c + n]);
          MoreStored(disk, kept, data, c, n, buf[..bsize + oc + n], old(Stream()));
          if state == Wactive { MoreToSend(old(limits), f, c, |data|, bsize + oc, n, bsize, full, limits); }
          oc := oc + n;
          c := c + n;
        }
      }
      assert data[..c] == data;
      if state == Wactive { AllSent(old(limits), f, |data|, bsize + oc, bsize, full, limits); }
      ocount := oc;
      r := |data|;
    }

    /** memmove of data into the buffer at index `at`. */
    method Fill(at: nat, data: seq<Byte>)
      requires at + |data| <= buf.Length
      modifies buf
      ensures buf[..at + |data|] == old(buf[..at]) + data
    {
      forall i | at <= i < at + |data| {
        buf[i] := data[i - at];
      }
    }
  }

  lemma MoreStored(disk: seq<Byte>, kept: seq<Byte>, data: seq<Byte>, c: nat, n: nat, now: seq<Byte>, before: seq<Byte>)
    requires c + n <= |data| && now == kept + data[c..c + n]
    ensures disk + kept == before + data[..c] ==> disk + now == before + data[..c + n]
  {
    assert data[..c + n] == data[..c] + data[c..c + n];
    assert disk + now == disk + kept + data[c..c + n];
  }

  lemma PrefixOf(before: seq<Byte>, data: seq<Byte>, c: nat, disk: seq<Byte>)
    requires c <= |data|
    ensures disk <= before + data[..c] ==> disk <= before + data
  {
    assert before + data == before + data[..c] + data[c..];
  }

  // ---------------------------------------------------------------- whole runs

  datatype Op = Putc(c: Byte) | Put(data: seq<Byte>) | Flush

  /** Everything a run of calls puts. */
  function AllBytes(ops: seq<Op>): seq<Byte> {
    if ops == [] then [] else AllBytes(ops[..|ops| - 1]) + Puts(ops[|ops| - 1])
  }

  function Puts(op: Op): seq<Byte> {
    match op
    case Putc(c) => [c]
    case Put(data) => data
    case Flush => []
  }

  /** The kernel takes whatever fits a buffer. */
  predicate Generous(limits: seq<nat>, bsize: nat) {
    forall i :: 0 <= i < |limits| ==> limits[i] >= bsize
  }

  /** One call. */
  method Issue(w: Writer, op: Op) returns (r: int)
    requires w.Valid() && w.state == Wactive
    modifies w, w.buf
    ensures Generous(old(w.limits), w.bsize) ==> r != BEOF && Generous(w.limits, w.bsize)
    ensures r != BEOF ==> w.Valid() && w.state == Wactive && w.Stream() == old(w.Stream()) + Puts(op)
    ensures r == BEOF ==> w.disk <= old(w.Stream()) + Puts(op)
  {
    match op {
      case Putc(c) => r := w.Bputc(c);
      case Put(data) => r := w.Bwrite(data);
      case Flush => r := w.Bflush();
    }
  }

  /** A run of calls on a fresh file, stopped at the first refused write and closed with a final
      flush as Bterm does: if nothing was refused the file is exactly what was put; in any
      case it is a prefix of it.  It is refused only by a kernel that takes less than a buffer. */
  method Session(bsize: nat, limits: seq<nat>, ops: seq<Op>) returns (file: seq<Byte>, ok: bool)
    requires bsize > 0
    ensures ok ==> file == AllBytes(ops)
    ensures file <= AllBytes(ops)
    ensures Generous(limits, bsize) ==> ok
  {
    var w := new Writer(bsize, limits);
    var i := 0;
    while i < |ops|
      invariant 0 <= i <= |ops| && fresh(w) && fresh(w.buf) && w.Valid() && w.state == Wactive
      invariant w.Stream() == AllBytes(ops[..i]) && w.bsize == bsize && (Generous(limits, bsize) ==> Generous(w.limits, bsize))
    {
      AllBytesStep(ops, i);
      var r := Issue(w, ops[i]);
      if r == BEOF {
        AllBytesPrefix(ops, i + 1);
        return w.disk, false;
      }
      i := i + 1;
    }
    assert ops[..i] == ops;
    var r := w.Bflush();
    file, ok := w.disk, r == 0;
  }

  lemma AllBytesStep(ops: seq<Op>, i: nat)
    requires i < |ops|
    ensures AllBytes(ops[..i + 1]) == AllBytes(ops[..i]) + Puts(ops[i])
  {
    assert ops[..i + 1][..i] == ops[..i];
  }

  lemma {:induction false} AllBytesPrefix(ops: seq<Op>, i: nat)
    requires i <= |ops|
    ensures AllBytes(ops[..i]) <= AllBytes(ops)
    decreases |ops| - i
  {
    if i < |ops| {
      AllBytesStep(ops, i);
      AllBytesPrefix(ops, i + 1);
    } else {
      assert ops[..i] == ops;
    }
  }
}
