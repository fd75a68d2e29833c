/** The compressed pc/line table and its two decoders, pc2line and line2addr
    (go/src/libmach/sym.c:1302-1391). */
module PcLine {
  import opened Basics

  const WORD: int := 0x1_0000_0000_0000_0000  // uvlong
  const NONE: int := WORD - 1                 // ~0 as a uvlong
  const HUGEINT: int := 0x7fff_ffff

  /** int32 arithmetic wraps. */
  function Wrap32(x: int): (r: int)
    ensures -0x8000_0000 <= r <= HUGEINT
    ensures -0x8000_0000 <= x <= HUGEINT ==> r == x
  {
    (x + 0x8000_0000) % 0x1_0000_0000 - 0x8000_0000
  }

  function Wrap64(x: int): (r: int)
    ensures 0 <= r < WORD
    ensures 0 <= x < WORD ==> r == x
  {
    x % WORD
  }

  /** The symbol-table globals the decoders read. */
  datatype Tables = Tables(pcline: seq<Byte>, quant: nat, txtstart: nat, txtend: nat, firstinstr: nat)

  datatype Row = Row(pc: int, line: int)

  /** Length of the entry at c: a zero byte is followed by a four-byte line delta. */
  function Width(t: seq<Byte>, c: nat): nat
    requires c < |t|
  {
    if t[c] == 0 then 5 else 1
  }

  /** The table ends at an entry boundary. */
  predicate Complete(t: seq<Byte>, c: nat)
    decreases |t| - c
  {
    c == |t| || (c < |t| && c + Width(t, c) <= |t| && Complete(t, c + Width(t, c)))
  }

  function BigEndian(t: seq<Byte>, c: nat): int
    requires c + 4 < |t|
  {
    Wrap32(t[c + 1] as int * 0x100_0000 + t[c + 2] as int * 0x1_0000 + t[c + 3] as int * 0x100 + t[c + 4] as int)
  }

  /** What the entry at c does to the current row. */
  function Apply(t: seq<Byte>, quant: nat, c: nat, r: Row): Row
    requires c < |t| && c + Width(t, c) <= |t|
  {
    var u := t[c] as int;
    if u == 0 then Row(Wrap64(r.pc + quant), Wrap32(r.line + BigEndian(t, c)))
    else if u < 65 then Row(Wrap64(r.pc + quant), Wrap32(r.line + u))
    else if u < 129 then Row(Wrap64(r.pc + quant), Wrap32(r.line - (u - 64)))
    else Row(Wrap64(Wrap64(r.pc + quant * (u - 129)) + quant), r.line)
  }

  /** The rows the table encodes from entry c on, starting from row r. */
  function Rows(t: seq<Byte>, quant: nat, c: nat, r: Row): (rows: seq<Row>)
    requires Complete(t, c)
    ensures |rows| > 0 && rows[0] == r
    decreases |t| - c
  {
    if c == |t| then [r] else [r] + Rows(t, quant, c + Width(t, c), Apply(t, quant, c, r))
  }

  /** Position of the first row at or past pc, or of the last row. */
  function Reach(rows: seq<Row>, pc: int): (k: nat)
    requires |rows| > 0
    ensures k < |rows|
    ensures k + 1 < |rows| ==> rows[k].pc >= pc
    ensures forall j :: 0 <= j < k ==> rows[j].pc < pc
  {
    if rows[0].pc >= pc || |rows| == 1 then 0 else 1 + Reach(rows[1..], pc)
  }

  /** Where each decoder starts. */
  function Start(t: Tables): Row {
    Row(Wrap64(t.txtstart - t.quant), 0)
  }

  function PcStart(t: Tables): Row {
    Row(Wrap64((if t.firstinstr != 0 then t.firstinstr else t.txtstart) - t.quant), 0)
  }

  function AllRows(t: Tables): (rows: seq<Row>)
    requires Complete(t.pcline, 0)
    ensures |rows| > 0
  {
    Rows(t.pcline, t.quant, 0, Start(t))
  }

  // ---------------------------------------------------------------- the format

  /** One entry of the table, as whoever writes it means it: pass over `count` instructions on the line, or pass
      over one and move to another line. */
  datatype Entry = Skip(count: nat) | Up(lines: nat) | Down(lines: nat) | Jump(delta: int)

  predicate Encodable(e: Entry) {
    match e
    case Skip(count) => 1 <= count <= 127
    case Up(lines) => 1 <= lines <= 64
    case Down(lines) => 1 <= lines <= 64
    case Jump(delta) => -0x8000_0000 <= delta <= 0x7fff_ffff
  }

  /** The bytes of an entry: 1 to 64 up, 65 to 128 down, from 129 on a skip, and 0 before a big-endian int32. */
  function Encode(e: Entry): (b: seq<Byte>)
    requires Encodable(e)
    ensures |b| == if e.Jump? then 5 else 1
  {
    match e
    case Skip(count) => [(128 + count) as Byte]
    case Up(lines) => [lines as Byte]
    case Down(lines) => [(64 + lines) as Byte]
    case Jump(delta) =>
      var u := if delta < 0 then delta + 0x1_0000_0000 else delta;
      [0, (u / 0x100_0000) as Byte, (u / 0x1_0000 % 0x100) as Byte, (u / 0x100 % 0x100) as Byte, (u % 0x100) as Byte]
  }

  predicate AllEncodable(es: seq<Entry>) {
    forall i :: 0 <= i < |es| ==> Encodable(es[i])
  }

  function EncodeAll(es: seq<Entry>): seq<Byte>
    requires AllEncodable(es)
  {
    if es == [] then [] else Encode(es[0]) + EncodeAll(es[1..])
  }

  /** Where an entry leads. */
  function Go(e: Entry, quant: nat, r: Row): Row {
    match e
    case Skip(count) => Row(Wrap64(r.pc + quant * count), r.line)
    case Up(lines) => Row(Wrap64(r.pc + quant), Wrap32(r.line + lines))
    case Down(lines) => Row(Wrap64(r.pc + quant), Wrap32(r.line - lines))
    case Jump(delta) => Row(Wrap64(r.pc + quant), Wrap32(r.line + delta))
  }

  /** The rows meant by a sequence of entries. */
  function Walk(es: seq<Entry>, quant: nat, r: Row): (rows: seq<Row>)
    ensures |rows| == |es| + 1 && rows[0] == r
  {
    if es == [] then [r] else [r] + Walk(es[1..], quant, Go(es[0], quant, r))
  }

  lemma BytesOf(u: nat)
    requires u < 0x1_0000_0000
    ensures u / 0x100_0000 * 0x100_0000 + u / 0x1_0000 % 0x100 * 0x1_0000 + u / 0x100 % 0x100 * 0x100 + u % 0x100 == u
  {
    var a, b, c := u / 0x100, u / 0x1_0000, u / 0x100_0000;
    assert b == a / 0x100 && c == b / 0x100;
    assert u == 0x100 * a + u % 0x100 && a == 0x100 * b + a % 0x100 && b == 0x100 * c + b % 0x100;
  }

  /** The entry at c of a table is decoded as it was meant. */
  lemma EntryDecodes(t: seq<Byte>, quant: nat, c: nat, e: Entry, r: Row)
    requires Encodable(e) && c + |Encode(e)| <= |t| && t[c..c + |Encode(e)|] == Encode(e)
    ensures Width(t, c) == |Encode(e)| && Apply(t, quant, c, r) == Go(e, quant, r)
  {
    var b := Encode(e);
    assert t[c] == t[c..c + |b|][0];
    match e {
      case Skip(count) =>
        assert t[c] as int == 128 + count;
        SkipTwice(quant, count, r.pc);
      case Up(_) =>
      case Down(_) =>
      case Jump(delta) =>
        var x := t[c..c + 5];
        assert t[c + 1] == x[1] && t[c + 2] == x[2] && t[c + 3] == x[3] && t[c + 4] == x[4];
        var u := if delta < 0 then delta + 0x1_0000_0000 else delta;
        BytesOf(u);
        assert Wrap32(u) == delta;
    }
  }

  /** The decoders add the instructions in two portions. */
  lemma SkipTwice(quant: nat, count: nat, pc: int)
    requires count > 0
    ensures Wrap64(Wrap64(pc + quant * (count - 1)) + quant) == Wrap64(pc + quant * count)
  {
    assert quant * count == quant * (count - 1) + quant;
    var x := pc + quant * (count - 1);
    assert x == WORD * (x / WORD) + x % WORD;
    AddMultiple(x % WORD + quant, x / WORD);
  }

  lemma AddMultiple(x: int, k: int)
    ensures (x + WORD * k) % WORD == x % WORD
  {
    assert x == WORD * (x / WORD) + x % WORD;
    assert x + WORD * k == WORD * (x / WORD + k) + x % WORD;
    SmallRemainder(x + WORD * k, x / WORD + k, x % WORD);
  }

  lemma SmallRemainder(x: int, q: int, r: int)
    requires x == WORD * q + r && 0 <= r < WORD
    ensures x % WORD == r
  {
  }

  /** Whatever is encoded is decoded: the rows of the encoding of any entries are the rows they mean. */
  lemma {:induction false} TableDecodes(before: seq<Byte>, es: seq<Entry>, quant: nat, r: Row)
    requires AllEncodable(es)
    ensures Complete(before + EncodeAll(es), |before|) && Rows(before + EncodeAll(es), quant, |before|, r) == Walk(es, quant, r)
    decreases |es|
  {
    hide Encode, Apply, Go, Width, Encodable;
    var t := before + EncodeAll(es);
    if es != [] {
      var b := Encode(es[0]);
      assert t == before + b + EncodeAll(es[1..]);
      TableDecodes(before + b, es[1..], quant, Go(es[0], quant, r));
      assert t[|before|..|before| + |b|] == b;
      EntryDecodes(t, quant, |before|, es[0], r);
    }
  }

  /** Every table that ends at an entry boundary is the encoding of some entries. */
  lemma {:induction false} EveryTableIsEncoded(t: seq<Byte>, c: nat) returns (es: seq<Entry>)
    requires Complete(t, c)
    ensures AllEncodable(es) && EncodeAll(es) == t[c..]
    decreases |t| - c
  {
    if c == |t| {
      es := [];
    } else {
      var e := EntryAt(t, c);
      var w := |Encode(e)|;
      var rest := EveryTableIsEncoded(t, c + w);
      es := [e] + rest;
      assert es[1..] == rest && t[c..] == t[c..c + w] + t[c + w..];
    }
  }

  lemma EntryAt(t: seq<Byte>, c: nat) returns (e: Entry)
    requires c < |t| && c + Width(t, c) <= |t|
    ensures Encodable(e) && |Encode(e)| == Width(t, c) && t[c..c + Width(t, c)] == Encode(e)
  {
    var u := t[c] as int;
    if 1 <= u <= 64 {
      e := Up(u);
    } else if 65 <= u <= 128 {
      e := Down(u - 64);
    } else if u >= 129 {
      e := Skip(u - 128);
    } else {
      var x := t[c + 1] as int * 0x100_0000 + t[c + 2] as int * 0x1_0000 + t[c + 3] as int * 0x100 + t[c + 4] as int;
      e := Jump(if x < 0x8000_0000 then x else x - 0x1_0000_0000);
      Digits(t[c + 1] as int, t[c + 2] as int, t[c + 3] as int, t[c + 4] as int);
    }
  }

  lemma Digits(a: nat, b: nat, c: nat, d: nat)
    requires a < 0x100 && b < 0x100 && c < 0x100 && d < 0x100
    ensures var x := a * 0x100_0000 + b * 0x1_0000 + c * 0x100 + d;
            x < 0x1_0000_0000 && x / 0x100_0000 == a && x / 0x1_0000 % 0x100 == b && x / 0x100 % 0x100 == c && x % 0x100 == d
  {
    var x := a * 0x100_0000 + b * 0x1_0000 + c * 0x100 + d;
    assert x / 0x100 == a * 0x1_0000 + b * 0x100 + c;
    assert x / 0x1_0000 == a * 0x100 + b;
  }

  /** The line of the first row at or past pc. */
  function Look(es: seq<Entry>, quant: nat, r: Row, pc: int): int {
    var rows := Walk(es, quant, r);
    rows[Reach(rows, pc)].line
  }

  /** So the rows of any table are what its entries mean. */
  lemma RowsAreMeant(t: seq<Byte>, es: seq<Entry>, quant: nat, r: Row)
    requires AllEncodable(es) && t == EncodeAll(es)
    ensures Complete(t, 0) && Rows(t, quant, 0, r) == Walk(es, quant, r)
  {
    TableDecodes([], es, quant, r);
    assert [] + EncodeAll(es) == t;
  }

  // ---------------------------------------------------------------- pc2line

  /** One loop iteration of either decoder moves one row along. */
  lemma OneRow(t: seq<Byte>, quant: nat, all: seq<Row>, done: nat, c: nat, r: Row)
    requires Complete(t, c) && c < |t| && done <= |all| && all[done..] == Rows(t, quant, c, r)
    ensures done + 1 < |all| && all[done] == r
    ensures Complete(t, c + Width(t, c)) && all[done + 1..] == Rows(t, quant, c + Width(t, c), Apply(t, quant, c, r))
  {
    var rest := Rows(t, quant, c + Width(t, c), Apply(t, quant, c, r));
    assert all[done..] == [r] + rest;
    assert all[done + 1..] == all[done..][1..];
  }

  /** pc2line: the line of the first row at or past pc, and -1 outside the text segment.
      An empty table stands for pcline == 0. */
  method Pc2Line(t: Tables, pc: int) returns (line: int)
    requires Complete(t.pcline, 0)
    ensures line == LineOf(t, pc)
    ensures t.pcline != [] && PcStart(t).pc <= pc <= t.txtend ==>
              forall es :: AllEncodable(es) && EncodeAll(es) == t.pcline ==> line == Look(es, t.quant, PcStart(t), pc)
  {
    hide Apply, Rows, Complete, Reach, Wrap64, EncodeAll, AllEncodable, Walk;
    forall es | AllEncodable(es) && EncodeAll(es) == t.pcline
      ensures Rows(t.pcline, t.quant, 0, PcStart(t)) == Walk(es, t.quant, PcStart(t))
    {
      RowsAreMeant(t.pcline, es, t.quant, PcStart(t));
    }
    if t.pcline == [] {
      return -1;
    }
    var start := PcStart(t);
    var currline, currpc := 0, start.pc;
    if pc < currpc || pc > t.txtend {
      return -1;
    }
    var c := 0;
    ghost var all := Rows(t.pcline, t.quant, 0, start);
    ghost var done := 0;
    assert all[0..] == all;
    while c < |t.pcline| && currpc < pc
      invariant 0 <= c <= |t.pcline| && Complete(t.pcline, c)
      invariant done < |all| && all[done..] == Rows(t.pcline, t.quant, c, Row(currpc, currline))
      invariant forall j :: 0 <= j < done ==> all[j].pc < pc
      decreases |t.pcline| - c
    {
      OneRow(t.pcline, t.quant, all, done, c, Row(currpc, currline));
      CompleteHere(t.pcline, c);
      var next := Apply(t.pcline, t.quant, c, Row(currpc, currline));
      c := c + Width(t.pcline, c);
      currpc, currline := next.pc, next.line;
      done := done + 1;
    }
    line := currline;
    if c == |t.pcline| { LastRow(t.pcline, t.quant, Row(currpc, currline)); }
    assert all[done] == all[done..][0] == Row(currpc, currline);
    ReachIs(all, pc, done);
  }

  lemma CompleteHere(t: seq<Byte>, c: nat)
    requires Complete(t, c) && c < |t|
    ensures c + Width(t, c) <= |t|
  {
  }

  lemma LastRow(t: seq<Byte>, quant: nat, r: Row)
    ensures Complete(t, |t|) && Rows(t, quant, |t|, r) == [r]
  {
  }

  lemma ReachIs(rows: seq<Row>, pc: int, k: nat)
    requires k < |rows| && (k + 1 < |rows| ==> rows[k].pc >= pc)
    requires forall j :: 0 <= j < k ==> rows[j].pc < pc
    ensures Reach(rows, pc) == k
  {
  }

  function LineOf(t: Tables, pc: int): int
    requires Complete(t.pcline, 0)
  {
    if t.pcline == [] || pc < PcStart(t).pc || pc > t.txtend then -1
    else
      var rows := Rows(t.pcline, t.quant, 0, PcStart(t));
      rows[Reach(rows, pc)].line
  }

  // ---------------------------------------------------------------- writing a table

  /** From the at-th instruction on, counted from the start, the source line is `line`. */
  datatype Mark = Mark(at: nat, line: int)

  /** A later mark, on a line that an int32 holds and at no more than an int32 from this one. */
  predicate Follows(a: Mark, b: Mark) {
    a.at < b.at && -0x8000_0000 <= b.line - a.line <= 0x7fff_ffff && -0x8000_0000 <= b.line <= 0x7fff_ffff
  }

  predicate FollowsAt(marks: seq<Mark>, k: nat)
    requires k + 1 < |marks|
  {
    Follows(marks[k], marks[k + 1])
  }

  predicate Marks(marks: seq<Mark>) {
    marks != [] && forall k: nat :: k + 1 < |marks| ==> FollowsAt(marks, k)
  }

  /** Passing over n instructions on one line. */
  function Skips(n: nat): (es: seq<Entry>)
    ensures AllEncodable(es)
  {
    if n == 0 then [] else if n <= 127 then [Skip(n)] else [Skip(127)] + Skips(n - 127)
  }

  function LineEntry(d: int): (e: Entry)
    requires -0x8000_0000 <= d <= 0x7fff_ffff
    ensures Encodable(e)
  {
    if d == 0 then Skip(1) else if 0 < d <= 64 then Up(d) else if -64 <= d < 0 then Down(-d) else Jump(d)
  }

  function StepTo(a: Mark, b: Mark): (es: seq<Entry>)
    requires Follows(a, b)
    ensures AllEncodable(es)
  {
    Skips(b.at - a.at - 1) + [LineEntry(b.line - a.line)]
  }

  /** The entries that lead from each mark to the next. */
  function Entries(marks: seq<Mark>): (es: seq<Entry>)
    requires Marks(marks)
    ensures AllEncodable(es)
    decreases |marks|
  {
    if |marks| == 1 then []
    else
      assert FollowsAt(marks, 0);
      StepTo(marks[0], marks[1]) + Entries(Tail(marks))
  }

  function Tail(marks: seq<Mark>): (rest: seq<Mark>)
    requires Marks(marks) && |marks| > 1
    ensures Marks(rest) && |rest| == |marks| - 1 && rest[0] == marks[1] && rest == marks[1..]
  {
    PartFollows(marks, 1, |marks|);
    assert marks[1..] == marks[1..|marks|];
    marks[1..]
  }

  lemma PartFollows(marks: seq<Mark>, lo: nat, hi: nat)
    requires Marks(marks) && lo < hi <= |marks|
    ensures Marks(marks[lo..hi])
  {
    forall k: nat | k + 1 < hi - lo ensures FollowsAt(marks[lo..hi], k) { assert FollowsAt(marks, lo + k); }
  }

  /** The line in force at the n-th instruction: that of the last mark at or before it. */
  function InForce(marks: seq<Mark>, n: nat): int
    requires marks != []
  {
    if marks[|marks| - 1].at <= n || |marks| == 1 then marks[|marks| - 1].line else InForce(marks[..|marks| - 1], n)
  }

  lemma LookOn(e: Entry, es: seq<Entry>, quant: nat, r: Row, pc: int)
    requires r.pc < pc
    ensures Look([e] + es, quant, r, pc) == Look(es, quant, Go(e, quant, r), pc)
  {
    var rows, rest := Walk([e] + es, quant, r), Walk(es, quant, Go(e, quant, r));
    assert ([e] + es)[1..] == es;
    assert rows == [r] + rest && rows[1..] == rest;
  }

  lemma LookHere(es: seq<Entry>, quant: nat, r: Row, pc: int)
    requires pc <= r.pc
    ensures Look(es, quant, r, pc) == r.line
  {
  }

  /** The address of the n-th instruction. */
  function Addr(start: int, quant: nat, n: nat): int { start + quant * n }

  lemma AddrMore(start: int, quant: nat, a: nat, b: nat)
    requires quant > 0
    ensures Addr(start, quant, a + b) == Addr(start, quant, a) + quant * b
    ensures Addr(start, quant, a) <= Addr(start, quant, b) <==> a <= b
  {
    if a < b { Scale(quant, a, b); } else if b < a { Scale(quant, b, a); }
  }

  lemma Scale(quant: nat, a: nat, b: nat)
    requires quant > 0 && a < b
    ensures quant * a < quant * b
  {
    assert quant * b == quant * a + quant * (b - a);
  }

  /** Over skipped instructions the line stays what it was. */
  lemma {:induction false} LookSkips(n: nat, es: seq<Entry>, quant: nat, start: int, a: nat, line: int, m: nat)
    requires quant > 0 && 0 <= start && Addr(start, quant, a + n) < WORD && a <= m
    ensures Look(Skips(n) + es, quant, Row(Addr(start, quant, a), line), Addr(start, quant, m)) ==
              if m < a + n then line else Look(es, quant, Row(Addr(start, quant, a + n), line), Addr(start, quant, m))
    decreases n
  {
    hide Look;
    var r, pc := Row(Addr(start, quant, a), line), Addr(start, quant, m);
    AddrMore(start, quant, a, m);
    if n == 0 {
      assert Skips(n) + es == es;
    } else if m == a {
      LookHere(Skips(n) + es, quant, r, pc);
    } else {
      AddrMore(start, quant, m, a);
      var k := if n <= 127 then n else 127;
      var rest := Skips(n - k) + es;
      assert Skips(n) + es == [Skip(k)] + rest;
      LookOn(Skip(k), rest, quant, r, pc);
      SkipLeads(quant, start, a, k, n, line);
      if m < a + k {
        AddrMore(start, quant, m, a + k);
        LookHere(rest, quant, Row(Addr(start, quant, a + k), line), pc);
      } else {
        LookSkips(n - k, es, quant, start, a + k, line, m);
      }
    }
  }

  lemma SkipLeads(quant: nat, start: int, a: nat, k: nat, n: nat, line: int)
    requires quant > 0 && 0 <= start && k <= n && Addr(start, quant, a + n) < WORD
    ensures Go(Skip(k), quant, Row(Addr(start, quant, a), line)) == Row(Addr(start, quant, a + k), line)
  {
    AddrMore(start, quant, a, k);
    AddrMore(start, quant, a + k, a + n);
    assert quant * (a + k) >= 0;
  }

  lemma LineLeads(quant: nat, start: int, a: nat, line: int, to: int)
    requires quant > 0 && 0 <= start && Addr(start, quant, a + 1) < WORD
    requires -0x8000_0000 <= to <= 0x7fff_ffff && -0x8000_0000 <= to - line <= 0x7fff_ffff
    ensures Go(LineEntry(to - line), quant, Row(Addr(start, quant, a), line)) == Row(Addr(start, quant, a + 1), to)
  {
    AddrMore(start, quant, a, 1);
    assert quant * (a + 1) >= 0;
  }

  /** What a table written for some marks says at every instruction up to the last mark: the line in force there. */
  lemma {:induction false} MarksRead(marks: seq<Mark>, quant: nat, start: int, m: nat)
    requires Marks(marks) && quant > 0 && 0 <= start && Addr(start, quant, marks[|marks| - 1].at) < WORD
    requires marks[0].at <= m <= marks[|marks| - 1].at
    ensures Look(Entries(marks), quant, Row(Addr(start, quant, marks[0].at), marks[0].line), Addr(start, quant, m)) == InForce(marks, m)
    decreases |marks|
  {
    hide Look, Skips, LineEntry, Entries, InForce, Marks;
    EntriesStep(marks);
    var a, r := marks[0], Row(Addr(start, quant, marks[0].at), marks[0].line);
    if |marks| == 1 {
      AddrMore(start, quant, m, a.at);
      LookHere([], quant, r, Addr(start, quant, m));
    } else {
      var b, rest := marks[1], Tail(marks);
      AddrMore(start, quant, b.at, marks[|marks| - 1].at);
      LookStep(a, b, Entries(rest), quant, start, m);
      InForceTail(marks, m);
      if m >= b.at { MarksRead(rest, quant, start, m); }
    }
  }

  lemma EntriesStep(marks: seq<Mark>)
    requires Marks(marks)
    ensures |marks| > 0
    ensures |marks| == 1 ==> Entries(marks) == [] && forall m: nat :: InForce(marks, m) == marks[0].line
    ensures |marks| > 1 ==> Follows(marks[0], marks[1]) && Entries(marks) == StepTo(marks[0], marks[1]) + Entries(Tail(marks))
                            && marks[1].at <= marks[|marks| - 1].at
  {
    if |marks| > 1 {
      assert FollowsAt(marks, 0);
      Below(marks, 1);
    }
  }

  lemma LookStep(a: Mark, b: Mark, tail: seq<Entry>, quant: nat, start: int, m: nat)
    requires Follows(a, b) && quant > 0 && 0 <= start && Addr(start, quant, b.at) < WORD && a.at <= m
    ensures Look(StepTo(a, b) + tail, quant, Row(Addr(start, quant, a.at), a.line), Addr(start, quant, m)) ==
              if m < b.at then a.line else Look(tail, quant, Row(Addr(start, quant, b.at), b.line), Addr(start, quant, m))
  {
    hide Look, Skips, LineEntry;
    var n, e := b.at - a.at - 1, LineEntry(b.line - a.line);
    AddrMore(start, quant, a.at + n, b.at);
    assert StepTo(a, b) + tail == Skips(n) + ([e] + tail);
    LookSkips(n, [e] + tail, quant, start, a.at, a.line, m);
    if m >= a.at + n {
      var last := Row(Addr(start, quant, a.at + n), a.line);
      if m == a.at + n {
        LookHere([e] + tail, quant, last, Addr(start, quant, m));
      } else {
        AddrMore(start, quant, m, a.at + n);
        LookOn(e, tail, quant, last, Addr(start, quant, m));
        LineLeads(quant, start, a.at + n, a.line, b.line);
      }
    }
  }

  lemma {:induction false} Below(marks: seq<Mark>, k: nat)
    requires Marks(marks) && k < |marks|
    ensures marks[k].at <= marks[|marks| - 1].at
    decreases |marks| - k
  {
    if k + 1 < |marks| {
      Below(marks, k + 1);
      assert FollowsAt(marks, k);
    }
  }

  lemma {:induction false} InForceTail(marks: seq<Mark>, m: nat)
    requires Marks(marks) && |marks| > 1 && marks[0].at <= m
    ensures InForce(marks, m) == if m < marks[1].at then marks[0].line else InForce(marks[1..], m)
    decreases |marks|
  {
    var init := marks[..|marks| - 1];
    if |marks| == 2 {
      assert marks[1..] == [marks[1]] && init == [marks[0]];
    } else {
      PartFollows(marks, 0, |marks| - 1);
      assert init == marks[0..|marks| - 1];
      InForceTail(init, m);
      Below(marks, 1);
      assert init[1..] == marks[1..][..|marks| - 2] && init[1] == marks[1];
    }
  }

  /** pc2line on a table written for some marks, the first of which is the instruction before the text. */
  lemma EncodedLines(t: Tables, marks: seq<Mark>, m: nat)
    requires Marks(marks) && marks[0] == Mark(0, 0) && |marks| > 1 && 0 < t.quant <= t.txtstart && t.firstinstr in {0, t.txtstart}
    requires t.pcline == EncodeAll(Entries(marks)) && m <= marks[|marks| - 1].at
    requires Addr(t.txtstart - t.quant, t.quant, marks[|marks| - 1].at) < WORD && Addr(t.txtstart - t.quant, t.quant, m) <= t.txtend
    ensures Complete(t.pcline, 0) && LineOf(t, Addr(t.txtstart - t.quant, t.quant, m)) == InForce(marks, m)
  {
    hide Look, Reach, Entries, EncodeAll, InForce, Walk, Rows, Complete;
    var start, pc := t.txtstart - t.quant, Addr(t.txtstart - t.quant, t.quant, m);
    var es, r := Entries(marks), Row(start, 0);
    RowsAreMeant(t.pcline, es, t.quant, r);
    MarksRead(marks, t.quant, start, m);
    AddrMore(start, t.quant, 0, m);
    assert FollowsAt(marks, 0);
    Below(marks, 1);
    AddrMore(start, t.quant, 1, marks[|marks| - 1].at);
    StartsThere(t);
    NotEmpty(marks);
    LookIs(es, t.quant, r, pc);
    assert Addr(start, t.quant, 0) == start;
  }

  lemma LookIs(es: seq<Entry>, quant: nat, r: Row, pc: int)
    ensures Look(es, quant, r, pc) == Walk(es, quant, r)[Reach(Walk(es, quant, r), pc)].line
  {
  }

  lemma StartsThere(t: Tables)
    requires 0 < t.quant <= t.txtstart < WORD && t.firstinstr in {0, t.txtstart}
    ensures PcStart(t) == Start(t) == Row(t.txtstart - t.quant, 0)
  {
  }

  lemma NotEmpty(marks: seq<Mark>)
    requires Marks(marks) && |marks| > 1
    ensures EncodeAll(Entries(marks)) != []
  {
    var es := Entries(marks);
    assert FollowsAt(marks, 0);
    assert es != [];
  }

  // ---------------------------------------------------------------- line2addr

  /** The distance line2addr compares, in int32 arithmetic (sym.c:1365-1369). */
  function Distance(cur: int, line: int): int {
    if cur >= line then Wrap32(cur - line) else Wrap32(line - cur)
  }

  /** A row line2addr examines and does not skip: not the closing one, before the first row at
      or past endpc, and at or past basepc. */
  predicate Candidate(rows: seq<Row>, base: int, end: int, j: int) {
    && 0 <= j < |rows| - 1 && rows[j].pc >= base
    && (end != 0 ==> forall i :: 0 <= i <= j ==> rows[i].pc < end)
  }

  /** Row k is the first of the candidates nearest to the line. */
  ghost predicate Nearest(rows: seq<Row>, line: int, base: int, end: int, k: int) {
    && Candidate(rows, base, end, k) && Distance(rows[k].line, line) < HUGEINT
    && forall j :: Candidate(rows, base, end, j) ==>
         Distance(rows[k].line, line) <= Distance(rows[j].line, line)
         && (j < k ==> Distance(rows[k].line, line) < Distance(rows[j].line, line))
  }

  /** Some candidate is at or past the line. */
  ghost predicate Reaches(rows: seq<Row>, line: int, base: int, end: int) {
    exists j :: Candidate(rows, base, end, j) && rows[j].line >= line
  }

  /** line2addr: the pc of the first candidate nearest to the line, provided some candidate is
      at or past the line. */
  method Line2Addr(t: Tables, line: int, basepc: int, endpc: int) returns (pc: int, ghost k: int)
    requires Complete(t.pcline, 0) && 0 <= basepc && 0 <= endpc
    ensures t.pcline == [] || line == 0 ==> pc == NONE
    ensures t.pcline != [] && line != 0 && !Reaches(AllRows(t), line, basepc, endpc) ==> pc == NONE
    ensures t.pcline != [] && line != 0 && Reaches(AllRows(t), line, basepc, endpc) ==>
              if k >= 0 then Nearest(AllRows(t), line, basepc, endpc, k) && pc == AllRows(t)[k].pc
              else pc == NONE && forall j :: Candidate(AllRows(t), basepc, endpc, j) ==>
                     Distance(AllRows(t)[j].line, line) >= HUGEINT
    ensures forall es :: AllEncodable(es) && EncodeAll(es) == t.pcline ==> AllRows(t) == Walk(es, t.quant, Start(t))
  {
    hide Apply, Rows, Complete, Wrap64, Distance, EncodeAll, AllEncodable, Walk;
    forall es | AllEncodable(es) && EncodeAll(es) == t.pcline ensures AllRows(t) == Walk(es, t.quant, Start(t)) {
      RowsAreMeant(t.pcline, es, t.quant, Start(t));
    }
    pc, k := NONE, -1;
    if t.pcline == [] || line == 0 {
      return;
    }
    var currline, currpc := 0, Start(t).pc;
    var found, delta := false, HUGEINT;
    var c := 0;
    ghost var all := AllRows(t);
    ghost var done := 0;
    assert all[0..] == all;
    while c < |t.pcline|
      invariant 0 <= c <= |t.pcline| && Complete(t.pcline, c)
      invariant done < |all| && all[done..] == Rows(t.pcline, t.quant, c, Row(currpc, currline))
      invariant endpc != 0 ==> forall i :: 0 <= i < done ==> all[i].pc < endpc
      invariant Scan(all, line, basepc, endpc, done, found, delta, pc, k)
      decreases |t.pcline| - c
    {
      OneRow(t.pcline, t.quant, all, done, c, Row(currpc, currline));
      CompleteHere(t.pcline, c);
      if endpc != 0 && currpc >= endpc {
        break;
      }
      if currpc >= basepc {
        var d := Distance(currline, line);
        if currline >= line {
          found := true;
        }
        if d < delta {
          delta, pc, k := d, currpc, done;
        }
      }
      var next := Apply(t.pcline, t.quant, c, Row(currpc, currline));
      c := c + Width(t.pcline, c);
      currpc, currline := next.pc, next.line;
      done := done + 1;
    }
    if c == |t.pcline| {
      LastRow(t.pcline, t.quant, Row(currpc, currline));
    } else {
      assert all[done] == all[done..][0] == Row(currpc, currline);
    }
    if !found {
      pc, k := NONE, -1;
    }
  }

  /** What line2addr knows after examining the rows before `done`. */
  ghost predicate Scan(rows: seq<Row>, line: int, base: int, end: int, done: nat,
                       found: bool, delta: int, pc: int, k: int) {
    && (found <==> exists j :: j < done && Candidate(rows, base, end, j) && rows[j].line >= line)
    && (if k < 0 then pc == NONE && delta == HUGEINT
        else k < done && Candidate(rows, base, end, k) && pc == rows[k].pc && delta == Distance(rows[k].line, line) < HUGEINT)
    && (forall j :: j < done && Candidate(rows, base, end, j) ==> delta <= Distance(rows[j].line, line))
    && (forall j :: j < k && Candidate(rows, base, end, j) ==> delta < Distance(rows[j].line, line))
  }

  // ---------------------------------------------------------------- the decoders together

  /** How far the entries from c on move the pc. */
  function Span(t: seq<Byte>, quant: nat, c: nat): (n: nat)
    requires Complete(t, c)
    decreases |t| - c
  {
    if c == |t| then 0
    else quant + (if t[c] as int < 129 then 0 else quant * (t[c] as int - 129)) + Span(t, quant, c + Width(t, c))
  }

  /** The addresses from `start` on stay below ~0, and instructions have a size. */
  predicate Addressable(t: Tables, start: int) {
    Complete(t.pcline, 0) && t.quant > 0 && t.quant <= start && start - t.quant + Span(t.pcline, t.quant, 0) < NONE
  }

  predicate Rising(rows: seq<Row>) {
    forall i, j :: 0 <= i < j < |rows| ==> rows[i].pc < rows[j].pc
  }

  lemma {:induction false} RowsRise(t: seq<Byte>, quant: nat, c: nat, r: Row)
    requires Complete(t, c) && quant > 0 && 0 <= r.pc && r.pc + Span(t, quant, c) < NONE
    ensures Rising(Rows(t, quant, c, r))
    ensures forall i :: 0 <= i < |Rows(t, quant, c, r)| ==> r.pc <= Rows(t, quant, c, r)[i].pc < NONE
    decreases |t| - c
  {
    if c < |t| {
      StepPc(t, quant, c, r);
      RowsRise(t, quant, c + Width(t, c), Apply(t, quant, c, r));
    }
  }

  lemma StepPc(t: seq<Byte>, quant: nat, c: nat, r: Row)
    requires Complete(t, c) && c < |t| && quant > 0 && 0 <= r.pc && r.pc + Span(t, quant, c) < NONE
    ensures var next := Apply(t, quant, c, r);
            next.pc == r.pc + Span(t, quant, c) - Span(t, quant, c + Width(t, c)) && r.pc < next.pc
    ensures forall line :: Apply(t, quant, c, Row(r.pc, line)).pc == Apply(t, quant, c, r).pc
  {
    var u := t[c] as int;
    if u >= 129 { Product(quant, u - 129); }
  }

  lemma Product(a: nat, b: nat)
    ensures a * b >= 0
  {
  }

  lemma StepShift(t: seq<Byte>, quant: nat, c: nat, r: Row, e: int)
    requires Complete(t, c) && c < |t| && quant > 0
    requires 0 <= r.pc && r.pc + Span(t, quant, c) < NONE && 0 <= r.pc + e && r.pc + e + Span(t, quant, c) < NONE
    ensures Apply(t, quant, c, Row(r.pc + e, r.line)) == Row(Apply(t, quant, c, r).pc + e, Apply(t, quant, c, r).line)
  {
    StepPc(t, quant, c, r);
    StepPc(t, quant, c, Row(r.pc + e, r.line));
    hide Span;
  }

  /** Every row is moved by e and keeps its line. */
  predicate Shifted(rows: seq<Row>, moved: seq<Row>, e: int) {
    |moved| == |rows| && forall i :: 0 <= i < |rows| ==> moved[i] == Row(rows[i].pc + e, rows[i].line)
  }

  lemma ShiftedMore(r: Row, rows: seq<Row>, moved: seq<Row>, e: int)
    requires Shifted(rows, moved, e)
    ensures Shifted([r] + rows, [Row(r.pc + e, r.line)] + moved, e)
  {
  }

  lemma ReachShifted(rows: seq<Row>, moved: seq<Row>, e: int, pc: int)
    requires |rows| > 0 && Shifted(rows, moved, e)
    ensures |moved| > 0 && Reach(moved, pc) == Reach(rows, pc - e) && moved[Reach(moved, pc)].line == rows[Reach(rows, pc - e)].line
  {
    ReachIs(rows, pc - e, Reach(moved, pc));
  }

  /** Starting elsewhere moves every row by the same distance and keeps its line. */
  lemma {:induction false} RowsShift(t: seq<Byte>, quant: nat, c: nat, r: Row, e: int)
    requires Complete(t, c) && quant > 0
    requires 0 <= r.pc && r.pc + Span(t, quant, c) < NONE && 0 <= r.pc + e && r.pc + e + Span(t, quant, c) < NONE
    ensures Shifted(Rows(t, quant, c, r), Rows(t, quant, c, Row(r.pc + e, r.line)), e)
    decreases |t| - c
  {
    if c < |t| {
      var w := c + Width(t, c);
      StepShift(t, quant, c, r, e);
      StepPc(t, quant, c, r);
      hide Apply, Span, Width, Shifted;
      RowsShift(t, quant, w, Apply(t, quant, c, r), e);
      ShiftedMore(r, Rows(t, quant, w, Apply(t, quant, c, r)), Rows(t, quant, w, Apply(t, quant, c, Row(r.pc + e, r.line))), e);
    }
  }

  /** How far pc2line's start is from line2addr's. */
  function Skew(t: Tables): int {
    if t.firstinstr != 0 then t.firstinstr - t.txtstart else 0
  }

  /** What pc2line answers, in terms of the rows line2addr sees: the line of the row its own
      start puts it at.  The two agree on every pc when that start is txtstart. */
  lemma Pc2LineBySkew(t: Tables, pc: int)
    requires Addressable(t, t.txtstart) && Addressable(t, t.txtstart + Skew(t))
    requires t.pcline != [] && PcStart(t).pc <= pc <= t.txtend
    ensures LineOf(t, pc) == AllRows(t)[Reach(AllRows(t), pc - Skew(t))].line
  {
    hide Rows, AllRows, Span, Reach, Skew, Complete, Shifted;
    AllRowsShift(t);
    ReachShifted(AllRows(t), Rows(t.pcline, t.quant, 0, PcStart(t)), Skew(t), pc);
  }

  lemma AllRowsShift(t: Tables)
    requires Addressable(t, t.txtstart) && Addressable(t, t.txtstart + Skew(t))
    ensures Shifted(AllRows(t), Rows(t.pcline, t.quant, 0, PcStart(t)), Skew(t))
  {
    StartShift(t);
    hide Rows, Span, Skew, Start, PcStart, Complete, Shifted;
    RowsShift(t.pcline, t.quant, 0, Start(t), Skew(t));
  }

  lemma StartShift(t: Tables)
    requires Addressable(t, t.txtstart) && Addressable(t, t.txtstart + Skew(t))
    ensures PcStart(t) == Row(Start(t).pc + Skew(t), 0) && Start(t) == Row(t.txtstart - t.quant, 0)
  {
    hide Span, Complete;
  }

  /** Looking for a row's own address e bytes too early finds that row exactly if e is not negative,
      or the row is the last, and e stays within the gap to the row before. */
  lemma ReachOwn(rows: seq<Row>, k: nat, e: int)
    requires Rising(rows) && k < |rows|
    ensures Reach(rows, rows[k].pc - e) == k <==>
              (e >= 0 || k + 1 == |rows|) && (k == 0 || e < rows[k].pc - rows[k - 1].pc)
  {
    var pc := rows[k].pc - e;
    if k > 0 { assert rows[k - 1].pc < rows[k].pc; }
    if (e >= 0 || k + 1 == |rows|) && (k == 0 || e < rows[k].pc - rows[k - 1].pc) {
      forall j | 0 <= j < k ensures rows[j].pc < pc { if j < k - 1 { assert rows[j].pc < rows[k - 1].pc; } }
      ReachIs(rows, pc, k);
    }
  }

  /** At which rows the decoders agree, for any distance between their starts: where the row that
      stands that far back has the same line.  In particular they agree at a row whose distance from
      the row before is larger than theirs, and everywhere if theirs is zero. */
  lemma DecodersAgree(t: Tables, k: nat)
    requires Addressable(t, t.txtstart) && Addressable(t, t.txtstart + Skew(t)) && t.pcline != []
    requires k < |AllRows(t)| && AllRows(t)[k].pc <= t.txtend
    ensures var rows, e := AllRows(t), Skew(t);
            && LineOf(t, rows[k].pc) == (if rows[k].pc < rows[0].pc + e then -1 else rows[Reach(rows, rows[k].pc - e)].line)
            && ((if k == 0 then e == 0 else 0 <= e < rows[k].pc - rows[k - 1].pc) ==> LineOf(t, rows[k].pc) == rows[k].line)
            && (e == 0 ==> LineOf(t, rows[k].pc) == rows[k].line)
  {
    hide Rows, AllRows, Reach, Skew, Span, Start, PcStart, Complete, LineOf, Rising;
    var rows, e := AllRows(t), Skew(t);
    TableRises(t);
    AnswerAt(t, rows[k].pc);
    ReachOwn(rows, k, e);
    AboveFirst(rows, k);
  }

  lemma TableRises(t: Tables)
    requires Addressable(t, t.txtstart)
    ensures Rising(AllRows(t)) && AllRows(t)[0] == Start(t)
  {
    hide Rows, Span, Rising;
    RowsRise(t.pcline, t.quant, 0, Start(t));
  }

  lemma AboveFirst(rows: seq<Row>, k: nat)
    requires Rising(rows) && k < |rows|
    ensures k > 0 ==> rows[0].pc <= rows[k - 1].pc < rows[k].pc
  {
    if k > 1 { assert rows[0].pc < rows[k - 1].pc; }
  }

  lemma AnswerAt(t: Tables, pc: int)
    requires Addressable(t, t.txtstart) && Addressable(t, t.txtstart + Skew(t)) && t.pcline != [] && pc <= t.txtend
    ensures var rows, e := AllRows(t), Skew(t);
            LineOf(t, pc) == if pc < rows[0].pc + e then -1 else rows[Reach(rows, pc - e)].line
  {
    hide Rows, AllRows, Reach, Skew, Span, Complete, Rising;
    TableRises(t);
    StartShift(t);
    if pc >= AllRows(t)[0].pc + Skew(t) { Pc2LineBySkew(t, pc); }
  }

  /** The lines of the table are near enough to the one asked for that int32 differences do
      not wrap; any positive line and a table of non-negative lines qualify. */
  predicate Comparable(rows: seq<Row>, line: int) {
    forall i :: 0 <= i < |rows| ==> -HUGEINT < rows[i].line - line < HUGEINT
  }

  function Abs(x: int): nat { if x < 0 then -x else x }

  /** A row in the address range asked for; the closing row is never examined. */
  predicate InRange(rows: seq<Row>, base: int, end: int, j: int) {
    0 <= j < |rows| - 1 && base <= rows[j].pc && (end != 0 ==> rows[j].pc < end)
  }

  lemma CandidatesInRange(rows: seq<Row>, base: int, end: int, j: int)
    requires Rising(rows)
    ensures Candidate(rows, base, end, j) <==> InRange(rows, base, end, j)
  {
    if InRange(rows, base, end, j) {
      forall i | 0 <= i <= j ensures rows[i].pc <= rows[j].pc { if i < j { assert rows[i].pc < rows[j].pc; } }
    }
  }

  /** line2addr followed by pc2line: the address is that of row k, which among all rows in the
      address range is one at the least distance from the line asked for, and the lowest such; there
      is an address exactly when some row in range is at or past the line.  The line read back is
      row k's if the decoders have one start, and the line of the row that far back otherwise. */
  method FindLine(t: Tables, line: int, basepc: int, endpc: int) returns (pc: int, found: int, ghost k: int)
    requires Addressable(t, t.txtstart) && Addressable(t, t.txtstart + Skew(t)) && t.pcline != []
    requires line != 0 && 0 <= basepc && 0 <= endpc && Comparable(AllRows(t), line)
    ensures pc == NONE <==> forall j :: InRange(AllRows(t), basepc, endpc, j) ==> AllRows(t)[j].line < line
    ensures pc != NONE ==> basepc <= pc && (endpc != 0 ==> pc < endpc)
    ensures pc != NONE ==>
              && InRange(AllRows(t), basepc, endpc, k) && AllRows(t)[k].pc == pc
              && (forall j :: InRange(AllRows(t), basepc, endpc, j) ==>
                    && Abs(AllRows(t)[k].line - line) <= Abs(AllRows(t)[j].line - line)
                    && (AllRows(t)[j].pc < pc ==> Abs(AllRows(t)[k].line - line) < Abs(AllRows(t)[j].line - line)))
    ensures pc != NONE ==>
              var rows := AllRows(t);
              found == if pc > t.txtend || pc < rows[0].pc + Skew(t) then -1 else rows[Reach(rows, pc - Skew(t))].line
    ensures pc != NONE && pc <= t.txtend && Skew(t) == 0 ==> found == AllRows(t)[k].line
  {
    hide Apply, Rows, Complete, Span, Reach, Skew;
    ghost var rows := AllRows(t);
    RowsRise(t.pcline, t.quant, 0, Start(t));
    forall j ensures Candidate(rows, basepc, endpc, j) <==> InRange(rows, basepc, endpc, j) {
      CandidatesInRange(rows, basepc, endpc, j);
    }
    hide Candidate;
    pc, k := Line2Addr(t, line, basepc, endpc);
    found := Pc2Line(t, pc);
    if k >= 0 && pc != NONE && pc <= t.txtend {
      DecodersAgree(t, k);
    }
  }

  /** When the first text symbol does not sit at txtstart the two disagree: line2addr places
      line 1 at address 10, where pc2line reports line 0. */
  lemma SkewDisagrees()
    ensures var t := Tables([1, 1], 1, 10, 100, 11);
            && Addressable(t, t.txtstart) && Addressable(t, t.firstinstr)
            && Nearest(AllRows(t), 1, 0, 0, 1) && AllRows(t)[1] == Row(10, 1) && LineOf(t, 10) == 0
  {
    var t := Tables([1, 1], 1, 10, 100, 11);
    ExampleTable(10, 0);
    ExampleTable(9, 0);
    assert Start(t) == Row(9, 0) && PcStart(t) == Row(10, 0);
    hide Rows, Apply, Complete, Span, Wrap64, Wrap32, Nearest, Reach, Start, PcStart;
    ExampleNearest();
    ReachIs([Row(10, 0), Row(11, 1), Row(12, 2)], 10, 0);
  }

  lemma ExampleNearest()
    ensures Nearest([Row(9, 0), Row(10, 1), Row(11, 2)], 1, 0, 0, 1)
  {
    assert Distance(0, 1) == 1 && Distance(1, 1) == 0;
    hide Wrap32;
  }

  lemma ExampleTable(pc: nat, line: nat)
    requires pc < 100 && line < 100
    ensures var t: seq<Byte> := [1, 1];
            && Complete(t, 0) && Span(t, 1, 0) == 2
            && Rows(t, 1, 0, Row(pc, line)) == [Row(pc, line), Row(pc + 1, line + 1), Row(pc + 2, line + 2)]
  {
    var t: seq<Byte> := [1, 1];
    assert Complete(t, 2) && Complete(t, 1);
    assert Span(t, 1, 2) == 0 && Span(t, 1, 1) == 1;
    assert Apply(t, 1, 0, Row(pc, line)) == Row(pc + 1, line + 1);
    assert Apply(t, 1, 1, Row(pc + 1, line + 1)) == Row(pc + 2, line + 2);
    hide Apply;
    assert Rows(t, 1, 2, Row(pc + 2, line + 2)) == [Row(pc + 2, line + 2)];
    assert Rows(t, 1, 1, Row(pc + 1, line + 1)) == [Row(pc + 1, line + 1), Row(pc + 2, line + 2)];
  }
}
