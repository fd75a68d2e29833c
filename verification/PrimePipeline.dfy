/** The prime pipeline (ucore/src/user-ucore/primer2.c): a chain of processes, each handing
    numbers to the next through a one-slot note guarded by two semaphores.

    Process 0 is `main`, process n > 0 is the stage with index n - 1.  Link n leads from
    process n to process n + 1.  A step is one semaphore operation, one load or store of a
    note, one test, or one fork. */
module PrimePipeline {

  /** Number of notes (primer2.c:7). */
  const TOTAL: nat := 1000

  /** What a process does next. */
  datatype Pc =
    | TWait | TLoad | TPost(v: int)                                             // this = __read(...)
    | NWait | NLoad | NPost(v: int) | NTest(v: int) | Fork(v: int)              // num = __read(...)
    | PWait(v: int) | PLoad(v: int) | PStore(v: int, was: int) | PPost(v: int, was: int)  // __write(...)
    | QWait | QStore | QPost | Quit                                             // read_and_quit

  /** `self` is the number a stage has announced; `got` and `sent` record everything it has
      read from its own note and written to the next, `failed` that sem_init or fork failed it. */
  datatype Proc = Proc(pc: Pc, self: int, forked: bool, failed: bool, got: seq<int>, sent: seq<int>)

  /** note[index] with sem[0] (`full`) and sem[1] (`empty`). */
  datatype Link = Link(note: int, full: nat, empty: nat)

  datatype State = State(procs: seq<Proc>, links: seq<Link>)

  const EMPTY_LINK := Link(0, 0, 1)
  const NEW_STAGE := Proc(TWait, 0, false, false, [], [])

  predicate Init(s: State) {
    s.links == [EMPTY_LINK] && s.procs == [Proc(PWait(2), 0, true, false, [], []), NEW_STAGE]
  }

  predicate Shaped(s: State) {
    |s.procs| == |s.links| + 1 && |s.links| > 0
  }

  /** Semaphore waits block; a process without a successor never reaches __write. */
  predicate Enabled(s: State, n: nat)
    requires Shaped(s) && n < |s.procs|
  {
    match s.procs[n].pc
    case TWait => n > 0 && s.links[n - 1].full > 0
    case NWait => n > 0 && s.links[n - 1].full > 0
    case QWait => n > 0 && s.links[n - 1].full > 0
    case PWait(_) => n < |s.links| && s.links[n].empty > 0
    case PLoad(_) => n < |s.links|
    case PStore(_, _) => n < |s.links|
    case PPost(_, _) => n < |s.links|
    case NTest(_) => s.procs[n].self != 0
    case Fork(_) => true
    case Quit => false
    case _ => n > 0
  }

  function With(s: State, n: nat, p: Proc): State
    requires n < |s.procs|
  {
    s.(procs := s.procs[n := p])
  }

  function Slot(s: State, k: nat, l: Link): State
    requires k < |s.links|
  {
    s.(links := s.links[k := l])
  }

  /** C's remainder of non-negative operands, and of a negative one up to sign, is zero exactly
      when Dafny's is. */
  predicate Divides(d: int, m: int)
    requires d != 0
  {
    m % d == 0
  }

  /** One step of process n; `ok` is whether sem_init and fork succeed. */
  function Step(s: State, n: nat, ok: bool): State
    requires Shaped(s) && n < |s.procs| && Enabled(s, n)
  {
    var p := s.procs[n];
    match p.pc
    case TWait => Slot(With(s, n, p.(pc := TLoad)), n - 1, s.links[n - 1].(full := s.links[n - 1].full - 1))
    case TLoad => var v := s.links[n - 1].note; With(s, n, p.(pc := TPost(v), got := p.got + [v]))
    case TPost(v) => Slot(With(s, n, p.(pc := NWait, self := v)), n - 1, s.links[n - 1].(empty := s.links[n - 1].empty + 1))
    case NWait => Slot(With(s, n, p.(pc := NLoad)), n - 1, s.links[n - 1].(full := s.links[n - 1].full - 1))
    case NLoad => var v := s.links[n - 1].note; With(s, n, p.(pc := NPost(v), got := p.got + [v]))
    case NPost(v) =>
      Slot(With(s, n, p.(pc := if v > 0 then NTest(v) else QWait)), n - 1, s.links[n - 1].(empty := s.links[n - 1].empty + 1))
    case NTest(v) => With(s, n, p.(pc := if Divides(p.self, v) then NWait else if p.forked then PWait(v) else Fork(v)))
    case Fork(v) =>
      if n == TOTAL || !ok then With(s, n, p.(pc := QWait, failed := p.failed || n != TOTAL))
      else State(s.procs[n := p.(pc := PWait(v), forked := true)] + [NEW_STAGE], s.links + [EMPTY_LINK])
    case PWait(v) => Slot(With(s, n, p.(pc := PLoad(v))), n, s.links[n].(empty := s.links[n].empty - 1))
    case PLoad(v) => With(s, n, p.(pc := PStore(v, s.links[n].note)))
    case PStore(v, was) => Slot(With(s, n, p.(pc := PPost(v, was), sent := p.sent + [v])), n, s.links[n].(note := v))
    case PPost(v, was) =>
      var next := if n == 0 then (if was >= 0 then PWait(v + 1) else Quit) else (if was >= 0 then NWait else QWait);
      Slot(With(s, n, p.(pc := next)), n, s.links[n].(full := s.links[n].full + 1))
    case QWait => Slot(With(s, n, p.(pc := QStore)), n - 1, s.links[n - 1].(full := s.links[n - 1].full - 1))
    case QStore => Slot(With(s, n, p.(pc := QPost)), n - 1, s.links[n - 1].(note := -1))
    case QPost => Slot(With(s, n, p.(pc := Quit)), n - 1, s.links[n - 1].(empty := s.links[n - 1].empty + 1))
  }

  ghost predicate Next(s: State, t: State) {
    Shaped(s) && exists n: nat, ok: bool :: n < |s.procs| && Enabled(s, n) && t == Step(s, n, ok)
  }

  ghost predicate Run(run: seq<State>) {
    run != [] && Init(run[0]) && forall k :: 0 < k < |run| ==> Next(run[k - 1], run[k])
  }

  // ---------------------------------------------------------------- the hand-off

  /** Between taking sem[1] and posting sem[0]. */
  predicate Producing(pc: Pc) { pc.PLoad? || pc.PStore? || pc.PPost? }

  /** Between taking sem[0] and posting sem[1]. */
  predicate Consuming(pc: Pc) {
    pc.TLoad? || pc.TPost? || pc.NLoad? || pc.NPost? || pc.QStore? || pc.QPost?
  }

  predicate Gone(pc: Pc) { pc.QPost? || pc.Quit? }

  predicate Leaving(pc: Pc) { pc.QWait? || pc.QStore? || Gone(pc) }

  function Bit(b: bool): nat { if b then 1 else 0 }

  /** The slot holds a number the consumer has not read yet. */
  predicate Occupied(p: Pc, l: Link, c: Pc) {
    l.full == 1 || p.PPost? || c.TLoad? || c.NLoad? || c.QStore?
  }

  /** A one-slot hand-off: exactly one of the two semaphores and the two processes has the
      slot, and until the consumer leaves, it has read everything sent but what is in the slot. */
  predicate HandOff(p: Proc, l: Link, c: Proc) {
    && l.full + l.empty + Bit(Producing(p.pc)) + Bit(Consuming(c.pc)) == 1
    && c.got <= p.sent
    && (!Gone(c.pc) ==> l.note >= 0 && p.sent == if Occupied(p.pc, l, c.pc) then c.got + [l.note] else c.got)
    && ((p.pc.PStore? || p.pc.PPost?) && p.pc.was < 0 ==> Gone(c.pc))
    && (Leaving(p.pc) ==> Gone(c.pc))
  }

  // ---------------------------------------------------------------- one stage

  /** The numbers of s that d does not divide, in order. */
  function Filter(s: seq<int>, d: int): seq<int>
    requires d != 0
  {
    if s == [] then []
    else Filter(s[..|s| - 1], d) + if Divides(d, s[|s| - 1]) then [] else [s[|s| - 1]]
  }

  function Upto(n: nat): (r: seq<int>)
    ensures |r| == n && forall i :: 0 <= i < n ==> r[i] == i + 2
  {
    seq(n, i => i + 2)
  }

  /** main sends 2, 3, 4, ... (primer2.c:109-114). */
  predicate MainWorks(p: Proc) {
    && p.sent == Upto(|p.sent|) && p.forked
    && match p.pc
       case PWait(v) => v == |p.sent| + 2
       case PLoad(v) => v == |p.sent| + 2
       case PStore(v, _) => v == |p.sent| + 2
       case PPost(v, _) => v == |p.sent| + 1
       case Quit => true
       case _ => false
  }

  /** A stage announces the first number it reads and passes on, in order, exactly those later
      ones that this one does not divide. */
  predicate StageWorks(p: Proc) {
    && (forall i :: 0 <= i < |p.got| ==> p.got[i] >= 2)
    && (!p.forked ==> p.sent == [])
    && if Starting(p.pc) then !p.forked && p.got == if p.pc.TPost? then [p.pc.v] else []
       else Working(p)
  }

  predicate Starting(pc: Pc) { pc.TWait? || pc.TLoad? || pc.TPost? }

  predicate Working(p: Proc) {
    && |p.got| > 0 && p.self == p.got[0] >= 2
    && (p.pc.NWait? || p.pc.NLoad? || p.pc.PPost? ==> p.sent == Filter(p.got, p.self))
    && (p.pc.NPost? || p.pc.NTest? ==>
          |p.got| > 1 && p.pc.v == p.got[|p.got| - 1] && p.sent == Filter(p.got[..|p.got| - 1], p.self))
    && (p.pc.Fork? || p.pc.PWait? || p.pc.PLoad? || p.pc.PStore? ==>
          p.pc.v >= 2 && p.sent + [p.pc.v] == Filter(p.got, p.self))
    && (p.pc.Fork? ==> !p.forked)
    && (p.pc.PWait? || p.pc.PLoad? || p.pc.PStore? || p.pc.PPost? ==> p.forked)
    && p.sent <= Filter(p.got, p.self)
  }

  predicate LinkWorks(s: State, n: nat)
    requires Shaped(s) && n < |s.links|
  {
    HandOff(s.procs[n], s.links[n], s.procs[n + 1])
  }

  /** Every process works properly, every link hands off properly, and exactly the processes
      that have forked have a successor. */
  predicate Inv(s: State) {
    && Shaped(s)
    && MainWorks(s.procs[0])
    && (forall n :: 0 < n < |s.procs| ==> StageWorks(s.procs[n]))
    && (forall n :: 0 <= n < |s.procs| ==> (s.procs[n].forked <==> n < |s.links|))
    && (forall n: nat :: n < |s.links| ==> LinkWorks(s, n))
  }

  lemma InitInv(s: State)
    requires Init(s)
    ensures Inv(s)
  {
  }

  /** What a step of process n does to process n itself. */
  lemma MainStep(s: State, ok: bool)
    requires Inv(s) && Enabled(s, 0)
    ensures |Step(s, 0, ok).procs| == |s.procs| && MainWorks(Step(s, 0, ok).procs[0])
  {
    hide StageWorks, HandOff;
    var p := s.procs[0];
    if p.pc.PStore? { assert Upto(|p.sent| + 1) == p.sent + [p.pc.v]; }
  }

  lemma FilterGrows(s: seq<int>, x: int, d: int)
    requires d != 0
    ensures Filter(s + [x], d) == Filter(s, d) + if Divides(d, x) then [] else [x]
  {
    assert (s + [x])[..|s|] == s;
  }

  lemma {:induction false} FilterAtLeast(s: seq<int>, d: int, low: int)
    requires d != 0 && forall i :: 0 <= i < |s| ==> s[i] >= low
    ensures forall i :: 0 <= i < |Filter(s, d)| ==> Filter(s, d)[i] >= low
  {
    if s != [] { FilterAtLeast(s[..|s| - 1], d, low); }
  }

  /** Everything ever put into a slot by a working process is at least 2. */
  lemma SentAtLeastTwo(s: State, n: nat)
    requires Inv(s) && n < |s.procs|
    ensures forall i :: 0 <= i < |s.procs[n].sent| ==> s.procs[n].sent[i] >= 2
  {
    hide HandOff;
    if n > 0 {
      var p := s.procs[n];
      assert StageWorks(p);
      if !Starting(p.pc) { FilterAtLeast(p.got, p.self, 2); }
    }
  }

  /** The number about to be read is one that was sent. */
  lemma NoteRead(s: State, n: nat)
    requires Inv(s) && 0 < n < |s.procs| && (s.procs[n].pc.TLoad? || s.procs[n].pc.NLoad?)
    ensures s.links[n - 1].note >= 2
  {
    hide StageWorks, MainWorks, Inv, HandOff;
    var k := n - 1;
    LinkAt(s, k);
    SentAtLeastTwo(s, k);
    NoteIsSent(s.procs[k], s.links[k], s.procs[n]);
  }

  lemma LinkAt(s: State, k: nat)
    requires Inv(s) && (k < |s.links| || k + 1 < |s.procs|)
    ensures k < |s.links| && k + 1 < |s.procs| && HandOff(s.procs[k], s.links[k], s.procs[k + 1])
  {
    hide HandOff, StageWorks, MainWorks;
    assert LinkWorks(s, k);
  }

  lemma NoteIsSent(p: Proc, l: Link, c: Proc)
    requires HandOff(p, l, c) && (c.pc.TLoad? || c.pc.NLoad?)
    ensures |c.got| < |p.sent| && p.sent[|c.got|] == l.note
  {
  }

  /** How a stage's records follow the filter. */
  lemma RecordFirst(p: Proc, v: int)
    requires StageWorks(p) && v >= 2
    ensures p.pc.TLoad? ==> StageWorks(p.(pc := TPost(v), got := p.got + [v]))
    ensures p.pc.TPost? ==> StageWorks(p.(pc := NWait, self := p.pc.v))
  {
    hide Filter;
    if p.pc.TPost? {
      assert [p.pc.v] == p.got && p.got[0] >= 2;
      FilterOne(p.pc.v);
    }
  }

  lemma FilterOne(v: int)
    requires v >= 2
    ensures Filter([v], v) == []
  {
    assert [v][..0] == [];
  }

  lemma RecordNext(p: Proc, v: int)
    requires StageWorks(p) && v >= 2 && p.pc.NLoad?
    ensures StageWorks(p.(pc := NPost(v), got := p.got + [v]))
  {
    hide Filter, Divides;
    FilterGrows(p.got, v, p.self);
    assert (p.got + [v])[..|p.got|] == p.got;
  }

  lemma RecordTest(p: Proc)
    requires StageWorks(p) && p.pc.NTest?
    ensures p.self != 0
    ensures Divides(p.self, p.pc.v) ==> StageWorks(p.(pc := NWait))
    ensures !Divides(p.self, p.pc.v) ==> StageWorks(p.(pc := if p.forked then PWait(p.pc.v) else Fork(p.pc.v)))
  {
    hide Filter, Divides;
    var rest, v := p.got[..|p.got| - 1], p.pc.v;
    FilterGrows(rest, v, p.self);
    assert p.got == rest + [v] && p.got[|p.got| - 1] == v >= 2;
  }

  lemma StageStep(s: State, n: nat, ok: bool)
    requires Inv(s) && 0 < n < |s.procs| && Enabled(s, n)
    ensures n < |Step(s, n, ok).procs| && StageWorks(Step(s, n, ok).procs[n])
  {
    hide Inv, MainWorks, StageWorks, HandOff;
    var p := s.procs[n];
    WorksAt(s, n);
    if p.pc.TLoad? || p.pc.NLoad? {
      NoteRead(s, n);
      if p.pc.TLoad? { RecordFirst(p, s.links[n - 1].note); } else { RecordNext(p, s.links[n - 1].note); }
    } else if p.pc.TPost? {
      RecordFirst(p, 2);
    } else if p.pc.NTest? {
      RecordTest(p);
    } else {
      RecordOther(s, n, ok);
    }
  }

  /** The steps that read no number and test none. */
  lemma RecordOther(s: State, n: nat, ok: bool)
    requires Shaped(s) && 0 < n < |s.procs| && Enabled(s, n) && StageWorks(s.procs[n])
    requires var pc := s.procs[n].pc; !pc.TLoad? && !pc.NLoad? && !pc.TPost? && !pc.NTest?
    ensures n < |Step(s, n, ok).procs| && StageWorks(Step(s, n, ok).procs[n])
  {
    hide StageWorks, Filter, Divides;
    var p, t := s.procs[n], Step(s, n, ok);
    OtherStep(s, n, ok);
    hide Step;
    OtherWorks(p, t.procs[n]);
  }

  /** What such a step makes of the process. */
  predicate OtherMove(p: Proc, q: Proc) {
    && q == p.(pc := q.pc, sent := q.sent, forked := q.forked, failed := q.failed)
    && (q.sent == if p.pc.PStore? then p.sent + [p.pc.v] else p.sent)
    && (q.forked <==> p.forked || (p.pc.Fork? && q.pc.PWait?))
    && match p.pc
       case TWait => q.pc == TLoad
       case NWait => q.pc == NLoad
       case NPost(v) => q.pc == if v > 0 then NTest(v) else QWait
       case Fork(v) => q.pc == PWait(v) || q.pc == QWait
       case PWait(v) => q.pc == PLoad(v)
       case PLoad(v) => q.pc.PStore? && q.pc.v == v
       case PStore(v, was) => q.pc == PPost(v, was)
       case PPost(_, _) => q.pc == NWait || q.pc == QWait
       case _ => Leaving(q.pc)
  }

  lemma OtherStep(s: State, n: nat, ok: bool)
    requires Shaped(s) && 0 < n < |s.procs| && Enabled(s, n)
    requires var pc := s.procs[n].pc; !pc.TLoad? && !pc.NLoad? && !pc.TPost? && !pc.NTest?
    ensures n < |Step(s, n, ok).procs| && OtherMove(s.procs[n], Step(s, n, ok).procs[n])
  {
  }

  lemma OtherWorks(p: Proc, q: Proc)
    requires StageWorks(p) && OtherMove(p, q) && !p.pc.TLoad? && !p.pc.NLoad? && !p.pc.TPost? && !p.pc.NTest?
    ensures StageWorks(q)
  {
    hide Filter;
  }

  lemma ProducerStep(s: State, n: nat, ok: bool)
    requires Inv(s) && n < |s.links| && Enabled(s, n)
    ensures var t := Step(s, n, ok);
            Shaped(t) && n < |t.links| && LinkWorks(t, n)
  {
    hide Filter, Upto, Inv;
    LinkAt(s, n);
    WorksAt(s, n);
  }

  lemma WorksAt(s: State, n: nat)
    requires Inv(s) && n < |s.procs|
    ensures Shaped(s) && if n == 0 then MainWorks(s.procs[0]) else StageWorks(s.procs[n])
    ensures s.procs[n].forked <==> n < |s.links|
  {
    hide StageWorks, MainWorks, LinkWorks;
  }

  lemma ConsumerStep(s: State, n: nat, ok: bool)
    requires Inv(s) && n < |s.links| && Enabled(s, n + 1)
    ensures var t := Step(s, n + 1, ok);
            Shaped(t) && n < |t.links| && LinkWorks(t, n)
  {
    assert LinkWorks(s, n);
    var pc := s.procs[n + 1].pc;
    if pc.NTest? || pc.Fork? || pc.PWait? || pc.PLoad? || pc.PStore? || pc.PPost? {
      ConsumerElsewhere(s, n, ok);
    } else {
      ConsumerReads(s, n, ok);
    }
  }

  lemma ConsumerElsewhere(s: State, n: nat, ok: bool)
    requires Shaped(s) && n < |s.links| && Enabled(s, n + 1) && LinkWorks(s, n)
    requires var pc := s.procs[n + 1].pc; pc.NTest? || pc.Fork? || pc.PWait? || pc.PLoad? || pc.PStore? || pc.PPost?
    ensures var t := Step(s, n + 1, ok);
            Shaped(t) && n < |t.links| && LinkWorks(t, n)
  {
    var t := Step(s, n + 1, ok);
    assert t.links[n] == s.links[n] && t.procs[n] == s.procs[n];
    assert t.procs[n + 1].got == s.procs[n + 1].got;
  }

  lemma ConsumerReads(s: State, n: nat, ok: bool)
    requires Shaped(s) && n < |s.links| && Enabled(s, n + 1) && LinkWorks(s, n)
    requires var pc := s.procs[n + 1].pc; !(pc.NTest? || pc.Fork? || pc.PWait? || pc.PLoad? || pc.PStore? || pc.PPost?)
    ensures var t := Step(s, n + 1, ok);
            Shaped(t) && n < |t.links| && LinkWorks(t, n)
  {
    var t := Step(s, n + 1, ok);
    assert t.procs[n] == s.procs[n];
  }

  /** A step leaves the other processes and links alone, or adds a fresh link and stage. */
  lemma StepFrame(s: State, n: nat, ok: bool)
    requires Inv(s) && n < |s.procs| && Enabled(s, n)
    ensures var t := Step(s, n, ok);
            && Shaped(t) && |t.procs| >= |s.procs|
            && (forall m :: 0 <= m < |s.procs| && m != n ==> t.procs[m] == s.procs[m])
            && (forall m :: 0 <= m < |s.links| && m != n && m != n - 1 ==> t.links[m] == s.links[m])
            && (t.procs[n].forked <==> n < |t.links|)
            && (|t.procs| > |s.procs| ==>
                  && s.procs[n].pc.Fork? && n == |s.links| && |t.procs| == |s.procs| + 1
                  && t.procs[n + 1] == NEW_STAGE && t.links[n] == EMPTY_LINK
                  && t.procs[n].sent == s.procs[n].sent && t.procs[n].pc.PWait?)
  {
    hide Filter, HandOff, MainWorks;
    assert n > 0 ==> StageWorks(s.procs[n]);
    assert n == 0 ==> s.procs[0].forked && !s.procs[0].pc.Fork? by { MainNeverForks(s); }
  }

  lemma MainNeverForks(s: State)
    requires Inv(s)
    ensures s.procs[0].forked && !s.procs[0].pc.Fork?
  {
  }

  lemma NextInv(s: State, t: State)
    requires Inv(s) && Next(s, t)
    ensures Inv(t)
  {
    assert StageWorks(NEW_STAGE);
    hide MainWorks, StageWorks, LinkWorks, HandOff, Step, Enabled;
    var n: nat, ok: bool :| n < |s.procs| && Enabled(s, n) && t == Step(s, n, ok);
    StepFrame(s, n, ok);
    if n == 0 { MainStep(s, ok); } else { StageStep(s, n, ok); }
    forall m: nat | m < |t.links| ensures LinkWorks(t, m) {
      HandOffAfter(s, n, ok, m);
    }
  }

  lemma HandOffAfter(s: State, n: nat, ok: bool, m: nat)
    requires Inv(s) && n < |s.procs| && Enabled(s, n)
    requires var t := Step(s, n, ok); Shaped(t) && m < |t.links|
    ensures LinkWorks(Step(s, n, ok), m)
  {
    hide Step, Enabled, MainWorks;
    StepFrame(s, n, ok);
    if m == n && n < |s.links| {
      ProducerStep(s, n, ok);
    } else if m == n - 1 {
      ConsumerStep(s, m, ok);
    } else if m < |s.links| {
      hide HandOff;
      assert LinkWorks(s, m);
    } else {
      assert !s.procs[n].forked;
      assert n > 0 && StageWorks(s.procs[n]);
    }
  }

  lemma {:induction false} RunInv(run: seq<State>, k: nat)
    requires Run(run) && k < |run|
    ensures Inv(run[k])
  {
    hide Inv, Next;
    if k == 0 {
      InitInv(run[0]);
    } else {
      RunInv(run, k - 1);
      NextInv(run[k - 1], run[k]);
    }
  }

  // ---------------------------------------------------------------- the sieve

  /** What stage k would read if main had sent 2 .. n + 1. */
  function Sieve(k: nat, n: nat): (s: seq<int>)
    ensures forall i :: 0 <= i < |s| ==> s[i] >= 2
  {
    if k == 0 then Upto(n)
    else
      var prev := Sieve(k - 1, n);
      if prev == [] then [] else FilterAtLeast(prev, prev[0], 2); Filter(prev, prev[0])
  }

  /** The numbers the first k stages would announce. */
  function Heads(k: nat, n: nat): seq<int>
    requires k > 0 ==> Sieve(k - 1, n) != []
  {
    if k == 0 then [] else SieveShrinks(k - 1, n); Heads(k - 1, n) + [Sieve(k - 1, n)[0]]
  }

  lemma SieveShrinks(k: nat, n: nat)
    requires Sieve(k, n) != []
    ensures k > 0 ==> Sieve(k - 1, n) != []
  {
  }

  predicate IsPrime(p: int) {
    p >= 2 && forall d :: 2 <= d < p ==> p % d != 0
  }

  /** All primes below n, ascending. */
  function PrimesBelow(n: nat): seq<int> {
    if n <= 2 then [] else PrimesBelow(n - 1) + if IsPrime(n - 1) then [n - 1] else []
  }

  predicate Ascending(s: seq<int>) {
    forall i, j :: 0 <= i < j < |s| ==> s[i] < s[j]
  }

  predicate Survives(m: int, hs: seq<int>) {
    forall i :: 0 <= i < |hs| ==> Indivisible(m, hs[i])
  }

  predicate Indivisible(m: int, d: int) { d >= 2 && m % d != 0 }

  lemma {:induction false} FilterMembers(s: seq<int>, d: int, m: int)
    requires d != 0
    ensures m in Filter(s, d) <==> m in s && !Divides(d, m)
  {
    if s != [] {
      var n := |s| - 1;
      FilterMembers(s[..n], d, m);
      assert s == s[..n] + [s[n]];
    }
  }

  lemma {:induction false} FilterAscending(s: seq<int>, d: int)
    requires d != 0 && Ascending(s)
    ensures Ascending(Filter(s, d))
  {
    if s != [] {
      var n := |s| - 1;
      var f := Filter(s[..n], d);
      FilterAscending(s[..n], d);
      forall i | 0 <= i < |f| ensures f[i] < s[n] {
        FilterMembers(s[..n], d, f[i]);
        assert f[i] in f;
      }
    }
  }

  lemma {:induction false} SieveAscending(k: nat, n: nat)
    ensures Ascending(Sieve(k, n))
  {
    if k > 0 && Sieve(k - 1, n) != [] {
      SieveAscending(k - 1, n);
      FilterAscending(Sieve(k - 1, n), Sieve(k - 1, n)[0]);
    }
  }

  lemma SurvivesOneMore(m: int, hs: seq<int>, h: int)
    requires h >= 2
    ensures Survives(m, hs + [h]) <==> Survives(m, hs) && !Divides(h, m)
  {
    assert Indivisible(m, h) <==> !Divides(h, m);
    hide Indivisible, Divides;
    assert (hs + [h])[|hs|] == h;
    assert forall i :: 0 <= i < |hs| ==> (hs + [h])[i] == hs[i];
  }

  /** Stage k reads exactly the numbers that none of the numbers announced before divides. */
  lemma {:induction false} SieveMembers(k: nat, n: nat, m: int)
    requires k > 0 ==> Sieve(k - 1, n) != []
    ensures m in Sieve(k, n) <==> 2 <= m < n + 2 && Survives(m, Heads(k, n))
  {
    hide Sieve, Heads, Filter, Survives, Divides;
    if k == 0 {
      SieveStart(n, m);
    } else {
      var prev := Sieve(k - 1, n);
      SieveUnfold(k, n);
      HeadsUnfold(k, n);
      SurvivesOneMore(m, Heads(k - 1, n), prev[0]);
      SieveMembers(k - 1, n, m);
      FilterMembers(prev, prev[0], m);
    }
  }

  lemma SieveStart(n: nat, m: int)
    ensures m in Sieve(0, n) <==> 2 <= m < n + 2 && Survives(m, Heads(0, n))
  {
    if 2 <= m < n + 2 { assert Upto(n)[m - 2] == m; }
  }

  lemma DividesTransitive(h: int, d: int, p: int)
    requires h > 0 && d > 0 && d % h == 0 && p % d == 0
    ensures p % h == 0
  {
    var r, q := d / h, p / d;
    assert p == d * q && d == h * r;
    assert p == h * (r * q);
    ModMultiple(h, r * q);
  }

  lemma ModMultiple(h: int, x: int)
    requires h > 0
    ensures (h * x) % h == 0
  {
    var t := x - (h * x) / h;
    assert (h * x) % h == h * t;
    if t >= 1 { MulAtLeast(h, t); } else if t <= -1 { MulAtLeast(h, -t); }
  }

  lemma MulAtLeast(h: int, t: int)
    requires h > 0 && t >= 1
    ensures h * t >= h && h * -t <= -h
  {
  }

  /** A smaller divisor of the first survivor would itself survive, so that one is prime. */
  lemma HeadIsPrime(k: nat, n: nat)
    requires Sieve(k, n) != []
    ensures IsPrime(Sieve(k, n)[0])
  {
    var s := Sieve(k, n);
    var p := s[0];
    SieveShrinks(k, n);
    SieveAscending(k, n);
    var hs := Heads(k, n);
    SieveMembers(k, n, p);
    forall d | 2 <= d < p ensures p % d != 0 {
      SieveMembers(k, n, d);
      assert d !in s;
      var i :| 0 <= i < |hs| && !Indivisible(d, hs[i]);
      assert Indivisible(p, hs[i]);
      if p % d == 0 { DividesTransitive(hs[i], d, p); }
    }
  }

  lemma {:induction false} NoPrimesBetween(lo: nat, hi: nat)
    requires 2 <= lo <= hi && forall m :: lo <= m < hi ==> !IsPrime(m)
    ensures PrimesBelow(hi) == PrimesBelow(lo)
    decreases hi
  {
    if lo < hi { NoPrimesBetween(lo, hi - 1); }
  }

  /** Everything between two announced numbers is a multiple of an earlier one, so the numbers
      announced before are all the primes below. */
  lemma {:induction false} HeadsArePrimes(k: nat, n: nat)
    requires Sieve(k, n) != []
    ensures k > 0 ==> Sieve(k - 1, n) != []
    ensures Heads(k, n) == PrimesBelow(Sieve(k, n)[0])
    ensures Ascending(Heads(k, n) + [Sieve(k, n)[0]])
  {
    hide Sieve, Heads, IsPrime, PrimesBelow, Ascending;
    SieveShrinks(k, n);
    if k == 0 {
      FirstHead(n);
    } else {
      HeadsArePrimes(k - 1, n);
      HeadIsPrime(k - 1, n);
      HeadsRise(k, n);
      HeadsUnfold(k, n);
      NextHead(k, n, Sieve(k - 1, n)[0], Sieve(k, n)[0]);
      AscendingMore(Heads(k, n), Sieve(k, n)[0]);
    }
  }

  lemma FirstHead(n: nat)
    requires Sieve(0, n) != []
    ensures Heads(0, n) == PrimesBelow(Sieve(0, n)[0]) && Ascending(Heads(0, n) + [Sieve(0, n)[0]])
  {
    assert Sieve(0, n)[0] == 2;
  }

  lemma HeadsUnfold(k: nat, n: nat)
    requires k > 0 && Sieve(k - 1, n) != []
    ensures k > 1 ==> Sieve(k - 2, n) != []
    ensures Heads(k, n) == Heads(k - 1, n) + [Sieve(k - 1, n)[0]]
  {
    SieveShrinks(k - 1, n);
  }

  lemma AscendingMore(s: seq<int>, q: int)
    requires Ascending(s) && s != [] && s[|s| - 1] < q
    ensures Ascending(s + [q])
  {
  }

  lemma NextHead(k: nat, n: nat, p: int, q: int)
    requires k > 0 && Sieve(k, n) != [] && Sieve(k - 1, n) != [] && p == Sieve(k - 1, n)[0] && q == Sieve(k, n)[0]
    requires p < q && IsPrime(p) && Heads(k, n) == PrimesBelow(p) + [p] && Ascending(Heads(k, n))
    ensures Heads(k, n) == PrimesBelow(q)
  {
    assert PrimesBelow(p + 1) == PrimesBelow(p) + [p];
    hide Sieve, Heads, PrimesBelow;
    forall m | p + 1 <= m < q ensures !IsPrime(m) { GapIsComposite(k, n, m); }
    NoPrimesBetween(p + 1, q);
  }

  lemma HeadsRise(k: nat, n: nat)
    requires k > 0 && Sieve(k, n) != []
    ensures Sieve(k - 1, n) != [] && Sieve(k - 1, n)[0] < Sieve(k, n)[0]
  {
    var prev, s := Sieve(k - 1, n), Sieve(k, n);
    assert s == Filter(prev, prev[0]) && s[0] in s;
    FilterMembers(prev, prev[0], s[0]);
    SieveAscending(k - 1, n);
    hide Sieve, Filter;
    assert Divides(prev[0], prev[0]);
  }

  lemma GapIsComposite(k: nat, n: nat, m: int)
    requires k > 0 && Sieve(k, n) != [] && Sieve(k - 1, n) != [] && Sieve(k - 1, n)[0] < m < Sieve(k, n)[0]
    requires Ascending(Heads(k, n))
    ensures !IsPrime(m)
  {
    var hs, s := Heads(k, n), Sieve(k, n);
    SieveAscending(k, n);
    SieveMembers(k, n, m);
    SieveMembers(k, n, s[0]);
    assert m !in s;
    var i :| 0 <= i < |hs| && !Indivisible(m, hs[i]);
    assert Indivisible(s[0], hs[i]);
    assert hs[|hs| - 1] == Sieve(k - 1, n)[0];
    assert hs[i] <= hs[|hs| - 1];
  }

  // ---------------------------------------------------------------- theorems

  lemma {:induction false} FilterPrefix(a: seq<int>, b: seq<int>, d: int)
    requires d != 0 && a <= b
    ensures Filter(a, d) <= Filter(b, d)
    decreases |b|
  {
    if |a| < |b| {
      FilterPrefix(a, b[..|b| - 1], d);
    } else {
      assert a == b;
    }
  }

  /** What a stage has read so far is what the sieve would give it. */
  lemma {:induction false} StageReadsSieve(s: State, n: nat)
    requires Inv(s) && 0 < n < |s.procs|
    ensures s.procs[n].got <= Sieve(n - 1, |s.procs[0].sent|)
  {
    hide StageWorks, MainWorks, Filter, Sieve;
    var N := |s.procs[0].sent|;
    assert LinkWorks(s, n - 1);
    if n == 1 {
      FirstSieve(s);
    } else {
      StageReadsSieve(s, n - 1);
      var p := s.procs[n - 1];
      assert StageWorks(p);
      StageSends(p);
      if p.sent != [] {
        FilterPrefix(p.got, Sieve(n - 2, N), p.self);
        SieveUnfold(n - 1, N);
      }
    }
  }

  lemma FirstSieve(s: State)
    requires Inv(s)
    ensures s.procs[0].sent == Sieve(0, |s.procs[0].sent|)
  {
  }

  lemma SieveUnfold(k: nat, n: nat)
    requires k > 0 && Sieve(k - 1, n) != []
    ensures Sieve(k, n) == Filter(Sieve(k - 1, n), Sieve(k - 1, n)[0])
  {
  }

  lemma StageSends(p: Proc)
    requires StageWorks(p)
    ensures p.sent == [] || (!Starting(p.pc) && |p.got| > 0 && p.self == p.got[0] >= 2 && p.sent <= Filter(p.got, p.self))
    ensures !Starting(p.pc) ==> |p.got| > 0 && p.self == p.got[0] >= 2
  {
  }

  /** In every interleaving, before its consumer leaves, a link has lost and duplicated
      nothing: what was sent is what was read, plus at most the one number in the slot. */
  lemma HandOffIsExact(run: seq<State>, k: nat, n: nat)
    requires Run(run) && k < |run| && n < |run[k].links| && n + 1 < |run[k].procs|
    ensures var s := run[k];
            && s.procs[n + 1].got <= s.procs[n].sent
            && (!Gone(s.procs[n + 1].pc) ==>
                  s.procs[n].sent == s.procs[n + 1].got || s.procs[n].sent == s.procs[n + 1].got + [s.links[n].note])
  {
    RunInv(run, k);
    assert LinkWorks(run[k], n);
  }

  /** Stages leave from the far end only: one that has a successor leaves after it. */
  lemma QuitsFromTheEnd(run: seq<State>, k: nat, n: nat)
    requires Run(run) && k < |run| && n + 1 < |run[k].procs| && Leaving(run[k].procs[n].pc)
    ensures Gone(run[k].procs[n + 1].pc)
  {
    RunInv(run, k);
    assert LinkWorks(run[k], n);
  }

  /** The numbers announced by the stages before process n. */
  function Announced(s: State, n: nat): (r: seq<int>)
    requires 0 < n <= |s.procs|
    ensures |r| == n - 1 && forall i :: 0 <= i < n - 1 ==> r[i] == s.procs[i + 1].self
  {
    seq(n - 1, i requires 0 <= i < n - 1 => s.procs[i + 1].self)
  }

  lemma {:induction false} AnnouncedAreHeads(s: State, n: nat)
    requires Inv(s) && 0 < n < |s.procs| && |s.procs[n].got| > 0
    ensures var N := |s.procs[0].sent|;
            && (n > 1 ==> Sieve(n - 2, N) != []) && Sieve(n - 1, N) != []
            && s.procs[n].got[0] == Sieve(n - 1, N)[0]
            && Announced(s, n) == Heads(n - 1, N)
  {
    hide Filter, Sieve, MainWorks, StageWorks, Heads;
    var N := |s.procs[0].sent|;
    StageReadsSieve(s, n);
    if n > 1 {
      StageReadsSieve(s, n - 1);
      assert LinkWorks(s, n - 1);
      assert StageWorks(s.procs[n - 1]);
      StageSends(s.procs[n - 1]);
      AnnouncedAreHeads(s, n - 1);
      HeadsUnfold(n - 1, N);
      assert Announced(s, n) == Announced(s, n - 1) + [s.procs[n - 1].self];
    } else {
      NoHeads(N);
    }
  }

  lemma NoHeads(n: nat)
    ensures Heads(0, n) == []
  {
  }

  /** In every interleaving the number a stage announces is prime, and the numbers announced by
      the stages before it are exactly the primes below: stage n - 1 announces the n-th prime. */
  lemma AnnouncesNthPrime(run: seq<State>, k: nat, n: nat)
    requires Run(run) && k < |run| && 0 < n < |run[k].procs| && !Starting(run[k].procs[n].pc)
    ensures var s := run[k];
            && IsPrime(s.procs[n].self)
            && Announced(s, n) == PrimesBelow(s.procs[n].self)
  {
    var s := run[k];
    RunInv(run, k);
    hide Sieve, Heads, IsPrime, PrimesBelow;
    assert StageWorks(s.procs[n]);
    StageSends(s.procs[n]);
    AnnouncedAreHeads(s, n);
    HeadIsPrime(n - 1, |s.procs[0].sent|);
    HeadsArePrimes(n - 1, |s.procs[0].sent|);
  }

  /** In every interleaving a stage has read, in order, exactly the integers from 2 up to its
      last one that no number announced before it divides. */
  lemma StageReadsSurvivors(run: seq<State>, k: nat, n: nat, m: int)
    requires Run(run) && k < |run| && 0 < n < |run[k].procs| && |run[k].procs[n].got| > 0
    ensures var s := run[k]; var got := s.procs[n].got;
            && Ascending(got)
            && (m <= got[|got| - 1] ==> (m in got <==> m >= 2 && Survives(m, Announced(s, n))))
  {
    var s := run[k];
    var got, N := s.procs[n].got, |s.procs[0].sent|;
    RunInv(run, k);
    hide Inv, Sieve, Heads, Survives;
    AnnouncedAreHeads(s, n);
    StageReadsSieve(s, n);
    SieveAscending(n - 1, N);
    SieveMembers(n - 1, N, m);
    SieveMembers(n - 1, N, got[|got| - 1]);
    var all := Sieve(n - 1, N);
    assert got == all[..|got|];
    if m in all && m <= got[|got| - 1] {
      var i :| 0 <= i < |all| && all[i] == m;
      assert i <= |got| - 1;
      assert m in got;
    }
    if m in got { assert m in all; }
  }
}
