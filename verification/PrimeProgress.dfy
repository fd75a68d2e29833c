/** That the prime pipeline (ucore/src/user-ucore/primer2.c) gets its work done: nobody leaves without a reason, every
    run ends, with everybody gone, and unless sem_init or fork fails the first 1000 primes have been announced by
    then. */
module PrimeProgress {
  import opened PrimePipeline

  // ---------------------------------------------------------------- why a stage leaves

  /** A stage without a successor leaves only because sem_init or fork failed it or because it is the last there can be. */
  predicate Reasoned(s: State) {
    && |s.procs| <= TOTAL + 1
    && forall n :: 0 < n < |s.procs| && !s.procs[n].forked && Leaving(s.procs[n].pc) ==> n == TOTAL || s.procs[n].failed
  }

  lemma StepReasoned(s: State, n: nat, ok: bool)
    requires Inv(s) && Reasoned(s) && n < |s.procs| && Enabled(s, n)
    ensures Reasoned(Step(s, n, ok))
  {
    hide Inv, Reasoned, Step;
    StepFrame(s, n, ok);
    WorksAt(s, n);
    ReasonedAt(s, n);
    MoverReasoned(s, n, ok);
    ReasonedFrame(s, n, Step(s, n, ok));
  }

  lemma ReasonedAt(s: State, n: nat)
    requires Reasoned(s) && n < |s.procs|
    ensures n > 0 && !s.procs[n].forked && Leaving(s.procs[n].pc) ==> n == TOTAL || s.procs[n].failed
  {
  }

  lemma MoverReasoned(s: State, n: nat, ok: bool)
    requires Shaped(s) && n < |s.procs| && Enabled(s, n) && (if n == 0 then MainWorks(s.procs[0]) else StageWorks(s.procs[n]))
    requires s.procs[n].forked <==> n < |s.links|
    requires n > 0 && !s.procs[n].forked && Leaving(s.procs[n].pc) ==> n == TOTAL || s.procs[n].failed
    ensures var t := Step(s, n, ok);
            && n < |t.procs| && (|t.procs| > |s.procs| ==> n < TOTAL || n > TOTAL)
            && (n > 0 && !t.procs[n].forked && Leaving(t.procs[n].pc) ==> n == TOTAL || t.procs[n].failed)
  {
    hide Filter, Upto;
    var p := s.procs[n];
    if n > 0 && p.pc.NPost? { assert p.pc.v == p.got[|p.got| - 1] >= 2; }
  }

  lemma ReasonedFrame(s: State, n: nat, t: State)
    requires Reasoned(s) && n < |s.procs| <= |t.procs| <= |s.procs| + 1 && (|t.procs| > |s.procs| ==> n + 1 == |s.procs| && n != TOTAL)
    requires forall m :: 0 <= m < |s.procs| && m != n ==> t.procs[m] == s.procs[m]
    requires |t.procs| > |s.procs| ==> t.procs[n + 1] == NEW_STAGE
    requires n > 0 && !t.procs[n].forked && Leaving(t.procs[n].pc) ==> n == TOTAL || t.procs[n].failed
    ensures Reasoned(t)
  {
  }

  lemma {:induction false} RunReasoned(run: seq<State>, k: nat)
    requires Run(run) && k < |run|
    ensures Reasoned(run[k])
  {
    hide Inv, Step, Enabled, Reasoned;
    if k == 0 {
      StartReasoned(run[0]);
    } else {
      RunReasoned(run, k - 1);
      RunInv(run, k - 1);
      assert Next(run[k - 1], run[k]);
      var n: nat, ok: bool :| n < |run[k - 1].procs| && Enabled(run[k - 1], n) && run[k] == Step(run[k - 1], n, ok);
      StepReasoned(run[k - 1], n, ok);
    }
  }

  lemma StartReasoned(s: State)
    requires Init(s)
    ensures Reasoned(s)
  {
  }

  /** In every run a process leaves only if sem_init or fork has failed some stage from it on, or all the notes
      are in use. */
  lemma {:induction false} LeavesForAReason(run: seq<State>, k: nat, n: nat) returns (m: nat)
    requires Run(run) && k < |run| && n < |run[k].procs| && Leaving(run[k].procs[n].pc)
    ensures n <= m < |run[k].procs| && Leaving(run[k].procs[m].pc) && (m == TOTAL || run[k].procs[m].failed)
    decreases |run[k].procs| - n
  {
    RunReasoned(run, k);
    RunInv(run, k);
    hide Run;
    var s := run[k];
    if n + 1 < |s.procs| {
      LinkAt(s, n);
      m := LeavesForAReason(run, k, n + 1);
    } else {
      WorksAt(s, n);
      m := n;
    }
  }

  // ---------------------------------------------------------------- how two neighbours part

  /** What becomes of a link when its consumer leaves: the consumer takes the number in the slot without reading it
      and puts -1 there, the producer finds that when it hands on one more number, and leaves too. */
  predicate Parting(p: Proc, l: Link, c: Proc) {
    && |p.sent| <= |c.got| + 2
    && (Leaving(p.pc) ==> c.pc.Quit?)
    && (c.pc.QPost? ==> l.note < 0 && |p.sent| <= |c.got| + 1)
    && (c.pc.Quit? ==>
          && (l.empty > 0 || p.pc.PLoad? ==> l.note < 0 && |p.sent| <= |c.got| + 1)
          && (p.pc.PStore? ==> p.pc.was < 0 && |p.sent| <= |c.got| + 1)
          && (p.pc.PPost? ==> p.pc.was < 0)
          && (l.full > 0 ==> Leaving(p.pc)))
  }

  predicate PartsAt(s: State, k: nat)
    requires Shaped(s) && k < |s.links|
  {
    Parting(s.procs[k], s.links[k], s.procs[k + 1])
  }

  /** A stage that leaves has passed on all it had to, or had no successor to pass its first number on to. */
  predicate Settled(p: Proc) {
    Leaving(p.pc) ==> p.self != 0 && if p.forked then p.sent == Filter(p.got, p.self) else |Filter(p.got, p.self)| == 1
  }

  predicate Ordered(s: State) {
    && Shaped(s)
    && (forall k: nat :: k < |s.links| ==> PartsAt(s, k))
    && (forall n :: 0 < n < |s.procs| ==> Settled(s.procs[n]))
  }

  lemma StepSettled(s: State, n: nat, ok: bool)
    requires Shaped(s) && 0 < n < |s.procs| && Enabled(s, n) && StageWorks(s.procs[n]) && Settled(s.procs[n])
    ensures n < |Step(s, n, ok).procs| && Settled(Step(s, n, ok).procs[n])
  {
    hide Filter, Divides;
    var p := s.procs[n];
    if p.pc.NPost? { assert p.pc.v == p.got[|p.got| - 1] >= 2; }
  }

  lemma StepProducing(s: State, n: nat, ok: bool)
    requires Shaped(s) && n < |s.links| && Enabled(s, n) && LinkWorks(s, n) && PartsAt(s, n) && s.procs[n].forked
    requires if n == 0 then MainWorks(s.procs[0]) else StageWorks(s.procs[n])
    ensures var t := Step(s, n, ok); Shaped(t) && n < |t.links| && PartsAt(t, n)
  {
    hide Filter, Divides, Upto;
    var p := s.procs[n];
    if n > 0 && p.pc.NPost? { assert p.pc.v == p.got[|p.got| - 1] >= 2; }
  }

  lemma StepConsuming(s: State, k: nat, ok: bool)
    requires Shaped(s) && k < |s.links| && Enabled(s, k + 1) && LinkWorks(s, k) && PartsAt(s, k)
    ensures var t := Step(s, k + 1, ok); Shaped(t) && k < |t.links| && PartsAt(t, k)
  {
    var pc := s.procs[k + 1].pc;
    if pc.NTest? || pc.Fork? || pc.PWait? || pc.PLoad? || pc.PStore? || pc.PPost? {
      ConsumingElsewhere(s, k, ok);
    } else {
      ConsumingHere(s, k, ok);
    }
  }

  lemma ConsumingElsewhere(s: State, k: nat, ok: bool)
    requires Shaped(s) && k < |s.links| && Enabled(s, k + 1) && PartsAt(s, k)
    requires var pc := s.procs[k + 1].pc; pc.NTest? || pc.Fork? || pc.PWait? || pc.PLoad? || pc.PStore? || pc.PPost?
    ensures var t := Step(s, k + 1, ok); Shaped(t) && k < |t.links| && PartsAt(t, k)
  {
    hide Divides;
    var t := Step(s, k + 1, ok);
    assert t.links[k] == s.links[k] && t.procs[k] == s.procs[k] && t.procs[k + 1].got == s.procs[k + 1].got;
    assert !t.procs[k + 1].pc.Quit? && !t.procs[k + 1].pc.QPost?;
    hide Step;
  }

  lemma ConsumingHere(s: State, k: nat, ok: bool)
    requires Shaped(s) && k < |s.links| && Enabled(s, k + 1) && LinkWorks(s, k) && PartsAt(s, k)
    requires var pc := s.procs[k + 1].pc; !(pc.NTest? || pc.Fork? || pc.PWait? || pc.PLoad? || pc.PStore? || pc.PPost?)
    ensures var t := Step(s, k + 1, ok); Shaped(t) && k < |t.links| && PartsAt(t, k)
  {
    var t := Step(s, k + 1, ok);
    assert t.procs[k] == s.procs[k];
  }

  lemma StepOrdered(s: State, n: nat, ok: bool)
    requires Inv(s) && Ordered(s) && n < |s.procs| && Enabled(s, n)
    ensures Ordered(Step(s, n, ok))
  {
    hide Inv, Step, Enabled, Parting, Settled, StageWorks, MainWorks, HandOff;
    StepFrame(s, n, ok);
    WorksAt(s, n);
    var t := Step(s, n, ok);
    if n > 0 { StepSettled(s, n, ok); }
    NewIsSettled();
    forall k: nat | k < |t.links| ensures PartsAt(t, k) { PartsAfter(s, n, ok, k); }
  }

  lemma NewIsSettled()
    ensures Settled(NEW_STAGE)
  {
  }

  lemma PartsAfter(s: State, n: nat, ok: bool, k: nat)
    requires Inv(s) && Ordered(s) && n < |s.procs| && Enabled(s, n)
    requires var t := Step(s, n, ok); Shaped(t) && k < |t.links|
    ensures PartsAt(Step(s, n, ok), k)
  {
    hide Inv, Step, Enabled, Parting, Settled, StageWorks, MainWorks, HandOff;
    StepFrame(s, n, ok);
    WorksAt(s, n);
    if k < |s.links| {
      LinkAt(s, k);
      assert PartsAt(s, k);
      if k == n { StepProducing(s, n, ok); } else if k == n - 1 { StepConsuming(s, k, ok); }
    } else {
      NewParts(Step(s, n, ok), s.procs[n], n);
      NotSentYet(s.procs[n]);
    }
  }

  lemma NotSentYet(p: Proc)
    requires StageWorks(p) && !p.forked
    ensures p.sent == []
  {
  }

  lemma NewParts(t: State, p: Proc, n: nat)
    requires Shaped(t) && n < |t.links| && t.procs[n + 1] == NEW_STAGE && t.procs[n].pc.PWait? && t.procs[n].sent == p.sent
    ensures p.sent == [] ==> PartsAt(t, n)
  {
  }

  lemma {:induction false} RunOrdered(run: seq<State>, k: nat)
    requires Run(run) && k < |run|
    ensures Ordered(run[k])
  {
    hide Inv, Step, Enabled, Ordered;
    if k == 0 {
      StartOrdered(run[0]);
    } else {
      RunOrdered(run, k - 1);
      RunInv(run, k - 1);
      assert Next(run[k - 1], run[k]);
      var n: nat, ok: bool :| n < |run[k - 1].procs| && Enabled(run[k - 1], n) && run[k] == Step(run[k - 1], n, ok);
      StepOrdered(run[k - 1], n, ok);
    }
  }

  lemma StartOrdered(s: State)
    requires Init(s)
    ensures Ordered(s)
  {
  }

  // ---------------------------------------------------------------- no deadlock

  ghost predicate Stuck(s: State)
    requires Shaped(s)
  {
    forall n: nat :: n < |s.procs| ==> !Enabled(s, n)
  }

  /** In a stuck state a process waits for a number, or to hand one on, or has gone. */
  lemma StuckAt(s: State, n: nat)
    requires Inv(s) && Stuck(s) && n < |s.procs|
    ensures var pc := s.procs[n].pc;
            && (pc.Quit? || pc.PWait? || (n > 0 && (pc.TWait? || pc.NWait? || pc.QWait?)))
            && (pc.PWait? ==> n < |s.links| && s.links[n].empty == 0)
            && (pc.TWait? || pc.NWait? || pc.QWait? ==> n > 0 && s.links[n - 1].full == 0)
  {
    hide Inv, Filter;
    WorksAt(s, n);
    assert !Enabled(s, n);
  }

  /** Nobody waits to hand a number on, for then the next would too, and so on to the last, who has no next. */
  lemma {:induction false} NobodyPushes(s: State, n: nat)
    requires Inv(s) && Ordered(s) && Stuck(s) && n < |s.procs|
    ensures !s.procs[n].pc.PWait?
    decreases |s.procs| - n
  {
    hide Inv, Stuck, StageWorks, MainWorks;
    StuckAt(s, n);
    if s.procs[n].pc.PWait? {
      LinkAt(s, n);
      assert PartsAt(s, n);
      StuckAt(s, n + 1);
      NobodyPushes(s, n + 1);
    }
  }

  /** So everybody has gone. */
  lemma {:induction false} EverybodyHasGone(s: State, n: nat)
    requires Inv(s) && Ordered(s) && Stuck(s) && n < |s.procs|
    ensures s.procs[n].pc.Quit?
    decreases n
  {
    hide Inv, Stuck, StageWorks, MainWorks;
    StuckAt(s, n);
    NobodyPushes(s, n);
    if n > 0 {
      EverybodyHasGone(s, n - 1);
      assert PartsAt(s, n - 1);
    }
  }

  // ---------------------------------------------------------------- how many steps there are

  /** How many steps a process has taken at most: a stage takes at most nine for each number it reads and three to
      leave, main four for each number it sends. */
  function Taken(n: nat, p: Proc): int {
    if n == 0 then
      4 * |p.sent| + (match p.pc case PLoad(_) => 1 case PStore(_, _) => 2 case PPost(_, _) => -1 case _ => 0)
    else
      9 * |p.got| + (match p.pc
                     case TLoad => 1 case NLoad => 1 case TPost(_) => -7 case NPost(_) => -7 case NTest(_) => -6 case Fork(_) => -5
                     case PWait(_) => -4 case PLoad(_) => -3 case PStore(_, _) => -2 case PPost(_, _) => -1
                     case QStore => 1 case QPost => 2 case Quit => 3 case _ => 0)
  }

  function AllTaken(procs: seq<Proc>): int {
    if procs == [] then 0 else AllTaken(procs[..|procs| - 1]) + Taken(|procs| - 1, procs[|procs| - 1])
  }

  lemma {:induction false} TakenMove(procs: seq<Proc>, n: nat, p: Proc)
    requires n < |procs|
    ensures AllTaken(procs[n := p]) == AllTaken(procs) - Taken(n, procs[n]) + Taken(n, p)
  {
    var last := |procs| - 1;
    if n == last {
      assert procs[n := p][..last] == procs[..last];
    } else {
      assert procs[n := p][..last] == procs[..last][n := p];
      TakenMove(procs[..last], n, p);
    }
  }

  lemma MainTaken(s: State, ok: bool)
    requires Shaped(s) && Enabled(s, 0) && MainWorks(s.procs[0])
    ensures var t := Step(s, 0, ok); |t.procs| > 0 && Taken(0, t.procs[0]) >= Taken(0, s.procs[0]) + 1
  {
    hide Upto;
  }

  lemma StageTaken(s: State, n: nat, ok: bool)
    requires Shaped(s) && 0 < n < |s.procs| && Enabled(s, n) && StageWorks(s.procs[n])
    ensures var t := Step(s, n, ok); n < |t.procs| && Taken(n, t.procs[n]) >= Taken(n, s.procs[n]) + 1
  {
    hide Filter, Divides;
  }

  /** Every step counts. */
  lemma NextTaken(s: State, n: nat, ok: bool)
    requires Inv(s) && n < |s.procs| && Enabled(s, n)
    ensures AllTaken(Step(s, n, ok).procs) >= AllTaken(s.procs) + 1
  {
    hide Inv, Step, Taken, AllTaken, StageWorks, MainWorks;
    WorksAt(s, n);
    StepFrame(s, n, ok);
    if n == 0 { MainTaken(s, ok); } else { StageTaken(s, n, ok); }
    var t := Step(s, n, ok);
    var same := s.procs[n := t.procs[n]];
    TakenMove(s.procs, n, t.procs[n]);
    if |t.procs| > |s.procs| {
      assert t.procs == same + [NEW_STAGE];
      NewTaken(same);
    } else {
      assert t.procs == same;
    }
  }

  lemma NewTaken(procs: seq<Proc>)
    requires procs != []
    ensures AllTaken(procs + [NEW_STAGE]) == AllTaken(procs)
  {
    assert (procs + [NEW_STAGE])[..|procs|] == procs;
  }

  lemma {:induction false} RunTaken(run: seq<State>, k: nat)
    requires Run(run) && k < |run|
    ensures AllTaken(run[k].procs) >= k
  {
    hide Inv, Step, Enabled, AllTaken;
    if k == 0 {
      StartTaken(run[0]);
    } else {
      RunInv(run, k - 1);
      assert Next(run[k - 1], run[k]);
      var n: nat, ok: bool :| n < |run[k - 1].procs| && Enabled(run[k - 1], n) && run[k] == Step(run[k - 1], n, ok);
      RunTaken(run, k - 1);
      NextTaken(run[k - 1], n, ok);
    }
  }

  lemma StartTaken(s: State)
    requires Init(s)
    ensures AllTaken(s.procs) == 0
  {
    assert s.procs[..1] == [s.procs[0]] && [s.procs[0]][..0] == [];
    assert AllTaken([s.procs[0]]) == AllTaken([]) + Taken(0, s.procs[0]);
    assert AllTaken(s.procs) == AllTaken(s.procs[..1]) + Taken(1, s.procs[1]);
  }

  /** A stage has read no more than main has sent. */
  lemma {:induction false} GotAtMost(s: State, n: nat)
    requires Inv(s) && 0 < n < |s.procs|
    ensures |s.procs[n].got| <= |s.procs[0].sent|
    decreases n
  {
    hide Inv, Filter;
    LinkAt(s, n - 1);
    if n > 1 {
      GotAtMost(s, n - 1);
      WorksAt(s, n - 1);
      StageSends(s.procs[n - 1]);
      if s.procs[n - 1].sent != [] { FilterShorter(s.procs[n - 1].got, s.procs[n - 1].self); }
    }
  }

  lemma {:induction false} FilterShorter(s: seq<int>, d: int)
    requires d != 0
    ensures |Filter(s, d)| <= |s|
  {
    if s != [] { FilterShorter(s[..|s| - 1], d); }
  }

  lemma {:induction false} TakenBound(s: State, m: nat)
    requires Inv(s) && m <= |s.procs|
    ensures AllTaken(s.procs[..m]) <= m * (9 * |s.procs[0].sent| + 3)
  {
    hide Inv;
    if m > 0 {
      TakenBound(s, m - 1);
      assert s.procs[..m][..m - 1] == s.procs[..m - 1];
      if m > 1 { GotAtMost(s, m - 1); }
      assert Taken(m - 1, s.procs[m - 1]) <= 9 * |s.procs[0].sent| + 3;
      assert m * (9 * |s.procs[0].sent| + 3) == (m - 1) * (9 * |s.procs[0].sent| + 3) + (9 * |s.procs[0].sent| + 3);
    }
  }

  lemma MoreStages(a: nat, b: nat, c: nat)
    requires a <= b
    ensures a * c <= b * c
  {
  }

  // ---------------------------------------------------------------- how far the numbers have come

  /** Dropping the end of a sequence drops at most that much of what is left of it. */
  lemma {:induction false} FilterLoses(s: seq<int>, g: nat, d: int)
    requires d != 0 && g <= |s|
    ensures |Filter(s[..g], d)| >= |Filter(s, d)| - (|s| - g)
    decreases |s|
  {
    if g < |s| {
      var init := s[..|s| - 1];
      FilterLoses(init, g, d);
      assert init[..g] == s[..g];
    } else {
      assert s[..g] == s;
    }
  }

  lemma FilterDropsHead(s: seq<int>)
    requires s != [] && s[0] != 0
    ensures |Filter(s, s[0])| < |s|
  {
    FilterLoses(s, 1, s[0]);
    var d := s[0];
    assert s == [d] + s[1..];
    FilterHead(s, d);
  }

  lemma {:induction false} FilterHead(s: seq<int>, d: int)
    requires d != 0 && s != [] && s[0] == d
    ensures |Filter(s, d)| <= |s| - 1
  {
    if |s| > 1 {
      FilterHead(s[..|s| - 1], d);
    } else {
      assert s[..0] == [];
      assert Divides(d, d);
    }
  }

  /** What a stage has passed on lacks at most one of what it has to pass on. */
  lemma SentLacksOne(p: Proc)
    requires StageWorks(p) && Settled(p) && |p.got| > 1
    ensures p.self == p.got[0] >= 2 && |p.sent| >= |Filter(p.got, p.self)| - 1
  {
    hide Filter;
    if p.pc.NPost? || p.pc.NTest? { FilterLoses(p.got, |p.got| - 1, p.self); }
  }

  /** Of the numbers a stage would read when main has sent N, at most three for each stage up to it never get there;
      and if that leaves any, the stage is there. */
  lemma {:induction false} OnTheWay(s: State, n: nat)
    requires Inv(s) && Ordered(s) && n > 0 && |Sieve(n - 1, |s.procs[0].sent|)| >= 3 * n
    ensures n < |s.procs| && |s.procs[n].got| >= |Sieve(n - 1, |s.procs[0].sent|)| - (3 * n - 1)
    decreases n
  {
    hide Sieve, Filter, HandOff, StageWorks, MainWorks, Settled;
    var N := |s.procs[0].sent|;
    if n == 1 {
      FirstSieve(s);
      assert PartsAt(s, 0);
    } else {
      var S := Sieve(n - 2, N);
      SieveWasLonger(n - 1, N);
      OnTheWay(s, n - 1);
      var p := s.procs[n - 1];
      assert StageWorks(p) && Settled(p);
      StageReadsSieve(s, n - 1);
      assert p.got == S[..|p.got|];
      SentLacksOne(p);
      FilterLoses(S, |p.got|, p.self);
      SentMeansForked(p);
      assert p.forked <==> n - 1 < |s.links|;
      assert PartsAt(s, n - 1);
    }
  }

  lemma SentMeansForked(p: Proc)
    requires StageWorks(p)
    ensures p.sent != [] ==> p.forked
  {
  }

  lemma SieveWasLonger(k: nat, n: nat)
    requires k > 0 && Sieve(k, n) != []
    ensures Sieve(k - 1, n) != [] && Sieve(k, n) == Filter(Sieve(k - 1, n), Sieve(k - 1, n)[0]) && |Sieve(k - 1, n)| > |Sieve(k, n)|
  {
    SieveShrinks(k, n);
    FilterDropsHead(Sieve(k - 1, n));
  }

  // ---------------------------------------------------------------- there are always more survivors

  lemma {:induction false} SievePrefix(k: nat, n: nat, n': nat)
    requires n <= n'
    ensures Sieve(k, n) <= Sieve(k, n')
  {
    hide Filter;
    if k > 0 {
      SievePrefix(k - 1, n, n');
      var a, b := Sieve(k - 1, n), Sieve(k - 1, n');
      if a != [] { FilterPrefix(a, b, a[0]); }
    }
  }

  lemma {:induction false} HeadsSame(k: nat, n: nat, n': nat)
    requires n <= n' && (k > 0 ==> Sieve(k - 1, n) != [])
    ensures k > 0 ==> Sieve(k - 1, n') != []
    ensures Heads(k, n') == Heads(k, n)
  {
    hide Sieve;
    if k > 0 {
      SievePrefix(k - 1, n, n');
      SieveShrinks(k - 1, n);
      SieveShrinks(k - 1, n');
      HeadsSame(k - 1, n, n');
    }
  }

  function Product(s: seq<int>): int { if s == [] then 1 else Product(s[..|s| - 1]) * s[|s| - 1] }

  lemma {:induction false} ProductPositive(s: seq<int>)
    requires forall i :: 0 <= i < |s| ==> s[i] >= 2
    ensures Product(s) >= 1
  {
    if s != [] {
      ProductPositive(s[..|s| - 1]);
      AtLeast(Product(s[..|s| - 1]), s[|s| - 1]);
    }
  }

  lemma AtLeast(a: int, b: int)
    requires a >= 1 && b >= 1
    ensures a * b >= b && a * b >= a
  {
    assert a * b == (a - 1) * b + b && a * b == a * (b - 1) + a;
  }

  lemma {:induction false} ProductDivides(s: seq<int>, i: nat)
    requires i < |s| && forall j :: 0 <= j < |s| ==> s[j] >= 2
    ensures Product(s) % s[i] == 0
  {
    var last := |s| - 1;
    if i < last {
      ProductDivides(s[..last], i);
      var q := Product(s[..last]) / s[i];
      assert Product(s[..last]) == s[i] * q;
      assert Product(s) == s[i] * (q * s[last]);
      ModMultiple(s[i], q * s[last]);
    } else {
      ModMultiple(s[i], Product(s[..last]));
    }
  }

  /** One more than a multiple of the product is divided by none of the factors. */
  lemma OneMoreSurvives(s: seq<int>, a: nat)
    requires forall j :: 0 <= j < |s| ==> s[j] >= 2
    ensures Survives(1 + Product(s) * a, s)
  {
    hide Product, Indivisible;
    forall i | 0 <= i < |s| ensures Indivisible(1 + Product(s) * a, s[i]) {
      ProductDivides(s, i);
      Residue(Product(s), a, s[i]);
    }
  }

  lemma Residue(p: int, a: nat, d: int)
    requires d >= 2 && p % d == 0
    ensures Indivisible(1 + p * a, d)
  {
    var q := p / d;
    assert p == d * q;
    assert p * a == d * (q * a);
    OneOver(d, q * a);
  }

  lemma OneOver(d: int, x: int)
    requires d >= 2
    ensures (1 + d * x) % d == 1
  {
    ModMultiple(d, x);
    var y := 1 + d * x;
    assert y == d * (y / d) + y % d;
    var t := y / d - x;
    assert d * t == 1 - y % d;
    if t >= 1 { AtLeast(t, d); } else if t <= -1 { AtLeast(-t, d); }
  }

  lemma {:induction false} HeadsAtLeastTwo(k: nat, n: nat)
    requires k > 0 ==> Sieve(k - 1, n) != []
    ensures forall i :: 0 <= i < |Heads(k, n)| ==> Heads(k, n)[i] >= 2
  {
    hide Sieve;
    if k > 0 {
      SieveShrinks(k - 1, n);
      HeadsAtLeastTwo(k - 1, n);
    }
  }

  /** However many have survived, one more does when enough is sent. */
  lemma AnotherSurvivor(k: nat, n: nat) returns (n': nat)
    requires k > 0 ==> Sieve(k - 1, n) != []
    ensures n <= n' && (k > 0 ==> Sieve(k - 1, n') != []) && |Sieve(k, n')| > |Sieve(k, n)|
  {
    hide Sieve, Heads, Survives;
    HeadsAtLeastTwo(k, n);
    var P := Product(Heads(k, n));
    ProductPositive(Heads(k, n));
    var m := 1 + P * (n + 2);
    AtLeast(P, n + 2);
    OneMoreSurvives(Heads(k, n), n + 2);
    n' := m;
    HeadsSame(k, n, n');
    SieveMembers(k, n', m);
    SieveMembers(k, n, m);
    SievePrefix(k, n, n');
    assert |Sieve(k, n')| == |Sieve(k, n)| ==> Sieve(k, n') == Sieve(k, n);
  }

  /** As many numbers as one likes survive the first k primes. */
  lemma {:induction false} Survivors(k: nat, many: nat) returns (n: nat)
    ensures |Sieve(k, n)| >= many && (k > 0 ==> Sieve(k - 1, n) != [])
    decreases k, many
  {
    hide Sieve;
    if many > 0 {
      n := Survivors(k, many - 1);
      n := AnotherSurvivor(k, n);
    } else if k > 0 {
      n := Survivors(k - 1, 1);
    } else {
      n := 0;
    }
  }

  // ---------------------------------------------------------------- every run ends

  /** So many numbers that, however many stages there are, the last would have had to pass on more than one. */
  lemma {:induction false} Plenty(stages: nat) returns (n: nat)
    ensures forall last: nat :: last <= stages ==> |Sieve(last, n)| >= 3 * (last + 1)
  {
    hide Sieve;
    var here := Survivors(stages, 3 * (stages + 1));
    if stages == 0 {
      n := here;
    } else {
      var before := Plenty(stages - 1);
      n := if before < here then here else before;
      forall last: nat | last <= stages ensures |Sieve(last, n)| >= 3 * (last + 1) {
        SievePrefix(last, if last == stages then here else before, n);
      }
    }
  }

  /** main never sends that many. */
  lemma SentIsBounded(s: State, plenty: nat)
    requires Inv(s) && Ordered(s) && Reasoned(s)
    requires forall last: nat :: last <= TOTAL ==> |Sieve(last, plenty)| >= 3 * (last + 1)
    ensures |s.procs| > 0 && |s.procs[0].sent| < plenty
  {
    hide Sieve, StageWorks, MainWorks, PartsAt, Settled, LinkWorks;
    var last: nat := |s.procs| - 1;
    var N := |s.procs[0].sent|;
    assert |Sieve(last, plenty)| >= 3 * (last + 1);
    if plenty <= N {
      SievePrefix(last, plenty, N);
      OnTheWay(s, last + 1);
    }
  }

  /** Every run, whatever the interleaving and whatever fails, is shorter than some fixed number of steps. */
  lemma EveryRunEnds() returns (length: nat)
    ensures forall run :: Run(run) ==> |run| <= length
  {
    hide Run, Sieve;
    var plenty := Plenty(TOTAL);
    length := (TOTAL + 1) * (9 * plenty + 3) + 1;
    forall run | Run(run) ensures |run| <= length { RunIsShort(run, plenty); }
  }

  lemma RunIsShort(run: seq<State>, plenty: nat)
    requires Run(run) && forall last: nat :: last <= TOTAL ==> |Sieve(last, plenty)| >= 3 * (last + 1)
    ensures |run| <= (TOTAL + 1) * (9 * plenty + 3) + 1
  {
    hide Inv, Ordered, Sieve, AllTaken;
    assert run != [];
    var k := |run| - 1;
    var s := run[k];
    RunInv(run, k);
    RunOrdered(run, k);
    RunReasoned(run, k);
    SentIsBounded(s, plenty);
    RunTaken(run, k);
    TakenBound(s, |s.procs|);
    assert s.procs[..|s.procs|] == s.procs;
    MoreStages(|s.procs|, TOTAL + 1, 9 * |s.procs[0].sent| + 3);
  }

  // ---------------------------------------------------------------- and how

  /** No sem_init and no fork has failed. */
  predicate NoFailure(s: State) {
    forall n :: 0 <= n < |s.procs| ==> !s.procs[n].failed
  }

  /** Stage n - 1 is there and has announced its number, which is the n-th prime. */
  ghost predicate HasAnnounced(s: State, n: nat) {
    0 < n < |s.procs| && !Starting(s.procs[n].pc) && IsPrime(s.procs[n].self) && Announced(s, n) == PrimesBelow(s.procs[n].self)
  }

  /** A run that cannot go on has everybody gone, every stage having announced its prime; without a failure there are
      as many stages as notes. */
  lemma HowRunsEnd(run: seq<State>)
    requires Run(run) && Shaped(run[|run| - 1]) && Stuck(run[|run| - 1])
    ensures var s := run[|run| - 1];
            && (forall n :: 0 <= n < |s.procs| ==> s.procs[n].pc.Quit?)
            && (forall n: nat :: 0 < n < |s.procs| ==> HasAnnounced(s, n))
            && (NoFailure(s) ==> |s.procs| == 1 + 1000)
  {
    hide Inv, Ordered, Stuck, IsPrime, PrimesBelow, Announced;
    var k := |run| - 1;
    var s := run[k];
    RunInv(run, k);
    RunOrdered(run, k);
    RunReasoned(run, k);
    forall n | 0 <= n < |s.procs| ensures s.procs[n].pc.Quit? { EverybodyHasGone(s, n); }
    forall n: nat | 0 < n < |s.procs| ensures HasAnnounced(s, n) { AnnouncesNthPrime(run, k, n); }
    if NoFailure(s) { var m := LeavesForAReason(run, k, 0); }
  }

  /** A run in which every sem_init and every fork succeeds. */
  ghost predicate Lucky(run: seq<State>) {
    run != [] && Init(run[0]) && forall k :: 0 < k < |run| ==> LuckyNext(run[k - 1], run[k])
  }

  ghost predicate LuckyNext(s: State, t: State) {
    Shaped(s) && exists n: nat :: n < |s.procs| && Enabled(s, n) && t == Step(s, n, true)
  }

  lemma {:induction false} LuckyHasNoFailure(run: seq<State>, k: nat)
    requires Lucky(run) && k < |run|
    ensures Run(run) && NoFailure(run[k])
  {
    hide Step, Enabled, Init, NoFailure;
    forall i | 0 < i < |run| ensures Next(run[i - 1], run[i]) { assert LuckyNext(run[i - 1], run[i]); }
    if k == 0 {
      NoFailureYet(run[0]);
    } else {
      LuckyHasNoFailure(run, k - 1);
      assert LuckyNext(run[k - 1], run[k]);
      var n: nat :| n < |run[k - 1].procs| && Enabled(run[k - 1], n) && run[k] == Step(run[k - 1], n, true);
      LuckyStep(run[k - 1], n);
    }
  }

  lemma NoFailureYet(s: State)
    requires Init(s)
    ensures NoFailure(s)
  {
  }

  lemma LuckyStep(s: State, n: nat)
    requires Shaped(s) && n < |s.procs| && Enabled(s, n) && NoFailure(s)
    ensures NoFailure(Step(s, n, true))
  {
    hide Divides;
  }

  /** As long as nothing fails the program announces the first 1000 primes, in order, and ends: every run can be
      carried on to such an end. */
  lemma {:induction false} PrimesCome(run: seq<State>, length: nat) returns (whole: seq<State>)
    requires Lucky(run) && forall r :: Run(r) ==> |r| <= length
    ensures Lucky(whole) && run <= whole
    ensures var s := whole[|whole| - 1];
            |s.procs| == 1 + 1000 && (forall n :: 0 <= n < |s.procs| ==> s.procs[n].pc.Quit?)
            && forall n: nat :: 0 < n <= 1000 ==> HasAnnounced(s, n)
    decreases length - |run|
  {
    hide Step, Enabled, Init, HasAnnounced, NoFailure, Run;
    var s := run[|run| - 1];
    LuckyHasNoFailure(run, |run| - 1);
    ReachedIsShaped(run);
    if Stuck(s) {
      HowRunsEnd(run);
      whole := run;
    } else {
      var n: nat :| n < |s.procs| && Enabled(s, n);
      var longer := LuckyOn(run, n);
      whole := PrimesCome(longer, length);
    }
  }

  lemma ReachedIsShaped(run: seq<State>)
    requires Run(run)
    ensures run != [] && Shaped(run[|run| - 1])
  {
    RunInv(run, |run| - 1);
  }

  lemma LuckyOn(run: seq<State>, n: nat) returns (longer: seq<State>)
    requires Lucky(run) && Shaped(run[|run| - 1]) && n < |run[|run| - 1].procs| && Enabled(run[|run| - 1], n)
    ensures Lucky(longer) && Run(longer) && run <= longer && |longer| == |run| + 1
  {
    hide Step, Enabled, Init;
    var s := run[|run| - 1];
    longer := run + [Step(s, n, true)];
    assert LuckyNext(s, longer[|run|]);
    forall k | 0 < k < |longer| ensures LuckyNext(longer[k - 1], longer[k]) {
      if k < |run| { assert LuckyNext(run[k - 1], run[k]); }
    }
    LuckyHasNoFailure(longer, 0);
  }
}
