/** Writer-priority readers/writers over five semaphores (ucore/src/user-ucore/sem_wf.c).

    Any number of reader and writer processes run `reader` and `writer` under
    arbitrary interleaving.  A step is one semaphore operation, one load of a shared
    counter, one store to it, one test of it, or leaving the section; increments and
    decrements of the counters are therefore *not* assumed atomic. */
module ReadersWriters {

  /** Where a process stands: the operation it performs next.  `seen` is the value a
      process loaded from a counter and is about to store back changed by one. */
  datatype Pc =
    // reader (sem_wf.c:69-89)
    | RWaitZ | RWaitRead | RWaitX
    | RLoadInc | RStoreInc(seen: int) | RTestFirst | RWaitWrite
    | RPostX | RPostRead | RPostZ
    | RSection
    | RWaitXOut | RLoadDec | RStoreDec(seen: int) | RTestLast | RPostWrite | RPostXOut
    | RDone
    // writer (sem_wf.c:95-113)
    | WWaitY | WLoadInc | WStoreInc(seen: int) | WTestFirst | WWaitRead | WPostY
    | WWaitWrite
    | WSection
    | WPostWrite
    | WWaitYOut | WLoadDec | WStoreDec(seen: int) | WTestLast | WPostRead | WPostYOut
    | WDone

  /** The five semaphores, the two shared counters and every process. */
  datatype State = State(x: nat, y: nat, z: nat, read: nat, write: nat,
                         countR: int, countW: int, procs: seq<Pc>)

  predicate Done(pc: Pc) { pc.RDone? || pc.WDone? }

  /** State after `init` (sem_wf.c:49-64) with every process about to arrive. */
  predicate Init(s: State) {
    && s.x == s.y == s.z == s.read == s.write == 1
    && s.countR == s.countW == 0
    && forall i :: 0 <= i < |s.procs| ==> s.procs[i].RWaitZ? || s.procs[i].WWaitY?
  }

  /** A process can move unless it waits on a semaphore whose value is zero, or has finished. */
  predicate Enabled(s: State, i: nat)
    requires i < |s.procs|
  {
    match s.procs[i]
    case RWaitZ => s.z > 0
    case RWaitRead => s.read > 0
    case RWaitX => s.x > 0
    case RWaitWrite => s.write > 0
    case RWaitXOut => s.x > 0
    case WWaitY => s.y > 0
    case WWaitRead => s.read > 0
    case WWaitWrite => s.write > 0
    case WWaitYOut => s.y > 0
    case RDone => false
    case WDone => false
    case _ => true
  }

  function At(s: State, i: nat, pc: Pc): State
    requires i < |s.procs|
  {
    s.(procs := s.procs[i := pc])
  }

  /** One step of process i. */
  function Step(s: State, i: nat): (t: State)
    requires i < |s.procs| && Enabled(s, i)
  {
    match s.procs[i]
    case RWaitZ => At(s, i, RWaitRead).(z := s.z - 1)
    case RWaitRead => At(s, i, RWaitX).(read := s.read - 1)
    case RWaitX => At(s, i, RLoadInc).(x := s.x - 1)
    case RLoadInc => At(s, i, RStoreInc(s.countR))
    case RStoreInc(v) => At(s, i, RTestFirst).(countR := v + 1)
    case RTestFirst => At(s, i, if s.countR == 1 then RWaitWrite else RPostX)
    case RWaitWrite => At(s, i, RPostX).(write := s.write - 1)
    case RPostX => At(s, i, RPostRead).(x := s.x + 1)
    case RPostRead => At(s, i, RPostZ).(read := s.read + 1)
    case RPostZ => At(s, i, RSection).(z := s.z + 1)
    case RSection => At(s, i, RWaitXOut)
    case RWaitXOut => At(s, i, RLoadDec).(x := s.x - 1)
    case RLoadDec => At(s, i, RStoreDec(s.countR))
    case RStoreDec(v) => At(s, i, RTestLast).(countR := v - 1)
    case RTestLast => At(s, i, if s.countR == 0 then RPostWrite else RPostXOut)
    case RPostWrite => At(s, i, RPostXOut).(write := s.write + 1)
    case RPostXOut => At(s, i, RDone).(x := s.x + 1)
    case WWaitY => At(s, i, WLoadInc).(y := s.y - 1)
    case WLoadInc => At(s, i, WStoreInc(s.countW))
    case WStoreInc(v) => At(s, i, WTestFirst).(countW := v + 1)
    case WTestFirst => At(s, i, if s.countW == 1 then WWaitRead else WPostY)
    case WWaitRead => At(s, i, WPostY).(read := s.read - 1)
    case WPostY => At(s, i, WWaitWrite).(y := s.y + 1)
    case WWaitWrite => At(s, i, WSection).(write := s.write - 1)
    case WSection => At(s, i, WPostWrite)
    case WPostWrite => At(s, i, WWaitYOut).(write := s.write + 1)
    case WWaitYOut => At(s, i, WLoadDec).(y := s.y - 1)
    case WLoadDec => At(s, i, WStoreDec(s.countW))
    case WStoreDec(v) => At(s, i, WTestLast).(countW := v - 1)
    case WTestLast => At(s, i, if s.countW == 0 then WPostRead else WPostYOut)
    case WPostRead => At(s, i, WPostYOut).(read := s.read + 1)
    case WPostYOut => At(s, i, WDone).(y := s.y + 1)
  }

  ghost predicate Next(s: State, t: State) {
    exists i: nat :: i < |s.procs| && Enabled(s, i) && t == Step(s, i)
  }

  /** A run: every state follows from the one before by one step of some process. */
  ghost predicate Run(run: seq<State>) {
    && run != []
    && Init(run[0])
    && forall k :: 0 < k < |run| ==> Next(run[k - 1], run[k])
  }

  // ---------------------------------------------------------------- counting processes

  /** Groups of program points whose populations the invariant speaks about. */
  datatype Group = HoldX | HoldY | HoldZ | ReaderHoldsRead | CountedR | CountedW
                 | FirstR | LastR | FirstW | LastW | Writing | Admitted | Entering | InSection | NearRead

  predicate In(g: Group, pc: Pc) {
    match g
    case HoldX => pc.RLoadInc? || pc.RStoreInc? || pc.RTestFirst? || pc.RWaitWrite? || pc.RPostX?
               || pc.RLoadDec? || pc.RStoreDec? || pc.RTestLast? || pc.RPostWrite? || pc.RPostXOut?
    case HoldY => pc.WLoadInc? || pc.WStoreInc? || pc.WTestFirst? || pc.WWaitRead? || pc.WPostY?
               || pc.WLoadDec? || pc.WStoreDec? || pc.WTestLast? || pc.WPostRead? || pc.WPostYOut?
    case HoldZ => pc.RWaitRead? || pc.RWaitX? || pc.RLoadInc? || pc.RStoreInc? || pc.RTestFirst?
               || pc.RWaitWrite? || pc.RPostX? || pc.RPostRead? || pc.RPostZ?
    case NearRead => pc.RWaitRead? || pc.RWaitX? || pc.RLoadInc? || pc.RStoreInc? || pc.RTestFirst?
                  || pc.RWaitWrite? || pc.RPostX? || pc.RPostRead?
    case ReaderHoldsRead => pc.RWaitX? || pc.RLoadInc? || pc.RStoreInc? || pc.RTestFirst?
                         || pc.RWaitWrite? || pc.RPostX? || pc.RPostRead?
    case CountedR => pc.RTestFirst? || pc.RWaitWrite? || pc.RPostX? || pc.RPostRead? || pc.RPostZ?
                  || pc.RSection? || pc.RWaitXOut? || pc.RLoadDec? || pc.RStoreDec?
    case CountedW => pc.WTestFirst? || pc.WWaitRead? || pc.WPostY? || pc.WWaitWrite? || pc.WSection?
                  || pc.WPostWrite? || pc.WWaitYOut? || pc.WLoadDec? || pc.WStoreDec?
    case FirstR => pc.RTestFirst? || pc.RWaitWrite?
    case LastR => pc.RTestLast? || pc.RPostWrite?
    case FirstW => pc.WTestFirst? || pc.WWaitRead?
    case LastW => pc.WTestLast? || pc.WPostRead?
    case Writing => pc.WSection? || pc.WPostWrite?
    case Admitted => pc.RPostZ? || pc.RSection?
    case Entering => pc.RPostZ?
    case InSection => pc.RSection?
  }

  function Bit(b: bool): nat { if b then 1 else 0 }

  /** How many processes stand in group g. */
  function Count(g: Group, procs: seq<Pc>): nat {
    if procs == [] then 0
    else Count(g, procs[..|procs| - 1]) + Bit(In(g, procs[|procs| - 1]))
  }

  lemma {:induction false} CountMove(g: Group, procs: seq<Pc>, i: nat, pc: Pc)
    requires i < |procs|
    ensures Count(g, procs[i := pc]) == Count(g, procs) - Bit(In(g, procs[i])) + Bit(In(g, pc))
  {
    var n := |procs| - 1;
    if i == n {
      assert procs[i := pc][..n] == procs[..n];
    } else {
      assert procs[i := pc][..n] == procs[..n][i := pc];
      CountMove(g, procs[..n], i, pc);
    }
  }

  lemma {:induction false} CountTwo(g: Group, procs: seq<Pc>, i: nat, j: nat)
    requires i <= j < |procs| && In(g, procs[i]) && In(g, procs[j])
    ensures Count(g, procs) >= if i == j then 1 else 2
  {
    var n := |procs| - 1;
    if i < n {
      if j < n { CountTwo(g, procs[..n], i, j); } else { CountTwo(g, procs[..n], i, i); }
    }
  }

  lemma {:induction false} CountZero(g: Group, procs: seq<Pc>)
    requires forall i :: 0 <= i < |procs| ==> !In(g, procs[i])
    ensures Count(g, procs) == 0
  {
    if procs != [] { CountZero(g, procs[..|procs| - 1]); }
  }

  lemma {:induction false} CountSubset(g: Group, h: Group, procs: seq<Pc>)
    requires forall pc :: In(g, pc) ==> In(h, pc)
    ensures Count(g, procs) <= Count(h, procs)
  {
    if procs != [] { CountSubset(g, h, procs[..|procs| - 1]); }
  }

  // ---------------------------------------------------------------- the invariant

  /** Whether a group holds the semaphore its first member takes and its last member posts,
      given how many members are still taking it, how many are about to post it, and the
      group's counter. */
  predicate GroupHolds(first: int, last: int, count: int) {
    if first > 0 then count != 1 else last > 0 || count > 0
  }

  /** The readers as a group hold sem_write. */
  predicate ReadersHoldWrite(s: State) {
    GroupHolds(Count(FirstR, s.procs), Count(LastR, s.procs), s.countR)
  }

  /** The writers as a group hold sem_read. */
  predicate WritersHoldRead(s: State) {
    GroupHolds(Count(FirstW, s.procs), Count(LastW, s.procs), s.countW)
  }

  /** What a process at a given point knows about the counter it works on. */
  predicate Knows(pc: Pc, countR: int, countW: int) {
    && (pc.RStoreInc? || pc.RStoreDec? ==> pc.seen == countR)
    && (pc.WStoreInc? || pc.WStoreDec? ==> pc.seen == countW)
    && (pc.RWaitWrite? ==> countR == 1)
    && (pc.RPostWrite? ==> countR == 0)
    && (pc.WWaitRead? ==> countW == 1)
    && (pc.WPostRead? ==> countW == 0)
  }

  ghost predicate Inv(s: State) {
    && s.x + Count(HoldX, s.procs) == 1
    && s.y + Count(HoldY, s.procs) == 1
    && s.z + Count(HoldZ, s.procs) == 1
    && s.read + Count(ReaderHoldsRead, s.procs) + Bit(WritersHoldRead(s)) == 1
    && s.write + Count(Writing, s.procs) + Bit(ReadersHoldWrite(s)) == 1
    && s.countR == Count(CountedR, s.procs)
    && s.countW == Count(CountedW, s.procs)
    && forall i :: 0 <= i < |s.procs| ==> Knows(s.procs[i], s.countR, s.countW)
  }

  lemma InitInv(s: State)
    requires Init(s)
    ensures Inv(s)
  {
    forall g: Group ensures Count(g, s.procs) == 0 { CountZero(g, s.procs); }
  }

  /** What one move does to every population. */
  lemma Moved(s: State, i: nat)
    requires i < |s.procs| && Enabled(s, i)
    ensures var t := Step(s, i);
            forall g :: Count(g, t.procs) == Count(g, s.procs) - Bit(In(g, s.procs[i])) + Bit(In(g, t.procs[i]))
    ensures forall g :: In(g, s.procs[i]) ==> Count(g, s.procs) >= 1
  {
    var t := Step(s, i);
    forall g ensures Count(g, t.procs) == Count(g, s.procs) - Bit(In(g, s.procs[i])) + Bit(In(g, t.procs[i])) {
      CountMove(g, s.procs, i, t.procs[i]);
    }
    forall g | In(g, s.procs[i]) ensures Count(g, s.procs) >= 1 { CountTwo(g, s.procs, i, i); }
  }

  /** A counter changes only in the hands of the process that holds its semaphore, and each
      process only relies on a counter while holding that semaphore. */
  lemma CountersGuarded(s: State, i: nat, pc: Pc)
    requires i < |s.procs| && Enabled(s, i)
    requires Knows(pc, s.countR, s.countW)
    requires !(In(HoldX, s.procs[i]) && In(HoldX, pc)) && !(In(HoldY, s.procs[i]) && In(HoldY, pc))
    ensures Knows(pc, Step(s, i).countR, Step(s, i).countW)
  {
  }

  lemma MoverKnows(s: State, i: nat)
    requires i < |s.procs| && Enabled(s, i)
    ensures Knows(Step(s, i).procs[i], Step(s, i).countR, Step(s, i).countW)
  {
  }

  /** So what every process knows stays true. */
  lemma KnowsKept(s: State, i: nat)
    requires Inv(s) && i < |s.procs| && Enabled(s, i)
    ensures var t := Step(s, i);
            forall j :: 0 <= j < |t.procs| ==> Knows(t.procs[j], t.countR, t.countW)
  {
    var t := Step(s, i);
    MoverKnows(s, i);
    forall j | 0 <= j < |t.procs| && j != i ensures Knows(t.procs[j], t.countR, t.countW) {
      OthersStay(s, i, j);
      forall g | (g == HoldX || g == HoldY) && In(g, s.procs[i]) && In(g, s.procs[j]) ensures false {
        CountTwo(g, s.procs, if i < j then i else j, if i < j then j else i);
      }
      CountersGuarded(s, i, s.procs[j]);
    }
  }

  lemma OthersStay(s: State, i: nat, j: nat)
    requires i < |s.procs| && Enabled(s, i) && j < |s.procs| && i != j
    ensures Step(s, i).procs[j] == s.procs[j] && |Step(s, i).procs| == |s.procs|
  {
  }

  /** Each semaphore that one process takes and the same process posts moves with that process. */
  lemma MutexMoves(s: State, i: nat)
    requires i < |s.procs| && Enabled(s, i)
    ensures var t := Step(s, i); var a, b := s.procs[i], t.procs[i];
            && t.x + Bit(In(HoldX, b)) == s.x + Bit(In(HoldX, a))
            && t.y + Bit(In(HoldY, b)) == s.y + Bit(In(HoldY, a))
            && t.z + Bit(In(HoldZ, b)) == s.z + Bit(In(HoldZ, a))
  {
    hide In, Step, Enabled, Bit;
    XMoves(s, i);
    YMoves(s, i);
    ZMoves(s, i);
  }

  lemma XMoves(s: State, i: nat)
    requires i < |s.procs| && Enabled(s, i)
    ensures Step(s, i).x + Bit(In(HoldX, Step(s, i).procs[i])) == s.x + Bit(In(HoldX, s.procs[i]))
  {
  }

  lemma YMoves(s: State, i: nat)
    requires i < |s.procs| && Enabled(s, i)
    ensures Step(s, i).y + Bit(In(HoldY, Step(s, i).procs[i])) == s.y + Bit(In(HoldY, s.procs[i]))
  {
  }

  lemma ZMoves(s: State, i: nat)
    requires i < |s.procs| && Enabled(s, i)
    ensures Step(s, i).z + Bit(In(HoldZ, Step(s, i).procs[i])) == s.z + Bit(In(HoldZ, s.procs[i]))
  {
  }

  lemma CountersMove(s: State, i: nat)
    requires i < |s.procs| && Enabled(s, i) && Knows(s.procs[i], s.countR, s.countW)
    ensures var t := Step(s, i); var a, b := s.procs[i], t.procs[i];
            && t.countR - Bit(In(CountedR, b)) == s.countR - Bit(In(CountedR, a))
            && t.countW - Bit(In(CountedW, b)) == s.countW - Bit(In(CountedW, a))
  {
    hide In, Step, Enabled, Knows, Bit;
    CountRMoves(s, i);
    CountWMoves(s, i);
  }

  lemma CountRMoves(s: State, i: nat)
    requires i < |s.procs| && Enabled(s, i) && Knows(s.procs[i], s.countR, s.countW)
    ensures var t := Step(s, i); t.countR - Bit(In(CountedR, t.procs[i])) == s.countR - Bit(In(CountedR, s.procs[i]))
  {
  }

  lemma CountWMoves(s: State, i: nat)
    requires i < |s.procs| && Enabled(s, i) && Knows(s.procs[i], s.countR, s.countW)
    ensures var t := Step(s, i); t.countW - Bit(In(CountedW, t.procs[i])) == s.countW - Bit(In(CountedW, s.procs[i]))
  {
  }

  lemma AloneHoldX(s: State, i: nat)
    requires Inv(s) && i < |s.procs| && In(HoldX, s.procs[i])
    ensures Count(FirstR, s.procs) == Bit(In(FirstR, s.procs[i])) && Count(LastR, s.procs) == Bit(In(LastR, s.procs[i]))
  {
    CountMove(HoldX, s.procs, i, RDone);
    CountMove(FirstR, s.procs, i, RDone);
    CountMove(LastR, s.procs, i, RDone);
    ExclusiveHoldX(s.procs[i := RDone]);
  }

  lemma {:induction false} ExclusiveHoldX(procs: seq<Pc>)
    ensures Count(FirstR, procs) + Count(LastR, procs) <= Count(HoldX, procs)
  {
    if procs != [] { ExclusiveHoldX(procs[..|procs| - 1]); }
  }

  lemma AloneHoldY(s: State, i: nat)
    requires Inv(s) && i < |s.procs| && In(HoldY, s.procs[i])
    ensures Count(FirstW, s.procs) == Bit(In(FirstW, s.procs[i])) && Count(LastW, s.procs) == Bit(In(LastW, s.procs[i]))
  {
    CountMove(HoldY, s.procs, i, RDone);
    CountMove(FirstW, s.procs, i, RDone);
    CountMove(LastW, s.procs, i, RDone);
    ExclusiveHoldY(s.procs[i := RDone]);
  }

  lemma {:induction false} ExclusiveHoldY(procs: seq<Pc>)
    ensures Count(FirstW, procs) + Count(LastW, procs) <= Count(HoldY, procs)
  {
    if procs != [] { ExclusiveHoldY(procs[..|procs| - 1]); }
  }

  /** The process is a reader. */
  predicate Reads(pc: Pc) {
    pc.RWaitZ? || pc.RWaitRead? || pc.RWaitX? || pc.RLoadInc? || pc.RStoreInc? || pc.RTestFirst? || pc.RWaitWrite? || pc.RPostX?
    || pc.RPostRead? || pc.RPostZ? || pc.RSection? || pc.RWaitXOut? || pc.RLoadDec? || pc.RStoreDec? || pc.RTestLast?
    || pc.RPostWrite? || pc.RPostXOut? || pc.RDone?
  }

  lemma WriteLocal(s: State, i: nat, first: int, last: int)
    requires i < |s.procs| && Enabled(s, i) && Knows(s.procs[i], s.countR, s.countW)
    requires first >= 0 && last >= 0
    requires In(HoldX, s.procs[i]) ==> first == Bit(In(FirstR, s.procs[i])) && last == Bit(In(LastR, s.procs[i]))
    requires s.countR >= Bit(In(CountedR, s.procs[i]))
    ensures var t := Step(s, i); var a, b := s.procs[i], t.procs[i];
            t.write + Bit(In(Writing, b))
              + Bit(GroupHolds(first - Bit(In(FirstR, a)) + Bit(In(FirstR, b)),
                               last - Bit(In(LastR, a)) + Bit(In(LastR, b)), t.countR))
            == s.write + Bit(In(Writing, a)) + Bit(GroupHolds(first, last, s.countR))
  {
    if Reads(s.procs[i]) { WriteLocalReader(s, i, first, last); } else { WriteLocalWriter(s, i, first, last); }
    hide In, Step, Enabled, Bit, GroupHolds, Knows;
  }

  lemma WriteLocalReader(s: State, i: nat, first: int, last: int)
    requires i < |s.procs| && Reads(s.procs[i])
    requires i < |s.procs| && Enabled(s, i) && Knows(s.procs[i], s.countR, s.countW)
    requires first >= 0 && last >= 0
    requires In(HoldX, s.procs[i]) ==> first == Bit(In(FirstR, s.procs[i])) && last == Bit(In(LastR, s.procs[i]))
    requires s.countR >= Bit(In(CountedR, s.procs[i]))
    ensures var t := Step(s, i); var a, b := s.procs[i], t.procs[i];
            t.write + Bit(In(Writing, b))
              + Bit(GroupHolds(first - Bit(In(FirstR, a)) + Bit(In(FirstR, b)),
                               last - Bit(In(LastR, a)) + Bit(In(LastR, b)), t.countR))
            == s.write + Bit(In(Writing, a)) + Bit(GroupHolds(first, last, s.countR))
  {
  }

  lemma WriteLocalWriter(s: State, i: nat, first: int, last: int)
    requires i < |s.procs| && !Reads(s.procs[i])
    requires i < |s.procs| && Enabled(s, i) && Knows(s.procs[i], s.countR, s.countW)
    requires first >= 0 && last >= 0
    requires s.countR >= Bit(In(CountedR, s.procs[i]))
    ensures var t := Step(s, i); var a, b := s.procs[i], t.procs[i];
            t.write + Bit(In(Writing, b))
              + Bit(GroupHolds(first - Bit(In(FirstR, a)) + Bit(In(FirstR, b)),
                               last - Bit(In(LastR, a)) + Bit(In(LastR, b)), t.countR))
            == s.write + Bit(In(Writing, a)) + Bit(GroupHolds(first, last, s.countR))
  {
  }

  lemma WriteMoves(s: State, i: nat)
    requires Inv(s) && i < |s.procs| && Enabled(s, i)
    ensures var t := Step(s, i);
            t.write + Count(Writing, t.procs) + Bit(GroupHolds(Count(FirstR, t.procs), Count(LastR, t.procs), t.countR)) == 1
  {
    Moved(s, i);
    assert Knows(s.procs[i], s.countR, s.countW);
    if In(HoldX, s.procs[i]) { AloneHoldX(s, i); }
    WriteLocal(s, i, Count(FirstR, s.procs), Count(LastR, s.procs));
  }

  lemma ReadLocal(s: State, i: nat, first: int, last: int)
    requires i < |s.procs| && Enabled(s, i) && Knows(s.procs[i], s.countR, s.countW)
    requires first >= 0 && last >= 0
    requires In(HoldY, s.procs[i]) ==> first == Bit(In(FirstW, s.procs[i])) && last == Bit(In(LastW, s.procs[i]))
    requires s.countW >= Bit(In(CountedW, s.procs[i]))
    ensures var t := Step(s, i); var a, b := s.procs[i], t.procs[i];
            t.read + Bit(In(ReaderHoldsRead, b))
              + Bit(GroupHolds(first - Bit(In(FirstW, a)) + Bit(In(FirstW, b)),
                               last - Bit(In(LastW, a)) + Bit(In(LastW, b)), t.countW))
            == s.read + Bit(In(ReaderHoldsRead, a)) + Bit(GroupHolds(first, last, s.countW))
  {
    if Reads(s.procs[i]) { ReadLocalReader(s, i, first, last); } else { ReadLocalWriter(s, i, first, last); }
    hide In, Step, Enabled, Bit, GroupHolds, Knows;
  }

  lemma ReadLocalReader(s: State, i: nat, first: int, last: int)
    requires i < |s.procs| && Reads(s.procs[i])
    requires i < |s.procs| && Enabled(s, i) && Knows(s.procs[i], s.countR, s.countW)
    requires first >= 0 && last >= 0
    requires s.countW >= Bit(In(CountedW, s.procs[i]))
    ensures var t := Step(s, i); var a, b := s.procs[i], t.procs[i];
            t.read + Bit(In(ReaderHoldsRead, b))
              + Bit(GroupHolds(first - Bit(In(FirstW, a)) + Bit(In(FirstW, b)),
                               last - Bit(In(LastW, a)) + Bit(In(LastW, b)), t.countW))
            == s.read + Bit(In(ReaderHoldsRead, a)) + Bit(GroupHolds(first, last, s.countW))
  {
  }

  lemma ReadLocalWriter(s: State, i: nat, first: int, last: int)
    requires i < |s.procs| && !Reads(s.procs[i])
    requires i < |s.procs| && Enabled(s, i) && Knows(s.procs[i], s.countR, s.countW)
    requires first >= 0 && last >= 0
    requires In(HoldY, s.procs[i]) ==> first == Bit(In(FirstW, s.procs[i])) && last == Bit(In(LastW, s.procs[i]))
    requires s.countW >= Bit(In(CountedW, s.procs[i]))
    ensures var t := Step(s, i); var a, b := s.procs[i], t.procs[i];
            t.read + Bit(In(ReaderHoldsRead, b))
              + Bit(GroupHolds(first - Bit(In(FirstW, a)) + Bit(In(FirstW, b)),
                               last - Bit(In(LastW, a)) + Bit(In(LastW, b)), t.countW))
            == s.read + Bit(In(ReaderHoldsRead, a)) + Bit(GroupHolds(first, last, s.countW))
  {
  }

  lemma ReadMoves(s: State, i: nat)
    requires Inv(s) && i < |s.procs| && Enabled(s, i)
    ensures var t := Step(s, i);
            t.read + Count(ReaderHoldsRead, t.procs) + Bit(GroupHolds(Count(FirstW, t.procs), Count(LastW, t.procs), t.countW)) == 1
  {
    Moved(s, i);
    assert Knows(s.procs[i], s.countR, s.countW);
    if In(HoldY, s.procs[i]) { AloneHoldY(s, i); }
    ReadLocal(s, i, Count(FirstW, s.procs), Count(LastW, s.procs));
  }

  lemma StepInv(s: State, i: nat)
    requires Inv(s) && i < |s.procs| && Enabled(s, i)
    ensures Inv(Step(s, i))
  {
    Moved(s, i);
    KnowsKept(s, i);
    MutexMoves(s, i);
    CountersMove(s, i);
    WriteMoves(s, i);
    ReadMoves(s, i);
  }

  lemma {:induction false} RunInv(run: seq<State>, k: nat)
    requires Run(run) && k < |run|
    ensures Inv(run[k]) && |run[k].procs| == |run[0].procs|
  {
    if k == 0 {
      InitInv(run[0]);
    } else {
      RunInv(run, k - 1);
      assert Next(run[k - 1], run[k]);
      var i: nat :| i < |run[k - 1].procs| && Enabled(run[k - 1], i) && run[k] == Step(run[k - 1], i);
      StepInv(run[k - 1], i);
    }
  }

  // ---------------------------------------------------------------- safety

  lemma {:induction false} AdmittedAreCounted(procs: seq<Pc>)
    ensures Count(FirstR, procs) + Count(Admitted, procs) <= Count(CountedR, procs)
  {
    if procs != [] { AdmittedAreCounted(procs[..|procs| - 1]); }
  }

  /** In every reachable state a process inside the writer's section is there alone: no
      other writer, and no reader. */
  lemma MutualExclusion(run: seq<State>, k: nat, i: nat, j: nat)
    requires Run(run) && k < |run| && i < |run[k].procs| && j < |run[k].procs| && i != j
    ensures run[k].procs[i].WSection? ==> !run[k].procs[j].WSection? && !run[k].procs[j].RSection?
  {
    var s := run[k];
    RunInv(run, k);
    if s.procs[i].WSection? {
      CountTwo(Writing, s.procs, i, i);
      if s.procs[j].WSection? {
        CountTwo(Writing, s.procs, if i < j then i else j, if i < j then j else i);
      }
      if s.procs[j].RSection? {
        CountTwo(Admitted, s.procs, j, j);
        AdmittedAreCounted(s.procs);
      }
    }
  }

  /** A process that has not arrived or has left. */
  predicate Idle(pc: Pc) { pc.RWaitZ? || pc.WWaitY? || Done(pc) }

  /** What check_sem_value (sem_wf.c:33-47) demands between tests. */
  predicate CheckSemValue(s: State) {
    s.read == s.write == s.x == s.y == s.z == 1 && s.countR == 0 && s.countW == 0
  }

  /** Whenever every process is idle the semaphores and counters are back where `init` put them. */
  lemma QuiescentStateIsClean(run: seq<State>, k: nat)
    requires Run(run) && k < |run|
    requires forall i :: 0 <= i < |run[k].procs| ==> Idle(run[k].procs[i])
    ensures CheckSemValue(run[k])
  {
    RunInv(run, k);
    forall g: Group ensures Count(g, run[k].procs) == 0 { CountZero(g, run[k].procs); }
  }

  /** At most one reader ever waits for or holds sem_read, so a writer competes with at most one. */
  lemma OneReaderNearRead(run: seq<State>, k: nat, i: nat, j: nat)
    requires Run(run) && k < |run| && i < |run[k].procs| && j < |run[k].procs|
    requires In(NearRead, run[k].procs[i]) && In(NearRead, run[k].procs[j])
    ensures i == j
  {
    RunInv(run, k);
    if i != j {
      CountTwo(HoldZ, run[k].procs, if i < j then i else j, if i < j then j else i);
    }
  }

  lemma NoAdmission(s: State, t: State)
    requires Inv(s) && Next(s, t) && WritersHoldRead(s)
    ensures Count(Admitted, t.procs) <= Count(Admitted, s.procs)
  {
    var i: nat :| i < |s.procs| && Enabled(s, i) && t == Step(s, i);
    CountMove(Admitted, s.procs, i, t.procs[i]);
    if In(ReaderHoldsRead, s.procs[i]) { CountTwo(ReaderHoldsRead, s.procs, i, i); }
    Admission(s, i);
  }

  /** A reader is admitted by posting sem_read. */
  lemma Admission(s: State, i: nat)
    requires i < |s.procs| && Enabled(s, i) && !In(ReaderHoldsRead, s.procs[i])
    ensures In(Admitted, Step(s, i).procs[i]) ==> In(Admitted, s.procs[i])
    ensures Step(s, i).procs == s.procs[i := Step(s, i).procs[i]]
  {
  }

  /** Writer priority: over any stretch of a run in which the writers hold sem_read the
      number of readers admitted to their section never grows. */
  lemma {:induction false} WriterPriority(run: seq<State>, from: nat, to: nat)
    requires Run(run) && from <= to < |run|
    requires forall k :: from <= k < to ==> WritersHoldRead(run[k])
    ensures Count(Admitted, run[to].procs) <= Count(Admitted, run[from].procs)
  {
    if from < to {
      WriterPriority(run, from, to - 1);
      RunInv(run, to - 1);
      NoAdmission(run[to - 1], run[to]);
    }
  }

  /** So the readers in their section are never more than those that were there and the ones already on
      the way in, past sem_read: at most one, since they hold sem_z. */
  lemma NoNewReaders(run: seq<State>, from: nat, to: nat)
    requires Run(run) && from <= to < |run|
    requires forall k :: from <= k < to ==> WritersHoldRead(run[k])
    ensures Count(InSection, run[to].procs) <= Count(InSection, run[from].procs) + Count(Entering, run[from].procs)
    ensures Count(Entering, run[from].procs) <= 1
  {
    WriterPriority(run, from, to);
    RunInv(run, from);
    AdmittedSplit(run[from].procs);
    AdmittedSplit(run[to].procs);
    EnteringHoldZ(run[from].procs);
  }

  lemma {:induction false} AdmittedSplit(procs: seq<Pc>)
    ensures Count(Admitted, procs) == Count(InSection, procs) + Count(Entering, procs)
  {
    if procs != [] { AdmittedSplit(procs[..|procs| - 1]); }
  }

  lemma {:induction false} EnteringHoldZ(procs: seq<Pc>)
    ensures Count(Entering, procs) <= Count(HoldZ, procs)
  {
    if procs != [] { EnteringHoldZ(procs[..|procs| - 1]); }
  }

  /** A writer in its section means the writers hold sem_read. */
  lemma WritingImpliesPriority(run: seq<State>, k: nat, i: nat)
    requires Run(run) && k < |run| && i < |run[k].procs| && run[k].procs[i].WSection?
    ensures WritersHoldRead(run[k])
  {
    RunInv(run, k);
    CountTwo(Writing, run[k].procs, i, i);
    WritingAreCounted(run[k].procs);
  }

  lemma {:induction false} WritingAreCounted(procs: seq<Pc>)
    ensures Count(FirstW, procs) + Count(Writing, procs) <= Count(CountedW, procs)
  {
    if procs != [] { WritingAreCounted(procs[..|procs| - 1]); }
  }

  // ---------------------------------------------------------------- progress

  ghost predicate Stuck(s: State) {
    forall i: nat :: i < |s.procs| ==> !Enabled(s, i)
  }

  /** In a stuck state nobody is past a semaphore it still waits for: the chain of reasons
      goes sem_x, sem_write, sem_y, sem_read, sem_z. */
  lemma StuckX(s: State)
    requires Inv(s) && Stuck(s)
    ensures Count(HoldX, s.procs) == 0
  {
    if Count(HoldX, s.procs) > 0 {
      var i := Member(HoldX, s.procs);
      StuckAt(s, i);
      assert Knows(s.procs[i], s.countR, s.countW);
      CountTwo(FirstR, s.procs, i, i);
      var j := Member(Writing, s.procs);
      StuckAt(s, j);
    }
  }

  /** A stuck process waits on a semaphore at zero, or has finished. */
  lemma StuckAt(s: State, i: nat)
    requires Stuck(s) && i < |s.procs|
    ensures match s.procs[i]
            case RWaitZ => s.z == 0
            case RWaitRead => s.read == 0
            case WWaitRead => s.read == 0
            case RWaitX => s.x == 0
            case RWaitXOut => s.x == 0
            case RWaitWrite => s.write == 0
            case WWaitWrite => s.write == 0
            case WWaitY => s.y == 0
            case WWaitYOut => s.y == 0
            case _ => Done(s.procs[i])
  {
    assert !Enabled(s, i);
  }

  lemma {:induction false} Member(g: Group, procs: seq<Pc>) returns (i: nat)
    requires Count(g, procs) > 0
    ensures i < |procs| && In(g, procs[i])
  {
    var n := |procs| - 1;
    if In(g, procs[n]) { i := n; } else { i := Member(g, procs[..n]); }
  }

  lemma NoMember(g: Group, procs: seq<Pc>, i: nat)
    requires Count(g, procs) == 0 && i < |procs|
    ensures !In(g, procs[i])
  {
    if In(g, procs[i]) { CountTwo(g, procs, i, i); }
  }

  lemma StuckWrite(s: State)
    requires Inv(s) && Stuck(s)
    ensures s.write == 1 && s.x == 1
  {
    StuckX(s);
    if Count(Writing, s.procs) > 0 {
      var j := Member(Writing, s.procs);
      StuckAt(s, j);
    }
    if Count(CountedR, s.procs) > 0 {
      var i := Member(CountedR, s.procs);
      NoMember(HoldX, s.procs, i);
      StuckAt(s, i);
    }
    ExclusiveHoldX(s.procs);
  }

  lemma StuckY(s: State)
    requires Inv(s) && Stuck(s)
    ensures Count(HoldY, s.procs) == 0
  {
    StuckWrite(s);
    if Count(HoldY, s.procs) > 0 {
      var i := Member(HoldY, s.procs);
      StuckAt(s, i);
      assert Knows(s.procs[i], s.countR, s.countW);
      CountTwo(FirstW, s.procs, i, i);
      var j := Member(ReaderHoldsRead, s.procs);
      StuckAt(s, j);
    }
  }

  lemma StuckRead(s: State)
    requires Inv(s) && Stuck(s)
    ensures s.read == 1 && s.y == 1
  {
    StuckWrite(s);
    StuckY(s);
    ExclusiveHoldY(s.procs);
    if Count(ReaderHoldsRead, s.procs) > 0 {
      var i := Member(ReaderHoldsRead, s.procs);
      StuckAt(s, i);
    }
    if Count(CountedW, s.procs) > 0 {
      var i := Member(CountedW, s.procs);
      NoMember(HoldY, s.procs, i);
      StuckAt(s, i);
    }
  }

  /** Deadlock freedom: in every reachable state with an unfinished process some process can step. */
  lemma DeadlockFree(run: seq<State>, k: nat)
    requires Run(run) && k < |run|
    requires Stuck(run[k])
    ensures forall i :: 0 <= i < |run[k].procs| ==> Done(run[k].procs[i])
  {
    var s := run[k];
    RunInv(run, k);
    StuckRead(s);
    StuckWrite(s);
    if Count(HoldZ, s.procs) > 0 {
      var i := Member(HoldZ, s.procs);
      StuckAt(s, i);
    }
    forall i | 0 <= i < |s.procs| ensures Done(s.procs[i]) {
      StuckAt(s, i);
    }
  }

  /** How many steps a process at this point can still take, at most. */
  function Rank(pc: Pc): nat {
    match pc
    case RWaitZ => 17 case RWaitRead => 16 case RWaitX => 15 case RLoadInc => 14
    case RStoreInc(_) => 13 case RTestFirst => 12 case RWaitWrite => 11 case RPostX => 10
    case RPostRead => 9 case RPostZ => 8 case RSection => 7 case RWaitXOut => 6
    case RLoadDec => 5 case RStoreDec(_) => 4 case RTestLast => 3 case RPostWrite => 2
    case RPostXOut => 1 case RDone => 0
    case WWaitY => 15 case WLoadInc => 14 case WStoreInc(_) => 13 case WTestFirst => 12
    case WWaitRead => 11 case WPostY => 10 case WWaitWrite => 9 case WSection => 8
    case WPostWrite => 7 case WWaitYOut => 6 case WLoadDec => 5 case WStoreDec(_) => 4
    case WTestLast => 3 case WPostRead => 2 case WPostYOut => 1 case WDone => 0
  }

  function Budget(procs: seq<Pc>): nat {
    if procs == [] then 0 else Budget(procs[..|procs| - 1]) + Rank(procs[|procs| - 1])
  }

  lemma {:induction false} BudgetMove(procs: seq<Pc>, i: nat, pc: Pc)
    requires i < |procs|
    ensures Budget(procs[i := pc]) == Budget(procs) - Rank(procs[i]) + Rank(pc)
  {
    var n := |procs| - 1;
    if i == n {
      assert procs[i := pc][..n] == procs[..n];
    } else {
      assert procs[i := pc][..n] == procs[..n][i := pc];
      BudgetMove(procs[..n], i, pc);
    }
  }

  lemma {:induction false} BudgetBound(procs: seq<Pc>)
    ensures Budget(procs) <= 17 * |procs|
  {
    if procs != [] { BudgetBound(procs[..|procs| - 1]); }
  }

  lemma {:induction false} RunLength(run: seq<State>, k: nat)
    requires Run(run) && k < |run|
    ensures k + Budget(run[k].procs) <= Budget(run[0].procs)
  {
    if k > 0 {
      RunLength(run, k - 1);
      var s := run[k - 1];
      assert Next(s, run[k]);
      var i: nat :| i < |s.procs| && Enabled(s, i) && run[k] == Step(s, i);
      RankFalls(s, i);
      BudgetMove(s.procs, i, run[k].procs[i]);
    }
  }

  lemma RankFalls(s: State, i: nat)
    requires i < |s.procs| && Enabled(s, i)
    ensures Rank(Step(s, i).procs[i]) < Rank(s.procs[i])
    ensures Step(s, i).procs == s.procs[i := Step(s, i).procs[i]]
  {
    StepsAlone(s, i);
  }

  lemma StepsAlone(s: State, i: nat)
    requires i < |s.procs| && Enabled(s, i)
    ensures Step(s, i).procs == s.procs[i := Step(s, i).procs[i]]
  {
  }

  // ---------------------------------------------------------------- everybody gets in

  predicate IsReader(pc: Pc) {
    pc.RWaitZ? || pc.RWaitRead? || pc.RWaitX? || pc.RLoadInc? || pc.RStoreInc? || pc.RTestFirst? || pc.RWaitWrite?
    || pc.RPostX? || pc.RPostRead? || pc.RPostZ? || pc.RSection? || pc.RWaitXOut? || pc.RLoadDec? || pc.RStoreDec?
    || pc.RTestLast? || pc.RPostWrite? || pc.RPostXOut? || pc.RDone?
  }

  /** The process has left its section. */
  predicate Left(pc: Pc) {
    || pc.RWaitXOut? || pc.RLoadDec? || pc.RStoreDec? || pc.RTestLast? || pc.RPostWrite? || pc.RPostXOut? || pc.RDone?
    || pc.WPostWrite? || pc.WWaitYOut? || pc.WLoadDec? || pc.WStoreDec? || pc.WTestLast? || pc.WPostRead? || pc.WPostYOut? || pc.WDone?
  }

  lemma LeavesFromSection(s: State, i: nat)
    requires i < |s.procs| && Enabled(s, i)
    ensures Step(s, i).procs == s.procs[i := Step(s, i).procs[i]]
    ensures Left(Step(s, i).procs[i]) ==> Left(s.procs[i]) || s.procs[i].RSection? || s.procs[i].WSection?
    ensures IsReader(Step(s, i).procs[i]) <==> IsReader(s.procs[i])
  {
    StepsAlone(s, i);
  }

  /** Process i stands in its section at index j: a reader, counted, with sem_write taken for the readers; or a writer,
      counted, with sem_write taken for itself and sem_read for the writers. */
  predicate Inside(s: State, i: nat) {
    && i < |s.procs| && s.write == 0
    && (|| (s.procs[i].RSection? && s.countR >= 1)
        || (s.procs[i].WSection? && s.countW >= 1 && s.read == 0))
  }

  lemma SectionIsHeld(s: State, i: nat)
    requires Inv(s) && i < |s.procs| && (s.procs[i].RSection? || s.procs[i].WSection?)
    ensures Inside(s, i)
  {
    if s.procs[i].RSection? {
      CountTwo(Admitted, s.procs, i, i);
      AdmittedAreCounted(s.procs);
    } else {
      CountTwo(Writing, s.procs, i, i);
      WritingAreCounted(s.procs);
    }
  }

  /** A process that has left its section has been inside. */
  lemma {:induction false} HasBeenInside(run: seq<State>, k: nat, i: nat) returns (j: nat)
    requires Run(run) && k < |run| && i < |run[k].procs| && Left(run[k].procs[i])
    ensures j < k && Inside(run[j], i) && (IsReader(run[j].procs[i]) <==> IsReader(run[k].procs[i]))
    decreases k
  {
    hide Left, IsReader, Inside, Inv, Step, Enabled;
    if k == 0 {
      NobodyHasLeft(run[0], i);
    } else {
      var s := run[k - 1];
      assert Next(s, run[k]);
      RunInv(run, k - 1);
      var m: nat :| m < |s.procs| && Enabled(s, m) && run[k] == Step(s, m);
      LeavesFromSection(s, m);
      if Left(s.procs[i]) {
        j := HasBeenInside(run, k - 1, i);
      } else {
        SectionIsHeld(s, i);
        j := k - 1;
      }
    }
  }

  lemma NobodyHasLeft(s: State, i: nat)
    requires Init(s) && i < |s.procs|
    ensures !Left(s.procs[i])
  {
  }

  /** Process i has been inside at some moment of the run. */
  ghost predicate Visited(run: seq<State>, i: nat) {
    exists j :: 0 <= j < |run| && Inside(run[j], i)
  }

  /** Readers finish as readers and writers as writers. */
  lemma {:induction false} KindKept(run: seq<State>, k: nat, i: nat)
    requires Run(run) && k < |run| && i < |run[0].procs|
    ensures i < |run[k].procs| && (IsReader(run[k].procs[i]) <==> run[0].procs[i].RWaitZ?)
  {
    hide IsReader, Inv, Step, Enabled;
    RunInv(run, k);
    if k == 0 {
      FirstKind(run[0], i);
    } else {
      KindKept(run, k - 1, i);
      var s := run[k - 1];
      assert Next(s, run[k]);
      var m: nat :| m < |s.procs| && Enabled(s, m) && run[k] == Step(s, m);
      LeavesFromSection(s, m);
    }
  }

  lemma FirstKind(s: State, i: nat)
    requires Init(s) && i < |s.procs|
    ensures IsReader(s.procs[i]) <==> s.procs[i].RWaitZ?
  {
  }

  /** Total correctness: no run takes more than 17 steps per process, and a run that nobody
      can continue has every process finished, after having been in its section, and passes
      check_sem_value. */
  lemma EveryMaximalRunFinishes(run: seq<State>)
    requires Run(run)
    ensures |run| <= 17 * |run[0].procs| + 1
    ensures var last := run[|run| - 1];
            Stuck(last) ==> CheckSemValue(last) && |last.procs| == |run[0].procs|
                            && forall i :: 0 <= i < |last.procs| ==>
                                 last.procs[i] == (if run[0].procs[i].RWaitZ? then RDone else WDone) && Visited(run, i)
  {
    hide Inv, Run, Inside, CheckSemValue, IsReader, Budget;
    NotEmpty(run);
    RunLength(run, |run| - 1);
    BudgetBound(run[0].procs);
    RunInv(run, |run| - 1);
    if Stuck(run[|run| - 1]) {
      var last := run[|run| - 1];
      DeadlockFree(run, |run| - 1);
      QuiescentStateIsClean(run, |run| - 1);
      forall i | 0 <= i < |last.procs| ensures last.procs[i] == (if run[0].procs[i].RWaitZ? then RDone else WDone) && Visited(run, i) {
        KindKept(run, |run| - 1, i);
        DoneKinds(last.procs[i]);
        var j := HasBeenInside(run, |run| - 1, i);
      }
    }
  }

  lemma NotEmpty(run: seq<State>)
    requires Run(run)
    ensures run != []
  {
  }

  lemma DoneKinds(pc: Pc)
    requires Done(pc)
    ensures pc == if IsReader(pc) then RDone else WDone
  {
  }

  // ---------------------------------------------------------------- readers read together

  ghost predicate Reachable(s: State) {
    exists run :: Run(run) && run[|run| - 1] == s
  }

  lemma Onward(s: State, i: nat)
    requires Reachable(s) && i < |s.procs| && Enabled(s, i)
    ensures Reachable(Step(s, i))
  {
    hide Init, Step, Enabled;
    var run :| Run(run) && run[|run| - 1] == s;
    var longer := run + [Step(s, i)];
    assert Next(s, Step(s, i));
    forall k | 0 < k < |longer| ensures Next(longer[k - 1], longer[k]) {
      if k < |run| { assert Next(run[k - 1], run[k]); }
    }
    assert Run(longer);
  }

  /** The first m processes, as far as they are readers, are in their section and nobody else has moved. */
  predicate Together(s: State, m: nat) {
    && m <= |s.procs| && s.x == s.y == s.z == s.read == 1 && s.countW == 0
    && s.countR == Count(InSection, s.procs) && s.write == (if s.countR == 0 then 1 else 0)
    && (forall i :: 0 <= i < m ==> s.procs[i].RSection? || s.procs[i].WWaitY?)
    && (forall i :: m <= i < |s.procs| ==> s.procs[i].RWaitZ? || s.procs[i].WWaitY?)
  }

  /** One more reader goes all the way in, whoever is reading. */
  lemma ReaderEnters(s: State, m: nat) returns (t: State)
    requires Reachable(s) && Together(s, m) && m < |s.procs| && s.procs[m].RWaitZ?
    ensures Reachable(t) && Together(t, m + 1) && t.procs == s.procs[m := RSection]
  {
    hide Reachable;
    ReaderWaits(s, m);
    var s1 := At(s, m, RLoadInc).(z := 0, read := 0, x := 0);
    ReaderCounts(s1, m);
    var s2 := At(s1, m, RPostX).(countR := s.countR + 1, write := 0);
    ReaderPosts(s2, m);
    t := At(s, m, RSection).(countR := s.countR + 1, write := 0);
    assert At(s2, m, RSection).(x := 1, read := 1, z := 1) == t;
    CountMove(InSection, s.procs, m, RSection);
  }

  lemma ReaderWaits(s: State, m: nat)
    requires Reachable(s) && m < |s.procs| && s.procs[m].RWaitZ? && s.z == s.read == s.x == 1
    ensures Reachable(At(s, m, RLoadInc).(z := 0, read := 0, x := 0))
  {
    hide Reachable;
    Onward(s, m);
    Onward(Step(s, m), m);
    Onward(Step(Step(s, m), m), m);
    assert Step(Step(Step(s, m), m), m) == At(s, m, RLoadInc).(z := 0, read := 0, x := 0);
  }

  lemma ReaderCounts(s: State, m: nat)
    requires Reachable(s) && m < |s.procs| && s.procs[m].RLoadInc? && s.countR >= 0 && s.write == (if s.countR == 0 then 1 else 0)
    ensures Reachable(At(s, m, RPostX).(countR := s.countR + 1, write := 0))
  {
    hide Reachable;
    Onward(s, m);
    Onward(Step(s, m), m);
    var t := At(s, m, RTestFirst).(countR := s.countR + 1);
    assert Step(Step(s, m), m) == t;
    Onward(t, m);
    if s.countR == 0 {
      Onward(Step(t, m), m);
      assert Step(Step(t, m), m) == At(s, m, RPostX).(countR := s.countR + 1, write := 0);
    } else {
      assert Step(t, m) == At(s, m, RPostX).(countR := s.countR + 1, write := 0);
    }
  }

  lemma ReaderPosts(s: State, m: nat)
    requires Reachable(s) && m < |s.procs| && s.procs[m].RPostX? && s.z == s.read == s.x == 0
    ensures Reachable(At(s, m, RSection).(x := 1, read := 1, z := 1))
  {
    hide Reachable;
    Onward(s, m);
    Onward(Step(s, m), m);
    Onward(Step(Step(s, m), m), m);
    assert Step(Step(Step(s, m), m), m) == At(s, m, RSection).(x := 1, read := 1, z := 1);
  }

  /** All the readers can be in their section at once, however many they are and whatever writers there are. */
  lemma {:induction false} ReadersTogether(s: State, m: nat) returns (t: State)
    requires Init(s) && m <= |s.procs|
    ensures Reachable(t) && Together(t, m) && |t.procs| == |s.procs|
    ensures forall i :: 0 <= i < |s.procs| ==> t.procs[i] == if i < m && s.procs[i].RWaitZ? then RSection else s.procs[i]
  {
    hide Reachable;
    if m == 0 {
      t := s;
      StartReachable(s);
      CountZero(InSection, s.procs);
    } else {
      t := ReadersTogether(s, m - 1);
      if s.procs[m - 1].RWaitZ? { t := ReaderEnters(t, m - 1); }
    }
  }

  lemma StartReachable(s: State)
    requires Init(s)
    ensures Reachable(s)
  {
    assert Run([s]);
  }
}
