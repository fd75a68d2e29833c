/** The shared-memory pipe (ucore/src/libs-user-ucore/spipe.c) as a step machine.

    Any number of agents call spiperead, spipewrite and spipeclose through handles (spipe_t),
    several agents possibly sharing one handle.  A step is one semaphore operation, one test
    of a closed flag, one byte copied, or one position advanced.  The positions are unbounded
    here; the source keeps them in off_t. */
module SharedPipe {
  import opened Basics

  /** SPIPE_BUFSIZE: one page less the shared state. */
  const BUFSIZE: nat := 4096 - 24

  /** What an agent does next.  `out` is what a read has copied so far, `at` where in the
      stream the bytes written so far by a write went (so |at| is the source's `ret`). */
  datatype Pc =
    | Idle
    | RTest(n: nat) | RWait(n: nat) | RCheck(n: nat) | REmpty(n: nat) | RLoop(n: nat, out: seq<Byte>)
    | RBump(n: nat, out: seq<Byte>, b: Byte) | RRetry(n: nat) | RUnlock(n: nat, out: seq<Byte>) | REnd(n: nat)
    | WTest(data: seq<Byte>, at: seq<nat>) | WWait(data: seq<Byte>, at: seq<nat>) | WCheck(data: seq<Byte>, at: seq<nat>)
    | WLoop(data: seq<Byte>, at: seq<nat>) | WBump(data: seq<Byte>, at: seq<nat>)
    | WRetry(data: seq<Byte>, at: seq<nat>) | WUnlock(data: seq<Byte>, at: seq<nat>)
    | CTest | CWait | CSet | CUnlock

  datatype Agent = Agent(handle: nat, pc: Pc)

  /** The shared page, the semaphore, every handle's isclosed flag, the agents, and the
      history: all bytes ever put into and taken out of the ring, the handles spipeclose has
      been called on, and the sums of what finished writes and reads have returned. */
  datatype State = State(rpos: nat, wpos: nat, closed: bool, buf: seq<Byte>, sem: nat,
                         shut: seq<bool>, agents: seq<Agent>, written: seq<Byte>, read: seq<Byte>, quit: set<nat>,
                         sent: nat, delivered: nat)

  predicate Init(s: State) {
    && s.rpos == s.wpos == 0 && !s.closed && |s.buf| == BUFSIZE && s.sem == 1
    && (forall h :: 0 <= h < |s.shut| ==> !s.shut[h])
    && (forall i :: 0 <= i < |s.agents| ==> s.agents[i].handle < |s.shut| && s.agents[i].pc == Idle)
    && s.written == [] && s.read == [] && s.quit == {} && s.sent == s.delivered == 0
  }

  function At(s: State, i: nat, pc: Pc): State
    requires i < |s.agents|
  {
    s.(agents := s.agents[i := s.agents[i].(pc := pc)])
  }

  /** __spipeclose_nolock (spipe.c:92-100). */
  function Shut(s: State, h: nat): State
    requires h < |s.shut|
  {
    if s.shut[h] then s else s.(shut := s.shut[h := true], closed := true)
  }

  /** __spipeisclosed_nolock (spipe.c:114-126): the answer, and the state it leaves. */
  function IsClosed(s: State, h: nat, reading: bool): (bool, State)
    requires h < |s.shut|
  {
    if s.shut[h] then (true, s)
    else if !s.closed then (false, s)
    else if s.rpos < s.wpos then (!reading, s)
    else (true, Shut(s, h))
  }

  predicate Enabled(s: State, i: nat)
    requires i < |s.agents|
  {
    match s.agents[i].pc
    case Idle => false
    case RWait(_) => s.sem > 0
    case WWait(_, _) => s.sem > 0
    case CWait => s.sem > 0
    case _ => true
  }

  predicate Sane(s: State) {
    && |s.buf| == BUFSIZE
    && forall i :: 0 <= i < |s.agents| ==> s.agents[i].handle < |s.shut|
  }

  /** One step of agent i inside the call it is making. */
  function Step(s: State, i: nat): State
    requires Sane(s) && i < |s.agents| && Enabled(s, i)
  {
    var h := s.agents[i].handle;
    match s.agents[i].pc
    case RTest(n) => At(s, i, if s.shut[h] then Idle else RWait(n))
    case RWait(n) => At(s, i, RCheck(n)).(sem := s.sem - 1)
    case RCheck(n) => var (end, t) := IsClosed(s, h, true); At(t, i, if end then REnd(n) else REmpty(n))
    case REmpty(n) => At(s, i, if s.rpos == s.wpos then RRetry(n) else RLoop(n, []))
    case RLoop(n, out) =>
      At(s, i, if |out| < n && s.rpos != s.wpos then RBump(n, out, s.buf[s.rpos % BUFSIZE]) else RUnlock(n, out))
    case RBump(n, out, b) => At(s, i, RLoop(n, out + [b])).(rpos := s.rpos + 1, read := s.read + [b])
    case RRetry(n) => At(s, i, RTest(n)).(sem := s.sem + 1)
    case RUnlock(_, out) => At(s, i, Idle).(sem := s.sem + 1, delivered := s.delivered + |out|)
    case REnd(_) => At(s, i, Idle).(sem := s.sem + 1)
    case WTest(data, at) => if s.shut[h] then At(s, i, Idle).(sent := s.sent + |at|) else At(s, i, WWait(data, at))
    case WWait(data, at) => At(s, i, WCheck(data, at)).(sem := s.sem - 1)
    case WCheck(data, at) => var (end, t) := IsClosed(s, h, false); At(t, i, if end then WUnlock(data, at) else WLoop(data, at))
    case WLoop(data, at) =>
      if |at| >= |data| then At(s, i, WUnlock(data, at))
      else if s.wpos - s.rpos >= BUFSIZE then At(s, i, WRetry(data, at))
      else At(s, i, WBump(data, at)).(buf := s.buf[s.wpos % BUFSIZE := data[|at|]])
    case WBump(data, at) =>
      At(s, i, WLoop(data, at + [s.wpos])).(wpos := s.wpos + 1, written := s.written + [s.buf[s.wpos % BUFSIZE]])
    case WRetry(data, at) => At(s, i, WTest(data, at)).(sem := s.sem + 1)
    case WUnlock(_, at) => At(s, i, Idle).(sem := s.sem + 1, sent := s.sent + |at|)
    case CTest => At(s, i, if s.shut[h] then Idle else CWait)
    case CWait => At(s, i, CSet).(sem := s.sem - 1)
    case CSet => At(Shut(s, h), i, CUnlock).(quit := s.quit + {h})
    case CUnlock => At(s, i, Idle).(sem := s.sem + 1)
  }

  /** An idle agent starts a call. */
  predicate Begins(pc: Pc) {
    pc.RTest? || pc.CTest? || (pc.WTest? && pc.at == [])
  }

  ghost predicate Moves(s: State, i: nat, t: State)
    requires Sane(s) && i < |s.agents|
  {
    || (Enabled(s, i) && t == Step(s, i))
    || (s.agents[i].pc.Idle? && exists pc :: Begins(pc) && t == At(s, i, pc))
  }

  ghost predicate Next(s: State, t: State) {
    Sane(s) && exists i: nat :: i < |s.agents| && Moves(s, i, t)
  }

  ghost predicate Run(run: seq<State>) {
    run != [] && Init(run[0]) && forall k :: 0 < k < |run| ==> Next(run[k - 1], run[k])
  }

  // ---------------------------------------------------------------- the invariant

  /** The agent is between sem_wait and sem_post. */
  predicate Holds(pc: Pc) {
    pc.RCheck? || pc.REmpty? || pc.RLoop? || pc.RBump? || pc.RRetry? || pc.RUnlock? || pc.REnd?
    || pc.WCheck? || pc.WLoop? || pc.WBump? || pc.WRetry? || pc.WUnlock? || pc.CSet? || pc.CUnlock?
  }

  ghost predicate Mutex(s: State) {
    && s.sem <= 1
    && (s.sem == 0 <==> exists i :: 0 <= i < |s.agents| && Holds(s.agents[i].pc))
    && (forall i, j :: 0 <= i < j < |s.agents| ==> !(Holds(s.agents[i].pc) && Holds(s.agents[j].pc)))
  }

  /** The ring holds exactly the bytes written and not yet read, in order. */
  predicate Ring(s: State) {
    && s.rpos <= s.wpos <= s.rpos + BUFSIZE && |s.buf| == BUFSIZE
    && |s.written| == s.wpos && |s.read| == s.rpos
    && s.read == s.written[..s.rpos]
    && forall k :: s.rpos <= k < s.wpos ==> s.buf[k % BUFSIZE] == s.written[k]
  }

  /** The first |at| bytes of data stand in the stream at the positions `at`, in order. */
  predicate Placed(data: seq<Byte>, at: seq<nat>, written: seq<Byte>) {
    && |at| <= |data|
    && (forall j :: 0 <= j < |at| ==> at[j] < |written| && written[at[j]] == data[j])
    && (forall j, k :: 0 <= j < k < |at| ==> at[j] < at[k])
  }

  predicate IsSuffix(out: seq<Byte>, read: seq<Byte>) {
    |out| <= |read| && out == read[|read| - |out|..]
  }

  predicate Facts(s: State, a: Agent) {
    && a.handle < |s.shut|
    && match a.pc
       case REmpty(n) => !s.shut[a.handle] && (s.closed ==> s.rpos < s.wpos)
       case RLoop(n, out) => !s.shut[a.handle] && |out| <= n && IsSuffix(out, s.read) && (out == [] ==> s.rpos < s.wpos)
       case RBump(n, out, b) => !s.shut[a.handle] && |out| < n && IsSuffix(out, s.read) && s.rpos < s.wpos <= |s.written| && b == s.written[s.rpos]
       case RUnlock(n, out) => IsSuffix(out, s.read) && |out| <= n && (|out| == n || (out != [] && s.rpos == s.wpos))
       case RRetry(n) => s.rpos == s.wpos && !s.closed
       case REnd(n) => s.shut[a.handle]
       case WTest(data, at) => Placed(data, at, s.written)
       case WWait(data, at) => Placed(data, at, s.written)
       case WCheck(data, at) => Placed(data, at, s.written)
       case WRetry(data, at) => Placed(data, at, s.written) && |at| < |data| && s.wpos == s.rpos + BUFSIZE && !s.closed
       case WUnlock(data, at) => Placed(data, at, s.written) && (|at| == |data| || s.closed)
       case CUnlock => s.shut[a.handle] && a.handle in s.quit
       case WLoop(data, at) => !s.shut[a.handle] && !s.closed && Placed(data, at, s.written)
       case WBump(data, at) =>
         && !s.shut[a.handle] && !s.closed && Placed(data, at, s.written)
         && |at| < |data| && s.wpos - s.rpos < BUFSIZE && |s.buf| == BUFSIZE && s.buf[s.wpos % BUFSIZE] == data[|at|]
       case _ => true
  }

  /** A handle that is shut although nobody closed it was shut by a check that found the pipe closed
      and everything read. */
  predicate Drained(s: State) {
    forall h :: 0 <= h < |s.shut| && s.shut[h] && h !in s.quit ==> s.closed && s.rpos == s.wpos
  }

  ghost predicate Inv(s: State) {
    && Mutex(s) && Ring(s)
    && (forall h :: 0 <= h < |s.shut| && s.shut[h] ==> s.closed)
    && Drained(s)
    && (forall i :: 0 <= i < |s.agents| ==> Facts(s, s.agents[i]))
  }

  lemma InitInv(s: State)
    requires Init(s)
    ensures Inv(s)
  {
  }

  lemma MutexMoves(s: State, i: nat, t: State)
    requires Inv(s) && Sane(s) && i < |s.agents| && Moves(s, i, t)
    ensures Mutex(t)
  {
    hide Ring, Facts;
    OnlyOneMoves(s, i, t);
    var a, b := s.agents[i].pc, t.agents[i].pc;
    assert Holds(b) ==> t.sem == 0;
    if t.sem == 0 && !Holds(b) {
      var j :| 0 <= j < |s.agents| && Holds(s.agents[j].pc);
      assert Holds(t.agents[j].pc);
    }
  }

  lemma OnlyOneMoves(s: State, i: nat, t: State)
    requires Sane(s) && i < |s.agents| && Moves(s, i, t)
    ensures |t.agents| == |s.agents| && |t.shut| == |s.shut| && t.agents[i].handle == s.agents[i].handle
    ensures forall j :: 0 <= j < |s.agents| && j != i ==> t.agents[j] == s.agents[j]
    ensures t.sem == s.sem + (if Holds(s.agents[i].pc) then 1 else 0) - (if Holds(t.agents[i].pc) then 1 else 0)
  {
    if Enabled(s, i) && t == Step(s, i) { StepAgents(s, i); StepSem(s, i); }
  }

  lemma StepAgents(s: State, i: nat)
    requires Sane(s) && i < |s.agents| && Enabled(s, i)
    ensures var t := Step(s, i);
            && |t.agents| == |s.agents| && |t.shut| == |s.shut|
            && t.agents == s.agents[i := s.agents[i].(pc := t.agents[i].pc)]
  {
    var pc := s.agents[i].pc;
    if pc.RTest? || pc.RWait? || pc.RCheck? || pc.REmpty? || pc.RLoop? || pc.RBump? || pc.RRetry? || pc.RUnlock? || pc.REnd? {
      ReaderAgents(s, i);
    } else {
      OtherAgents(s, i);
    }
    hide Step, Enabled;
  }

  lemma ReaderAgents(s: State, i: nat)
    requires Sane(s) && i < |s.agents| && Enabled(s, i)
    requires var pc := s.agents[i].pc; pc.RTest? || pc.RWait? || pc.RCheck? || pc.REmpty? || pc.RLoop? || pc.RBump? || pc.RRetry? || pc.RUnlock? || pc.REnd?
    ensures var t := Step(s, i);
            && |t.agents| == |s.agents| && |t.shut| == |s.shut|
            && t.agents == s.agents[i := s.agents[i].(pc := t.agents[i].pc)]
  {
  }

  lemma OtherAgents(s: State, i: nat)
    requires Sane(s) && i < |s.agents| && Enabled(s, i)
    requires var pc := s.agents[i].pc;
             !(pc.RTest? || pc.RWait? || pc.RCheck? || pc.REmpty? || pc.RLoop? || pc.RBump? || pc.RRetry? || pc.RUnlock? || pc.REnd?)
    ensures var t := Step(s, i);
            && |t.agents| == |s.agents| && |t.shut| == |s.shut|
            && t.agents == s.agents[i := s.agents[i].(pc := t.agents[i].pc)]
  {
  }

  lemma StepSem(s: State, i: nat)
    requires Sane(s) && i < |s.agents| && Enabled(s, i)
    ensures |Step(s, i).agents| == |s.agents|
    ensures Step(s, i).sem == s.sem + (if Holds(s.agents[i].pc) then 1 else 0) - (if Holds(Step(s, i).agents[i].pc) then 1 else 0)
  {
    StepAgents(s, i);
  }

  /** Outside the lock nothing shared changes. */
  lemma StepOutside(s: State, i: nat, t: State)
    requires Sane(s) && i < |s.agents| && Moves(s, i, t) && !Holds(s.agents[i].pc)
    ensures t == s.(sem := t.sem, agents := t.agents, sent := t.sent, delivered := t.delivered)
  {
  }

  /** Only three steps touch the ring. */
  lemma StepBesideRing(s: State, i: nat, t: State)
    requires Sane(s) && i < |s.agents| && Moves(s, i, t)
    requires !s.agents[i].pc.RBump? && !s.agents[i].pc.WLoop? && !s.agents[i].pc.WBump?
    ensures t == s.(sem := t.sem, agents := t.agents, shut := t.shut, closed := t.closed, quit := t.quit, sent := t.sent, delivered := t.delivered)
  {
  }

  lemma ModDistinct(a: nat, b: nat)
    requires a < b < a + BUFSIZE
    ensures a % BUFSIZE != b % BUFSIZE
  {
  }

  lemma RingMoves(s: State, i: nat, t: State)
    requires Inv(s) && Sane(s) && i < |s.agents| && Moves(s, i, t)
    ensures Ring(t) && s.written <= t.written
  {
    hide Mutex;
    var pc := s.agents[i].pc;
    assert Facts(s, s.agents[i]);
    if pc.RBump? {
      assert t == At(s, i, RLoop(pc.n, pc.out + [pc.b])).(rpos := s.rpos + 1, read := s.read + [pc.b]);
      RingRead(s, pc.b, t);
    } else if pc.WLoop? {
      if t.buf != s.buf { RingStore(s, pc.data[|pc.at|], t); }
    } else if pc.WBump? {
      RingWrite(s, t);
    } else {
      StepBesideRing(s, i, t);
    }
  }

  lemma RingRead(s: State, b: Byte, t: State)
    requires Ring(s) && s.rpos < s.wpos && b == s.written[s.rpos]
    requires t.rpos == s.rpos + 1 && t.wpos == s.wpos && t.buf == s.buf && t.written == s.written && t.read == s.read + [b]
    ensures Ring(t)
  {
    assert s.written[..s.rpos + 1] == s.written[..s.rpos] + [s.written[s.rpos]];
  }

  lemma RingStore(s: State, b: Byte, t: State)
    requires Ring(s) && s.wpos - s.rpos < BUFSIZE
    requires t.rpos == s.rpos && t.wpos == s.wpos && t.buf == s.buf[s.wpos % BUFSIZE := b] && t.written == s.written && t.read == s.read
    ensures Ring(t)
  {
    forall k | s.rpos <= k < s.wpos ensures t.buf[k % BUFSIZE] == s.buf[k % BUFSIZE] { ModDistinct(k, s.wpos); }
  }

  lemma RingWrite(s: State, t: State)
    requires Ring(s) && s.wpos - s.rpos < BUFSIZE
    requires t.rpos == s.rpos && t.wpos == s.wpos + 1 && t.buf == s.buf && t.read == s.read
    requires t.written == s.written + [s.buf[s.wpos % BUFSIZE]]
    ensures Ring(t) && s.written <= t.written
  {
  }

  /** What another agent relies on is not disturbed: inside the lock it is alone, outside it
      relies only on bytes already in the stream. */
  lemma FactsOther(s: State, i: nat, t: State, j: nat)
    requires Inv(s) && Sane(s) && i < |s.agents| && Moves(s, i, t) && j < |s.agents| && j != i
    ensures |t.agents| == |s.agents| && Facts(t, t.agents[j])
  {
    OnlyOneMoves(s, i, t);
    assert Facts(s, s.agents[j]);
    if Holds(s.agents[j].pc) {
      OneHolder(s, i, j);
      StepOutside(s, i, t);
    } else {
      RingMoves(s, i, t);
      hide Ring, Mutex;
    }
  }

  lemma OneHolder(s: State, i: nat, j: nat)
    requires Mutex(s) && i < |s.agents| && j < |s.agents| && i != j
    ensures !(Holds(s.agents[i].pc) && Holds(s.agents[j].pc))
  {
    var lo, hi := if i < j then i else j, if i < j then j else i;
    assert !(Holds(s.agents[lo].pc) && Holds(s.agents[hi].pc));
  }

  lemma FactsReader(s: State, i: nat)
    requires Ring(s) && Sane(s) && i < |s.agents| && Enabled(s, i) && Facts(s, s.agents[i])
    requires var pc := s.agents[i].pc; pc.RTest? || pc.RWait? || pc.RCheck? || pc.REmpty? || pc.RLoop? || pc.RBump? || pc.RRetry? || pc.RUnlock? || pc.REnd?
    ensures |Step(s, i).agents| == |s.agents| && Facts(Step(s, i), Step(s, i).agents[i])
  {
    StepAgents(s, i);
    var pc := s.agents[i].pc;
    if pc.RBump? {
      var read' := s.read + [pc.b];
      assert pc.out + [pc.b] == read'[|read'| - |pc.out| - 1..];
    }
  }

  lemma FactsWriter(s: State, i: nat)
    requires Ring(s) && Sane(s) && i < |s.agents| && Enabled(s, i) && Facts(s, s.agents[i])
    requires forall h :: 0 <= h < |s.shut| && s.shut[h] ==> s.closed
    requires var pc := s.agents[i].pc; pc.WTest? || pc.WWait? || pc.WCheck? || pc.WLoop? || pc.WBump? || pc.WRetry? || pc.WUnlock?
    ensures |Step(s, i).agents| == |s.agents| && Facts(Step(s, i), Step(s, i).agents[i])
  {
    StepAgents(s, i);
  }

  lemma FactsMover(s: State, i: nat, t: State)
    requires Inv(s) && Sane(s) && i < |s.agents| && Moves(s, i, t)
    ensures |t.agents| == |s.agents| && Facts(t, t.agents[i])
  {
    hide Mutex;
    var pc := s.agents[i].pc;
    assert Facts(s, s.agents[i]);
    if Enabled(s, i) && t == Step(s, i) {
      if pc.WTest? || pc.WWait? || pc.WCheck? || pc.WLoop? || pc.WBump? || pc.WRetry? || pc.WUnlock? {
        FactsWriter(s, i);
      } else if pc.CTest? || pc.CWait? || pc.CSet? || pc.CUnlock? {
        StepAgents(s, i);
      } else {
        FactsReader(s, i);
      }
    }
  }

  lemma ShutMoves(s: State, i: nat, t: State)
    requires Sane(s) && i < |s.agents| && Moves(s, i, t)
    requires forall h :: 0 <= h < |s.shut| && s.shut[h] ==> s.closed
    ensures forall h :: 0 <= h < |t.shut| && t.shut[h] ==> t.closed
    ensures s.closed ==> t.closed
  {
  }

  lemma DrainedMoves(s: State, i: nat, t: State)
    requires Sane(s) && i < |s.agents| && Moves(s, i, t) && Drained(s) && Ring(s) && Facts(s, s.agents[i])
    ensures Drained(t)
  {
  }

  lemma NextInv(s: State, t: State)
    requires Inv(s) && Next(s, t)
    ensures Inv(t)
  {
    hide Mutex, Ring, Facts, Moves, Drained;
    var i: nat :| i < |s.agents| && Moves(s, i, t);
    DrainedMoves(s, i, t);
    MutexMoves(s, i, t);
    RingMoves(s, i, t);
    ShutMoves(s, i, t);
    OnlyOneMoves(s, i, t);
    forall j | 0 <= j < |t.agents| ensures Facts(t, t.agents[j]) {
      if j == i { FactsMover(s, i, t); } else { FactsOther(s, i, t, j); }
    }
  }

  lemma {:induction false} RunInv(run: seq<State>, k: nat)
    requires Run(run) && k < |run|
    ensures Inv(run[k])
  {
    hide Inv;
    if k == 0 {
      InitInv(run[0]);
    } else {
      RunInv(run, k - 1);
      assert Next(run[k - 1], run[k]);
      NextInv(run[k - 1], run[k]);
    }
  }

  // ---------------------------------------------------------------- theorems

  /** In every reachable state what has been read is a prefix of what has been written, and the
      ring holds exactly the bytes in between, at most a ringful. */
  lemma ReadsArePrefixOfWrites(run: seq<State>, k: nat)
    requires Run(run) && k < |run|
    ensures var s := run[k];
            && s.read <= s.written && 0 <= s.wpos - s.rpos <= BUFSIZE && |s.buf| == BUFSIZE
            && |s.read| == s.rpos && |s.written| == s.wpos
            && forall k :: s.rpos <= k < s.wpos ==> s.buf[k % BUFSIZE] == s.written[k]
  {
    RunInv(run, k);
  }

  lemma StepOf(run: seq<State>, k: nat)
    requires Run(run) && 0 < k < |run|
    ensures Next(run[k - 1], run[k])
  {
  }

  lemma ClosedFreezes(s: State, t: State)
    requires Inv(s) && Next(s, t)
    ensures s.written <= t.written
    ensures s.closed ==> t.closed && t.written == s.written
  {
    hide Mutex, Ring;
    var i: nat :| i < |s.agents| && Moves(s, i, t);
    RingMoves(s, i, t);
    ShutMoves(s, i, t);
    assert Facts(s, s.agents[i]);
    var pc := s.agents[i].pc;
    if !pc.RBump? && !pc.WLoop? && !pc.WBump? { StepBesideRing(s, i, t); }
  }

  /** Once any handle has closed the pipe no byte is ever added, and the stream up to any
      earlier moment never changes. */
  lemma {:induction false} NothingWrittenAfterClose(run: seq<State>, from: nat, till: nat)
    requires Run(run) && from <= till < |run|
    ensures run[from].written <= run[till].written
    ensures run[from].closed ==> run[till].closed && run[till].written == run[from].written
    decreases till
  {
    hide Inv, Run, Next;
    if from < till {
      NothingWrittenAfterClose(run, from, till - 1);
      RunInv(run, till - 1);
      StepOf(run, till);
      ClosedFreezes(run[till - 1], run[till]);
    }
  }

  /** A read of n returns: at once, on a handle that is shut, or from inside the lock. */
  predicate ReadReturns(before: Pc, after: Pc) {
    (before.RTest? || before.REnd? || before.RUnlock?) && after.Idle?
  }

  /** The number it returns. */
  function Result(pc: Pc): nat { if pc.RUnlock? then |pc.out| else 0 }

  /** A read of n > 0 on a handle that spipeclose has not been called on returns 0, which its caller takes for the
      end of the stream, only when every byte ever written, then or later, has been read. */
  lemma EndMeansDrained(run: seq<State>, k: nat, i: nat, later: nat)
    requires Run(run) && 0 < k <= later < |run| && i < |run[k - 1].agents| && i < |run[k].agents|
    requires var pc := run[k - 1].agents[i].pc; ReadReturns(pc, run[k].agents[i].pc) && pc.n > 0 && Result(pc) == 0
    requires run[k - 1].agents[i].handle !in run[k - 1].quit
    ensures run[k].closed && run[k].read == run[k].written == run[later].written
  {
    hide Run, Inv, Next, ReadReturns, Result;
    RunInv(run, k - 1);
    RunInv(run, k);
    StepOf(run, k);
    EndStep(run[k - 1], run[k], i);
    NothingWrittenAfterClose(run, k, later);
  }

  lemma EndStep(s: State, t: State, i: nat)
    requires Inv(s) && Inv(t) && Next(s, t) && i < |s.agents| && i < |t.agents|
    requires var pc := s.agents[i].pc; ReadReturns(pc, t.agents[i].pc) && pc.n > 0 && Result(pc) == 0
    requires s.agents[i].handle !in s.quit
    ensures t.closed && t.read == t.written
  {
    hide Mutex;
    var m: nat :| m < |s.agents| && Moves(s, m, t);
    OnlyOneMoves(s, m, t);
    assert m == i && Facts(s, s.agents[i]);
  }

  /** What a finished read delivers is a contiguous stretch of the stream, the last thing read; it is as much as
      was asked for unless it has emptied the ring, and something if anything was asked for. */
  lemma ReadDeliversNextBytes(run: seq<State>, k: nat, i: nat)
    requires Run(run) && k < |run| && i < |run[k].agents| && run[k].agents[i].pc.RUnlock?
    ensures var s, n, out := run[k], run[k].agents[i].pc.n, run[k].agents[i].pc.out;
            && |out| <= s.rpos <= |s.written| && out == s.written[s.rpos - |out|..s.rpos]
            && |out| <= n && (|out| == n || s.rpos == s.wpos) && (n > 0 ==> out != [])
  {
    RunInv(run, k);
    assert Facts(run[k], run[k].agents[i]);
  }

  // ---------------------------------------------------------------- every byte is counted once

  /** How many bytes the call an agent is making has put into the ring, or taken out of it. */
  function Put(pc: Pc): nat {
    if pc.WTest? || pc.WWait? || pc.WCheck? || pc.WLoop? || pc.WBump? || pc.WRetry? || pc.WUnlock? then |pc.at| else 0
  }

  function Got(pc: Pc): nat { if pc.RLoop? || pc.RBump? || pc.RUnlock? then |pc.out| else 0 }

  function AllPut(agents: seq<Agent>): nat {
    if agents == [] then 0 else AllPut(agents[..|agents| - 1]) + Put(agents[|agents| - 1].pc)
  }

  function AllGot(agents: seq<Agent>): nat {
    if agents == [] then 0 else AllGot(agents[..|agents| - 1]) + Got(agents[|agents| - 1].pc)
  }

  lemma {:induction false} PutMove(agents: seq<Agent>, i: nat, a: Agent)
    requires i < |agents|
    ensures AllPut(agents[i := a]) == AllPut(agents) - Put(agents[i].pc) + Put(a.pc)
    ensures AllGot(agents[i := a]) == AllGot(agents) - Got(agents[i].pc) + Got(a.pc)
  {
    hide Put, Got;
    var n := |agents| - 1;
    if i == n {
      assert agents[i := a][..n] == agents[..n];
    } else {
      assert agents[i := a][..n] == agents[..n][i := a];
      PutMove(agents[..n], i, a);
    }
  }

  /** The stream is as long as all that writes have reported and will report of what they have done so far. */
  predicate Balanced(s: State) {
    |s.written| == s.sent + AllPut(s.agents) && |s.read| == s.delivered + AllGot(s.agents)
  }

  lemma MoveBalance(s: State, i: nat, t: State)
    requires Sane(s) && i < |s.agents| && Moves(s, i, t)
    ensures i < |t.agents| && t.agents == s.agents[i := t.agents[i]]
    ensures |t.written| - |s.written| == t.sent - s.sent + Put(t.agents[i].pc) - Put(s.agents[i].pc)
    ensures |t.read| - |s.read| == t.delivered - s.delivered + Got(t.agents[i].pc) - Got(s.agents[i].pc)
  {
    if Enabled(s, i) && t == Step(s, i) {
      StepAgents(s, i);
      if IsReading(s.agents[i].pc) { ReadBalance(s, i); } else { WriteBalance(s, i); }
    }
    hide Step;
  }

  predicate IsReading(pc: Pc) {
    pc.RTest? || pc.RWait? || pc.RCheck? || pc.REmpty? || pc.RLoop? || pc.RBump? || pc.RRetry? || pc.RUnlock? || pc.REnd?
  }

  lemma ReadBalance(s: State, i: nat)
    requires Sane(s) && i < |s.agents| && Enabled(s, i) && IsReading(s.agents[i].pc)
    ensures var t := Step(s, i);
            && i < |t.agents| && t.written == s.written && t.sent == s.sent && Put(t.agents[i].pc) == Put(s.agents[i].pc) == 0
            && |t.read| - |s.read| == t.delivered - s.delivered + Got(t.agents[i].pc) - Got(s.agents[i].pc)
  {
  }

  lemma WriteBalance(s: State, i: nat)
    requires Sane(s) && i < |s.agents| && Enabled(s, i) && !IsReading(s.agents[i].pc)
    ensures var t := Step(s, i);
            && i < |t.agents| && t.read == s.read && t.delivered == s.delivered && Got(t.agents[i].pc) == Got(s.agents[i].pc) == 0
            && |t.written| - |s.written| == t.sent - s.sent + Put(t.agents[i].pc) - Put(s.agents[i].pc)
  {
  }

  /** Conservation: in every reachable state every byte of the stream is one that exactly one write has reported or
      will report, and every byte read one that exactly one read has delivered or will deliver. */
  lemma {:induction false} EveryByteCounted(run: seq<State>, k: nat)
    requires Run(run) && k < |run|
    ensures Balanced(run[k])
  {
    hide Moves, Put, Got;
    if k == 0 {
      NothingCounted(run[0].agents);
    } else {
      EveryByteCounted(run, k - 1);
      var s, t := run[k - 1], run[k];
      assert Next(s, t);
      var i: nat :| i < |s.agents| && Moves(s, i, t);
      MoveBalance(s, i, t);
      PutMove(s.agents, i, t.agents[i]);
    }
  }

  lemma {:induction false} NothingCounted(agents: seq<Agent>)
    requires forall i :: 0 <= i < |agents| ==> agents[i].pc == Idle
    ensures AllPut(agents) == 0 && AllGot(agents) == 0
  {
    if agents != [] { NothingCounted(agents[..|agents| - 1]); }
  }

  /** A call on a handle that is shut returns at once, before the semaphore (spipe.c:44, 72, 104): nothing shared has
      changed, and a read or a new write reports 0. */
  lemma ShutHandleReturnsAtOnce(s: State, t: State, i: nat)
    requires Sane(s) && i < |s.agents| && Moves(s, i, t) && s.shut[s.agents[i].handle]
    requires s.agents[i].pc.RTest? || s.agents[i].pc.WTest? || s.agents[i].pc.CTest?
    ensures i < |t.agents| && t.agents[i].pc.Idle?
    ensures t == s.(agents := t.agents, sent := s.sent + Put(s.agents[i].pc))
  {
  }

  /** A read goes round again only when there is nothing to read and the pipe is open, a write only when the ring is
      full and the pipe is open. */
  lemma RetriesForAReason(run: seq<State>, k: nat, i: nat)
    requires Run(run) && k < |run| && i < |run[k].agents|
    ensures run[k].agents[i].pc.RRetry? ==> run[k].rpos == run[k].wpos && !run[k].closed
    ensures run[k].agents[i].pc.WRetry? ==> run[k].wpos - run[k].rpos == BUFSIZE && !run[k].closed
  {
    RunInv(run, k);
    assert Facts(run[k], run[k].agents[i]);
  }

  /** When spipeclose returns, the pipe and the handle are closed. */
  lemma CloseCloses(run: seq<State>, k: nat, i: nat)
    requires Run(run) && 0 < k < |run| && i < |run[k - 1].agents| && i < |run[k].agents|
    requires (run[k - 1].agents[i].pc.CTest? || run[k - 1].agents[i].pc.CUnlock?) && run[k].agents[i].pc.Idle?
    ensures run[k].closed && run[k].agents[i].handle < |run[k].shut| && run[k].shut[run[k].agents[i].handle]
  {
    hide Run, Inv, Next;
    RunInv(run, k - 1);
    StepOf(run, k);
    CloseStep(run[k - 1], run[k], i);
  }

  lemma CloseStep(s: State, t: State, i: nat)
    requires Inv(s) && Next(s, t) && i < |s.agents| && i < |t.agents|
    requires (s.agents[i].pc.CTest? || s.agents[i].pc.CUnlock?) && t.agents[i].pc.Idle?
    ensures t.closed && t.agents[i].handle < |t.shut| && t.shut[t.agents[i].handle]
  {
    hide Mutex, Ring, Step, Enabled, Facts;
    var m: nat :| m < |s.agents| && Moves(s, m, t);
    OnlyOneMoves(s, m, t);
    assert m == i && Facts(s, s.agents[i]);
    CloseMove(s, i, t);
  }

  lemma CloseMove(s: State, i: nat, t: State)
    requires Sane(s) && i < |s.agents| && Moves(s, i, t) && Facts(s, s.agents[i])
    requires forall h :: 0 <= h < |s.shut| && s.shut[h] ==> s.closed
    requires (s.agents[i].pc.CTest? || s.agents[i].pc.CUnlock?) && i < |t.agents| && t.agents[i].pc.Idle?
    ensures t.closed && t.agents[i].handle < |t.shut| && t.shut[t.agents[i].handle]
  {
  }

  /** A write returns, with |at| as its result: at the end, or before the next round because its handle has
      been shut. */
  predicate WriteReturns(s: State, a: Agent) {
    a.pc.WUnlock? || (a.pc.WTest? && a.handle < |s.shut| && s.shut[a.handle])
  }

  /** What a write reports as written stands in the stream, byte for byte and in order, and
      without a close, of the pipe or of the handle, it is everything. */
  lemma WriteReportsWhatItPlaced(run: seq<State>, k: nat, i: nat)
    requires Run(run) && k < |run| && i < |run[k].agents| && WriteReturns(run[k], run[k].agents[i])
    ensures var a := run[k].agents[i];
            && Placed(a.pc.data, a.pc.at, run[k].written)
            && (|a.pc.at| == |a.pc.data| || run[k].closed || (a.handle < |run[k].shut| && run[k].shut[a.handle]))
  {
    RunInv(run, k);
    assert Facts(run[k], run[k].agents[i]);
  }

  /** The agent reads or writes the shared page through its handle in its next step. */
  predicate TouchesPage(pc: Pc) {
    pc.REmpty? || pc.RLoop? || pc.RBump? || pc.WLoop? || pc.WBump?
  }

  /** No agent touches the page through a handle that has been closed and unmapped, even one it
      shares with the closing agent. */
  lemma NoTouchAfterUnmap(run: seq<State>, k: nat, i: nat)
    requires Run(run) && k < |run| && i < |run[k].agents| && TouchesPage(run[k].agents[i].pc)
    ensures run[k].agents[i].handle < |run[k].shut| && !run[k].shut[run[k].agents[i].handle]
  {
    RunInv(run, k);
    assert Facts(run[k], run[k].agents[i]);
  }

  // ---------------------------------------------------------------- calls without interference

  /** Agent i gets from s to t in k steps of its own. */
  ghost predicate Alone(s: State, i: nat, t: State, k: nat)
    decreases k
  {
    if k == 0 then t == s else Sane(s) && i < |s.agents| && Enabled(s, i) && Alone(Step(s, i), i, t, k - 1)
  }

  ghost predicate Gets(s: State, i: nat, t: State) { exists k: nat :: Alone(s, i, t, k) }

  lemma {:induction false} AloneMore(s: State, i: nat, t: State, u: State, j: nat, k: nat)
    requires Alone(s, i, t, j) && Alone(t, i, u, k)
    ensures Alone(s, i, u, j + k)
    decreases j
  {
    if j > 0 { AloneMore(Step(s, i), i, t, u, j - 1, k); }
  }

  lemma GetsMore(s: State, i: nat, t: State, u: State)
    requires Gets(s, i, t) && Gets(t, i, u)
    ensures Gets(s, i, u)
  {
    var j: nat :| Alone(s, i, t, j);
    var k: nat :| Alone(t, i, u, k);
    AloneMore(s, i, t, u, j, k);
  }

  lemma GetsThree(s: State, i: nat)
    requires Sane(s) && i < |s.agents| && Enabled(s, i)
    requires var t := Step(s, i); Sane(t) && i < |t.agents| && Enabled(t, i)
    requires var u := Step(Step(s, i), i); Sane(u) && i < |u.agents| && Enabled(u, i)
    ensures Gets(s, i, Step(Step(Step(s, i), i), i))
  {
    hide Step, Enabled, Sane;
    var v := Step(Step(Step(s, i), i), i);
    assert Alone(v, i, v, 0);
    assert Alone(Step(Step(s, i), i), i, v, 1);
    assert Alone(Step(s, i), i, v, 2);
    assert Alone(s, i, v, 3);
  }

  lemma GetsTwo(s: State, i: nat)
    requires Sane(s) && i < |s.agents| && Enabled(s, i)
    requires var t := Step(s, i); Sane(t) && i < |t.agents| && Enabled(t, i)
    ensures Gets(s, i, Step(Step(s, i), i))
  {
    hide Step, Enabled, Sane;
    var v := Step(Step(s, i), i);
    assert Alone(v, i, v, 0);
    assert Alone(Step(s, i), i, v, 1);
    assert Alone(s, i, v, 2);
  }

  lemma GetsSelf(s: State, i: nat)
    ensures Gets(s, i, s)
  {
    assert Alone(s, i, s, 0);
  }

  /** The state after m bytes have been taken. */
  function Taken(s: State, m: nat): State
    requires |s.read| == s.rpos && s.rpos + m <= |s.written|
  {
    s.(rpos := s.rpos + m, read := s.read + s.written[s.rpos..s.rpos + m])
  }

  /** The copying loop of spiperead takes m bytes, if that many are there. */
  lemma {:induction false} ReadLoop(s: State, i: nat, n: nat, out: seq<Byte>, m: nat)
    requires Ring(s) && Sane(s) && i < |s.agents| && s.agents[i].pc == RLoop(n, out) && |out| + m <= n && s.rpos + m <= s.wpos
    ensures |s.read| == s.rpos && s.wpos == |s.written|
    ensures Gets(s, i, At(Taken(s, m), i, RLoop(n, out + s.written[s.rpos..s.rpos + m])))
    decreases m
  {
    RingBounds(s);
    hide Gets, Ring, Step, Enabled;
    var u := At(Taken(s, m), i, RLoop(n, out + s.written[s.rpos..s.rpos + m]));
    if m == 0 {
      GetsSelf(s, i);
      assert s.written[s.rpos..s.rpos] == [] && out + [] == out && s.read + [] == s.read;
      assert u == s;
    } else {
      var t := ReadByte(s, i, n, out);
      ReadLoop(t, i, n, out + [s.written[s.rpos]], m - 1);
      TakenOn(s, i, n, out, m, t);
      GetsMore(s, i, t, u);
    }
  }

  lemma RingBounds(s: State)
    requires Ring(s)
    ensures s.rpos <= s.wpos == |s.written| && |s.read| == s.rpos && |s.buf| == BUFSIZE
  {
  }

  lemma ReadByte(s: State, i: nat, n: nat, out: seq<Byte>) returns (t: State)
    requires Ring(s) && Sane(s) && i < |s.agents| && s.agents[i].pc == RLoop(n, out) && |out| < n && s.rpos < s.wpos
    ensures var b := s.written[s.rpos]; t == At(s, i, RLoop(n, out + [b])).(rpos := s.rpos + 1, read := s.read + [b])
    ensures Gets(s, i, t) && Ring(t)
  {
    hide Gets;
    var b := s.written[s.rpos];
    t := At(s, i, RLoop(n, out + [b])).(rpos := s.rpos + 1, read := s.read + [b]);
    assert Step(s, i) == At(s, i, RBump(n, out, b));
    assert Step(Step(s, i), i) == t;
    GetsTwo(s, i);
    RingRead(s, b, t);
  }

  lemma TakenOn(s: State, i: nat, n: nat, out: seq<Byte>, m: nat, t: State)
    requires |s.read| == s.rpos && 0 < m && s.rpos + m <= |s.written| && i < |s.agents|
    requires var b := s.written[s.rpos]; t == At(s, i, RLoop(n, out + [b])).(rpos := s.rpos + 1, read := s.read + [b])
    ensures At(Taken(t, m - 1), i, RLoop(n, out + [s.written[s.rpos]] + t.written[t.rpos..t.rpos + m - 1])) ==
              At(Taken(s, m), i, RLoop(n, out + s.written[s.rpos..s.rpos + m]))
  {
    var b, rest := s.written[s.rpos], s.written[s.rpos + 1..s.rpos + m];
    assert s.written[s.rpos..s.rpos + m] == [b] + rest;
    assert out + [b] + rest == out + ([b] + rest) && s.read + [b] + rest == s.read + ([b] + rest);
  }

  /** spiperead without interference (spipe.c:39-65): with bytes pending it takes as many as were asked for, or all
      there are, delivers them, and leaves the lock free. */
  lemma ReadAlone(s: State, i: nat)
    requires Inv(s) && Sane(s) && i < |s.agents| && s.agents[i].pc.RTest? && s.sem == 1
    requires !s.shut[s.agents[i].handle] && s.rpos < s.wpos
    ensures var m := Min(s.agents[i].pc.n, s.wpos - s.rpos);
            && Gets(s, i, At(Taken(s, m), i, RUnlock(s.agents[i].pc.n, s.written[s.rpos..s.rpos + m])).(sem := 0))
            && Gets(s, i, At(Taken(s, m), i, Idle).(delivered := s.delivered + m))
  {
    hide Gets, Inv, Step, Enabled, Ring;
    InvParts(s);
    var n := s.agents[i].pc.n;
    var m := Min(n, s.wpos - s.rpos);
    ReadEnters(s, i);
    var s2 := At(s, i, RLoop(n, [])).(sem := 0);
    RingSame(s, s2);
    ReadLoop(s2, i, n, [], m);
    var got := s.written[s.rpos..s.rpos + m];
    var s3 := At(Taken(s, m), i, RLoop(n, got)).(sem := 0);
    AfterLoop(s, i, n, m, s2, s3);
    GetsMore(s, i, s2, s3);
    ReadLeaves(s3, i, n, got);
    var s4, s5 := At(Taken(s, m), i, RUnlock(n, got)).(sem := 0), At(Taken(s, m), i, Idle).(delivered := s.delivered + m);
    AtAgain(s, i, n, m, got, s3, s4, s5);
    GetsMore(s, i, s3, s4);
    GetsMore(s, i, s3, s5);
  }

  lemma AfterLoop(s: State, i: nat, n: nat, m: nat, s2: State, s3: State)
    requires |s.read| == s.rpos && s.rpos + m <= s.wpos == |s.written| && i < |s.agents| && Sane(s) && m == Min(n, s.wpos - s.rpos)
    requires s2 == At(s, i, RLoop(n, [])).(sem := 0)
    requires s3 == At(Taken(s, m), i, RLoop(n, s.written[s.rpos..s.rpos + m])).(sem := 0)
    ensures At(Taken(s2, m), i, RLoop(n, [] + s2.written[s2.rpos..s2.rpos + m])) == s3
    ensures Sane(s3) && s3.sem == 0 && i < |s3.agents| && s3.agents[i].pc == RLoop(n, s.written[s.rpos..s.rpos + m])
    ensures m >= n || s3.rpos == s3.wpos
  {
    var got := s.written[s.rpos..s.rpos + m];
    assert [] + got == got;
  }

  lemma AtAgain(s: State, i: nat, n: nat, m: nat, got: seq<Byte>, s3: State, s4: State, s5: State)
    requires |s.read| == s.rpos && s.rpos + m <= |s.written| && i < |s.agents| && s.sem == 1 && |got| == m
    requires s3 == At(Taken(s, m), i, RLoop(n, got)).(sem := 0) && s4 == At(Taken(s, m), i, RUnlock(n, got)).(sem := 0)
    requires s5 == At(Taken(s, m), i, Idle).(delivered := s.delivered + m)
    ensures At(s3, i, RUnlock(n, got)) == s4 && At(s3, i, Idle).(sem := 1, delivered := s3.delivered + |got|) == s5
  {
  }

  lemma InvParts(s: State)
    requires Inv(s)
    ensures Ring(s) && s.rpos <= s.wpos == |s.written| && |s.read| == s.rpos
  {
  }

  lemma RingSame(s: State, t: State)
    requires Ring(s) && t == s.(agents := t.agents, sem := t.sem, sent := t.sent)
    ensures Ring(t)
  {
  }

  /** Into the copying loop. */
  lemma ReadEnters(s: State, i: nat)
    requires Sane(s) && i < |s.agents| && s.agents[i].pc.RTest? && s.sem == 1 && !s.shut[s.agents[i].handle] && s.rpos < s.wpos
    ensures Gets(s, i, At(s, i, RLoop(s.agents[i].pc.n, [])).(sem := 0))
  {
    hide Gets;
    var n := s.agents[i].pc.n;
    var s1 := At(s, i, REmpty(n)).(sem := 0);
    assert Step(Step(Step(s, i), i), i) == s1;
    GetsThree(s, i);
    var s2 := At(s, i, RLoop(n, [])).(sem := 0);
    assert Step(s1, i) == s2;
    GetsOne(s1, i);
    GetsMore(s, i, s1, s2);
  }

  /** Out of it, when enough has been read or the ring is empty. */
  lemma ReadLeaves(s: State, i: nat, n: nat, out: seq<Byte>)
    requires Sane(s) && i < |s.agents| && s.agents[i].pc == RLoop(n, out) && s.sem == 0 && (|out| >= n || s.rpos == s.wpos)
    ensures Gets(s, i, At(s, i, RUnlock(n, out))) && Gets(s, i, At(s, i, Idle).(sem := 1, delivered := s.delivered + |out|))
  {
    hide Gets;
    assert Step(s, i) == At(s, i, RUnlock(n, out));
    GetsOne(s, i);
    assert Step(Step(s, i), i) == At(s, i, Idle).(sem := 1, delivered := s.delivered + |out|);
    GetsTwo(s, i);
  }

  lemma GetsOne(s: State, i: nat)
    requires Sane(s) && i < |s.agents| && Enabled(s, i)
    ensures Gets(s, i, Step(s, i))
  {
    hide Step, Enabled, Sane;
    assert Alone(Step(s, i), i, Step(s, i), 0);
    assert Alone(s, i, Step(s, i), 1);
  }

  /** The ring after more bytes have been put in, and the stream. */
  ghost predicate Grown(s: State, data: seq<Byte>, t: State) {
    && t.written == s.written + data && t.wpos == s.wpos + |data| && Ring(t)
    && t == s.(written := t.written, wpos := t.wpos, buf := t.buf, agents := t.agents, sem := t.sem, sent := t.sent)
  }

  /** The copying loop of spipewrite puts in everything, if there is room. */
  lemma {:induction false} WriteLoop(s: State, i: nat, data: seq<Byte>, at: seq<nat>) returns (t: State, at': seq<nat>)
    requires Ring(s) && Sane(s) && i < |s.agents| && s.agents[i].pc == WLoop(data, at) && |at| <= |data|
    requires s.wpos + (|data| - |at|) - s.rpos <= BUFSIZE
    ensures Gets(s, i, t) && Grown(s, data[|at|..], t) && t.sem == s.sem && t.sent == s.sent && |at'| == |data|
    ensures t.agents == s.agents[i := s.agents[i].(pc := WLoop(data, at'))]
    decreases |data| - |at|
  {
    hide Gets, Step, Enabled;
    if |at| == |data| {
      GetsSelf(s, i);
      t, at' := s, at;
      assert data[|at|..] == [] && s.written + [] == s.written;
    } else {
      var s2 := WriteByte(s, i, data, at);
      t, at' := WriteLoop(s2, i, data, at + [s.wpos]);
      var b, rest := data[|at|], data[|at| + 1..];
      assert data[|at|..] == [b] + rest;
      assert s.written + [b] + rest == s.written + ([b] + rest);
      GetsMore(s, i, s2, t);
    }
  }

  lemma WriteByte(s: State, i: nat, data: seq<Byte>, at: seq<nat>) returns (t: State)
    requires Ring(s) && Sane(s) && i < |s.agents| && s.agents[i].pc == WLoop(data, at) && |at| < |data| && s.wpos - s.rpos < BUFSIZE
    ensures t == At(s, i, WLoop(data, at + [s.wpos])).(wpos := s.wpos + 1, written := s.written + [data[|at|]], buf := t.buf)
    ensures Gets(s, i, t) && Ring(t)
  {
    hide Gets;
    var b := data[|at|];
    var s1 := At(s, i, WBump(data, at)).(buf := s.buf[s.wpos % BUFSIZE := b]);
    assert Step(s, i) == s1;
    t := At(s1, i, WLoop(data, at + [s.wpos])).(wpos := s.wpos + 1, written := s.written + [b]);
    assert Step(s1, i) == t;
    GetsTwo(s, i);
    RingStore(s, b, s1);
    RingWrite(s1, t);
  }

  /** spipewrite without interference (spipe.c:67-90): into an open pipe with room it puts everything, and leaves the lock
      free. */
  lemma WriteAlone(s: State, i: nat, data: seq<Byte>) returns (t: State)
    requires Inv(s) && Sane(s) && i < |s.agents| && s.agents[i].pc == WTest(data, []) && s.sem == 1
    requires !s.shut[s.agents[i].handle] && !s.closed && s.wpos + |data| - s.rpos <= BUFSIZE
    ensures Gets(s, i, t) && Grown(s, data, t) && t.sem == 1 && t.agents == s.agents[i := s.agents[i].(pc := Idle)]
    ensures t.sent == s.sent + |data|
  {
    hide Gets, Inv, Step, Enabled, Ring;
    InvParts(s);
    WriteEnters(s, i, data);
    var s1 := At(s, i, WLoop(data, [])).(sem := 0);
    RingSame(s, s1);
    var s2, at := WriteLoop(s1, i, data, []);
    assert data[0..] == data;
    GetsMore(s, i, s1, s2);
    RingBounds(s2);
    WriteLeaves(s2, i, data, at);
    t := At(s2, i, Idle).(sem := 1, sent := s.sent + |data|);
    RingSame(s2, t);
    GetsMore(s, i, s2, t);
  }

  lemma WriteEnters(s: State, i: nat, data: seq<Byte>)
    requires Sane(s) && i < |s.agents| && s.agents[i].pc == WTest(data, []) && s.sem == 1 && !s.shut[s.agents[i].handle] && !s.closed
    ensures Gets(s, i, At(s, i, WLoop(data, [])).(sem := 0))
  {
    hide Gets;
    assert Step(Step(Step(s, i), i), i) == At(s, i, WLoop(data, [])).(sem := 0);
    GetsThree(s, i);
  }

  lemma WriteLeaves(s: State, i: nat, data: seq<Byte>, at: seq<nat>)
    requires Sane(s) && i < |s.agents| && s.agents[i].pc == WLoop(data, at) && s.sem == 0 && |at| == |data|
    ensures Gets(s, i, At(s, i, Idle).(sem := 1, sent := s.sent + |data|))
  {
    hide Gets;
    assert Step(s, i) == At(s, i, WUnlock(data, at));
    assert Step(Step(s, i), i) == At(s, i, Idle).(sem := 1, sent := s.sent + |data|);
    GetsTwo(s, i);
  }

  /** spipeclose without interference (spipe.c:102-112) closes the pipe and the handle. */
  lemma CloseAlone(s: State, i: nat)
    requires Inv(s) && Sane(s) && i < |s.agents| && s.agents[i].pc.CTest? && s.sem == 1 && !s.shut[s.agents[i].handle]
    ensures var h := s.agents[i].handle;
            Gets(s, i, At(s, i, Idle).(shut := s.shut[h := true], closed := true, quit := s.quit + {h}))
  {
    hide Gets, Mutex, Ring;
    var h := s.agents[i].handle;
    var s1 := At(s, i, CUnlock).(shut := s.shut[h := true], closed := true, quit := s.quit + {h}, sem := 0);
    assert Step(Step(Step(s, i), i), i) == s1;
    GetsThree(s, i);
    var t := At(s, i, Idle).(shut := s.shut[h := true], closed := true, quit := s.quit + {h});
    assert Step(s1, i) == t;
    GetsOne(s1, i);
    GetsMore(s, i, s1, t);
  }

  /** And every such way is part of a run. */
  lemma {:induction false} AloneRuns(run: seq<State>, i: nat, t: State, k: nat) returns (longer: seq<State>)
    requires Run(run) && Alone(run[|run| - 1], i, t, k)
    ensures Run(longer) && longer[|longer| - 1] == t && run <= longer
    decreases k
  {
    hide Next, Step, Init, Enabled, Sane;
    if k == 0 {
      longer := run;
    } else {
      var s := run[|run| - 1];
      var more := run + [Step(s, i)];
      StepIsNext(s, i);
      assert forall j :: 0 < j < |more| ==> Next(more[j - 1], more[j]);
      longer := AloneRuns(more, i, t, k - 1);
    }
  }

  lemma StepIsNext(s: State, i: nat)
    requires Sane(s) && i < |s.agents| && Enabled(s, i)
    ensures Next(s, Step(s, i))
  {
    hide Step, Enabled, Sane;
    assert Moves(s, i, Step(s, i));
  }
}
