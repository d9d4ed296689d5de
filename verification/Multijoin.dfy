/**
 thread_multijoin: `main` creates N workers and then reaps them as they terminate, using one
 mutex, one condition variable and two counters. Every lock, unlock, wait, signal, join and
 update of the shared data is one atomic step, and all interleavings are considered.
 */
module Multijoin {

  // threads[i].state
  datatype ThreadState = Alive | Terminated | Joined

  // What worker i does next.
  datatype WorkerPc =
    | Unborn      // pthread_create has not run yet
    | Running     // asleep, then asks for the mutex
    | InMutex     // about to set its state to TERMINATED
    | Marked      // about to increment numUnjoinedThreads
    | Counted     // about to unlock
    | Unlocked    // about to signal
    | Signalled   // about to return
    | Exited

  // What main does next.
  datatype MainPc =
    | Create(next: nat)
    | Top              // tests numLiveThreads > 0
    | WantLock
    | Test             // holds the mutex, tests numUnjoinedThreads == 0
    | Waiting          // blocked in pthread_cond_wait
    | Woken            // leaves pthread_cond_wait as soon as it gets the mutex back
    | Scan(next: nat)  // looks at threads[next]; past the end it unlocks
    | Join(next: nat)  // blocked in pthread_join on worker `next`
    | Reap(next: nat)  // joined: updates the state and both counters
    | Done

  datatype Owner = Free | Main | Worker(id: nat)

  // `passes`, `passStart` and `joinLog` are history: the reaping passes begun, the value of
  // numLiveThreads when the last one began, and the workers joined, in order.
  datatype State = State(
    main: MainPc,
    owner: Owner,
    pcs: seq<WorkerPc>,
    states: seq<ThreadState>,
    unjoined: int,
    live: int,
    passes: int,
    passStart: int,
    joinLog: seq<nat>)

  datatype Action = MainMoves | WorkerMoves(id: nat) | SpuriousWakeup

  // ---------- The step relation ----------

  predicate MainCanMove(s: State) {
    match s.main
    case WantLock => s.owner.Free?
    case Woken => s.owner.Free?
    case Waiting => false
    case Join(i) => i < |s.pcs| && s.pcs[i].Exited?
    case Done => false
    case _ => true
  }

  predicate WorkerCanMove(s: State, i: nat) {
    && i < |s.pcs|
    && !s.pcs[i].Unborn?
    && !s.pcs[i].Exited?
    && (s.pcs[i].Running? ==> s.owner.Free?)
  }

  predicate Enabled(s: State, a: Action) {
    match a
    case MainMoves => MainCanMove(s)
    case WorkerMoves(i) => WorkerCanMove(s, i)
    case SpuriousWakeup => s.main.Waiting?
  }

  predicate WellFormed(n: nat, s: State) {
    && |s.pcs| == n
    && |s.states| == n
    && (s.main.Join? || s.main.Reap? ==> s.main.next < n)
    && (s.main.Create? || s.main.Scan? ==> s.main.next <= n)
  }

  function MainStep(n: nat, s: State): State
    requires WellFormed(n, s) && MainCanMove(s)
  {
    match s.main
    case Create(i) =>
      if i < n
      then s.(main := Create(i + 1), states := s.states[i := Alive], pcs := s.pcs[i := Running])
      else s.(main := Top, live := n)
    case Top =>
      if s.live > 0
      then s.(main := WantLock, passes := s.passes + 1, passStart := s.live)
      else s.(main := Done)
    case WantLock => s.(main := Test, owner := Main)
    case Woken => s.(main := Test, owner := Main)
    case Test =>
      if s.unjoined == 0
      then s.(main := Waiting, owner := Free)
      else s.(main := Scan(0))
    case Scan(i) =>
      if i == n then s.(main := Top, owner := Free)
      else if s.states[i].Terminated? then s.(main := Join(i))
      else s.(main := Scan(i + 1))
    case Join(i) => s.(main := Reap(i))
    case Reap(i) =>
      s.(main := Scan(i + 1), states := s.states[i := Joined], live := s.live - 1,
         unjoined := s.unjoined - 1, joinLog := s.joinLog + [i])
  }

  function WorkerStep(n: nat, s: State, i: nat): State
    requires WellFormed(n, s) && WorkerCanMove(s, i)
  {
    match s.pcs[i]
    case Running => s.(owner := Worker(i), pcs := s.pcs[i := InMutex])
    case InMutex => s.(states := s.states[i := Terminated], pcs := s.pcs[i := Marked])
    case Marked => s.(unjoined := s.unjoined + 1, pcs := s.pcs[i := Counted])
    case Counted => s.(owner := Free, pcs := s.pcs[i := Unlocked])
    case Unlocked =>
      s.(main := if s.main.Waiting? then Woken else s.main, pcs := s.pcs[i := Signalled])
    case Signalled => s.(pcs := s.pcs[i := Exited])
  }

  function Step(n: nat, s: State, a: Action): State
    requires WellFormed(n, s) && Enabled(s, a)
  {
    match a
    case MainMoves => MainStep(n, s)
    case WorkerMoves(i) => WorkerStep(n, s, i)
    case SpuriousWakeup => s.(main := Woken)
  }

  predicate Init(n: nat, s: State) {
    && s.main == Create(0)
    && s.owner == Free
    && |s.pcs| == n
    && |s.states| == n
    && (forall i :: 0 <= i < n ==> s.pcs[i] == Unborn)
    && s.unjoined == 0
    && s.passes == 0
    && s.joinLog == []
  }

  predicate Runs(n: nat, s: State, acts: seq<Action>, s': State)
    decreases |acts|
  {
    if acts == [] then s == s'
    else WellFormed(n, s) && Enabled(s, acts[0]) && Runs(n, Step(n, s, acts[0]), acts[1..], s')
  }

  // ---------- The invariant ----------

  predicate HoldsMutex(pc: WorkerPc) {
    pc.InMutex? || pc.Marked? || pc.Counted?
  }

  // Past its increment of numUnjoinedThreads, but not yet past its signal.
  predicate WillSignal(pc: WorkerPc) {
    pc.Counted? || pc.Unlocked?
  }

  predicate Scanning(m: MainPc) {
    m.Scan? || m.Join? || m.Reap?
  }

  predicate InPass(m: MainPc) {
    !m.Create? && !m.Top? && !m.Done?
  }

  predicate OwnerOk(s: State) {
    && (s.owner.Main? <==> s.main.Test? || Scanning(s.main))
    && (s.owner.Worker? ==> s.owner.id < |s.pcs|)
    && (forall i :: 0 <= i < |s.pcs| ==> (HoldsMutex(s.pcs[i]) <==> s.owner == Worker(i)))
  }

  predicate WorkersOk(n: nat, s: State)
    requires WellFormed(n, s)
  {
    forall i :: 0 <= i < n ==>
      && (s.pcs[i].Unborn? <==> s.main.Create? && s.main.next <= i)
      && (!s.pcs[i].Unborn? ==> (s.states[i].Alive? <==> s.pcs[i].Running? || s.pcs[i].InMutex?))
      && (!s.pcs[i].Unborn? && s.states[i].Joined? ==> s.pcs[i].Exited?)
  }

  // The workers that numUnjoinedThreads counts, and those that numLiveThreads counts.
  ghost function ToJoin(n: nat, s: State): set<nat>
    requires WellFormed(n, s)
  {
    set i: nat | i < n && !s.pcs[i].Unborn? && !s.pcs[i].Marked? && s.states[i].Terminated?
  }

  ghost function NotJoined(n: nat, s: State): set<nat>
    requires WellFormed(n, s)
  {
    set i: nat | i < n && !s.states[i].Joined?
  }

  ghost predicate CountsOk(n: nat, s: State)
    requires WellFormed(n, s)
  {
    && s.unjoined == |ToJoin(n, s)|
    && (!s.main.Create? ==> s.live == |NotJoined(n, s)|)
  }

  predicate LogOk(n: nat, s: State)
    requires WellFormed(n, s)
  {
    && (forall k :: 0 <= k < |s.joinLog| ==> s.joinLog[k] < n)
    && (forall i: nat | i < n :: i in s.joinLog <==> !s.pcs[i].Unborn? && s.states[i].Joined?)
    && (forall j, k :: 0 <= j < k < |s.joinLog| ==> s.joinLog[j] != s.joinLog[k])
  }

  // Each pass leaves no TERMINATED worker behind it and reaps at least one.
  predicate PassOk(n: nat, s: State)
    requires WellFormed(n, s)
  {
    && (s.main.Create? ==> s.passes == 0 && s.joinLog == [])
    && (s.main.Top? ==> s.passes + s.live <= n)
    && (s.main.Done? ==> s.passes <= n && s.live == 0)
    && (InPass(s.main) ==> s.passes + s.passStart <= n + 1 && 0 < s.passStart)
    && (InPass(s.main) && !Scanning(s.main) ==> s.live == s.passStart)
    && (Scanning(s.main) ==>
          && s.live <= s.passStart
          && (forall j :: 0 <= j < s.main.next ==> !s.states[j].Terminated?)
          && (s.live == s.passStart ==> exists j :: s.main.next <= j < n && s.states[j].Terminated?))
    && (s.main.Join? ==> s.states[s.main.next].Terminated?)
    && (s.main.Reap? ==> s.states[s.main.next].Terminated? && s.pcs[s.main.next].Exited?)
  }

  // No lost wakeup.
  predicate WakeupOk(s: State) {
    s.main.Waiting? && s.unjoined > 0 ==> exists i :: 0 <= i < |s.pcs| && WillSignal(s.pcs[i])
  }

  ghost predicate Inv(n: nat, s: State) {
    && WellFormed(n, s)
    && OwnerOk(s)
    && WorkersOk(n, s)
    && CountsOk(n, s)
    && LogOk(n, s)
    && PassOk(n, s)
    && WakeupOk(s)
  }

  lemma InitInv(n: nat, s: State)
    requires Init(n, s)
    ensures Inv(n, s)
  {
  }

  // ---------- Preservation ----------

  lemma WorkerNotJoined(n: nat, s: State, i: nat)
    requires WellFormed(n, s) && WorkersOk(n, s) && WorkerCanMove(s, i)
    ensures NotJoined(n, WorkerStep(n, s, i)) == NotJoined(n, s)
  {
  }

  lemma WorkerToJoin(n: nat, s: State, i: nat)
    requires WellFormed(n, s) && WorkersOk(n, s) && WorkerCanMove(s, i)
    ensures ToJoin(n, WorkerStep(n, s, i)) == ToJoin(n, s) + (if s.pcs[i].Marked? then {i} else {})
  {
  }

  lemma WorkerCounts(n: nat, s: State, i: nat)
    requires WellFormed(n, s) && WorkersOk(n, s) && CountsOk(n, s) && WorkerCanMove(s, i)
    ensures CountsOk(n, WorkerStep(n, s, i))
  {
    WorkerNotJoined(n, s, i);
    WorkerToJoin(n, s, i);
    assert s.pcs[i].Marked? ==> i !in ToJoin(n, s);
  }

  lemma WorkerLocal(n: nat, s: State, i: nat)
    requires WellFormed(n, s) && OwnerOk(s) && WorkersOk(n, s) && LogOk(n, s) && WorkerCanMove(s, i)
    ensures var s' := WorkerStep(n, s, i); OwnerOk(s') && WorkersOk(n, s') && LogOk(n, s')
  {
  }

  lemma WorkerPass(n: nat, s: State, i: nat)
    requires WellFormed(n, s) && OwnerOk(s) && PassOk(n, s) && WorkerCanMove(s, i)
    ensures PassOk(n, WorkerStep(n, s, i))
  {
  }

  lemma WorkerWakeup(n: nat, s: State, i: nat)
    requires WellFormed(n, s) && WakeupOk(s) && WorkerCanMove(s, i)
    ensures WakeupOk(WorkerStep(n, s, i))
  {
    var s' := WorkerStep(n, s, i);
    if s'.main.Waiting? && s'.unjoined > 0 {
      if s.pcs[i].Marked? {
        assert WillSignal(s'.pcs[i]);
      } else {
        var k :| 0 <= k < |s.pcs| && WillSignal(s.pcs[k]);
        assert WillSignal(s'.pcs[k]);
      }
    }
  }

  lemma WorkerKeepsInv(n: nat, s: State, i: nat)
    requires Inv(n, s) && WorkerCanMove(s, i)
    ensures Inv(n, WorkerStep(n, s, i))
  {
    assert WellFormed(n, WorkerStep(n, s, i));
    WorkerLocal(n, s, i);
    WorkerPass(n, s, i);
    WorkerWakeup(n, s, i);
    WorkerCounts(n, s, i);
  }

  lemma ReapCounts(n: nat, s: State)
    requires WellFormed(n, s) && WorkersOk(n, s) && CountsOk(n, s) && PassOk(n, s) && s.main.Reap?
    ensures CountsOk(n, MainStep(n, s))
  {
    var s', i := MainStep(n, s), s.main.next;
    assert i in ToJoin(n, s) && i in NotJoined(n, s);
    assert ToJoin(n, s') == ToJoin(n, s) - {i};
    assert NotJoined(n, s') == NotJoined(n, s) - {i};
  }

  ghost function Below(n: nat): (r: set<nat>)
    ensures |r| == n
    ensures forall j: nat :: j in r <==> j < n
  {
    if n == 0 then {} else Below(n - 1) + {n - 1}
  }

  lemma CreateCounts(n: nat, s: State)
    requires WellFormed(n, s) && WorkersOk(n, s) && CountsOk(n, s) && LogOk(n, s) && PassOk(n, s)
    requires s.main.Create?
    ensures CountsOk(n, MainStep(n, s))
  {
    var s' := MainStep(n, s);
    assert ToJoin(n, s') == ToJoin(n, s);
    if s.main.next == n {
      assert forall j: nat | j < n :: j in s.joinLog <==> s.states[j].Joined?;
      assert NotJoined(n, s') == Below(n);
    }
  }

  lemma MainCounts(n: nat, s: State)
    requires Inv(n, s) && MainCanMove(s)
    ensures CountsOk(n, MainStep(n, s))
  {
    if s.main.Reap? {
      ReapCounts(n, s);
    } else if s.main.Create? {
      CreateCounts(n, s);
    } else {
      var s' := MainStep(n, s);
      assert s'.pcs == s.pcs && s'.states == s.states;
      assert ToJoin(n, s') == ToJoin(n, s);
      assert NotJoined(n, s') == NotJoined(n, s);
    }
  }

  lemma MainPass(n: nat, s: State)
    requires Inv(n, s) && MainCanMove(s)
    ensures PassOk(n, MainStep(n, s))
  {
  }

  lemma MainLog(n: nat, s: State)
    requires Inv(n, s) && MainCanMove(s)
    ensures LogOk(n, MainStep(n, s))
  {
  }

  lemma MainLocal(n: nat, s: State)
    requires Inv(n, s) && MainCanMove(s)
    ensures var s' := MainStep(n, s);
            WellFormed(n, s') && OwnerOk(s') && WorkersOk(n, s') && WakeupOk(s')
  {
  }

  lemma MainKeepsInv(n: nat, s: State)
    requires Inv(n, s) && MainCanMove(s)
    ensures Inv(n, MainStep(n, s))
  {
    MainLocal(n, s);
    MainPass(n, s);
    MainLog(n, s);
    MainCounts(n, s);
  }

  lemma StepKeepsInv(n: nat, s: State, a: Action)
    requires Inv(n, s) && Enabled(s, a)
    ensures Inv(n, Step(n, s, a))
  {
    match a {
      case MainMoves => MainKeepsInv(n, s);
      case WorkerMoves(i) => WorkerKeepsInv(n, s, i);
      case SpuriousWakeup =>
        assert ToJoin(n, Step(n, s, a)) == ToJoin(n, s);
        assert NotJoined(n, Step(n, s, a)) == NotJoined(n, s);
    }
  }

  lemma {:induction false} RunKeepsInv(n: nat, s: State, acts: seq<Action>, s': State)
    requires Inv(n, s) && Runs(n, s, acts, s')
    ensures Inv(n, s')
    decreases |acts|
  {
    if acts != [] {
      StepKeepsInv(n, s, acts[0]);
      RunKeepsInv(n, Step(n, s, acts[0]), acts[1..], s');
    }
  }

  // ---------- Deadlock freedom ----------

  // Main cannot sleep for ever: some worker has yet to exit.
  lemma WaitingHasWorker(n: nat, s: State) returns (i: nat)
    requires Inv(n, s) && s.main.Waiting?
    ensures i < n && !s.pcs[i].Exited?
  {
    if s.unjoined > 0 {
      i :| 0 <= i < n && WillSignal(s.pcs[i]);
    } else {
      i :| i in NotJoined(n, s);
      assert i !in ToJoin(n, s);
    }
  }

  // Every unfinished state has a step that is not a spurious wakeup.
  lemma NoDeadlock(n: nat, s: State) returns (a: Action)
    requires Inv(n, s) && !s.main.Done?
    ensures Enabled(s, a) && !a.SpuriousWakeup?
  {
    if MainCanMove(s) {
      a := MainMoves;
    } else if s.owner.Worker? {
      assert HoldsMutex(s.pcs[s.owner.id]);
      a := WorkerMoves(s.owner.id);
    } else if s.main.Waiting? {
      var i := WaitingHasWorker(n, s);
      a := WorkerMoves(i);
    } else {
      a := WorkerMoves(s.main.next);
    }
  }

  // ---------- Termination ----------

  function StepsLeft(pc: WorkerPc): nat {
    match pc
    case Unborn => 7
    case Running => 6
    case InMutex => 5
    case Marked => 4
    case Counted => 3
    case Unlocked => 2
    case Signalled => 1
    case Exited => 0
  }

  function AllStepsLeft(pcs: seq<WorkerPc>): nat {
    if pcs == [] then 0 else StepsLeft(pcs[0]) + AllStepsLeft(pcs[1..])
  }

  lemma {:induction false} StepsLeftUpdate(pcs: seq<WorkerPc>, i: nat, pc: WorkerPc)
    requires i < |pcs|
    ensures AllStepsLeft(pcs[i := pc]) == AllStepsLeft(pcs) - StepsLeft(pcs[i]) + StepsLeft(pc)
    decreases i
  {
    if i == 0 {
      assert pcs[0 := pc][1..] == pcs[1..];
    } else {
      assert pcs[i := pc][1..] == pcs[1..][i - 1 := pc];
      StepsLeftUpdate(pcs[1..], i - 1, pc);
    }
  }

  // Longest stretch of main's steps without a reap, and the price of one live worker.
  function PassCost(n: nat): nat {
    3 * n + 10
  }

  function LiveCost(n: nat, live: int): int {
    live * (2 * PassCost(n))
  }

  lemma OneFewer(n: nat, live: int)
    ensures LiveCost(n, live - 1) == LiveCost(n, live) - 2 * PassCost(n)
  {
  }

  // Position of main inside a pass; a pass that has reaped somebody is worth one more.
  function Position(n: nat, s: State): int {
    var bonus := if s.live < s.passStart then PassCost(n) else 0;
    match s.main
    case Create(i) => PassCost(n) + 1 + n - i
    case Top => PassCost(n)
    case WantLock => PassCost(n) - 1
    case Woken => PassCost(n) - 1
    case Test => PassCost(n) - 2
    case Waiting => PassCost(n) - 3
    case Scan(i) => bonus + 3 * (n - i) + 3
    case Join(i) => bonus + 3 * (n - i) + 2
    case Reap(i) => bonus + 3 * (n - i) + 1
    case Done => 0
  }

  function Rank(n: nat, s: State): int {
    LiveCost(n, if s.main.Create? then n else s.live) + Position(n, s) + 3 * AllStepsLeft(s.pcs)
  }

  lemma CostNotNegative(n: nat, live: int)
    requires live >= 0
    ensures LiveCost(n, live) >= 0
  {
  }

  lemma PositionNotNegative(n: nat, s: State)
    requires WellFormed(n, s)
    ensures Position(n, s) >= 0
  {
  }

  lemma RankNotNegative(n: nat, s: State)
    requires Inv(n, s)
    ensures Rank(n, s) >= 0
  {
    assert CountsOk(n, s);
    var live := if s.main.Create? then n else s.live;
    CostNotNegative(n, live);
    PositionNotNegative(n, s);
  }

  lemma WorkerLowersRank(n: nat, s: State, i: nat)
    requires WellFormed(n, s) && WorkerCanMove(s, i)
    ensures Rank(n, WorkerStep(n, s, i)) < Rank(n, s)
  {
    var s' := WorkerStep(n, s, i);
    StepsLeftUpdate(s.pcs, i, s'.pcs[i]);
    assert Position(n, s') <= Position(n, s) + 2;
  }

  lemma MainLowersRank(n: nat, s: State)
    requires WellFormed(n, s) && PassOk(n, s) && (s.main.Create? ==> WorkersOk(n, s)) && MainCanMove(s)
    requires s.main.Create? || s.live >= 0
    ensures Rank(n, MainStep(n, s)) < Rank(n, s)
  {
    OneFewer(n, s.live);
    if s.main.Create? && s.main.next < n {
      StepsLeftUpdate(s.pcs, s.main.next, Running);
    }
  }

  function Spurious(acts: seq<Action>): nat {
    if acts == [] then 0 else (if acts[0].SpuriousWakeup? then 1 else 0) + Spurious(acts[1..])
  }

  lemma {:induction false} RunLength(n: nat, s: State, acts: seq<Action>, s': State)
    requires Inv(n, s) && Runs(n, s, acts, s')
    ensures |acts| + Rank(n, s') <= Rank(n, s) + 3 * Spurious(acts)
    decreases |acts|
  {
    if acts != [] {
      StepKeepsInv(n, s, acts[0]);
      RunLength(n, Step(n, s, acts[0]), acts[1..], s');
      match acts[0] {
        case MainMoves =>
          assert CountsOk(n, s);
          MainLowersRank(n, s);
        case WorkerMoves(i) => WorkerLowersRank(n, s, i);
        case SpuriousWakeup =>
      }
    }
  }

  lemma {:induction false} UnbornStepsLeft(pcs: seq<WorkerPc>)
    requires forall i :: 0 <= i < |pcs| ==> pcs[i] == Unborn
    ensures AllStepsLeft(pcs) == 7 * |pcs|
    decreases |pcs|
  {
    if pcs != [] {
      UnbornStepsLeft(pcs[1..]);
    }
  }

  // ---------- Main results ----------

  // The workers whose state is TERMINATED.
  ghost function TerminatedSet(n: nat, s: State): set<nat>
    requires WellFormed(n, s)
  {
    set i: nat | i < n && !s.pcs[i].Unborn? && s.states[i].Terminated?
  }

  // What holds in every reachable state, for every N and every interleaving.
  lemma ReachableStates(n: nat, s0: State, acts: seq<Action>, s: State)
    requires Init(n, s0) && Runs(n, s0, acts, s)
    ensures WellFormed(n, s)
    // with the mutex free, both counters are exact
    ensures s.owner.Free? ==> s.unjoined == |TerminatedSet(n, s)|
    ensures s.owner.Free? && !s.main.Create? ==> s.live == |NotJoined(n, s)|
    // no lost wakeup
    ensures s.main.Waiting? && s.unjoined > 0 ==> exists i :: 0 <= i < n && WillSignal(s.pcs[i])
    // main only ever joins a worker that never needs the mutex again
    ensures s.main.Join? ==> var pc := s.pcs[s.main.next]; pc.Unlocked? || pc.Signalled? || pc.Exited?
    // when a pass ends, nobody is left TERMINATED and at least one worker has been reaped
    ensures s.main == Scan(n) ==> TerminatedSet(n, s) == {} && s.live < s.passStart
    // no worker is joined twice
    ensures forall j, k :: 0 <= j < k < |s.joinLog| ==> s.joinLog[j] != s.joinLog[k]
    // an unfinished program can move
    ensures !s.main.Done? ==> exists a :: Enabled(s, a) && !a.SpuriousWakeup?
  {
    InitInv(n, s0);
    RunKeepsInv(n, s0, acts, s);
    if s.owner.Free? {
      assert TerminatedSet(n, s) == ToJoin(n, s);
    }
    if !s.main.Done? {
      var a := NoDeadlock(n, s);
    }
  }

  lemma {:induction false} Distinct(q: seq<nat>)
    requires forall j, k :: 0 <= j < k < |q| ==> q[j] != q[k]
    ensures multiset(q) == multiset(set x | x in q)
    decreases |q|
  {
    if q != [] {
      var r := q[..|q| - 1];
      Distinct(r);
      assert q == r + [q[|q| - 1]];
      assert (set x | x in q) == (set x | x in r) + {q[|q| - 1]};
    }
  }

  // Main frees the thread table only after every worker has exited and been joined exactly
  // once, and it has then made at most N passes.
  lemma FinalState(n: nat, s0: State, acts: seq<Action>, s: State)
    requires Init(n, s0) && Runs(n, s0, acts, s) && s.main.Done?
    ensures |s.pcs| == |s.states| == n
    ensures forall i: nat | i < n :: s.states[i].Joined? && s.pcs[i].Exited? && i in s.joinLog
    ensures multiset(s.joinLog) == multiset(Below(n))
    ensures s.unjoined == 0 && s.passes <= n
  {
    InitInv(n, s0);
    RunKeepsInv(n, s0, acts, s);
    assert NotJoined(n, s) == {};
    forall i: nat | i < n ensures s.states[i].Joined? {
      assert i !in NotJoined(n, s);
    }
    assert ToJoin(n, s) == {};
    Distinct(s.joinLog);
    assert (set x | x in s.joinLog) == Below(n);
  }

  // A run with k spurious wakeups takes at most this many steps plus 3k. Together with
  // ReachableStates: unless it is woken spuriously for ever, the program always ends.
  function StepBudget(n: nat): nat {
    LiveCost(n, n) + PassCost(n) + 1 + 22 * n
  }

  lemma Terminates(n: nat, s0: State, acts: seq<Action>, s: State)
    requires Init(n, s0) && Runs(n, s0, acts, s)
    ensures |acts| <= StepBudget(n) + 3 * Spurious(acts)
  {
    InitInv(n, s0);
    RunKeepsInv(n, s0, acts, s);
    RunLength(n, s0, acts, s);
    RankNotNegative(n, s);
    UnbornStepsLeft(s0.pcs);
  }
}
