/**
 The unlocked counter: two threads, each performing `n` times "load glob into a
 local, store the local plus one". Loads and stores are single atomic steps and
 may interleave freely.
 */
module UnlockedCounter {

  const INT_MAX := 0x7fff_ffff

  datatype Tid = A | B

  // Where a thread stands in its loop body.
  datatype Phase = Top | Loaded(loc: int)

  datatype Worker = Worker(done: nat, phase: Phase)

  datatype State = State(glob: int, a: Worker, b: Worker) {
    function Of(t: Tid): Worker {
      if t == A then a else b
    }

    function With(t: Tid, w: Worker): State {
      if t == A then this.(a := w) else this.(b := w)
    }
  }

  const INIT := State(0, Worker(0, Top), Worker(0, Top))

  predicate Enabled(n: nat, s: State, t: Tid) {
    s.Of(t).done < n
  }

  function Step(n: nat, s: State, t: Tid): State
    requires Enabled(n, s, t)
  {
    var w := s.Of(t);
    match w.phase
    case Top => s.With(t, w.(phase := Loaded(s.glob)))
    case Loaded(loc) => s.(glob := loc + 1).With(t, Worker(w.done + 1, Top))
  }

  // `sched` is a schedule that takes `s` to `s'`: it names the thread that moves at each step.
  predicate Runs(n: nat, s: State, sched: seq<Tid>, s': State)
    decreases |sched|
  {
    if sched == [] then s == s'
    else Enabled(n, s, sched[0]) && Runs(n, Step(n, s, sched[0]), sched[1..], s')
  }

  predicate Finished(n: nat, s: State) {
    s.a.done == n && s.b.done == n
  }

  // The values that the program can print: those left in glob by some complete run.
  ghost predicate Printable(n: nat, v: int) {
    exists sched, s' :: Runs(n, INIT, sched, s') && Finished(n, s') && s'.glob == v
  }

  // ---------- Safety: bounds on every run ----------

  // A stale local never exceeds the number of stores made so far, a thread that has stored
  // once only ever loads positive values, and the very last store of a thread therefore
  // leaves at least `n` capped at two.
  predicate WorkerOk(n: nat, s: State, w: Worker) {
    && w.done <= n
    && (w.phase.Loaded? ==>
          && w.done < n
          && 0 <= w.phase.loc <= s.a.done + s.b.done
          && (w.done >= 1 ==> w.phase.loc >= 1))
  }

  predicate Inv(n: nat, s: State) {
    && WorkerOk(n, s, s.a)
    && WorkerOk(n, s, s.b)
    && 0 <= s.glob <= s.a.done + s.b.done
    && (s.a.done + s.b.done >= 1 ==> s.glob >= 1)
    && (Finished(n, s) && n >= 2 ==> s.glob >= 2)
  }

  lemma StepKeepsInv(n: nat, s: State, t: Tid)
    requires Inv(n, s) && Enabled(n, s, t)
    ensures Inv(n, Step(n, s, t))
  {
  }

  // Loads and stores a thread has made.
  function Accesses(w: Worker): nat {
    2 * w.done + if w.phase.Loaded? then 1 else 0
  }

  lemma StepAccesses(n: nat, s: State, t: Tid)
    requires Enabled(n, s, t)
    ensures Accesses(Step(n, s, t).a) + Accesses(Step(n, s, t).b) == Accesses(s.a) + Accesses(s.b) + 1
  {
  }

  lemma {:induction false} RunKeepsInv(n: nat, s: State, sched: seq<Tid>, s': State)
    requires Inv(n, s) && Runs(n, s, sched, s')
    ensures Inv(n, s')
    ensures Accesses(s'.a) + Accesses(s'.b) == Accesses(s.a) + Accesses(s.b) + |sched|
    decreases |sched|
  {
    if sched != [] {
      StepKeepsInv(n, s, sched[0]);
      StepAccesses(n, s, sched[0]);
      RunKeepsInv(n, Step(n, s, sched[0]), sched[1..], s');
    }
  }

  // No run gets stuck, none is longer than 4n steps, and a run is complete exactly when it is
  // that long.
  lemma UnlockedEnds(n: nat, sched: seq<Tid>, s: State)
    requires Runs(n, INIT, sched, s)
    ensures !Finished(n, s) ==> exists t :: Enabled(n, s, t)
    ensures |sched| <= 4 * n
    ensures Finished(n, s) <==> |sched| == 4 * n
  {
    RunKeepsInv(n, INIT, sched, s);
    if !Finished(n, s) {
      assert Enabled(n, s, if s.a.done < n then A else B);
    }
  }

  // ---------- Witness schedules ----------

  function Repeat(t: Tid, k: nat): (r: seq<Tid>)
    ensures |r| == k
  {
    seq(k, _ => t)
  }

  lemma {:induction false} Compose(n: nat, s: State, x: seq<Tid>, m: State, y: seq<Tid>, s': State)
    requires Runs(n, s, x, m) && Runs(n, m, y, s')
    ensures Runs(n, s, x + y, s')
    decreases |x|
  {
    if x == [] {
      assert x + y == y;
    } else {
      assert (x + y)[1..] == x[1..] + y;
      Compose(n, Step(n, s, x[0]), x[1..], m, y, s');
    }
  }

  // Thread `t` alone makes k full iterations: none of its increments is lost.
  lemma {:induction false} Solo(n: nat, s: State, t: Tid, k: nat)
    requires s.Of(t).phase == Top && s.Of(t).done + k <= n
    ensures Runs(n, s, Repeat(t, 2 * k),
                 s.(glob := s.glob + k).With(t, Worker(s.Of(t).done + k, Top)))
    decreases k
  {
    if k > 0 {
      var sched := Repeat(t, 2 * k);
      var s1 := Step(n, s, t);
      var s2 := Step(n, s1, t);
      assert sched[1..][1..] == Repeat(t, 2 * (k - 1));
      assert sched[0] == t && sched[1..][0] == t;
      Solo(n, s2, t, k - 1);
    }
  }

  // Thread `t` takes one step.
  lemma One(n: nat, s: State, t: Tid)
    requires Enabled(n, s, t)
    ensures Runs(n, s, [t], Step(n, s, t))
  {
  }

  // High values: A loads 0, B makes j iterations that A's store then wipes out, and everything
  // after that is sequential.
  lemma ReachHigh(n: nat, j: nat) returns (sched: seq<Tid>, end: State)
    requires 1 <= n && j <= n
    ensures Runs(n, INIT, sched, end) && Finished(n, end) && end.glob == 2 * n - j
  {
    var s1 := Step(n, INIT, A);
    One(n, INIT, A);
    Solo(n, s1, B, j);
    var s2 := s1.(glob := j).With(B, Worker(j, Top));
    var s3 := Step(n, s2, A);
    One(n, s2, A);
    Solo(n, s3, A, n - 1);
    var s4 := s3.(glob := n).With(A, Worker(n, Top));
    Solo(n, s4, B, n - j);
    end := s4.(glob := n + (n - j)).With(B, Worker(n, Top));
    Compose(n, INIT, [A], s1, Repeat(B, 2 * j), s2);
    Compose(n, INIT, [A] + Repeat(B, 2 * j), s2, [A], s3);
    Compose(n, INIT, [A] + Repeat(B, 2 * j) + [A], s3, Repeat(A, 2 * (n - 1)), s4);
    Compose(n, INIT, [A] + Repeat(B, 2 * j) + [A] + Repeat(A, 2 * (n - 1)), s4, Repeat(B, 2 * (n - j)), end);
    sched := [A] + Repeat(B, 2 * j) + [A] + Repeat(A, 2 * (n - 1)) + Repeat(B, 2 * (n - j));
  }

  // Low values: A's stale store wipes out n - 1 iterations of B; A goes on for k iterations;
  // B then loads, and its final store wipes out whatever A still does.
  lemma ReachLow(n: nat, k: nat) returns (sched: seq<Tid>, end: State)
    requires 2 <= n && k <= n - 1
    ensures Runs(n, INIT, sched, end) && Finished(n, end) && end.glob == 2 + k
  {
    var s1 := Step(n, INIT, A);
    One(n, INIT, A);
    Solo(n, s1, B, n - 1);
    var s2 := s1.(glob := n - 1).With(B, Worker(n - 1, Top));
    var s3 := Step(n, s2, A);
    One(n, s2, A);
    Solo(n, s3, A, k);
    var s4 := s3.(glob := 1 + k).With(A, Worker(1 + k, Top));
    var s5 := Step(n, s4, B);
    One(n, s4, B);
    Solo(n, s5, A, n - 1 - k);
    var s6 := s5.(glob := n).With(A, Worker(n, Top));
    end := Step(n, s6, B);
    One(n, s6, B);
    sched := [A];
    Compose(n, INIT, sched, s1, Repeat(B, 2 * (n - 1)), s2);
    sched := sched + Repeat(B, 2 * (n - 1));
    Compose(n, INIT, sched, s2, [A], s3);
    sched := sched + [A];
    Compose(n, INIT, sched, s3, Repeat(A, 2 * k), s4);
    sched := sched + Repeat(A, 2 * k);
    Compose(n, INIT, sched, s4, [B], s5);
    sched := sched + [B];
    Compose(n, INIT, sched, s5, Repeat(A, 2 * (n - 1 - k)), s6);
    sched := sched + Repeat(A, 2 * (n - 1 - k));
    Compose(n, INIT, sched, s6, [B], end);
    sched := sched + [B];
  }

  // ---------- Main results ----------

  // The smallest value any complete run can leave behind.
  function Least(n: nat): nat {
    if n < 2 then n else 2
  }

  // The printable values are exactly the interval from Least(n) to 2n.
  lemma PrintableValues(n: nat, v: int)
    ensures Printable(n, v) <==> Least(n) <= v <= 2 * n
  {
    if Printable(n, v) {
      var sched, s' :| Runs(n, INIT, sched, s') && Finished(n, s') && s'.glob == v;
      RunKeepsInv(n, INIT, sched, s');
    }
    if Least(n) <= v <= 2 * n {
      if n == 0 {
        assert Runs(n, INIT, [], INIT);
      } else if v >= n {
        var sched, end := ReachHigh(n, 2 * n - v);
      } else {
        var sched, end := ReachLow(n, v - 2);
      }
    }
  }

  predicate FitsInt(s: State) {
    && s.glob <= INT_MAX
    && (s.a.phase.Loaded? ==> s.a.phase.loc + 1 <= INT_MAX)
    && (s.b.phase.Loaded? ==> s.b.phase.loc + 1 <= INT_MAX)
  }

  ghost predicate NeverOverflows(n: nat) {
    forall sched, s' :: Runs(n, INIT, sched, s') ==> FitsInt(s')
  }

  // No run can overflow the C int exactly when twice the loop count fits in it.
  lemma OverflowFree(n: nat)
    ensures NeverOverflows(n) <==> 2 * n <= INT_MAX
  {
    if 2 * n <= INT_MAX {
      forall sched, s' | Runs(n, INIT, sched, s') ensures FitsInt(s') {
        RunKeepsInv(n, INIT, sched, s');
      }
    } else {
      var sched, end := ReachHigh(n, 0);
      assert Runs(n, INIT, sched, end) && !FitsInt(end);
    }
  }
}

/**
 The locked counter: the same loop body between a lock and an unlock of one mutex.
 */
module LockedCounter {
  import opened UnlockedCounter

  // Where a thread stands in its loop body.
  datatype LockPhase = Outside | Locked | Read(loc: int) | Written

  datatype LockWorker = LockWorker(done: nat, phase: LockPhase)

  datatype Owner = Free | HeldBy(t: Tid)

  datatype LockState = LockState(glob: int, owner: Owner, a: LockWorker, b: LockWorker) {
    function Of(t: Tid): LockWorker {
      if t == A then a else b
    }

    function With(t: Tid, w: LockWorker): LockState {
      if t == A then this.(a := w) else this.(b := w)
    }
  }

  const LOCK_INIT := LockState(0, Free, LockWorker(0, Outside), LockWorker(0, Outside))

  // A thread outside its critical section can move only by taking the free mutex.
  predicate CanMove(n: nat, s: LockState, t: Tid) {
    s.Of(t).done < n && (s.Of(t).phase.Outside? ==> s.owner.Free?)
  }

  function Move(n: nat, s: LockState, t: Tid): LockState
    requires CanMove(n, s, t)
  {
    var w := s.Of(t);
    match w.phase
    case Outside => s.(owner := HeldBy(t)).With(t, w.(phase := Locked))
    case Locked => s.With(t, w.(phase := Read(s.glob)))
    case Read(loc) => s.(glob := loc + 1).With(t, w.(phase := Written))
    case Written => s.(owner := Free).With(t, LockWorker(w.done + 1, Outside))
  }

  predicate LockRuns(n: nat, s: LockState, sched: seq<Tid>, s': LockState)
    decreases |sched|
  {
    if sched == [] then s == s'
    else CanMove(n, s, sched[0]) && LockRuns(n, Move(n, s, sched[0]), sched[1..], s')
  }

  predicate LockFinished(n: nat, s: LockState) {
    s.a.done == n && s.b.done == n
  }

  // Steps a thread has taken, and stores it has made.
  function Taken(w: LockWorker): nat {
    4 * w.done + match w.phase case Outside => 0 case Locked => 1 case Read(_) => 2 case Written => 3
  }

  function Stores(w: LockWorker): nat {
    w.done + if w.phase.Written? then 1 else 0
  }

  predicate LockWorkerOk(n: nat, s: LockState, t: Tid) {
    var w := s.Of(t);
    && w.done <= n
    && (w.phase.Outside? <==> s.owner != HeldBy(t))
    && (!w.phase.Outside? ==> w.done < n)
    && (w.phase.Read? ==> w.phase.loc == s.glob)
  }

  predicate LockInv(n: nat, s: LockState) {
    && LockWorkerOk(n, s, A)
    && LockWorkerOk(n, s, B)
    && s.glob == Stores(s.a) + Stores(s.b)
  }

  lemma {:induction false} LockRunInv(n: nat, s: LockState, sched: seq<Tid>, s': LockState)
    requires LockInv(n, s) && LockRuns(n, s, sched, s')
    ensures LockInv(n, s')
    ensures Taken(s'.a) + Taken(s'.b) == Taken(s.a) + Taken(s.b) + |sched|
    decreases |sched|
  {
    if sched != [] {
      LockRunInv(n, Move(n, s, sched[0]), sched[1..], s');
    }
  }

  // Every run of the locked program: at most one thread is inside its critical section, a run
  // that has not finished can always go on, no run is longer than 8n steps, a run finishes
  // exactly when it is that long, and it then leaves exactly 2n.
  lemma LockedTotal(n: nat, sched: seq<Tid>, s: LockState)
    requires LockRuns(n, LOCK_INIT, sched, s)
    ensures s.a.phase.Outside? || s.b.phase.Outside?
    ensures !LockFinished(n, s) ==> exists t :: CanMove(n, s, t)
    ensures |sched| <= 8 * n
    ensures LockFinished(n, s) <==> |sched| == 8 * n
    ensures LockFinished(n, s) ==> s.glob == 2 * n
  {
    LockRunInv(n, LOCK_INIT, sched, s);
    if !LockFinished(n, s) {
      var t := match s.owner case HeldBy(t) => t case Free => if s.a.done < n then A else B;
      assert CanMove(n, s, t);
    }
  }
}
