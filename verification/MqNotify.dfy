/**
 A POSIX message queue: messages in order of arrival; a receive takes the oldest of those with
 the highest priority.
 */
module MessageQueue {

  datatype Message = Message(priority: nat, body: string)

  // Index of the message that mq_receive takes.
  function NextIndex(q: seq<Message>): (i: nat)
    requires q != []
    ensures i < |q|
    ensures forall j :: 0 <= j < |q| ==> q[j].priority <= q[i].priority
    ensures forall j :: 0 <= j < i ==> q[j].priority < q[i].priority
  {
    if |q| == 1 then 0
    else
      var i := NextIndex(q[..|q| - 1]);
      if q[i].priority < q[|q| - 1].priority then |q| - 1 else i
  }

  function Rest(q: seq<Message>): (r: seq<Message>)
    requires q != []
    ensures |r| == |q| - 1
  {
    q[..NextIndex(q)] + q[NextIndex(q) + 1..]
  }

  // Message number i is one that mq_receive may take, and `rest` are the others: no message has a
  // higher priority, and none of the same priority is older.
  predicate TakenFrom(q: seq<Message>, i: nat, m: Message, rest: seq<Message>) {
    && i < |q| && m == q[i] && rest == q[..i] + q[i + 1..]
    && (forall j :: 0 <= j < |q| ==> q[j].priority <= m.priority)
    && (forall j :: 0 <= j < i ==> q[j].priority != m.priority)
  }

  // From the highest priority to the lowest.
  predicate Descending(w: seq<Message>) {
    forall i, j :: 0 <= i < j < |w| ==> w[i].priority >= w[j].priority
  }

  // The messages of one priority, in order.
  function OfPriority(q: seq<Message>, p: nat): seq<Message> {
    if q == [] then [] else (if q[0].priority == p then [q[0]] else []) + OfPriority(q[1..], p)
  }

  lemma Associate(a: seq<Message>, b: seq<Message>, c: seq<Message>)
    ensures a + (b + c) == a + b + c
  {
  }

  lemma {:induction false} OfPriorityConcat(x: seq<Message>, y: seq<Message>, p: nat)
    ensures OfPriority(x + y, p) == OfPriority(x, p) + OfPriority(y, p)
    decreases |x|
  {
    if x == [] {
      assert x + y == y;
    } else {
      assert (x + y)[1..] == x[1..] + y;
      OfPriorityConcat(x[1..], y, p);
      Associate(if x[0].priority == p then [x[0]] else [], OfPriority(x[1..], p), OfPriority(y, p));
    }
  }

  lemma {:induction false} NoneOfPriority(q: seq<Message>, p: nat)
    requires forall j :: 0 <= j < |q| ==> q[j].priority != p
    ensures OfPriority(q, p) == []
    decreases |q|
  {
    if q != [] {
      NoneOfPriority(q[1..], p);
    }
  }

  lemma OfPriorityMiddle(x: seq<Message>, m: Message, y: seq<Message>, p: nat)
    ensures OfPriority(x + [m] + y, p) == OfPriority(x, p) + OfPriority([m], p) + OfPriority(y, p)
  {
    OfPriorityConcat(x + [m], y, p);
    OfPriorityConcat(x, [m], p);
  }

  lemma OfPriorityFront(x: seq<Message>, m: Message, y: seq<Message>, p: nat)
    ensures OfPriority([m] + (x + y), p) == OfPriority([m], p) + (OfPriority(x, p) + OfPriority(y, p))
  {
    OfPriorityConcat([m], x + y, p);
    OfPriorityConcat(x, y, p);
  }

  lemma Swap(a: seq<Message>, b: seq<Message>, c: seq<Message>)
    requires a == [] || b == []
    ensures b + (a + c) == a + b + c
  {
  }

  lemma TakenKeepsOrder(q: seq<Message>, i: nat, m: Message, rest: seq<Message>, p: nat)
    requires TakenFrom(q, i, m, rest)
    ensures OfPriority([m] + rest, p) == OfPriority(q, p)
  {
    var x, y := q[..i], q[i + 1..];
    assert x + [m] + y == q;
    OfPriorityMiddle(x, m, y, p);
    OfPriorityFront(x, m, y, p);
    if m.priority == p {
      NoneOfPriority(x, p);
    } else {
      NoneOfPriority([m], p);
    }
    Swap(OfPriority(x, p), OfPriority([m], p), OfPriority(y, p));
  }

  // Taking the next message first does not reorder any one priority.
  lemma TakeKeepsOrder(q: seq<Message>, p: nat)
    requires q != []
    ensures OfPriority([q[NextIndex(q)]] + Rest(q), p) == OfPriority(q, p)
  {
    TakenKeepsOrder(q, NextIndex(q), q[NextIndex(q)], Rest(q), p);
  }

  lemma TakeKeepsMessages(q: seq<Message>)
    requires q != []
    ensures multiset(q) == multiset(Rest(q)) + multiset{q[NextIndex(q)]}
  {
    var i := NextIndex(q);
    assert q == q[..i] + [q[i]] + q[i + 1..];
  }
}

/**
 mq_notify_sig: one process that blocks SIGUSR1, registers for notification, and then for ever
 suspends with the signal unblocked, re-registers and drains the queue. Other processes send.
 mq_notify fires once, when a message reaches an empty queue, and then deregisters.
 */
module MqNotifySig {
  import opened MessageQueue

  datatype Pc =
    | Starting              // signal blocked and handled, about to register
    | Suspended             // in sigsuspend
    | Woken                 // about to re-register
    | Draining              // about to call mq_receive
    | Holding(msg: Message) // about to write what it received
    | Failed                // mq_notify refused: already registered

  // `sent` and `written` are histories; the signal mask is implied by `pc`.
  datatype State = State(
    pc: Pc,
    queue: seq<Message>,
    registered: bool,
    pending: bool,
    sent: seq<Message>,
    written: seq<Message>)

  datatype Action = Send(msg: Message) | Receiver

  predicate Enabled(s: State, a: Action) {
    match a
    case Send(_) => true
    case Receiver => !s.pc.Failed? && (s.pc.Suspended? ==> s.pending)
  }

  function Notify(s: State, next: Pc): State {
    if s.registered then s.(pc := Failed) else s.(registered := true, pc := next)
  }

  function ReceiverStep(s: State): State
    requires Enabled(s, Receiver)
  {
    match s.pc
    case Starting => Notify(s, Suspended)
    case Suspended => s.(pending := false, pc := Woken)
    case Woken => Notify(s, Draining)
    case Draining =>
      if s.queue == [] then s.(pc := Suspended)
      else s.(pc := Holding(s.queue[NextIndex(s.queue)]), queue := Rest(s.queue))
    case Holding(m) => s.(written := s.written + [m], pc := Draining)
  }

  function SendStep(s: State, m: Message): State {
    var fires := s.registered && s.queue == [];
    s.(queue := s.queue + [m], sent := s.sent + [m],
       registered := s.registered && !fires, pending := s.pending || fires)
  }

  function Step(s: State, a: Action): State
    requires Enabled(s, a)
  {
    match a case Send(m) => SendStep(s, m) case Receiver => ReceiverStep(s)
  }

  predicate Runs(s: State, acts: seq<Action>, s': State)
    decreases |acts|
  {
    if acts == [] then s == s'
    else Enabled(s, acts[0]) && Runs(Step(s, acts[0]), acts[1..], s')
  }

  // The state just before the first registration, with whatever is already in the queue.
  predicate Init(s: State) {
    s.pc == Starting && !s.registered && !s.pending && s.sent == s.queue && s.written == []
  }

  function Held(pc: Pc): seq<Message> {
    if pc.Holding? then [pc.msg] else []
  }

  ghost predicate Inv(s: State) {
    && !s.pc.Starting? && !s.pc.Failed?
    && (s.registered <==> !s.pending && !s.pc.Woken?)
    && (s.pending ==> !s.pc.Woken?)
    && (s.pc.Suspended? && s.queue != [] ==> s.pending)
    && forall p :: OfPriority(s.written + Held(s.pc) + s.queue, p) == OfPriority(s.sent, p)
  }

  lemma TakeOrder(written: seq<Message>, q: seq<Message>, p: nat)
    requires q != []
    ensures OfPriority(written + [q[NextIndex(q)]] + Rest(q), p) == OfPriority(written + [] + q, p)
  {
    var m, r := q[NextIndex(q)], Rest(q);
    TakeKeepsOrder(q, p);
    OfPriorityConcat(written, [m] + r, p);
    OfPriorityConcat(written, q, p);
    Associate(written, [m], r);
    assert written + [] == written;
  }

  lemma ReceiverOrder(s: State, p: nat)
    requires Enabled(s, Receiver)
    ensures var s' := ReceiverStep(s);
            OfPriority(s'.written + Held(s'.pc) + s'.queue, p) == OfPriority(s.written + Held(s.pc) + s.queue, p)
  {
    var s' := ReceiverStep(s);
    if s.pc.Draining? && s.queue != [] {
      TakeOrder(s.written, s.queue, p);
    } else if s.pc.Holding? {
      assert s'.written + Held(s'.pc) == s.written + Held(s.pc);
    }
  }

  lemma SendOrder(s: State, m: Message, p: nat)
    requires OfPriority(s.written + Held(s.pc) + s.queue, p) == OfPriority(s.sent, p)
    ensures var s' := SendStep(s, m);
            OfPriority(s'.written + Held(s'.pc) + s'.queue, p) == OfPriority(s'.sent, p)
  {
    var all := s.written + Held(s.pc) + s.queue;
    assert s.written + Held(s.pc) + (s.queue + [m]) == all + [m];
    OfPriorityConcat(all, [m], p);
    OfPriorityConcat(s.sent, [m], p);
  }

  lemma StepKeepsInv(s: State, a: Action)
    requires Inv(s) && Enabled(s, a)
    ensures Inv(Step(s, a))
  {
    var s' := Step(s, a);
    forall p ensures OfPriority(s'.written + Held(s'.pc) + s'.queue, p) == OfPriority(s'.sent, p) {
      match a {
        case Send(m) => SendOrder(s, m, p);
        case Receiver => ReceiverOrder(s, p);
      }
    }
  }

  // Each message costs its receive and its write; a pending signal costs a wakeup, a
  // re-registration and the receive that finds the queue empty.
  function Rank(s: State): nat {
    2 * |s.queue| + (if s.pending then 3 else 0) +
    match s.pc
    case Suspended => 0
    case Draining => 1
    case Woken => 2
    case Holding(_) => 2
    case Starting => 1
    case Failed => 0
  }

  function Sends(acts: seq<Action>): nat {
    if acts == [] then 0 else (if acts[0].Send? then 1 else 0) + Sends(acts[1..])
  }

  lemma {:induction false} RunFromInv(s: State, acts: seq<Action>, s': State)
    requires Inv(s) && Runs(s, acts, s')
    ensures Inv(s')
    ensures |acts| - Sends(acts) + Rank(s') <= Rank(s) + 5 * Sends(acts)
    decreases |acts|
  {
    if acts != [] {
      StepKeepsInv(s, acts[0]);
      RunFromInv(Step(s, acts[0]), acts[1..], s');
    }
  }

  // ---------- Order of draining ----------

  // Every receive takes the oldest message of the highest priority.
  lemma ReceivesFirst(s: State)
    requires s.pc.Draining? && s.queue != []
    ensures var s' := ReceiverStep(s);
            s'.pc.Holding? && exists i: nat :: TakenFrom(s.queue, i, s'.pc.msg, s'.queue)
  {
    assert TakenFrom(s.queue, NextIndex(s.queue), s.queue[NextIndex(s.queue)], Rest(s.queue));
  }

  // Only the receiver moves, until it is suspended.
  predicate DrainsTo(s: State, acts: seq<Action>, s': State)
    decreases |acts|
  {
    if acts == [] then s == s' && s.pc.Suspended?
    else
      && !s.pc.Suspended? && acts[0].Receiver? && Enabled(s, acts[0])
      && DrainsTo(ReceiverStep(s), acts[1..], s')
  }

  lemma {:induction false} SameMembers(w: seq<Message>, q: seq<Message>)
    requires multiset(w) == multiset(q)
    ensures forall m :: m in w <==> m in q
  {
    assert forall m :: m in w <==> m in multiset(w);
    assert forall m :: m in q <==> m in multiset(q);
  }

  // One message is taken, and the others are drained in order.
  lemma DrainedOneMore(q: seq<Message>, i: nat, m: Message, rest: seq<Message>, w: seq<Message>)
    requires TakenFrom(q, i, m, rest) && multiset(w) == multiset(rest) && Descending(w)
    requires forall p :: OfPriority(w, p) == OfPriority(rest, p)
    ensures multiset([m] + w) == multiset(q) && Descending([m] + w)
    ensures forall p :: OfPriority([m] + w, p) == OfPriority(q, p)
  {
    assert q == q[..i] + [m] + q[i + 1..];
    SameMembers(w, rest);
    forall j | 0 <= j < |w| ensures w[j].priority <= m.priority {
      assert w[j] in rest;
    }
    forall p ensures OfPriority([m] + w, p) == OfPriority(q, p) {
      OfPriorityConcat([m], w, p);
      OfPriorityConcat([m], rest, p);
      TakenKeepsOrder(q, i, m, rest, p);
    }
  }

  // What the receiver writes when it drains the queue undisturbed: all of it, from the highest
  // priority to the lowest, and within a priority in the order of arrival.
  lemma {:induction false} DrainInOrder(s: State, acts: seq<Action>, s': State) returns (w: seq<Message>)
    requires s.pc.Draining? && DrainsTo(s, acts, s')
    ensures s'.written == s.written + w && s'.queue == []
    ensures Descending(w) && multiset(w) == multiset(s.queue)
    ensures forall p :: OfPriority(w, p) == OfPriority(s.queue, p)
    decreases |acts|
  {
    if s.queue == [] {
      w := [];
    } else {
      ReceivesFirst(s);
      var s1 := ReceiverStep(s);
      var i: nat :| TakenFrom(s.queue, i, s1.pc.msg, s1.queue);
      var more := DrainInOrder(ReceiverStep(s1), acts[1..][1..], s');
      w := [s1.pc.msg] + more;
      DrainedOneMore(s.queue, i, s1.pc.msg, s1.queue, more);
      Associate(s.written, [s1.pc.msg], more);
    }
  }

  // ---------- Main results ----------

  // First registration on an empty queue: every reachable state of every run.
  lemma ReachableStates(s0: State, acts: seq<Action>, s: State)
    requires Init(s0) && s0.queue == [] && Runs(ReceiverStep(s0), acts, s)
    // re-registration is never refused
    ensures !s.pc.Failed? && (s.pc.Woken? ==> !s.registered)
    // a pending notification means deregistered, so no second one can be raised
    ensures s.pending ==> !s.registered
    // never asleep over a non-empty queue
    ensures s.pc.Suspended? && s.queue != [] ==> s.pending
    // written, held and queued messages are what was sent, in order within each priority
    ensures forall p :: OfPriority(s.written + Held(s.pc) + s.queue, p) == OfPriority(s.sent, p)
    // the receiver takes at most five steps for each message sent
    ensures |acts| - Sends(acts) <= 5 * Sends(acts)
    // when it can do nothing more, everything sent has been written
    ensures !Enabled(s, Receiver) ==> s.queue == [] && forall p :: OfPriority(s.written, p) == OfPriority(s.sent, p)
  {
    assert Inv(ReceiverStep(s0));
    RunFromInv(ReceiverStep(s0), acts, s);
    if !Enabled(s, Receiver) {
      assert s.written + Held(s.pc) + s.queue == s.written;
    }
  }

  lemma {:induction false} Stranded(s: State, acts: seq<Action>, s': State)
    requires s.pc.Suspended? && !s.pending && s.queue != [] && Runs(s, acts, s')
    ensures s'.pc.Suspended? && !s'.pending && s.queue <= s'.queue && s'.written == s.written
    decreases |acts|
  {
    if acts != [] {
      Stranded(Step(s, acts[0]), acts[1..], s');
    }
  }

  // The receiver never comes to rest over a non-empty queue.
  ghost predicate DrainsAlways(s: State) {
    forall acts, s' :: Runs(s, acts, s') && !Enabled(s', Receiver) ==> s'.queue == []
  }

  // The program registers before its first drain. It therefore keeps its promise exactly when
  // the queue is empty at that moment; otherwise nothing is ever read.
  lemma DrainsIffEmptyAtStart(s0: State)
    requires Init(s0)
    ensures DrainsAlways(ReceiverStep(s0)) <==> s0.queue == []
    ensures s0.queue != [] ==> forall acts, s' :: Runs(ReceiverStep(s0), acts, s') ==> s'.written == []
  {
    var s1 := ReceiverStep(s0);
    if s0.queue == [] {
      forall acts, s' | Runs(s1, acts, s') && !Enabled(s', Receiver) ensures s'.queue == [] {
        ReachableStates(s0, acts, s');
      }
    } else {
      assert Runs(s1, [], s1);
      forall acts, s' | Runs(s1, acts, s') ensures s'.written == [] {
        Stranded(s1, acts, s');
      }
    }
  }
}

/**
 mq_notify_thread: each notification starts a new thread that re-registers and then drains the
 queue until mq_receive reports EAGAIN. Any number of these threads may run at once.
 */
module MqNotifyThread {
  import opened MessageQueue

  datatype Handler =
    | Fresh                 // started by a notification, about to re-register
    | Draining              // about to call mq_receive
    | Holding(msg: Message) // about to write what it received
    | Finished              // has seen EAGAIN

  datatype State = State(
    started: bool,          // main has registered
    failed: bool,           // some mq_notify was refused
    registered: bool,
    queue: seq<Message>,
    handlers: seq<Handler>,
    sent: seq<Message>,
    written: seq<Message>)

  datatype Action = Send(msg: Message) | MainRegisters | HandlerMoves(id: nat)

  predicate HandlerCanMove(s: State, i: nat) {
    !s.failed && i < |s.handlers| && !s.handlers[i].Finished?
  }

  predicate Enabled(s: State, a: Action) {
    match a
    case Send(_) => true
    case MainRegisters => !s.started
    case HandlerMoves(i) => HandlerCanMove(s, i)
  }

  function Notify(s: State): State {
    if s.registered then s.(failed := true) else s.(registered := true)
  }

  function HandlerStep(s: State, i: nat): State
    requires HandlerCanMove(s, i)
  {
    match s.handlers[i]
    case Fresh => Notify(s).(handlers := s.handlers[i := Draining])
    case Draining =>
      if s.queue == [] then s.(handlers := s.handlers[i := Finished])
      else s.(handlers := s.handlers[i := Holding(s.queue[NextIndex(s.queue)])], queue := Rest(s.queue))
    case Holding(m) => s.(written := s.written + [m], handlers := s.handlers[i := Draining])
  }

  function SendStep(s: State, m: Message): State {
    var fires := s.registered && s.queue == [];
    s.(queue := s.queue + [m], sent := s.sent + [m], registered := s.registered && !fires,
       handlers := if fires then s.handlers + [Fresh] else s.handlers)
  }

  function Step(s: State, a: Action): State
    requires Enabled(s, a)
  {
    match a
    case Send(m) => SendStep(s, m)
    case MainRegisters => Notify(s).(started := true)
    case HandlerMoves(i) => HandlerStep(s, i)
  }

  predicate Runs(s: State, acts: seq<Action>, s': State)
    decreases |acts|
  {
    if acts == [] then s == s'
    else Enabled(s, acts[0]) && Runs(Step(s, acts[0]), acts[1..], s')
  }

  // The state just before the first registration, with whatever is already in the queue.
  predicate Init(s: State) {
    && !s.started && !s.failed && !s.registered
    && s.handlers == [] && s.written == [] && s.sent == s.queue
  }

  function Registered(s0: State): State
    requires Init(s0)
  {
    Step(s0, MainRegisters)
  }

  // How many handlers hold a copy of x.
  function Holds(h: Handler, x: Message): nat {
    if h.Holding? && h.msg == x then 1 else 0
  }

  function Held(hs: seq<Handler>, x: Message): nat {
    if hs == [] then 0 else Holds(hs[0], x) + Held(hs[1..], x)
  }

  lemma {:induction false} HeldUpdate(hs: seq<Handler>, i: nat, h: Handler, x: Message)
    requires i < |hs|
    ensures Held(hs[i := h], x) == Held(hs, x) - Holds(hs[i], x) + Holds(h, x)
    decreases i
  {
    if i == 0 {
      assert hs[0 := h][1..] == hs[1..];
    } else {
      assert hs[i := h][1..] == hs[1..][i - 1 := h];
      HeldUpdate(hs[1..], i - 1, h, x);
    }
  }

  lemma {:induction false} HeldAppend(hs: seq<Handler>, h: Handler, x: Message)
    ensures Held(hs + [h], x) == Held(hs, x) + Holds(h, x)
    decreases |hs|
  {
    if hs == [] {
      assert hs + [h] == [h];
    } else {
      assert (hs + [h])[1..] == hs[1..] + [h];
      HeldAppend(hs[1..], h, x);
    }
  }

  predicate Active(s: State) {
    exists i :: 0 <= i < |s.handlers| && !s.handlers[i].Finished?
  }

  // Registered, or exactly one thread has yet to re-register.
  predicate RegisteredXorFresh(s: State) {
    && (s.registered <==> forall i :: 0 <= i < |s.handlers| ==> !s.handlers[i].Fresh?)
    && (forall i, j :: 0 <= i < j < |s.handlers| ==> !(s.handlers[i].Fresh? && s.handlers[j].Fresh?))
  }

  // Copies of x that are written, held or queued.
  function Copies(s: State, x: Message): nat {
    multiset(s.written)[x] + Held(s.handlers, x) + multiset(s.queue)[x]
  }

  // Every message sent is written, held or queued, and in as many copies.
  ghost predicate Conserved(s: State) {
    forall x :: multiset(s.sent)[x] == Copies(s, x)
  }

  ghost predicate Inv(s: State) {
    && s.started && !s.failed
    && RegisteredXorFresh(s)
    && (s.queue != [] ==> Active(s))
    && Conserved(s)
  }

  lemma SendKeepsInv(s: State, m: Message)
    requires Inv(s)
    ensures Inv(SendStep(s, m))
  {
    var s' := SendStep(s, m);
    forall x ensures Held(s.handlers + [Fresh], x) == Held(s.handlers, x) {
      HeldAppend(s.handlers, Fresh, x);
    }
    if s.registered && s.queue == [] {
      assert s'.handlers[|s.handlers|].Fresh?;
    } else if s.queue == [] {
      var i :| 0 <= i < |s.handlers| && s.handlers[i].Fresh?;
      assert !s'.handlers[i].Finished?;
    }
  }

  lemma TakeKeepsCopies(s: State, i: nat, x: Message)
    requires HandlerCanMove(s, i) && s.handlers[i].Draining? && s.queue != []
    ensures Copies(HandlerStep(s, i), x) == Copies(s, x)
  {
    var m := s.queue[NextIndex(s.queue)];
    HeldUpdate(s.handlers, i, Holding(m), x);
    TakeKeepsMessages(s.queue);
    assert multiset(s.queue)[x] == multiset(Rest(s.queue))[x] + if x == m then 1 else 0;
  }

  lemma WriteKeepsCopies(s: State, i: nat, x: Message)
    requires HandlerCanMove(s, i) && s.handlers[i].Holding?
    ensures Copies(HandlerStep(s, i), x) == Copies(s, x)
  {
    var m := s.handlers[i].msg;
    HeldUpdate(s.handlers, i, Draining, x);
    assert multiset(s.written + [m])[x] == multiset(s.written)[x] + if x == m then 1 else 0;
  }

  lemma HandlerKeepsCopies(s: State, i: nat, x: Message)
    requires HandlerCanMove(s, i)
    ensures Copies(HandlerStep(s, i), x) == Copies(s, x)
  {
    if s.handlers[i].Holding? {
      WriteKeepsCopies(s, i, x);
    } else if s.handlers[i].Draining? && s.queue != [] {
      TakeKeepsCopies(s, i, x);
    } else {
      HeldUpdate(s.handlers, i, HandlerStep(s, i).handlers[i], x);
    }
  }

  lemma HandlerKeepsFresh(s: State, i: nat)
    requires RegisteredXorFresh(s) && HandlerCanMove(s, i)
    ensures RegisteredXorFresh(HandlerStep(s, i)) && !HandlerStep(s, i).failed
  {
    var s' := HandlerStep(s, i);
    assert s'.handlers == s.handlers[i := s'.handlers[i]] && !s'.handlers[i].Fresh?;
    if !s.handlers[i].Fresh? && !s.registered {
      var k :| 0 <= k < |s.handlers| && s.handlers[k].Fresh?;
      assert s'.handlers[k].Fresh?;
    }
  }

  lemma HandlerKeepsInv(s: State, i: nat)
    requires Inv(s) && HandlerCanMove(s, i)
    ensures Inv(HandlerStep(s, i))
  {
    var s' := HandlerStep(s, i);
    forall x ensures multiset(s'.sent)[x] == Copies(s', x) {
      HandlerKeepsCopies(s, i, x);
    }
    HandlerKeepsFresh(s, i);
    if s'.queue != [] {
      assert !s'.handlers[i].Finished?;
    }
  }

  // Every receive takes the oldest message of the highest priority.
  lemma ReceivesFirst(s: State, i: nat)
    requires HandlerCanMove(s, i) && s.handlers[i].Draining? && s.queue != []
    ensures var s' := HandlerStep(s, i);
            s'.handlers[i].Holding? && exists j: nat :: TakenFrom(s.queue, j, s'.handlers[i].msg, s'.queue)
  {
    assert TakenFrom(s.queue, NextIndex(s.queue), s.queue[NextIndex(s.queue)], Rest(s.queue));
  }

  // ---------- Progress ----------

  function Left(h: Handler): nat {
    match h case Fresh => 2 case Draining => 1 case Holding(_) => 2 case Finished => 0
  }

  function AllLeft(hs: seq<Handler>): nat {
    if hs == [] then 0 else Left(hs[0]) + AllLeft(hs[1..])
  }

  lemma {:induction false} LeftUpdate(hs: seq<Handler>, i: nat, h: Handler)
    requires i < |hs|
    ensures AllLeft(hs[i := h]) == AllLeft(hs) - Left(hs[i]) + Left(h)
    decreases i
  {
    if i == 0 {
      assert hs[0 := h][1..] == hs[1..];
    } else {
      assert hs[i := h][1..] == hs[1..][i - 1 := h];
      LeftUpdate(hs[1..], i - 1, h);
    }
  }

  lemma {:induction false} LeftAppend(hs: seq<Handler>, h: Handler)
    ensures AllLeft(hs + [h]) == AllLeft(hs) + Left(h)
    decreases |hs|
  {
    if hs == [] {
      assert hs + [h] == [h];
    } else {
      assert (hs + [h])[1..] == hs[1..] + [h];
      LeftAppend(hs[1..], h);
    }
  }

  function Rank(s: State): nat {
    2 * |s.queue| + AllLeft(s.handlers)
  }

  lemma StepRank(s: State, a: Action)
    requires Inv(s) && Enabled(s, a)
    ensures Rank(Step(s, a)) <= if a.Send? then Rank(s) + 4 else Rank(s) - 1
  {
    match a {
      case Send(m) => LeftAppend(s.handlers, Fresh);
      case HandlerMoves(i) => LeftUpdate(s.handlers, i, HandlerStep(s, i).handlers[i]);
    }
  }

  function Sends(acts: seq<Action>): nat {
    if acts == [] then 0 else (if acts[0].Send? then 1 else 0) + Sends(acts[1..])
  }

  lemma {:induction false} RunFromInv(s: State, acts: seq<Action>, s': State)
    requires Inv(s) && Runs(s, acts, s')
    ensures Inv(s')
    ensures |acts| - Sends(acts) + Rank(s') <= Rank(s) + 4 * Sends(acts)
    decreases |acts|
  {
    if acts != [] {
      var a := acts[0];
      StepRank(s, a);
      if a.Send? {
        SendKeepsInv(s, a.msg);
      } else {
        HandlerKeepsInv(s, a.id);
      }
      RunFromInv(Step(s, a), acts[1..], s');
    }
  }

  // ---------- Main results ----------

  lemma {:induction false} NothingHeld(hs: seq<Handler>, x: Message)
    requires forall i :: 0 <= i < |hs| ==> hs[i].Finished?
    ensures Held(hs, x) == 0
    decreases |hs|
  {
    if hs != [] {
      NothingHeld(hs[1..], x);
    }
  }

  // First registration on an empty queue: every reachable state, with any number of handler
  // threads and any sends.
  lemma ReachableStates(s0: State, acts: seq<Action>, s: State)
    requires Init(s0) && s0.queue == [] && Runs(Registered(s0), acts, s)
    ensures RegisteredXorFresh(s) && !s.failed
    ensures s.queue != [] ==> Active(s)
    ensures Conserved(s)
    // handlers take at most four steps for each message sent
    ensures |acts| - Sends(acts) <= 4 * Sends(acts)
    // once all handlers have finished, everything sent has been written exactly once
    ensures !Active(s) ==> s.queue == [] && s.registered && multiset(s.written) == multiset(s.sent)
    // until then some handler can move
    ensures Active(s) ==> exists i :: HandlerCanMove(s, i)
  {
    RunFromInv(Registered(s0), acts, s);
    if Active(s) {
      var i :| 0 <= i < |s.handlers| && !s.handlers[i].Finished?;
      assert HandlerCanMove(s, i);
    } else {
      forall x ensures multiset(s.written)[x] == multiset(s.sent)[x] {
        NothingHeld(s.handlers, x);
      }
    }
  }

  lemma {:induction false} Stranded(s: State, acts: seq<Action>, s': State)
    requires s.started && s.handlers == [] && s.queue != [] && Runs(s, acts, s')
    ensures s'.handlers == [] && s.queue <= s'.queue && s'.written == s.written
    decreases |acts|
  {
    if acts != [] {
      Stranded(Step(s, acts[0]), acts[1..], s');
    }
  }

  ghost predicate DrainsAlways(s: State) {
    forall acts, s' :: Runs(s, acts, s') && !Active(s') ==> s'.queue == []
  }

  // Main registers without draining first: the promise holds exactly when the queue is empty
  // at that moment; otherwise no handler is ever started.
  lemma DrainsIffEmptyAtStart(s0: State)
    requires Init(s0)
    ensures DrainsAlways(Registered(s0)) <==> s0.queue == []
    ensures s0.queue != [] ==> forall acts, s' :: Runs(Registered(s0), acts, s') ==> s'.written == []
  {
    var s1 := Registered(s0);
    if s0.queue == [] {
      forall acts, s' | Runs(s1, acts, s') && !Active(s') ensures s'.queue == [] {
        ReachableStates(s0, acts, s');
      }
    } else {
      assert Runs(s1, [], s1) && !Active(s1);
      forall acts, s' | Runs(s1, acts, s') ensures s'.written == [] {
        Stranded(s1, acts, s');
      }
    }
  }

  // ---------- Order within a priority ----------

  lemma {:induction false} Compose(s: State, x: seq<Action>, m: State, y: seq<Action>, s': State)
    requires Runs(s, x, m) && Runs(m, y, s')
    ensures Runs(s, x + y, s')
    decreases |x|
  {
    if x == [] {
      assert x + y == y;
    } else {
      assert (x + y)[1..] == x[1..] + y;
      Compose(Step(s, x[0]), x[1..], m, y, s');
    }
  }

  lemma Then(s: State, a: Action, m: State, rest: seq<Action>, s': State)
    requires Enabled(s, a) && Step(s, a) == m && Runs(m, rest, s')
    ensures Runs(s, [a] + rest, s')
  {
    assert ([a] + rest)[1..] == rest;
  }

  // A registered queue with nothing in it.
  function Quiet(handlers: seq<Handler>, sent: seq<Message>, written: seq<Message>): State {
    State(true, false, true, [], handlers, sent, written)
  }

  // A message is sent to a quiet queue and taken by its own handler, which does not write yet.
  lemma HoldOne(hs: seq<Handler>, sent: seq<Message>, written: seq<Message>, m: Message) returns (acts: seq<Action>)
    ensures Runs(Quiet(hs, sent, written), acts, Quiet(hs + [Holding(m)], sent + [m], written))
  {
    var h, s' := HandlerMoves(|hs|), Quiet(hs + [Holding(m)], sent + [m], written);
    var s1 := State(true, false, false, [m], hs + [Fresh], sent + [m], written);
    var s2 := State(true, false, true, [m], hs + [Draining], sent + [m], written);
    Then(s2, h, s', [], s');
    Then(s1, h, s2, [h] + [], s');
    acts := [Send(m)] + ([h] + ([h] + []));
    Then(Quiet(hs, sent, written), Send(m), s1, [h] + ([h] + []), s');
  }

  // A handler that holds a message writes it and finds the queue empty.
  lemma Release(hs: seq<Handler>, sent: seq<Message>, written: seq<Message>, i: nat) returns (acts: seq<Action>)
    requires i < |hs| && hs[i].Holding?
    ensures Runs(Quiet(hs, sent, written), acts, Quiet(hs[i := Finished], sent, written + [hs[i].msg]))
  {
    var h, s' := HandlerMoves(i), Quiet(hs[i := Finished], sent, written + [hs[i].msg]);
    var s1 := Quiet(hs[i := Draining], sent, written + [hs[i].msg]);
    assert hs[i := Draining][i := Finished] == hs[i := Finished];
    Then(s1, h, s', [], s');
    acts := [h] + ([h] + []);
    Then(Quiet(hs, sent, written), h, s1, [h] + [], s');
  }

  lemma DrainOne(hs: seq<Handler>, sent: seq<Message>, written: seq<Message>, m: Message) returns (acts: seq<Action>)
    ensures Runs(Quiet(hs, sent, written), acts, Quiet(hs + [Finished], sent + [m], written + [m]))
  {
    var first := HoldOne(hs, sent, written, m);
    var second := Release(hs + [Holding(m)], sent + [m], written, |hs|);
    assert (hs + [Holding(m)])[|hs| := Finished] == hs + [Finished];
    acts := first + second;
    Compose(Quiet(hs, sent, written), first, Quiet(hs + [Holding(m)], sent + [m], written), second,
            Quiet(hs + [Finished], sent + [m], written + [m]));
  }

  function AllFinished(n: nat): seq<Handler> {
    seq(n, _ => Finished)
  }

  lemma OneByOne(s: seq<Message>, ms: seq<Message>)
    requires ms != []
    ensures s + [ms[0]] + ms[1..] == s + ms
  {
  }

  // Messages are sent one by one, and each is drained before the next.
  lemma {:induction false} DrainAll(hs: seq<Handler>, sent: seq<Message>, written: seq<Message>, ms: seq<Message>)
    returns (acts: seq<Action>)
    ensures Runs(Quiet(hs, sent, written), acts, Quiet(hs + AllFinished(|ms|), sent + ms, written + ms))
    decreases |ms|
  {
    var s' := Quiet(hs + AllFinished(|ms|), sent + ms, written + ms);
    if ms == [] {
      acts := [];
      assert hs + AllFinished(0) == hs && sent + ms == sent && written + ms == written;
    } else {
      var m, rest := ms[0], ms[1..];
      var first := DrainOne(hs, sent, written, m);
      var second := DrainAll(hs + [Finished], sent + [m], written + [m], rest);
      assert hs + [Finished] + AllFinished(|rest|) == hs + AllFinished(|ms|);
      OneByOne(sent, ms);
      OneByOne(written, ms);
      acts := first + second;
      Compose(Quiet(hs, sent, written), first, Quiet(hs + [Finished], sent + [m], written + [m]), second, s');
    }
  }

  const EMPTY := State(false, false, false, [], [], [], [])

  lemma HoldAfter(x: seq<Message>, m: Message) returns (acts: seq<Action>)
    ensures Runs(Registered(EMPTY), acts, Quiet(AllFinished(|x|) + [Holding(m)], x + [m], x))
  {
    var first := DrainAll([], [], [], x);
    assert [] + AllFinished(|x|) == AllFinished(|x|) && [] + x == x;
    var hold := HoldOne(AllFinished(|x|), x, x, m);
    acts := first + hold;
    Compose(Registered(EMPTY), first, Quiet(AllFinished(|x|), x, x), hold, Quiet(AllFinished(|x|) + [Holding(m)], x + [m], x));
  }

  lemma ReleaseAfter(hs: seq<Handler>, sent: seq<Message>, written: seq<Message>, i: nat, y: seq<Message>)
    returns (acts: seq<Action>, hs': seq<Handler>)
    requires i < |hs| && hs[i].Holding? && forall k :: 0 <= k < |hs| && k != i ==> hs[k].Finished?
    ensures Runs(Quiet(hs, sent, written), acts, Quiet(hs', sent + y, written + y + [hs[i].msg]))
    ensures forall k :: 0 <= k < |hs'| ==> hs'[k].Finished?
  {
    var mid := hs + AllFinished(|y|);
    var first := DrainAll(hs, sent, written, y);
    var last := Release(mid, sent + y, written + y, i);
    acts, hs' := first + last, mid[i := Finished];
    Compose(Quiet(hs, sent, written), first, Quiet(mid, sent + y, written + y), last,
            Quiet(hs', sent + y, written + y + [hs[i].msg]));
  }

  // For any messages and any one of them, a run that writes this one last.
  lemma HoldBack(x: seq<Message>, m: Message, y: seq<Message>) returns (acts: seq<Action>, s: State)
    ensures Runs(Registered(EMPTY), acts, s) && !Active(s)
    ensures s.sent == x + [m] + y && s.written == x + y + [m]
  {
    var hs := AllFinished(|x|) + [Holding(m)];
    var first := HoldAfter(x, m);
    var second, hs' := ReleaseAfter(hs, x + [m], x, |x|, y);
    acts, s := first + second, Quiet(hs', x + [m] + y, x + y + [m]);
    Compose(Registered(EMPTY), first, Quiet(hs, x + [m], x), second, s);
  }

  // Messages of equal priority are equal.
  predicate OneKindEach(ms: seq<Message>) {
    forall i, j :: 0 <= i < j < |ms| && ms[i].priority == ms[j].priority ==> ms[i] == ms[j]
  }

  // Every run in which these messages are sent and all handlers finish writes each priority in order.
  ghost predicate OrderAlwaysKept(ms: seq<Message>) {
    forall acts, s, p | Runs(Registered(EMPTY), acts, s) && s.sent == ms && !Active(s) ::
      OfPriority(s.written, p) == OfPriority(ms, p)
  }

  // Messages of one priority that are all the same.
  lemma {:induction false} OnlyCopies(q: seq<Message>, p: nat, x: Message)
    requires x.priority == p && forall m :: m in q && m.priority == p ==> m == x
    ensures OfPriority(q, p) == seq(multiset(q)[x], _ => x)
    decreases |q|
  {
    if q != [] {
      assert q == [q[0]] + q[1..];
      assert forall m :: m in q[1..] ==> m in q;
      OnlyCopies(q[1..], p, x);
    }
  }

  lemma OneKindKept(ms: seq<Message>, written: seq<Message>, p: nat)
    requires OneKindEach(ms) && multiset(written) == multiset(ms)
    ensures OfPriority(written, p) == OfPriority(ms, p)
  {
    assert forall m :: m in written <==> m in multiset(written);
    assert forall m :: m in ms <==> m in multiset(ms);
    if x :| x in ms && x.priority == p {
      OnlyCopies(ms, p, x);
      OnlyCopies(written, p, x);
    } else {
      NoneOfPriority(ms, p);
      NoneOfPriority(written, p);
    }
  }

  lemma {:induction false} TurnedAt(x: Message, w: seq<Message>, k: nat)
    requires [x] + w == w + [x] && k < |w|
    ensures w[k] == x
    decreases k
  {
    assert w[k] == (w + [x])[k] == ([x] + w)[k];
    if k > 0 {
      TurnedAt(x, w, k - 1);
    }
  }

  // A sequence that starts with x and is turned by one place.
  lemma {:induction false} Turned(x: Message, w: seq<Message>)
    requires [x] + w == w + [x]
    ensures forall m :: m in w ==> m == x
    decreases |w|
  {
    forall k | 0 <= k < |w| ensures w[k] == x {
      TurnedAt(x, w, k);
    }
  }

  lemma {:induction false} InPriority(q: seq<Message>, m: Message)
    requires m in q
    ensures m in OfPriority(q, m.priority)
    decreases |q|
  {
    if q[0] != m {
      InPriority(q[1..], m);
    }
  }

  lemma Cancel(a: seq<Message>, b: seq<Message>, c: seq<Message>)
    requires a + b == a + c
    ensures b == c
  {
    assert b == (a + b)[|a|..] && c == (a + c)[|a|..];
  }

  lemma OfPriorityLast(x: seq<Message>, m: Message, y: seq<Message>, p: nat)
    ensures OfPriority(x + y + [m], p) == OfPriority(x, p) + (OfPriority(y, p) + OfPriority([m], p))
  {
    OfPriorityConcat(x + y, [m], p);
    OfPriorityConcat(x, y, p);
    Associate(OfPriority(x, p), OfPriority(y, p), OfPriority([m], p));
  }

  // A message written last is out of order if a different one of its priority was sent after it.
  lemma WrittenLast(x: seq<Message>, m: Message, y: seq<Message>, other: Message)
    requires other in y && other.priority == m.priority && other != m
    ensures OfPriority(x + y + [m], m.priority) != OfPriority(x + [m] + y, m.priority)
  {
    var p := m.priority;
    var a, w := OfPriority(x, p), OfPriority(y, p);
    OfPriorityMiddle(x, m, y, p);
    OfPriorityLast(x, m, y, p);
    Associate(a, OfPriority([m], p), w);
    assert OfPriority([m], p) == [m] + OfPriority([], p) == [m];
    InPriority(y, other);
    if a + (w + [m]) == a + ([m] + w) {
      Cancel(a, w + [m], [m] + w);
      Turned(m, w);
    }
  }

  // Two handlers can write messages of one priority out of order. For the messages `ms` this
  // never happens if and only if those of equal priority are equal.
  lemma OrderKeptIff(ms: seq<Message>)
    ensures OrderAlwaysKept(ms) <==> OneKindEach(ms)
  {
    if OneKindEach(ms) {
      forall acts, s, p | Runs(Registered(EMPTY), acts, s) && s.sent == ms && !Active(s)
        ensures OfPriority(s.written, p) == OfPriority(ms, p)
      {
        ReachableStates(EMPTY, acts, s);
        OneKindKept(ms, s.written, p);
      }
    } else {
      var i, j :| 0 <= i < j < |ms| && ms[i].priority == ms[j].priority && ms[i] != ms[j];
      var x, y := ms[..i], ms[i + 1..];
      assert ms == x + [ms[i]] + y && ms[j] == y[j - i - 1];
      var acts, s := HoldBack(x, ms[i], y);
      WrittenLast(x, ms[i], y, ms[j]);
    }
  }
}
