/**
 svmsg_file_server and svmsg_file_client as processes: a client makes a private queue and sends
 its queue id and a pathname to the server's queue; for each request the server forks a child,
 which works from its own copy of the request and sends the file to the queue with that id. Any
 number of clients and children run at once; each queue operation is one atomic step.
 */
module FileServer {
  import opened FileSessions

  datatype Request = Request(clientId: nat, pathname: string)

  // A client, with the id of its private queue once it has one.
  datatype Process =
    | NoQueue
    | HasQueue(id: nat)
    | Running(id: nat, client: Client, received: seq<seq<Byte>>)

  // A forked child with its copy of the request. `sent` and `lost` are histories.
  datatype Child = Child(request: Request, work: Service, sent: seq<seq<Byte>>, lost: seq<Byte>)

  // `used` are the queue ids that have been given out so far.
  datatype System = System(
    clients: seq<Process>,
    requests: seq<Request>,
    children: seq<Child>,
    queues: map<nat, seq<Response>>,
    used: set<nat>)

  // What the clients ask for, and what is in the file system.
  datatype World = World(wanted: seq<string>, files: string -> File)

  // The steps of serveRequest; `n` is what read() returns.
  datatype Act = OpenFile | ReadSome(n: nat) | ReadFails | SendData | SendFails | SendLast

  datatype Move =
    | MakeQueue(c: nat, id: nat)
    | Ask(c: nat)
    | Fork
    | Serve(k: nat, act: Act)         // a step of child k
    | Take(c: nat)                    // client c receives

  // ---------- The steps ----------

  // What a child can do depends on its own state and, for a chunk, on the queue.
  predicate ChildCan(s: System, ch: Child, a: Act) {
    match a
    case OpenFile => ch.work.Opening?
    case ReadSome(n) =>
      ch.work.Reading? && n <= RESPONSE_MSG_DATA_SIZE && n <= |ch.work.left| && (n == 0 <==> ch.work.left == [])
    case ReadFails => ch.work.Reading?
    case SendData => ch.work.Sending? && ch.request.clientId in s.queues
    case SendFails => ch.work.Sending?
    case SendLast => ch.work.Ending?
  }

  predicate Possible(s: System, m: Move) {
    match m
    case MakeQueue(c, id) => c < |s.clients| && s.clients[c].NoQueue? && id !in s.used
    case Ask(c) => c < |s.clients| && s.clients[c].HasQueue?
    case Fork => s.requests != []
    case Serve(k, a) => k < |s.children| && ChildCan(s, s.children[k], a)
    case Take(c) =>
      && c < |s.clients| && s.clients[c].Running?
      && (s.clients[c].client.Waiting? || s.clients[c].client.Receiving?)
      && s.clients[c].id in s.queues && s.queues[s.clients[c].id] != []
  }

  // msgsnd; to a queue that is gone it fails, and the message is dropped.
  function Deliver(queues: map<nat, seq<Response>>, id: nat, r: Response): map<nat, seq<Response>> {
    if id in queues then queues[id := queues[id] + [r]] else queues
  }

  function ServeStep(w: World, s: System, k: nat, a: Act): System
    requires k < |s.children| && ChildCan(s, s.children[k], a)
  {
    var ch := s.children[k];
    var id := ch.request.clientId;
    var f := w.files(ch.request.pathname);
    var (ch', queues') := match a
      case OpenFile =>
        if f.Missing? then (ch.(work := Served), Deliver(s.queues, id, Failure(f.reason)))
        else (ch.(work := Reading(f.bytes)), s.queues)
      case ReadSome(n) =>
        (ch.(work := if n == 0 then Ending else Sending(ch.work.left[..n], ch.work.left[n..])), s.queues)
      case ReadFails => (ch.(work := Ending, lost := ch.work.left), s.queues)
      case SendData =>
        (ch.(work := Reading(ch.work.left), sent := ch.sent + [ch.work.chunk]), Deliver(s.queues, id, Data(ch.work.chunk)))
      case SendFails => (ch.(work := Ending, lost := ch.work.chunk + ch.work.left), s.queues)
      case SendLast => (ch.(work := Served), Deliver(s.queues, id, End));
    s.(children := s.children[k := ch'], queues := queues')
  }

  predicate Finishing(p: Process) {
    p.Running? && (p.client.Succeeded? || p.client.Failed?)
  }

  // The client loop; a client that is done removes its queue.
  function TakeStep(s: System, c: nat): System
    requires c < |s.clients| && s.clients[c].Running?
    requires s.clients[c].client.Waiting? || s.clients[c].client.Receiving?
    requires s.clients[c].id in s.queues && s.queues[s.clients[c].id] != []
  {
    var p := s.clients[c];
    var q := s.queues[p.id];
    var x := ReceiveStep(Session(Asked, q, p.client, [], p.received, []));
    var p' := Running(p.id, x.client, x.received);
    s.(clients := s.clients[c := p'], queues := if Finishing(p') then s.queues - {p.id} else s.queues[p.id := x.queue])
  }

  function Advance(w: World, s: System, m: Move): System
    requires Possible(s, m) && |s.clients| == |w.wanted|
  {
    match m
    case MakeQueue(c, id) =>
      s.(clients := s.clients[c := HasQueue(id)], queues := s.queues[id := []], used := s.used + {id})
    case Ask(c) =>
      s.(clients := s.clients[c := Running(s.clients[c].id, Waiting, [])],
         requests := s.requests + [Request(s.clients[c].id, w.wanted[c])])
    case Fork => s.(requests := s.requests[1..], children := s.children + [Child(s.requests[0], Opening, [], [])])
    case Serve(k, a) => ServeStep(w, s, k, a)
    case Take(c) => TakeStep(s, c)
  }

  function Start(w: World): System {
    System(seq(|w.wanted|, _ => NoQueue), [], [], map[], {})
  }

  predicate Happens(w: World, s: System, moves: seq<Move>, s': System)
    decreases |moves|
  {
    if moves == [] then s == s'
    else
      && |s.clients| == |w.wanted| && Possible(s, moves[0])
      && Happens(w, Advance(w, s, moves[0]), moves[1..], s')
  }

  // ---------- Who belongs to whom ----------

  // The client that owns a queue id, or the number of clients.
  function Owner(clients: seq<Process>, id: nat): (c: nat)
    ensures c <= |clients|
    ensures c < |clients| ==> !clients[c].NoQueue? && clients[c].id == id
    ensures forall d :: 0 <= d < c ==> clients[d].NoQueue? || clients[d].id != id
  {
    if clients == [] || (!clients[0].NoQueue? && clients[0].id == id) then 0 else 1 + Owner(clients[1..], id)
  }

  // The child that serves a queue id, or the number of children.
  function ServedBy(children: seq<Child>, id: nat): (k: nat)
    ensures k <= |children|
    ensures k < |children| ==> children[k].request.clientId == id
    ensures forall j :: 0 <= j < k ==> children[j].request.clientId != id
  {
    if children == [] || children[0].request.clientId == id then 0 else 1 + ServedBy(children[1..], id)
  }

  // A request that is that of a running client.
  predicate FromClient(w: World, s: System, r: Request)
    requires |s.clients| == |w.wanted|
  {
    exists c :: 0 <= c < |s.clients| && s.clients[c].Running? && r == Request(s.clients[c].id, w.wanted[c])
  }

  predicate IdsApart(s: System) {
    && (forall c, d :: 0 <= c < d < |s.clients| && !s.clients[c].NoQueue? && !s.clients[d].NoQueue? ==>
          s.clients[c].id != s.clients[d].id)
    && (forall c :: 0 <= c < |s.clients| && !s.clients[c].NoQueue? ==> s.clients[c].id in s.used)
  }

  predicate RequestsApart(s: System) {
    && (forall i, j :: 0 <= i < j < |s.requests| ==> s.requests[i].clientId != s.requests[j].clientId)
    && (forall i, j :: 0 <= i < j < |s.children| ==> s.children[i].request.clientId != s.children[j].request.clientId)
    && (forall i, k :: 0 <= i < |s.requests| && 0 <= k < |s.children| ==>
          s.requests[i].clientId != s.children[k].request.clientId)
  }

  // The private queues are those of the clients that are not done.
  predicate QueuesOwned(s: System) {
    && (forall c :: 0 <= c < |s.clients| && !s.clients[c].NoQueue? ==> (s.clients[c].id in s.queues <==> !Finishing(s.clients[c])))
    && forall c :: 0 <= c < |s.clients| && s.clients[c].HasQueue? && s.clients[c].id in s.queues ==> s.queues[s.clients[c].id] == []
  }

  predicate Started(work: Service) {
    !work.NotAsked? && !work.Asked?
  }

  // Every request and every child's copy of one is that of one running client.
  predicate Linked(w: World, s: System) {
    && |s.clients| == |w.wanted|
    && IdsApart(s)
    && RequestsApart(s)
    && QueuesOwned(s)
    && (forall i :: 0 <= i < |s.requests| ==> FromClient(w, s, s.requests[i]))
    && (forall k :: 0 <= k < |s.children| ==> FromClient(w, s, s.children[k].request) && Started(s.children[k].work))
  }

  // ---------- Each client's view ----------

  function QueueOf(s: System, id: nat): seq<Response> {
    if id in s.queues then s.queues[id] else []
  }

  function View(s: System, c: nat): Session
    requires c < |s.clients|
  {
    match s.clients[c]
    case NoQueue => NEW_SESSION
    case HasQueue(id) => NEW_SESSION
    case Running(id, client, received) =>
      var k := ServedBy(s.children, id);
      if k == |s.children| then Session(Asked, QueueOf(s, id), client, [], received, [])
      else Session(s.children[k].work, QueueOf(s, id), client, s.children[k].sent, received, s.children[k].lost)
  }

  function Views(s: System): (v: seq<Session>)
    ensures |v| == |s.clients| && forall c :: 0 <= c < |v| ==> v[c] == View(s, c)
  {
    seq(|s.clients|, c requires 0 <= c < |s.clients| => View(s, c))
  }

  function Askers(s: System): (r: seq<nat>)
    ensures |r| == |s.requests| && forall i :: 0 <= i < |r| ==> r[i] == Owner(s.clients, s.requests[i].clientId)
  {
    seq(|s.requests|, i requires 0 <= i < |s.requests| => Owner(s.clients, s.requests[i].clientId))
  }

  // The system as sessions.
  function Abs(s: System): State {
    State(Askers(s), Views(s))
  }

  function Files(w: World): (fs: seq<File>)
    ensures |fs| == |w.wanted| && forall c :: 0 <= c < |fs| ==> fs[c] == w.files(w.wanted[c])
  {
    seq(|w.wanted|, c requires 0 <= c < |w.wanted| => w.files(w.wanted[c]))
  }

  lemma OwnerIs(s: System, c: nat)
    requires IdsApart(s) && c < |s.clients| && !s.clients[c].NoQueue?
    ensures Owner(s.clients, s.clients[c].id) == c
  {
  }

  lemma ServerIs(s: System, k: nat)
    requires RequestsApart(s) && k < |s.children|
    ensures ServedBy(s.children, s.children[k].request.clientId) == k
  {
  }

  // ---------- Making a queue changes no session ----------

  lemma MakeQueueLinked(w: World, s: System, c: nat, id: nat)
    requires Linked(w, s) && Possible(s, MakeQueue(c, id))
    ensures Linked(w, Advance(w, s, MakeQueue(c, id)))
  {
    var s' := Advance(w, s, MakeQueue(c, id));
    forall r | FromClient(w, s, r) ensures FromClient(w, s', r) {
      var d :| 0 <= d < |s.clients| && s.clients[d].Running? && r == Request(s.clients[d].id, w.wanted[d]);
      assert s'.clients[d] == s.clients[d];
    }
  }

  lemma MakeQueueViews(w: World, s: System, c: nat, id: nat)
    requires Linked(w, s) && Possible(s, MakeQueue(c, id))
    ensures Abs(Advance(w, s, MakeQueue(c, id))) == Abs(s)
  {
    var s' := Advance(w, s, MakeQueue(c, id));
    MakeQueueLinked(w, s, c, id);
    forall i | 0 <= i < |s.requests| ensures Askers(s')[i] == Askers(s)[i] {
      assert FromClient(w, s, s.requests[i]);
      var d :| 0 <= d < |s.clients| && s.clients[d].Running? && s.requests[i].clientId == s.clients[d].id;
      assert s'.clients[d] == s.clients[d];
      OwnerIs(s, d);
      OwnerIs(s', d);
    }
  }

  // What a client's session depends on.
  lemma ViewFrame(s: System, s': System, d: nat)
    requires d < |s.clients| && d < |s'.clients| && s'.clients[d] == s.clients[d]
    requires s.clients[d].Running? ==>
               && QueueOf(s', s.clients[d].id) == QueueOf(s, s.clients[d].id)
               && ServedBy(s'.children, s.clients[d].id) == ServedBy(s.children, s.clients[d].id)
               && |s'.children| == |s.children|
               && (ServedBy(s.children, s.clients[d].id) < |s.children| ==>
                     s'.children[ServedBy(s.children, s.clients[d].id)] == s.children[ServedBy(s.children, s.clients[d].id)])
    ensures View(s', d) == View(s, d)
  {
  }

  // Only the session of client c has changed, as one step of it would.
  predicate OneSession(w: World, s: System, s': System, c: nat, a: Action) {
    && c < |s.clients| == |s'.clients| == |w.wanted|
    && CanDo(Files(w)[c], View(s, c), a)
    && View(s', c) == Do(Files(w)[c], View(s, c), a)
    && forall d: nat :: d < |s.clients| && d != c ==> View(s', d) == View(s, d)
  }

  lemma Assemble(w: World, s: System, s': System, c: nat, a: Action)
    requires OneSession(w, s, s', c, a)
    requires if a.AcceptRequest? then Askers(s) == [c] + Askers(s')
             else a.c == c && Askers(s') == Askers(s) + if a.SendRequest? then [c] else []
    ensures Enabled(Files(w), Abs(s), a) && Abs(s') == Step(Files(w), Abs(s), a)
  {
    assert Views(s') == Views(s)[c := View(s', c)];
  }

  // ---------- A request is sent ----------

  // Requests and children belong to running clients, so to no other.
  lemma NotAskedYet(w: World, s: System, c: nat)
    requires Linked(w, s) && c < |s.clients| && s.clients[c].HasQueue?
    ensures forall i :: 0 <= i < |s.requests| ==> s.requests[i].clientId != s.clients[c].id
    ensures forall k :: 0 <= k < |s.children| ==> s.children[k].request.clientId != s.clients[c].id
  {
    forall i | 0 <= i < |s.requests| ensures s.requests[i].clientId != s.clients[c].id {
      assert FromClient(w, s, s.requests[i]);
    }
    forall k | 0 <= k < |s.children| ensures s.children[k].request.clientId != s.clients[c].id {
      assert FromClient(w, s, s.children[k].request);
    }
  }

  // Clients that run go on running, under the same id.
  predicate StillRun(s: System, s': System) {
    && |s'.clients| == |s.clients|
    && forall d :: 0 <= d < |s.clients| && s.clients[d].Running? ==>
         s'.clients[d].Running? && s'.clients[d].id == s.clients[d].id
  }

  lemma StillFromClient(w: World, s: System, s': System, r: Request)
    requires |s.clients| == |w.wanted| && StillRun(s, s') && FromClient(w, s, r)
    ensures FromClient(w, s', r)
  {
    var d :| 0 <= d < |s.clients| && s.clients[d].Running? && r == Request(s.clients[d].id, w.wanted[d]);
    assert s'.clients[d].Running? && r == Request(s'.clients[d].id, w.wanted[d]);
  }

  // Who asked stays the same.
  lemma SameOwner(w: World, s: System, s': System, r: Request)
    requires Linked(w, s) && StillRun(s, s') && IdsApart(s') && FromClient(w, s, r)
    ensures Owner(s'.clients, r.clientId) == Owner(s.clients, r.clientId) < |s.clients|
  {
    var d :| 0 <= d < |s.clients| && s.clients[d].Running? && r == Request(s.clients[d].id, w.wanted[d]);
    OwnerIs(s, d);
    OwnerIs(s', d);
  }

  lemma SameAskers(w: World, s: System, s': System)
    requires Linked(w, s) && StillRun(s, s') && IdsApart(s') && s.requests <= s'.requests
    ensures Askers(s) <= Askers(s')
  {
    forall i | 0 <= i < |s.requests| ensures Askers(s')[i] == Askers(s)[i] {
      assert s'.requests[i] == s.requests[i];
      SameOwner(w, s, s', s.requests[i]);
    }
  }

  lemma AskLinked(w: World, s: System, c: nat)
    requires Linked(w, s) && Possible(s, Ask(c))
    ensures Linked(w, Advance(w, s, Ask(c)))
  {
    var s' := Advance(w, s, Ask(c));
    NotAskedYet(w, s, c);
    forall r | FromClient(w, s, r) ensures FromClient(w, s', r) {
      StillFromClient(w, s, s', r);
    }
    assert s'.clients[c].Running? && s'.requests[|s.requests|] == Request(s'.clients[c].id, w.wanted[c]);
  }

  lemma AskSession(w: World, s: System, c: nat)
    requires Linked(w, s) && Possible(s, Ask(c))
    ensures OneSession(w, s, Advance(w, s, Ask(c)), c, SendRequest(c))
  {
    NotAskedYet(w, s, c);
  }

  lemma AskViews(w: World, s: System, c: nat)
    requires Linked(w, s) && Possible(s, Ask(c))
    ensures Enabled(Files(w), Abs(s), SendRequest(c))
    ensures Abs(Advance(w, s, Ask(c))) == Step(Files(w), Abs(s), SendRequest(c))
  {
    var s' := Advance(w, s, Ask(c));
    AskLinked(w, s, c);
    OwnerIs(s', c);
    SameAskers(w, s, s');
    assert Askers(s') == Askers(s) + [c];
    AskSession(w, s, c);
    Assemble(w, s, s', c, SendRequest(c));
  }

  // ---------- A child is forked ----------

  lemma ForkLinked(w: World, s: System)
    requires Linked(w, s) && Possible(s, Fork)
    ensures Linked(w, Advance(w, s, Fork))
  {
    var s' := Advance(w, s, Fork);
    assert forall i :: 0 <= i < |s'.requests| ==> s'.requests[i] == s.requests[i + 1];
    forall r | FromClient(w, s, r) ensures FromClient(w, s', r) {
      StillFromClient(w, s, s', r);
    }
  }

  // A new child serves its own client and no other.
  lemma NewServer(s: System, ch: Child, id: nat)
    ensures ServedBy(s.children + [ch], id) ==
              if ServedBy(s.children, id) < |s.children| then ServedBy(s.children, id)
              else if ch.request.clientId == id then |s.children| else |s.children| + 1
  {
    var all, k := s.children + [ch], ServedBy(s.children + [ch], id);
    assert all[|s.children|] == ch;
    assert forall j :: 0 <= j < |s.children| ==> all[j] == s.children[j];
  }

  lemma ForkOther(w: World, s: System, c: nat, d: nat)
    requires Linked(w, s) && Possible(s, Fork) && c < |s.clients| && s.clients[c].Running?
    requires s.requests[0].clientId == s.clients[c].id && d < |s.clients| && d != c
    ensures View(Advance(w, s, Fork), d) == View(s, d)
  {
    if s.clients[d].Running? {
      NewServer(s, Child(s.requests[0], Opening, [], []), s.clients[d].id);
    }
  }

  lemma ForkSession(w: World, s: System, c: nat)
    requires Linked(w, s) && Possible(s, Fork) && c < |s.clients| && s.clients[c].Running?
    requires s.requests[0].clientId == s.clients[c].id
    ensures OneSession(w, s, Advance(w, s, Fork), c, AcceptRequest)
  {
    var s', r := Advance(w, s, Fork), s.requests[0];
    var ch := Child(r, Opening, [], []);
    assert ServedBy(s.children, r.clientId) == |s.children|;
    NewServer(s, ch, r.clientId);
    forall d: nat | d < |s.clients| && d != c ensures View(s', d) == View(s, d) {
      ForkOther(w, s, c, d);
    }
  }

  lemma ForkAskers(w: World, s: System, c: nat)
    requires Linked(w, s) && Possible(s, Fork) && c < |s.clients| && s.clients[c].Running?
    requires s.requests[0].clientId == s.clients[c].id
    ensures Askers(s) == [c] + Askers(Advance(w, s, Fork))
  {
    OwnerIs(s, c);
  }

  lemma ForkViews(w: World, s: System)
    requires Linked(w, s) && Possible(s, Fork)
    ensures Enabled(Files(w), Abs(s), AcceptRequest)
    ensures Abs(Advance(w, s, Fork)) == Step(Files(w), Abs(s), AcceptRequest)
  {
    var s' := Advance(w, s, Fork);
    assert FromClient(w, s, s.requests[0]);
    var c :| 0 <= c < |s.clients| && s.clients[c].Running? && s.requests[0] == Request(s.clients[c].id, w.wanted[c]);
    ForkSession(w, s, c);
    ForkAskers(w, s, c);
    Assemble(w, s, s', c, AcceptRequest);
  }

  // ---------- A child moves ----------

  function AsAction(a: Act, c: nat): Action {
    match a
    case OpenFile => Open(c)
    case ReadSome(n) => ReadChunk(c, n)
    case ReadFails => ReadError(c)
    case SendData => SendChunk(c)
    case SendFails => SendError(c)
    case SendLast => SendEnd(c)
  }

  lemma ServeLinked(w: World, s: System, k: nat, a: Act)
    requires Linked(w, s) && Possible(s, Serve(k, a))
    ensures Linked(w, Advance(w, s, Serve(k, a)))
  {
    var s' := Advance(w, s, Serve(k, a));
    assert s'.children == s.children[k := s'.children[k]] && s'.children[k].request == s.children[k].request;
    forall r | FromClient(w, s, r) ensures FromClient(w, s', r) {
      StillFromClient(w, s, s', r);
    }
    assert FromClient(w, s, s.children[k].request);
  }

  lemma SameServer(children: seq<Child>, k: nat, ch: Child, id: nat)
    requires k < |children| && ch.request == children[k].request
    ensures ServedBy(children[k := ch], id) == ServedBy(children, id)
  {
    assert forall j :: 0 <= j < |children| ==> children[k := ch][j].request == children[j].request;
  }

  // A child that has not finished still has its client, and that has its queue.
  lemma QueueThere(w: World, s: System, k: nat, c: nat)
    requires Linked(w, s) && k < |s.children| && c < |s.clients| && s.clients[c].Running?
    requires s.children[k].request.clientId == s.clients[c].id && !s.children[k].work.Served?
    requires SessionOk(Files(w)[c], View(s, c))
    ensures s.clients[c].id in s.queues
  {
    ServerIs(s, k);
  }

  lemma ServeOwn(w: World, s: System, k: nat, a: Act, c: nat)
    requires Linked(w, s) && Possible(s, Serve(k, a)) && c < |s.clients| && s.clients[c].Running?
    requires s.children[k].request == Request(s.clients[c].id, w.wanted[c]) && s.clients[c].id in s.queues
    ensures CanDo(Files(w)[c], View(s, c), AsAction(a, c))
    ensures View(Advance(w, s, Serve(k, a)), c) == Do(Files(w)[c], View(s, c), AsAction(a, c))
  {
    var s' := Advance(w, s, Serve(k, a));
    ServerIs(s, k);
    SameServer(s.children, k, s'.children[k], s.clients[c].id);
  }

  lemma ServeOther(w: World, s: System, k: nat, a: Act, d: nat)
    requires Linked(w, s) && Possible(s, Serve(k, a)) && d < |s.clients|
    requires s.clients[d].NoQueue? || s.clients[d].id != s.children[k].request.clientId
    ensures View(Advance(w, s, Serve(k, a)), d) == View(s, d)
  {
    var s' := Advance(w, s, Serve(k, a));
    if s.clients[d].Running? {
      SameServer(s.children, k, s'.children[k], s.clients[d].id);
    }
    ViewFrame(s, s', d);
  }

  lemma ServeSession(w: World, s: System, k: nat, a: Act, c: nat)
    requires Linked(w, s) && Possible(s, Serve(k, a)) && c < |s.clients| && s.clients[c].Running?
    requires s.children[k].request == Request(s.clients[c].id, w.wanted[c]) && s.clients[c].id in s.queues
    ensures OneSession(w, s, Advance(w, s, Serve(k, a)), c, AsAction(a, c))
  {
    ServeOwn(w, s, k, a, c);
    forall d: nat | d < |s.clients| && d != c ensures View(Advance(w, s, Serve(k, a)), d) == View(s, d) {
      ServeOther(w, s, k, a, d);
    }
  }

  lemma ServeAskers(w: World, s: System, k: nat, a: Act)
    requires Linked(w, s) && Possible(s, Serve(k, a))
    ensures Askers(Advance(w, s, Serve(k, a))) == Askers(s)
  {
  }

  lemma ServeViews(w: World, s: System, k: nat, a: Act) returns (c: nat)
    requires Linked(w, s) && Possible(s, Serve(k, a)) && Inv(Files(w), Abs(s))
    ensures Enabled(Files(w), Abs(s), AsAction(a, c))
    ensures Abs(Advance(w, s, Serve(k, a))) == Step(Files(w), Abs(s), AsAction(a, c))
  {
    var s' := Advance(w, s, Serve(k, a));
    assert FromClient(w, s, s.children[k].request);
    c :| 0 <= c < |s.clients| && s.clients[c].Running? && s.children[k].request == Request(s.clients[c].id, w.wanted[c]);
    assert SessionOk(Files(w)[c], Views(s)[c]);
    QueueThere(w, s, k, c);
    ServeSession(w, s, k, a, c);
    ServeAskers(w, s, k, a);
    Assemble(w, s, s', c, AsAction(a, c));
  }

  // ---------- A client receives ----------

  lemma TakeLinked(w: World, s: System, c: nat)
    requires Linked(w, s) && Possible(s, Take(c))
    ensures Linked(w, Advance(w, s, Take(c)))
  {
    var s' := Advance(w, s, Take(c));
    forall r | FromClient(w, s, r) ensures FromClient(w, s', r) {
      StillFromClient(w, s, s', r);
    }
  }

  // The message that ends a session is the last one in its queue.
  lemma LastMessage(f: File, x: Session)
    requires SessionOk(f, x) && x.queue != [] && (x.client.Waiting? || x.client.Receiving?)
    ensures x.queue[0].End? || x.queue[0].Failure? ==> x.queue[1..] == []
    ensures x.queue[0].Failure? ==> x.client.Waiting?
  {
    if f.Contents? && |x.received| < |x.sent| {
      NextChunk(x.sent, |x.received|);
    }
  }

  // Receiving does not depend on what the server side does meanwhile.
  lemma ReceiveAlone(x: Session)
    requires x.queue != [] && (x.client.Waiting? || x.client.Receiving?)
    ensures var y := ReceiveStep(Session(Asked, x.queue, x.client, [], x.received, []));
            ReceiveStep(x) == x.(queue := y.queue, client := y.client, received := y.received) && y.queue == x.queue[1..]
    ensures var y := ReceiveStep(x);
            y.client.Succeeded? || y.client.Failed? <==> x.queue[0].End? || (x.queue[0].Failure? && x.client.Waiting?)
  {
  }

  lemma TakeOwn(w: World, s: System, c: nat)
    requires Linked(w, s) && Possible(s, Take(c)) && SessionOk(Files(w)[c], View(s, c))
    ensures CanDo(Files(w)[c], View(s, c), Receive(c))
    ensures View(Advance(w, s, Take(c)), c) == Do(Files(w)[c], View(s, c), Receive(c))
  {
    LastMessage(Files(w)[c], View(s, c));
    ReceiveAlone(View(s, c));
  }

  lemma TakeOther(w: World, s: System, c: nat, d: nat)
    requires Linked(w, s) && Possible(s, Take(c)) && d < |s.clients| && d != c
    ensures View(Advance(w, s, Take(c)), d) == View(s, d)
  {
    ViewFrame(s, Advance(w, s, Take(c)), d);
  }

  lemma TakeSession(w: World, s: System, c: nat)
    requires Linked(w, s) && Possible(s, Take(c)) && SessionOk(Files(w)[c], View(s, c))
    ensures OneSession(w, s, Advance(w, s, Take(c)), c, Receive(c))
  {
    TakeOwn(w, s, c);
    forall d: nat | d < |s.clients| && d != c ensures View(Advance(w, s, Take(c)), d) == View(s, d) {
      TakeOther(w, s, c, d);
    }
  }

  lemma TakeViews(w: World, s: System, c: nat)
    requires Linked(w, s) && Possible(s, Take(c)) && Inv(Files(w), Abs(s))
    ensures Enabled(Files(w), Abs(s), Receive(c))
    ensures Abs(Advance(w, s, Take(c))) == Step(Files(w), Abs(s), Receive(c))
  {
    var s' := Advance(w, s, Take(c));
    TakeLinked(w, s, c);
    assert SessionOk(Files(w)[c], Views(s)[c]);
    TakeSession(w, s, c);
    SameAskers(w, s, s');
    Assemble(w, s, s', c, Receive(c));
  }

  // ---------- Main results ----------

  // Queues that clients have still to make.
  function Unmade(clients: seq<Process>): nat {
    if clients == [] then 0 else (if clients[0].NoQueue? then 1 else 0) + Unmade(clients[1..])
  }

  lemma {:induction false} UnmadeUpdate(clients: seq<Process>, c: nat, p: Process)
    requires c < |clients|
    ensures Unmade(clients[c := p]) == Unmade(clients) - (if clients[c].NoQueue? then 1 else 0) + (if p.NoQueue? then 1 else 0)
    decreases c
  {
    if c == 0 {
      assert clients[0 := p][1..] == clients[1..];
    } else {
      assert clients[c := p][1..] == clients[1..][c - 1 := p];
      UnmadeUpdate(clients[1..], c - 1, p);
    }
  }

  lemma Single(files: seq<File>, s: State, a: Action)
    requires Enabled(files, s, a)
    ensures Runs(files, s, [a], Step(files, s, a))
  {
    assert [a][1..] == [];
  }

  predicate Faulty(m: Move) {
    m.Serve? && (m.act.ReadFails? || m.act.SendFails?)
  }

  predicate NoFaults(acts: seq<Action>) {
    forall i :: 0 <= i < |acts| ==> !acts[i].ReadError? && !acts[i].SendError?
  }

  // Every move of the processes is one step of one client's session, or makes a queue.
  lemma MoveRefines(w: World, s: System, m: Move) returns (acts: seq<Action>)
    requires Linked(w, s) && Possible(s, m) && Inv(Files(w), Abs(s))
    ensures Linked(w, Advance(w, s, m))
    ensures Runs(Files(w), Abs(s), acts, Abs(Advance(w, s, m)))
    ensures |acts| == (if m.MakeQueue? then 0 else 1) && (!Faulty(m) ==> NoFaults(acts))
  {
    match m {
      case MakeQueue(c, id) =>
        MakeQueueLinked(w, s, c, id);
        MakeQueueViews(w, s, c, id);
        acts := [];
      case Ask(c) =>
        AskLinked(w, s, c);
        AskViews(w, s, c);
        acts := [SendRequest(c)];
      case Fork =>
        ForkLinked(w, s);
        ForkViews(w, s);
        acts := [AcceptRequest];
      case Serve(k, a) =>
        ServeLinked(w, s, k, a);
        var c := ServeViews(w, s, k, a);
        acts := [AsAction(a, c)];
      case Take(c) =>
        TakeLinked(w, s, c);
        TakeViews(w, s, c);
        acts := [Receive(c)];
    }
    if !m.MakeQueue? {
      Single(Files(w), Abs(s), acts[0]);
    }
  }

  lemma MoveUnmade(w: World, s: System, m: Move)
    requires Linked(w, s) && Possible(s, m)
    ensures Unmade(Advance(w, s, m).clients) == Unmade(s.clients) - if m.MakeQueue? then 1 else 0
  {
    var s' := Advance(w, s, m);
    if m.MakeQueue? || m.Ask? || m.Take? {
      UnmadeUpdate(s.clients, m.c, s'.clients[m.c]);
    }
  }

  lemma {:induction false} Compose(files: seq<File>, s: State, x: seq<Action>, m: State, y: seq<Action>, s': State)
    requires Runs(files, s, x, m) && Runs(files, m, y, s')
    ensures Runs(files, s, x + y, s')
    decreases |x|
  {
    if x == [] {
      assert x + y == y;
    } else {
      assert (x + y)[1..] == x[1..] + y;
      Compose(files, Step(files, s, x[0]), x[1..], m, y, s');
    }
  }

  predicate NoneFaulty(moves: seq<Move>) {
    forall i :: 0 <= i < |moves| ==> !Faulty(moves[i])
  }

  lemma FirstFault(moves: seq<Move>)
    requires moves != []
    ensures NoneFaulty(moves) <==> !Faulty(moves[0]) && NoneFaulty(moves[1..])
  {
    assert forall i :: 1 <= i < |moves| ==> moves[i] == moves[1..][i - 1];
  }

  lemma NoFaultsConcat(x: seq<Action>, y: seq<Action>)
    ensures NoFaults(x) && NoFaults(y) ==> NoFaults(x + y)
  {
  }

  ghost predicate Sound(w: World, s: System) {
    Linked(w, s) && Inv(Files(w), Abs(s))
  }

  lemma MoveSound(w: World, s: System, m: Move) returns (acts: seq<Action>)
    requires Sound(w, s) && Possible(s, m)
    ensures Sound(w, Advance(w, s, m))
    ensures Runs(Files(w), Abs(s), acts, Abs(Advance(w, s, m)))
    ensures 1 + Unmade(Advance(w, s, m).clients) == |acts| + Unmade(s.clients)
    ensures !Faulty(m) ==> NoFaults(acts)
  {
    acts := MoveRefines(w, s, m);
    MoveUnmade(w, s, m);
    RunFromInv(Files(w), Abs(s), acts, Abs(Advance(w, s, m)));
  }

  // Every run of the processes is a run of independent sessions.
  lemma {:induction false} RunRefines(w: World, s: System, moves: seq<Move>, s': System) returns (acts: seq<Action>)
    requires Sound(w, s) && Happens(w, s, moves, s')
    ensures Sound(w, s') && Runs(Files(w), Abs(s), acts, Abs(s'))
    ensures |moves| + Unmade(s'.clients) == |acts| + Unmade(s.clients)
    ensures NoneFaulty(moves) ==> NoFaults(acts)
    decreases |moves|
  {
    if moves == [] {
      acts := [];
    } else {
      FirstFault(moves);
      var s1 := Advance(w, s, moves[0]);
      var first := MoveSound(w, s, moves[0]);
      var rest := RunRefines(w, s1, moves[1..], s');
      acts := first + rest;
      Compose(Files(w), Abs(s), first, Abs(s1), rest, Abs(s'));
      NoFaultsConcat(first, rest);
    }
  }

  lemma {:induction false} AllUnmade(n: nat)
    ensures Unmade(seq(n, _ => NoQueue)) == n
    decreases n
  {
    if n > 0 {
      assert seq(n, _ => NoQueue)[1..] == seq(n - 1, _ => NoQueue);
      AllUnmade(n - 1);
    }
  }

  lemma FromStart(w: World, moves: seq<Move>, s: System) returns (acts: seq<Action>)
    requires Happens(w, Start(w), moves, s)
    ensures Sound(w, s)
    ensures Runs(Files(w), Init(Files(w)), acts, Abs(s)) && |moves| <= |acts| + |w.wanted|
    ensures NoneFaulty(moves) ==> NoFaults(acts)
  {
    InitInv(Files(w));
    AllUnmade(|w.wanted|);
    assert Abs(Start(w)) == Init(Files(w));
    acts := RunRefines(w, Start(w), moves, s);
  }

  lemma {:induction false} FreshId(used: set<nat>) returns (id: nat)
    ensures id !in used && forall x :: x in used ==> x < id
    decreases |used|
  {
    if used == {} {
      id := 0;
    } else {
      var x :| x in used;
      var y := FreshId(used - {x});
      id := if x < y then y else x + 1;
      assert forall z :: z in used ==> z == x || z in used - {x};
    }
  }

  // The child that works for a client.
  predicate Serves(w: World, s: System, k: int, c: int) {
    && 0 <= k < |s.children| && 0 <= c < |s.clients| == |w.wanted| && s.clients[c].Running?
    && s.children[k].request == Request(s.clients[c].id, w.wanted[c])
  }

  predicate Waits(s: System, id: nat) {
    exists i :: 0 <= i < |s.requests| && s.requests[i].clientId == id
  }

  // A move that brings a client forward: its own, its child's, or that of the server while the
  // client's request waits in its queue.
  predicate ForClient(w: World, s: System, c: nat, m: Move) {
    match m
    case MakeQueue(d, _) => d == c
    case Ask(d) => d == c
    case Take(d) => d == c
    case Serve(k, _) => Serves(w, s, k, c)
    case Fork => c < |s.clients| && s.clients[c].Running? && Waits(s, s.clients[c].id)
  }

  lemma ChildGoesOn(w: World, s: System, c: nat, k: nat) returns (m: Move)
    requires Linked(w, s) && c < |s.clients| && s.clients[c].Running? && !Finishing(s.clients[c])
    requires k == ServedBy(s.children, s.clients[c].id) < |s.children| && SessionOk(Files(w)[c], View(s, c))
    ensures Possible(s, m) && !Faulty(m) && ForClient(w, s, c, m)
  {
    assert Started(s.children[k].work) && FromClient(w, s, s.children[k].request);
    if !s.children[k].work.Served? {
      QueueThere(w, s, k, c);
    }
    match s.children[k].work {
      case Opening => m := Serve(k, OpenFile);
      case Reading(left) =>
        m := Serve(k, ReadSome(if |left| <= RESPONSE_MSG_DATA_SIZE then |left| else RESPONSE_MSG_DATA_SIZE));
      case Sending(_, _) => m := Serve(k, SendData);
      case Ending => m := Serve(k, SendLast);
      case Served => m := Take(c);
    }
  }

  // A client that is not done has something ahead of it that is no error.
  lemma ClientGoesOn(w: World, s: System, c: nat) returns (m: Move)
    requires Sound(w, s) && c < |s.clients| && !Finishing(s.clients[c])
    ensures Possible(s, m) && !Faulty(m) && ForClient(w, s, c, m)
  {
    var p, x := s.clients[c], View(s, c);
    assert SessionOk(Files(w)[c], Views(s)[c]);
    if p.NoQueue? {
      var id := FreshId(s.used);
      m := MakeQueue(c, id);
    } else if p.HasQueue? {
      m := Ask(c);
    } else if ServedBy(s.children, p.id) == |s.children| {
      assert Abs(s).sessions[c].service.Asked? && c in Askers(s);
      var i :| 0 <= i < |s.requests| && Askers(s)[i] == c;
      assert s.requests[i].clientId == p.id;
      m := Fork;
    } else {
      m := ChildGoesOn(w, s, c, ServedBy(s.children, p.id));
    }
  }

  ghost predicate HasClient(w: World, s: System, k: int) {
    exists c :: Serves(w, s, k, c)
  }

  // Every child works for exactly one client, on the path that this client asked for, and no
  // client is served by two.
  ghost predicate OneToOne(w: World, s: System) {
    && (forall k :: 0 <= k < |s.children| ==> HasClient(w, s, k))
    && (forall k, c, d :: Serves(w, s, k, c) && Serves(w, s, k, d) ==> c == d)
    && (forall k, j, c :: Serves(w, s, k, c) && Serves(w, s, j, c) ==> k == j)
  }

  lemma ServesOneToOne(w: World, s: System)
    requires Linked(w, s)
    ensures OneToOne(w, s)
  {
    forall k | 0 <= k < |s.children| ensures HasClient(w, s, k) {
      assert FromClient(w, s, s.children[k].request);
      var c :| 0 <= c < |s.clients| && s.clients[c].Running? && s.children[k].request == Request(s.clients[c].id, w.wanted[c]);
      assert Serves(w, s, k, c);
    }
  }

  // What stands in a private queue has been sent by the child that serves its client: the chunks
  // of the client's own file that it has still to receive, then END, or one FAILURE.
  ghost predicate OwnMessages(w: World, s: System)
    requires |s.clients| == |w.wanted|
  {
    forall c: nat :: c < |s.clients| ==>
      && SessionOk(w.files(w.wanted[c]), View(s, c))
      && (!s.clients[c].NoQueue? && QueueOf(s, s.clients[c].id) != [] ==>
            Serves(w, s, ServedBy(s.children, s.clients[c].id), c))
  }

  // Before its child is forked a client's queue is empty.
  lemma NothingSent(f: File, x: Session)
    requires SessionOk(f, x) && x.service.Asked? && x.sent == []
    ensures x.queue == []
  {
  }

  lemma SentByServer(w: World, s: System, c: nat)
    requires Linked(w, s) && c < |s.clients| && !s.clients[c].NoQueue? && QueueOf(s, s.clients[c].id) != []
    requires SessionOk(Files(w)[c], View(s, c))
    ensures Serves(w, s, ServedBy(s.children, s.clients[c].id), c)
  {
    var k := ServedBy(s.children, s.clients[c].id);
    if k < |s.children| {
      assert FromClient(w, s, s.children[k].request);
    } else if s.clients[c].Running? {
      NothingSent(Files(w)[c], View(s, c));
    }
  }

  lemma QueuesOwnMessages(w: World, s: System)
    requires Sound(w, s)
    ensures OwnMessages(w, s)
  {
    forall c: nat | c < |s.clients|
      ensures SessionOk(w.files(w.wanted[c]), View(s, c))
      ensures !s.clients[c].NoQueue? && QueueOf(s, s.clients[c].id) != [] ==>
                Serves(w, s, ServedBy(s.children, s.clients[c].id), c)
    {
      assert SessionOk(Files(w)[c], Views(s)[c]);
      if !s.clients[c].NoQueue? && QueueOf(s, s.clients[c].id) != [] {
        SentByServer(w, s, c);
      }
    }
  }

  // No child sends to a queue that is gone.
  ghost predicate QueuesStay(w: World, s: System) {
    forall k, c :: Serves(w, s, k, c) && !s.children[k].work.Served? ==> s.clients[c].id in s.queues
  }

  lemma ChildrenHaveQueues(w: World, s: System)
    requires Linked(w, s) && OwnMessages(w, s)
    ensures QueuesStay(w, s)
  {
    forall k, c | Serves(w, s, k, c) && !s.children[k].work.Served? ensures s.clients[c].id in s.queues {
      QueueThere(w, s, k, c);
    }
  }

  // A client that is not done can go on without an error.
  ghost predicate GoesOn(w: World, s: System) {
    forall c: nat :: c < |s.clients| && !Finishing(s.clients[c]) ==>
      exists m :: Possible(s, m) && !Faulty(m) && ForClient(w, s, c, m)
  }

  // Every reachable state, with any number of clients and forked children in any interleaving;
  // every run ends.
  lemma ReachableStates(w: World, moves: seq<Move>, s: System)
    requires Happens(w, Start(w), moves, s)
    ensures |s.clients| == |w.wanted|
    ensures OneToOne(w, s)
    ensures OwnMessages(w, s)
    ensures QueuesStay(w, s)
    ensures GoesOn(w, s)
    ensures |moves| <= Work(Files(w)) + |w.wanted|
  {
    var acts := FromStart(w, moves, s);
    FileSessions.ReachableStates(Files(w), acts, Abs(s));
    ServesOneToOne(w, s);
    QueuesOwnMessages(w, s);
    ChildrenHaveQueues(w, s);
    forall c: nat | c < |s.clients| && !Finishing(s.clients[c])
      ensures exists m :: Possible(s, m) && !Faulty(m) && ForClient(w, s, c, m)
    {
      var m := ClientGoesOn(w, s, c);
    }
  }

  // A client that is done has failed exactly when its path cannot be opened. One that has
  // succeeded has received a prefix of its file and counted exactly that, and the whole file if
  // no read or send failed.
  lemma ClientTotals(w: World, moves: seq<Move>, s: System, c: nat)
    requires Happens(w, Start(w), moves, s) && c < |s.clients| == |w.wanted| && Finishing(s.clients[c])
    ensures s.clients[c].client.Failed? <==> w.files(w.wanted[c]).Missing?
    ensures s.clients[c].client.Succeeded? ==>
              var p, f := s.clients[c], w.files(w.wanted[c]);
              && Concat(p.received) <= f.bytes
              && p.client.totalBytes == |Concat(p.received)| && p.client.numMsgs == |p.received| + 1
              && (forall i :: 0 <= i < |p.received| ==> Chunk(p.received[i]))
              && (NoneFaulty(moves) ==> Concat(p.received) == f.bytes)
  {
    var acts := FromStart(w, moves, s);
    var x := View(s, c);
    assert Views(s)[c] == x && SessionOk(Files(w)[c], x);
    ClientOutcome(Files(w), acts, Abs(s), c);
    if x.client.Succeeded? {
      FileSessions.ClientTotals(Files(w), acts, Abs(s), c);
      if NoneFaulty(moves) {
        NoErrorsNothingLost(Files(w), Init(Files(w)), acts, Abs(s));
      }
    }
  }
}
