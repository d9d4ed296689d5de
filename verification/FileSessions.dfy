/**
 The file server as each client sees it: one session per client, made of the client, its private
 queue and what the server side does for it. Sessions have nothing in common but the order in
 which their requests are accepted. That the processes of FileServer behave like this is proved there.
 */
module FileSessions {

  type Byte = bv8

  const RESPONSE_MSG_DATA_SIZE: nat := 8192

  datatype Response = Failure(text: seq<Byte>) | Data(bytes: seq<Byte>) | End

  // The file a client asks for: open fails with a message, or the contents.
  datatype File = Missing(reason: seq<Byte>) | Contents(bytes: seq<Byte>)

  // What the server side does next for one client.
  datatype Service =
    | NotAsked                                        // the client has not sent its request
    | Asked                                           // the request is in the server's queue
    | Opening                                         // a child has been forked
    | Reading(left: seq<Byte>)                        // the file from the current offset on
    | Sending(chunk: seq<Byte>, left: seq<Byte>)      // read, about to be sent
    | Ending                                          // about to send RESPONSE_MSG_END
    | Served

  // The receiving half of a client.
  datatype Client =
    | Waiting                                         // for the first response
    | Receiving(totalBytes: nat, numMsgs: nat)        // has received only DATA so far
    | Succeeded(totalBytes: nat, numMsgs: nat)        // has received END
    | Failed                                          // has received FAILURE

  // One client with its private queue. `sent` and `received` are histories of the chunks; `lost`
  // is what a read or send error has kept from being sent.
  datatype Session = Session(
    service: Service,
    queue: seq<Response>,
    client: Client,
    sent: seq<seq<Byte>>,
    received: seq<seq<Byte>>,
    lost: seq<Byte>)

  datatype State = State(requests: seq<nat>, sessions: seq<Session>)

  // `n` is what read() returns; errors may strike a child's read or its msgsnd of a chunk.
  datatype Action =
    | SendRequest(c: nat)
    | AcceptRequest
    | Open(c: nat)
    | ReadChunk(c: nat, n: nat)
    | ReadError(c: nat)
    | SendChunk(c: nat)
    | SendError(c: nat)
    | SendEnd(c: nat)
    | Receive(c: nat)

  // ---------- The steps of one session ----------

  predicate CanDo(f: File, s: Session, a: Action) {
    match a
    case SendRequest(_) => s.service.NotAsked?
    case AcceptRequest => s.service.Asked?
    case Open(_) => s.service.Opening?
    case ReadChunk(_, n) =>
      s.service.Reading? && n <= RESPONSE_MSG_DATA_SIZE && n <= |s.service.left| && (n == 0 <==> s.service.left == [])
    case ReadError(_) => s.service.Reading?
    case SendChunk(_) => s.service.Sending?
    case SendError(_) => s.service.Sending?
    case SendEnd(_) => s.service.Ending?
    case Receive(_) => s.queue != [] && (s.client.Waiting? || s.client.Receiving?)
  }

  function ReceiveStep(s: Session): Session
    requires s.queue != [] && (s.client.Waiting? || s.client.Receiving?)
  {
    var (t, m) := if s.client.Receiving? then (s.client.totalBytes, s.client.numMsgs) else (0, 0);
    match s.queue[0]
    case Failure(text) =>
      // only the first response is tested for failure; a later one would count as data
      s.(queue := s.queue[1..], client := if s.client.Waiting? then Failed else Receiving(t + |text|, m + 1))
    case Data(b) =>
      s.(queue := s.queue[1..], client := Receiving(t + |b|, m + 1), received := s.received + [b])
    case End => s.(queue := s.queue[1..], client := Succeeded(t, m + 1))
  }

  function Do(f: File, s: Session, a: Action): Session
    requires CanDo(f, s, a)
  {
    match a
    case SendRequest(_) => s.(service := Asked)
    case AcceptRequest => s.(service := Opening)
    case Open(_) =>
      if f.Missing? then s.(service := Served, queue := s.queue + [Failure(f.reason)]) else s.(service := Reading(f.bytes))
    case ReadChunk(_, n) =>
      if n == 0 then s.(service := Ending) else s.(service := Sending(s.service.left[..n], s.service.left[n..]))
    case ReadError(_) => s.(service := Ending, lost := s.service.left)
    case SendChunk(_) =>
      s.(service := Reading(s.service.left), queue := s.queue + [Data(s.service.chunk)],
         sent := s.sent + [s.service.chunk])
    case SendError(_) => s.(service := Ending, lost := s.service.chunk + s.service.left)
    case SendEnd(_) => s.(service := Served, queue := s.queue + [End])
    case Receive(_) => ReceiveStep(s)
  }

  // ---------- The whole system ----------

  predicate Enabled(files: seq<File>, s: State, a: Action) {
    if a.AcceptRequest? then
      s.requests != [] && s.requests[0] < |s.sessions| && |s.sessions| == |files| &&
      CanDo(files[s.requests[0]], s.sessions[s.requests[0]], a)
    else
      a.c < |s.sessions| && |s.sessions| == |files| && CanDo(files[a.c], s.sessions[a.c], a)
  }

  function Step(files: seq<File>, s: State, a: Action): State
    requires Enabled(files, s, a)
  {
    var c := if a.AcceptRequest? then s.requests[0] else a.c;
    var requests := match a
      case SendRequest(_) => s.requests + [c]
      case AcceptRequest => s.requests[1..]
      case _ => s.requests;
    State(requests, s.sessions[c := Do(files[c], s.sessions[c], a)])
  }

  predicate Runs(files: seq<File>, s: State, acts: seq<Action>, s': State)
    decreases |acts|
  {
    if acts == [] then s == s'
    else Enabled(files, s, acts[0]) && Runs(files, Step(files, s, acts[0]), acts[1..], s')
  }

  const NEW_SESSION := Session(NotAsked, [], Waiting, [], [], [])

  function Init(files: seq<File>): State {
    State([], seq(|files|, _ => NEW_SESSION))
  }

  // ---------- The invariant of one session ----------

  function Concat(chunks: seq<seq<Byte>>): seq<Byte> {
    if chunks == [] then [] else Concat(chunks[..|chunks| - 1]) + chunks[|chunks| - 1]
  }

  function AsData(chunks: seq<seq<Byte>>): seq<Response> {
    seq(|chunks|, i requires 0 <= i < |chunks| => Data(chunks[i]))
  }

  // What the server side has kept back so far.
  function Unsent(f: File, s: Session): seq<Byte> {
    match s.service
    case Reading(left) => left
    case Sending(chunk, left) => chunk + left
    case Ending => s.lost
    case Served => s.lost
    case _ => if f.Contents? then f.bytes else []
  }

  predicate Chunk(b: seq<Byte>) {
    1 <= |b| <= RESPONSE_MSG_DATA_SIZE
  }

  // Nothing of the file is lost on the way: chunks sent, and what is kept back.
  ghost predicate SplitsFile(f: File, s: Session) {
    && f.Contents?
    && Concat(s.sent) + Unsent(f, s) == f.bytes
    && (forall i :: 0 <= i < |s.sent| ==> Chunk(s.sent[i]))
    && (s.service.Sending? ==> Chunk(s.service.chunk))
    && (!s.service.Ending? && !s.service.Served? ==> s.lost == [])
  }

  // The queue holds the chunks sent and not received, then END.
  ghost predicate Queues(s: Session) {
    && s.received <= s.sent
    && (s.client.Succeeded? ==> s.service.Served? && s.queue == [] && s.received == s.sent)
    && (!s.client.Succeeded? ==>
          s.queue == AsData(s.sent[|s.received|..]) + if s.service.Served? then [End] else [])
  }

  // The client has counted what it has received.
  predicate Counts(s: Session) {
    && !s.client.Failed?
    && (s.client.Waiting? <==> s.received == [] && !s.client.Succeeded?)
    && (s.client.Receiving? ==>
          s.client.totalBytes == |Concat(s.received)| && s.client.numMsgs == |s.received|)
    && (s.client.Succeeded? ==>
          s.client.totalBytes == |Concat(s.received)| && s.client.numMsgs == |s.received| + 1)
  }

  // The responses to a file that can be opened: its chunks in order, then END.
  ghost predicate ServesFile(f: File, s: Session) {
    SplitsFile(f, s) && Queues(s) && Counts(s)
  }

  // The response to a file that cannot be opened: one FAILURE.
  predicate ReportsFailure(f: File, s: Session) {
    && f.Missing?
    && s.sent == [] && s.received == [] && s.lost == []
    && (s.service.Served? ==> (s.queue == [Failure(f.reason)] && s.client.Waiting?) || (s.queue == [] && s.client.Failed?))
    && (!s.service.Served? ==> s.queue == [] && s.client.Waiting?)
    && !s.service.Reading? && !s.service.Sending? && !s.service.Ending?
  }

  ghost predicate SessionOk(f: File, s: Session) {
    if f.Missing? then ReportsFailure(f, s) else ServesFile(f, s)
  }

  // ---------- Preservation ----------

  lemma ConcatSnoc(chunks: seq<seq<Byte>>, b: seq<Byte>)
    ensures Concat(chunks + [b]) == Concat(chunks) + b
  {
    assert (chunks + [b])[..|chunks|] == chunks;
  }

  lemma Associate(a: seq<Byte>, b: seq<Byte>, c: seq<Byte>)
    ensures a + (b + c) == a + b + c
  {
  }

  lemma FailureStep(f: File, s: Session, a: Action)
    requires ReportsFailure(f, s) && CanDo(f, s, a)
    ensures ReportsFailure(f, Do(f, s, a))
  {
  }

  lemma ReadSplits(f: File, s: Session, a: Action)
    requires SplitsFile(f, s) && CanDo(f, s, a) && a.ReadChunk?
    ensures SplitsFile(f, Do(f, s, a))
  {
    if a.n > 0 {
      assert s.service.left == s.service.left[..a.n] + s.service.left[a.n..];
    }
  }

  lemma SendSplits(f: File, s: Session, a: Action)
    requires SplitsFile(f, s) && CanDo(f, s, a) && a.SendChunk?
    ensures SplitsFile(f, Do(f, s, a))
  {
    ConcatSnoc(s.sent, s.service.chunk);
    Associate(Concat(s.sent), s.service.chunk, s.service.left);
  }

  lemma ErrorSplits(f: File, s: Session, a: Action)
    requires SplitsFile(f, s) && CanDo(f, s, a) && (a.ReadError? || a.SendError?)
    ensures SplitsFile(f, Do(f, s, a))
  {
  }

  lemma OpenSplits(f: File, s: Session, a: Action)
    requires SplitsFile(f, s) && CanDo(f, s, a) && (a.Open? || a.SendRequest? || a.AcceptRequest?)
    ensures SplitsFile(f, Do(f, s, a))
  {
  }

  // Only the server side of a session matters.
  lemma SplitsAlone(f: File, s: Session, s': Session)
    requires SplitsFile(f, s) && s'.sent == s.sent && s'.lost == s.lost
    requires s'.service == s.service || (s.service.Ending? && s'.service.Served?)
    ensures SplitsFile(f, s')
  {
  }

  lemma EndSplits(f: File, s: Session, a: Action)
    requires SplitsFile(f, s) && CanDo(f, s, a) && (a.SendEnd? || a.Receive?)
    ensures SplitsFile(f, Do(f, s, a))
  {
    var s' := Do(f, s, a);
    assert s'.sent == s.sent && s'.lost == s.lost;
    SplitsAlone(f, s, s');
  }

  lemma StepSplits(f: File, s: Session, a: Action)
    requires SplitsFile(f, s) && CanDo(f, s, a)
    ensures SplitsFile(f, Do(f, s, a))
  {
    if a.ReadChunk? {
      ReadSplits(f, s, a);
    } else if a.SendChunk? {
      SendSplits(f, s, a);
    } else if a.ReadError? || a.SendError? {
      ErrorSplits(f, s, a);
    } else if a.SendEnd? || a.Receive? {
      EndSplits(f, s, a);
    } else {
      OpenSplits(f, s, a);
    }
  }

  lemma SentQueues(s: Session, chunk: seq<Byte>)
    requires s.received <= s.sent
    ensures AsData((s.sent + [chunk])[|s.received|..]) == AsData(s.sent[|s.received|..]) + [Data(chunk)]
  {
    assert (s.sent + [chunk])[|s.received|..] == s.sent[|s.received|..] + [chunk];
  }

  lemma StepQueues(f: File, s: Session, a: Action)
    requires f.Contents? && Queues(s) && CanDo(f, s, a) && !a.Receive?
    ensures Queues(Do(f, s, a))
  {
    if a.SendChunk? {
      SentQueues(s, s.service.chunk);
    }
  }

  lemma NextChunk(sent: seq<seq<Byte>>, r: nat)
    requires r < |sent|
    ensures AsData(sent[r..]) == [Data(sent[r])] + AsData(sent[r + 1..])
    ensures sent[..r] + [sent[r]] == sent[..r + 1]
  {
  }

  lemma ReceiveQueues(f: File, s: Session, a: Action)
    requires Queues(s) && CanDo(f, s, a) && a.Receive?
    ensures Queues(Do(f, s, a))
    ensures s.queue[0] == if |s.received| < |s.sent| then Data(s.sent[|s.received|]) else End
  {
    var r := |s.received|;
    if r < |s.sent| {
      NextChunk(s.sent, r);
    } else {
      assert s.sent[r..] == [] && s.received == s.sent;
    }
  }

  lemma DataCounts(s: Session, b: seq<Byte>)
    requires Counts(s) && s.queue != [] && s.queue[0] == Data(b) && (s.client.Waiting? || s.client.Receiving?)
    ensures Counts(ReceiveStep(s))
  {
    ConcatSnoc(s.received, b);
  }

  lemma StepCounts(f: File, s: Session, a: Action)
    requires f.Contents? && Queues(s) && Counts(s) && CanDo(f, s, a)
    ensures Counts(Do(f, s, a))
  {
    if a.Receive? {
      ReceiveQueues(f, s, a);
      if |s.received| < |s.sent| {
        DataCounts(s, s.sent[|s.received|]);
      }
    }
  }

  lemma SessionStep(f: File, s: Session, a: Action)
    requires SessionOk(f, s) && CanDo(f, s, a)
    ensures SessionOk(f, Do(f, s, a))
  {
    if f.Missing? {
      FailureStep(f, s, a);
    } else {
      StepSplits(f, s, a);
      StepCounts(f, s, a);
      if a.Receive? {
        ReceiveQueues(f, s, a);
      } else {
        StepQueues(f, s, a);
      }
    }
  }

  // The server's queue holds each request that waits, once.
  predicate RequestsOk(s: State) {
    && (forall i :: 0 <= i < |s.requests| ==>
          s.requests[i] < |s.sessions| && s.sessions[s.requests[i]].service.Asked?)
    && (forall c: nat | c < |s.sessions| && s.sessions[c].service.Asked? :: c in s.requests)
    && (forall i, j :: 0 <= i < j < |s.requests| ==> s.requests[i] != s.requests[j])
  }

  ghost predicate SessionsOk(files: seq<File>, sessions: seq<Session>) {
    |sessions| == |files| && forall c :: 0 <= c < |files| ==> SessionOk(files[c], sessions[c])
  }

  ghost predicate Inv(files: seq<File>, s: State) {
    SessionsOk(files, s.sessions) && RequestsOk(s)
  }

  // Only sending and accepting a request change who is waiting.
  lemma WaitingUnchanged(files: seq<File>, s: State, a: Action)
    requires RequestsOk(s) && Enabled(files, s, a) && !a.AcceptRequest? && !a.SendRequest?
    ensures RequestsOk(Step(files, s, a))
  {
  }

  lemma RequestSent(files: seq<File>, s: State, a: Action)
    requires RequestsOk(s) && Enabled(files, s, a) && a.SendRequest?
    ensures RequestsOk(Step(files, s, a))
  {
    var s' := Step(files, s, a);
    assert a.c !in s.requests;
    assert s'.requests[|s.requests|] == a.c;
    assert forall c :: c in s.requests ==> c in s'.requests;
  }

  lemma RequestAccepted(files: seq<File>, s: State, a: Action)
    requires RequestsOk(s) && Enabled(files, s, a) && a.AcceptRequest?
    ensures RequestsOk(Step(files, s, a))
  {
  }

  lemma StepKeepsRequests(files: seq<File>, s: State, a: Action)
    requires RequestsOk(s) && Enabled(files, s, a)
    ensures RequestsOk(Step(files, s, a))
  {
    if a.AcceptRequest? {
      RequestAccepted(files, s, a);
    } else if a.SendRequest? {
      RequestSent(files, s, a);
    } else {
      WaitingUnchanged(files, s, a);
    }
  }

  lemma OneSessionChanged(files: seq<File>, sessions: seq<Session>, c: nat, x: Session)
    requires SessionsOk(files, sessions) && c < |files| && SessionOk(files[c], x)
    ensures SessionsOk(files, sessions[c := x])
  {
  }

  lemma StepKeepsSessions(files: seq<File>, s: State, a: Action)
    requires SessionsOk(files, s.sessions) && Enabled(files, s, a)
    ensures SessionsOk(files, Step(files, s, a).sessions)
  {
    var c := if a.AcceptRequest? then s.requests[0] else a.c;
    SessionStep(files[c], s.sessions[c], a);
    OneSessionChanged(files, s.sessions, c, Do(files[c], s.sessions[c], a));
  }

  lemma StepKeepsInv(files: seq<File>, s: State, a: Action)
    requires Inv(files, s) && Enabled(files, s, a)
    ensures Inv(files, Step(files, s, a))
  {
    StepKeepsSessions(files, s, a);
    StepKeepsRequests(files, s, a);
  }

  // ---------- Progress ----------

  predicate Finished(s: Session) {
    s.client.Succeeded? || s.client.Failed?
  }

  // An unfinished client always has a step ahead of it, without any error.
  lemma CanGoOn(files: seq<File>, s: State, c: nat) returns (a: Action)
    requires Inv(files, s) && c < |files| && !Finished(s.sessions[c])
    ensures Enabled(files, s, a) && !a.ReadError? && !a.SendError?
  {
    var x := s.sessions[c];
    assert SessionOk(files[c], x);
    match x.service {
      case NotAsked => a := SendRequest(c);
      case Asked => a := AcceptRequest;
      case Opening => a := Open(c);
      case Reading(left) =>
        a := ReadChunk(c, if |left| <= RESPONSE_MSG_DATA_SIZE then |left| else RESPONSE_MSG_DATA_SIZE);
      case Sending(_, _) => a := SendChunk(c);
      case Ending => a := SendEnd(c);
      case Served => a := Receive(c);
    }
  }

  // Steps a session has left if every read returns one byte.
  function Left(f: File, s: Session): nat {
    |s.queue| +
    match s.service
    case NotAsked => 3 * (if f.Contents? then |f.bytes| else 0) + 6
    case Asked => 3 * (if f.Contents? then |f.bytes| else 0) + 5
    case Opening => 3 * (if f.Contents? then |f.bytes| else 0) + 4
    case Reading(left) => 3 * |left| + 3
    case Sending(chunk, left) => 3 * (|chunk| + |left|) + 2
    case Ending => 2
    case Served => 0
  }

  lemma DoLowersLeft(f: File, s: Session, a: Action)
    requires CanDo(f, s, a) && (s.service.Sending? ==> s.service.chunk != [])
    ensures Left(f, Do(f, s, a)) < Left(f, s)
  {
  }

  function AllLeft(files: seq<File>, ss: seq<Session>): nat
    requires |files| == |ss|
  {
    if ss == [] then 0 else Left(files[0], ss[0]) + AllLeft(files[1..], ss[1..])
  }

  lemma {:induction false} AllLeftUpdate(files: seq<File>, ss: seq<Session>, c: nat, x: Session)
    requires |files| == |ss| && c < |ss|
    ensures AllLeft(files, ss[c := x]) == AllLeft(files, ss) - Left(files[c], ss[c]) + Left(files[c], x)
    decreases c
  {
    if c == 0 {
      assert ss[0 := x][1..] == ss[1..];
    } else {
      assert ss[c := x][1..] == ss[1..][c - 1 := x];
      AllLeftUpdate(files[1..], ss[1..], c - 1, x);
    }
  }

  lemma {:induction false} RunFromInv(files: seq<File>, s: State, acts: seq<Action>, s': State)
    requires Inv(files, s) && Runs(files, s, acts, s')
    ensures Inv(files, s')
    ensures |acts| + AllLeft(files, s'.sessions) <= AllLeft(files, s.sessions)
    decreases |acts|
  {
    if acts != [] {
      var a := acts[0];
      var c := if a.AcceptRequest? then s.requests[0] else a.c;
      StepKeepsInv(files, s, a);
      assert SessionOk(files[c], s.sessions[c]);
      DoLowersLeft(files[c], s.sessions[c], a);
      AllLeftUpdate(files, s.sessions, c, Do(files[c], s.sessions[c], a));
      RunFromInv(files, Step(files, s, a), acts[1..], s');
    }
  }

  function Work(files: seq<File>): nat {
    if files == [] then 0
    else 3 * (if files[0].Contents? then |files[0].bytes| else 0) + 6 + Work(files[1..])
  }

  lemma {:induction false} InitialWork(files: seq<File>)
    ensures AllLeft(files, Init(files).sessions) == Work(files)
    decreases |files|
  {
    if files != [] {
      assert Init(files).sessions[1..] == Init(files[1..]).sessions;
      InitialWork(files[1..]);
    }
  }

  lemma InitInv(files: seq<File>)
    ensures Inv(files, Init(files))
  {
  }

  // ---------- Main results ----------

  // Every reachable state, with any number of clients and any interleaving: a client's queue
  // holds, in order, the chunks of its own file that were sent and not yet received, then END
  // once the child is done; or a single FAILURE. Nothing gets stuck, and every run ends.
  lemma ReachableStates(files: seq<File>, acts: seq<Action>, s: State)
    requires Runs(files, Init(files), acts, s)
    ensures |s.sessions| == |files|
    ensures forall c :: 0 <= c < |files| ==> SessionOk(files[c], s.sessions[c])
    ensures forall c: nat | c < |files| && !Finished(s.sessions[c]) ::
              exists a :: Enabled(files, s, a) && !a.ReadError? && !a.SendError?
    ensures |acts| <= Work(files)
  {
    InitInv(files);
    InitialWork(files);
    RunFromInv(files, Init(files), acts, s);
    forall c: nat | c < |files| && !Finished(s.sessions[c])
      ensures exists a :: Enabled(files, s, a) && !a.ReadError? && !a.SendError?
    {
      var a := CanGoOn(files, s, c);
    }
  }

  // What a client that succeeds has counted: the bytes of a prefix of its file, in that many
  // chunks plus END; and the whole file exactly when no error kept anything back.
  lemma ClientTotals(files: seq<File>, acts: seq<Action>, s: State, c: nat)
    requires Runs(files, Init(files), acts, s) && c < |files|
    requires |s.sessions| == |files| && s.sessions[c].client.Succeeded?
    ensures files[c].Contents?
    ensures var x := s.sessions[c];
            && Concat(x.received) <= files[c].bytes
            && x.client.totalBytes == |files[c].bytes| - |x.lost|
            && x.client.numMsgs == |x.received| + 1
            && (Concat(x.received) == files[c].bytes <==> x.lost == [])
  {
    ReachableStates(files, acts, s);
    assert SessionOk(files[c], s.sessions[c]);
  }

  // A client fails exactly when its file cannot be opened.
  lemma ClientOutcome(files: seq<File>, acts: seq<Action>, s: State, c: nat)
    requires Runs(files, Init(files), acts, s) && c < |files|
    requires |s.sessions| == |files| && Finished(s.sessions[c])
    ensures s.sessions[c].client.Failed? <==> files[c].Missing?
  {
    ReachableStates(files, acts, s);
    assert SessionOk(files[c], s.sessions[c]);
  }

  // Without read and send errors nothing is lost.
  lemma {:induction false} NoErrorsNothingLost(files: seq<File>, s: State, acts: seq<Action>, s': State)
    requires Runs(files, s, acts, s')
    requires forall i :: 0 <= i < |acts| ==> !acts[i].ReadError? && !acts[i].SendError?
    requires forall c :: 0 <= c < |s.sessions| ==> s.sessions[c].lost == []
    ensures |s'.sessions| == |s.sessions|
    ensures forall c :: 0 <= c < |s'.sessions| ==> s'.sessions[c].lost == []
    decreases |acts|
  {
    if acts != [] {
      assert forall i :: 0 <= i < |acts[1..]| ==> acts[1..][i] == acts[i + 1];
      NoErrorsNothingLost(files, Step(files, s, acts[0]), acts[1..], s');
    }
  }
}
