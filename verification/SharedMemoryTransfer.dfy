/**
 svshm_xfr_writer and svshm_xfr_reader: a file is copied from the writer's standard input to
 the reader's standard output through one shared buffer, handed back and forth with two binary
 semaphores. Every semaphore operation, read, write and access to the shared size is a step.
 */
module SharedMemoryTransfer {

  const BUF_SIZE: nat := 1024

  type Byte = bv8

  datatype WriterPc =
    | Enter         // stores BUF_SIZE into the shared size
    | Reserve       // reserveSem(WRITE_SEM)
    | Read          // reads the next chunk into the segment
    | Release       // releaseSem(READ_SEM)
    | Count         // ++xfrs, bytes += bufferSize, then the loop test
    | FinalReserve  // reserveSem(WRITE_SEM) once more
    | Detach
    | RemoveSegment
    | RemoveSems
    | WriterDone

  datatype ReaderPc =
    | Attach        // semget, shmget, shmat
    | ReaderReserve // reserveSem(READ_SEM)
    | Test          // bufferSize == 0?
    | Write
    | ReaderRelease // releaseSem(WRITE_SEM)
    | LateCount     // ++xfrs, bytes += bufferSize, after the segment was handed back
    | ReaderDetach
    | LastRelease   // releaseSem(WRITE_SEM)
    | ReaderDone

  // The last three fields are history: the size of the chunk the reader wrote last, whether
  // the writer has stored a new size since the reader handed the segment back, and whether
  // some LateCount came after such a store.
  datatype State = State(
    writer: WriterPc, writeSem: int, left: seq<Byte>, writerXfrs: int, writerBytes: int,
    reader: ReaderPc, readSem: int, out: seq<Byte>, readerXfrs: int, readerBytes: int,
    size: int, buffer: seq<Byte>,
    lastWritten: int, overtaken: bool, raced: bool)

  // `chunk` is what read() returns; only the Read step uses it. A semop interrupted by a
  // signal leaves everything as it was, and reserveSem tries again.
  datatype Action = WriterMoves(chunk: nat) | ReaderMoves | WriterInterrupted | ReaderInterrupted

  predicate WriterCanMove(s: State, k: nat) {
    match s.writer
    case Reserve => s.writeSem > 0
    case FinalReserve => s.writeSem > 0
    case Read => k <= BUF_SIZE && k <= |s.left| && (k == 0 <==> s.left == [])
    case WriterDone => false
    case _ => true
  }

  predicate ReaderCanMove(s: State) {
    match s.reader
    case ReaderReserve => s.readSem > 0
    case Write => 0 <= s.size <= |s.buffer|
    case ReaderDone => false
    case _ => true
  }

  predicate Enabled(s: State, a: Action) {
    match a
    case WriterMoves(k) => WriterCanMove(s, k)
    case ReaderMoves => ReaderCanMove(s)
    case WriterInterrupted => s.writer.Reserve? || s.writer.FinalReserve?
    case ReaderInterrupted => s.reader.ReaderReserve?
  }

  function WriterStep(s: State, k: nat): State
    requires WriterCanMove(s, k) && |s.buffer| == BUF_SIZE
  {
    match s.writer
    case Enter => s.(size := BUF_SIZE, writer := Reserve)
    case Reserve => s.(writeSem := s.writeSem - 1, writer := Read)
    case Read =>
      s.(buffer := s.left[..k] + s.buffer[k..], size := k, left := s.left[k..], writer := Release,
         overtaken := true)
    case Release => s.(readSem := s.readSem + 1, writer := Count)
    case Count =>
      s.(writerXfrs := s.writerXfrs + 1, writerBytes := s.writerBytes + s.size,
         writer := if s.size != 0 then Reserve else FinalReserve)
    case FinalReserve => s.(writeSem := s.writeSem - 1, writer := Detach)
    case Detach => s.(writer := RemoveSegment)
    case RemoveSegment => s.(writer := RemoveSems)
    case RemoveSems => s.(writer := WriterDone)
  }

  function ReaderStep(s: State): State
    requires ReaderCanMove(s)
  {
    match s.reader
    case Attach => s.(reader := ReaderReserve)
    case ReaderReserve => s.(readSem := s.readSem - 1, reader := Test)
    case Test => s.(reader := if s.size == 0 then ReaderDetach else Write)
    case Write => s.(out := s.out + s.buffer[..s.size], lastWritten := s.size, reader := ReaderRelease)
    case ReaderRelease => s.(writeSem := s.writeSem + 1, reader := LateCount, overtaken := false)
    case LateCount =>
      s.(readerXfrs := s.readerXfrs + 1, readerBytes := s.readerBytes + s.size,
         raced := s.raced || s.overtaken, reader := ReaderReserve)
    case ReaderDetach => s.(reader := LastRelease)
    case LastRelease => s.(writeSem := s.writeSem + 1, reader := ReaderDone)
  }

  function Step(s: State, a: Action): State
    requires Enabled(s, a) && |s.buffer| == BUF_SIZE
  {
    match a
    case WriterMoves(k) => WriterStep(s, k)
    case ReaderMoves => ReaderStep(s)
    case WriterInterrupted => s
    case ReaderInterrupted => s
  }

  predicate Runs(s: State, acts: seq<Action>, s': State)
    decreases |acts|
  {
    if acts == [] then s == s'
    else |s.buffer| == BUF_SIZE && Enabled(s, acts[0]) && Runs(Step(s, acts[0]), acts[1..], s')
  }

  // initSemAvailable(WRITE_SEM) and initSemInUse(READ_SEM) have run and the segment is attached.
  predicate Init(input: seq<Byte>, s: State) {
    && s.writer == Enter && s.writeSem == 1 && s.left == input && s.writerXfrs == 0 && s.writerBytes == 0
    && s.reader == Attach && s.readSem == 0 && s.out == [] && s.readerXfrs == 0 && s.readerBytes == 0
    && |s.buffer| == BUF_SIZE && !s.raced
  }

  predicate Complete(s: State) {
    s.writer.WriterDone? && s.reader.ReaderDone?
  }

  // ---------- The invariant ----------

  predicate WriterInside(s: State) {
    !s.writer.Enter? && !s.writer.Reserve? && !s.writer.Count? && !s.writer.FinalReserve?
  }

  predicate ReaderInside(s: State) {
    s.reader.Test? || s.reader.Write? || s.reader.ReaderRelease? || s.reader.ReaderDetach? || s.reader.LastRelease?
  }

  predicate WriterGone(s: State) {
    s.writer.Detach? || s.writer.RemoveSegment? || s.writer.RemoveSems? || s.writer.WriterDone?
  }

  predicate ReaderLeaving(s: State) {
    s.reader.ReaderDetach? || s.reader.LastRelease? || s.reader.ReaderDone?
  }

  function One(b: bool): int {
    if b then 1 else 0
  }

  predicate OneToken(s: State) {
    && s.writeSem >= 0 && s.readSem >= 0
    && s.writeSem + s.readSem + One(WriterInside(s)) + One(ReaderInside(s)) == 1
  }

  // The buffer holds a chunk that the reader has not written out yet.
  predicate Full(s: State) {
    s.writer.Release? || s.readSem == 1 || s.reader.Test? || s.reader.Write?
  }

  predicate PhasesOk(s: State) {
    && |s.buffer| == BUF_SIZE
    && (s.writer.Enter? ==> s.reader.Attach? || s.reader.ReaderReserve?)
    && (s.writer.Enter? ==> s.writeSem == 1)
    && (!s.writer.Enter? ==> 0 <= s.size <= BUF_SIZE)
    && (s.writer.Reserve? || s.writer.Read? ==> s.size > 0)
    && (s.reader.Write? || s.reader.ReaderRelease? ==> s.size > 0)
    && (!s.writer.Enter? && s.size == 0 ==> s.left == [])
    && (s.writer.FinalReserve? || WriterGone(s) ==> s.size == 0)
    && (ReaderLeaving(s) ==> s.size == 0 && (s.writer.Count? || s.writer.FinalReserve? || WriterGone(s)))
    && (WriterGone(s) ==> s.reader.ReaderDone?)
    && (s.reader.ReaderDone? && !WriterGone(s) ==> s.writeSem == 1)
    && (!s.writer.Enter? && s.size == 0 && !s.writer.Release? && s.writeSem == 1 ==> s.reader.ReaderDone?)
  }

  predicate DataOk(input: seq<Byte>, s: State)
    requires PhasesOk(s)
  {
    if Full(s) && !s.writer.Enter? then s.out + s.buffer[..s.size] + s.left == input
    else s.out + s.left == input
  }

  // The writer has counted what it has read.
  predicate BytesOk(input: seq<Byte>, s: State) {
    && (s.writer.Enter? ==> s.writerBytes == 0 && s.left == input)
    && s.writerBytes + (if s.writer.Release? || s.writer.Count? then s.size else 0) == |input| - |s.left|
  }

  // Both have counted the transfers, but for one that is under way.
  predicate XfrsOk(s: State) {
    && (s.writer.Enter? ==> s.writerXfrs == 0 && s.readerXfrs == 0)
    && s.writerXfrs + One(s.writer.Release? || s.writer.Count?)
         == s.readerXfrs + One(s.reader.ReaderRelease? || s.reader.LateCount?) + One(Full(s) || ReaderLeaving(s))
  }

  // The reader has counted what it has written, unless a late read was overtaken.
  predicate LateOk(s: State) {
    && (s.reader.ReaderRelease? ==> s.lastWritten == s.size)
    && (s.reader.LateCount? && !s.overtaken ==> s.lastWritten == s.size)
    && (!s.raced ==>
          s.readerBytes + (if s.reader.ReaderRelease? || s.reader.LateCount? then s.lastWritten else 0) == |s.out|)
  }

  predicate CountsOk(input: seq<Byte>, s: State) {
    BytesOk(input, s) && XfrsOk(s) && LateOk(s)
  }

  predicate Inv(input: seq<Byte>, s: State) {
    OneToken(s) && PhasesOk(s) && DataOk(input, s) && CountsOk(input, s)
  }

  lemma WriterKeepsPhases(input: seq<Byte>, s: State, k: nat)
    requires Inv(input, s) && WriterCanMove(s, k)
    ensures OneToken(WriterStep(s, k)) && PhasesOk(WriterStep(s, k))
  {
  }

  lemma WriterKeepsData(input: seq<Byte>, s: State, k: nat)
    requires Inv(input, s) && WriterCanMove(s, k) && PhasesOk(WriterStep(s, k))
    ensures DataOk(input, WriterStep(s, k))
  {
  }

  lemma ReaderKeepsPhases(input: seq<Byte>, s: State)
    requires Inv(input, s) && ReaderCanMove(s)
    ensures OneToken(ReaderStep(s)) && PhasesOk(ReaderStep(s))
  {
  }

  lemma ReaderKeepsData(input: seq<Byte>, s: State)
    requires Inv(input, s) && ReaderCanMove(s) && PhasesOk(ReaderStep(s))
    ensures DataOk(input, ReaderStep(s))
  {
  }

  lemma WriterKeepsBytes(input: seq<Byte>, s: State, k: nat)
    requires PhasesOk(s) && BytesOk(input, s) && WriterCanMove(s, k)
    ensures BytesOk(input, WriterStep(s, k))
  {
  }

  lemma WriterKeepsXfrs(s: State, k: nat)
    requires OneToken(s) && PhasesOk(s) && XfrsOk(s) && WriterCanMove(s, k)
    ensures XfrsOk(WriterStep(s, k))
  {
  }

  lemma WriterKeepsLate(s: State, k: nat)
    requires OneToken(s) && PhasesOk(s) && LateOk(s) && WriterCanMove(s, k)
    ensures LateOk(WriterStep(s, k))
  {
  }

  lemma ReaderKeepsBytes(input: seq<Byte>, s: State)
    requires BytesOk(input, s) && ReaderCanMove(s)
    ensures BytesOk(input, ReaderStep(s))
  {
  }

  lemma ReaderKeepsXfrs(s: State)
    requires OneToken(s) && PhasesOk(s) && XfrsOk(s) && ReaderCanMove(s)
    ensures XfrsOk(ReaderStep(s))
  {
  }

  lemma ReaderKeepsLate(s: State)
    requires PhasesOk(s) && LateOk(s) && ReaderCanMove(s)
    ensures LateOk(ReaderStep(s))
  {
  }

  lemma StepKeepsInv(input: seq<Byte>, s: State, a: Action)
    requires Inv(input, s) && Enabled(s, a)
    ensures Inv(input, Step(s, a))
  {
    match a {
      case WriterMoves(k) =>
        WriterKeepsPhases(input, s, k);
        WriterKeepsData(input, s, k);
        WriterKeepsBytes(input, s, k);
        WriterKeepsXfrs(s, k);
        WriterKeepsLate(s, k);
      case ReaderMoves =>
        ReaderKeepsPhases(input, s);
        ReaderKeepsData(input, s);
        ReaderKeepsBytes(input, s);
        ReaderKeepsXfrs(s);
        ReaderKeepsLate(s);
      case WriterInterrupted =>
      case ReaderInterrupted =>
    }
  }

  lemma {:induction false} RunKeepsInv(input: seq<Byte>, s: State, acts: seq<Action>, s': State)
    requires Inv(input, s) && Runs(s, acts, s')
    ensures Inv(input, s')
    decreases |acts|
  {
    if acts != [] {
      StepKeepsInv(input, s, acts[0]);
      RunKeepsInv(input, Step(s, acts[0]), acts[1..], s');
    }
  }

  // ---------- Progress and termination ----------

  lemma NoDeadlock(input: seq<Byte>, s: State) returns (a: Action)
    requires Inv(input, s) && !Complete(s)
    ensures Enabled(s, a) && (a.WriterMoves? || a.ReaderMoves?)
  {
    var k := if |s.left| <= BUF_SIZE then |s.left| else BUF_SIZE;
    a := if WriterCanMove(s, k) then WriterMoves(k) else ReaderMoves;
  }

  // Steps the writer has left if every read returns one byte.
  function WriterLeft(s: State): int {
    match s.writer
    case Enter => 4 * |s.left| + 10
    case Reserve => 4 * |s.left| + 9
    case Read => 4 * |s.left| + 8
    case Release => if s.size == 0 then 7 else 4 * |s.left| + 11
    case Count => if s.size == 0 then 6 else 4 * |s.left| + 10
    case FinalReserve => 5
    case Detach => 4
    case RemoveSegment => 3
    case RemoveSems => 2
    case WriterDone => 0
  }

  // Chunks the reader has yet to write, at most.
  function ToWrite(s: State): int {
    |s.left| + One(Full(s) && s.size > 0)
  }

  function ReaderLeft(s: State): int {
    match s.reader
    case Attach => 5 * ToWrite(s) + 6
    case ReaderReserve => 5 * ToWrite(s) + 5
    case Test => 5 * ToWrite(s) + 4
    case Write => 5 * ToWrite(s) + 3
    case ReaderRelease => 5 * ToWrite(s) + 7
    case LateCount => 5 * ToWrite(s) + 6
    case ReaderDetach => 3
    case LastRelease => 2
    case ReaderDone => 0
  }

  lemma WriterLowersRank(input: seq<Byte>, s: State, k: nat)
    requires Inv(input, s) && WriterCanMove(s, k)
    ensures WriterLeft(WriterStep(s, k)) < WriterLeft(s)
    ensures ReaderLeft(WriterStep(s, k)) <= ReaderLeft(s)
  {
  }

  lemma ReaderLowersRank(input: seq<Byte>, s: State)
    requires Inv(input, s) && ReaderCanMove(s)
    ensures WriterLeft(ReaderStep(s)) == WriterLeft(s)
    ensures ReaderLeft(ReaderStep(s)) < ReaderLeft(s)
  {
  }

  function Interrupts(acts: seq<Action>): nat {
    if acts == [] then 0
    else One(acts[0].WriterInterrupted? || acts[0].ReaderInterrupted?) + Interrupts(acts[1..])
  }

  lemma {:induction false} RunLength(input: seq<Byte>, s: State, acts: seq<Action>, s': State)
    requires Inv(input, s) && Runs(s, acts, s')
    ensures |acts| + WriterLeft(s') + ReaderLeft(s') <= WriterLeft(s) + ReaderLeft(s) + Interrupts(acts)
    decreases |acts|
  {
    if acts != [] {
      match acts[0] {
        case WriterMoves(k) => WriterLowersRank(input, s, k);
        case ReaderMoves => ReaderLowersRank(input, s);
        case WriterInterrupted =>
        case ReaderInterrupted =>
      }
      StepKeepsInv(input, s, acts[0]);
      RunLength(input, Step(s, acts[0]), acts[1..], s');
    }
  }

  lemma RanksNotNegative(input: seq<Byte>, s: State)
    requires Inv(input, s)
    ensures WriterLeft(s) >= 0 && ReaderLeft(s) >= 0
  {
  }

  lemma OutputIsPrefix(input: seq<Byte>, s: State)
    requires Inv(input, s)
    ensures s.out <= input
  {
  }

  // ---------- What the reader's total is made of ----------

  // What the reads of a run have returned, and for each late count how many reads came before it.
  datatype History = History(sizes: seq<nat>, late: seq<nat>)

  function Record(h: History, s: State, a: Action): History {
    match a
    case WriterMoves(k) => if s.writer.Read? then h.(sizes := h.sizes + [k]) else h
    case ReaderMoves => if s.reader.LateCount? then h.(late := h.late + [|h.sizes|]) else h
    case WriterInterrupted => h
    case ReaderInterrupted => h
  }

  function HistoryOf(h: History, s: State, acts: seq<Action>): History
    decreases |acts|
  {
    if acts == [] || |s.buffer| != BUF_SIZE || !Enabled(s, acts[0]) then h
    else HistoryOf(Record(h, s, acts[0]), Step(s, acts[0]), acts[1..])
  }

  function Sum(sizes: seq<nat>): nat {
    if sizes == [] then 0 else Sum(sizes[..|sizes| - 1]) + sizes[|sizes| - 1]
  }

  // Late count i comes after read i and at most one more.
  predicate OneBehind(sizes: seq<nat>, late: seq<nat>) {
    forall i :: 0 <= i < |late| ==> i + 1 <= late[i] <= i + 2 && late[i] <= |sizes|
  }

  // The sum over the late counts of what the last read before each has returned.
  function LateTotal(sizes: seq<nat>, late: seq<nat>): nat
    requires OneBehind(sizes, late)
  {
    if late == [] then 0
    else LateTotal(sizes, late[..|late| - 1]) + sizes[late[|late| - 1] - 1]
  }

  // Only the last read returns nothing.
  predicate OnlyLastEmpty(sizes: seq<nat>) {
    forall i :: 0 <= i < |sizes| - 1 ==> sizes[i] > 0
  }

  predicate Told(input: seq<Byte>, s: State, h: History) {
    && |h.sizes| == s.writerXfrs + One(s.writer.Release? || s.writer.Count?)
    && |h.late| == s.readerXfrs
    && (h.sizes != [] ==> s.size == h.sizes[|h.sizes| - 1])
    && OnlyLastEmpty(h.sizes)
    && Sum(h.sizes) == |input| - |s.left|
    && OneBehind(h.sizes, h.late)
    && s.readerBytes == LateTotal(h.sizes, h.late)
  }

  lemma SumSnoc(sizes: seq<nat>, k: nat)
    ensures Sum(sizes + [k]) == Sum(sizes) + k
  {
    assert (sizes + [k])[..|sizes|] == sizes;
  }

  lemma {:induction false} LateTotalMoreReads(sizes: seq<nat>, late: seq<nat>, k: nat)
    requires OneBehind(sizes, late)
    ensures OneBehind(sizes + [k], late) && LateTotal(sizes + [k], late) == LateTotal(sizes, late)
    decreases |late|
  {
    if late != [] {
      LateTotalMoreReads(sizes, late[..|late| - 1], k);
    }
  }

  lemma {:induction false} LateTotalSnoc(sizes: seq<nat>, late: seq<nat>, more: seq<nat>)
    requires OneBehind(sizes, late) && |late| + 1 <= |sizes| <= |late| + 2 && more == late + [|sizes|]
    ensures OneBehind(sizes, more) && LateTotal(sizes, more) == LateTotal(sizes, late) + sizes[|sizes| - 1]
  {
    assert more[..|more| - 1] == late && more[|more| - 1] == |sizes|;
  }

  lemma ReadTold(input: seq<Byte>, s: State, k: nat, h: History)
    requires Inv(input, s) && Told(input, s, h) && WriterCanMove(s, k) && s.writer.Read?
    ensures Told(input, WriterStep(s, k), h.(sizes := h.sizes + [k]))
  {
    SumSnoc(h.sizes, k);
    LateTotalMoreReads(h.sizes, h.late, k);
  }

  lemma LateCountTold(input: seq<Byte>, s: State, h: History)
    requires Inv(input, s) && Told(input, s, h) && s.reader.LateCount?
    ensures Told(input, ReaderStep(s), h.(late := h.late + [|h.sizes|]))
  {
    LateTotalSnoc(h.sizes, h.late, h.late + [|h.sizes|]);
  }

  lemma OtherWriterTold(input: seq<Byte>, s: State, k: nat, h: History)
    requires Inv(input, s) && Told(input, s, h) && WriterCanMove(s, k) && !s.writer.Read?
    ensures Told(input, WriterStep(s, k), h)
  {
  }

  lemma OtherReaderTold(input: seq<Byte>, s: State, h: History)
    requires Inv(input, s) && Told(input, s, h) && ReaderCanMove(s) && !s.reader.LateCount?
    ensures Told(input, ReaderStep(s), h)
  {
  }

  lemma StepTold(input: seq<Byte>, s: State, a: Action, h: History)
    requires Inv(input, s) && Told(input, s, h) && Enabled(s, a)
    ensures Told(input, Step(s, a), Record(h, s, a))
  {
    match a {
      case WriterMoves(k) =>
        if s.writer.Read? {
          ReadTold(input, s, k, h);
        } else {
          OtherWriterTold(input, s, k, h);
        }
      case ReaderMoves =>
        if s.reader.LateCount? {
          LateCountTold(input, s, h);
        } else {
          OtherReaderTold(input, s, h);
        }
      case WriterInterrupted =>
      case ReaderInterrupted =>
    }
  }

  lemma {:induction false} RunTold(input: seq<Byte>, s: State, acts: seq<Action>, s': State, h: History)
    requires Inv(input, s) && Told(input, s, h) && Runs(s, acts, s')
    ensures Told(input, s', HistoryOf(h, s, acts))
    decreases |acts|
  {
    if acts != [] {
      StepKeepsInv(input, s, acts[0]);
      StepTold(input, s, acts[0], h);
      RunTold(input, Step(s, acts[0]), acts[1..], s', Record(h, s, acts[0]));
    }
  }

  // With reads of one size each late count adds as much as was written, but for the last one.
  lemma {:induction false} EvenTotal(sizes: seq<nat>, late: seq<nat>, k: nat)
    requires OneBehind(sizes, late) && |late| < |sizes| && forall i :: 0 <= i <= |late| ==> sizes[i] == k
    ensures LateTotal(sizes, late) == Sum(sizes[..|late|])
    decreases |late|
  {
    if late != [] {
      EvenTotal(sizes, late[..|late| - 1], k);
      assert sizes[..|late|][..|late| - 1] == sizes[..|late| - 1];
    }
  }

  // ---------- Main results ----------

  // What holds in every reachable state, for every input, every way of splitting it into
  // chunks, every interleaving and every pattern of interrupted semaphore operations.
  lemma ReachableStates(input: seq<Byte>, s0: State, acts: seq<Action>, s: State)
    requires Init(input, s0) && Runs(s0, acts, s)
    ensures OneToken(s)
    ensures s.out <= input
    // the segment and the semaphores are removed only after the reader has let go of them
    ensures WriterGone(s) ==> s.reader.ReaderDone?
    // the programs never get stuck, and end
    ensures !Complete(s) ==> exists a :: Enabled(s, a) && (a.WriterMoves? || a.ReaderMoves?)
    ensures |acts| <= 9 * |input| + 16 + Interrupts(acts)
  {
    RunKeepsInv(input, s0, acts, s);
    RunLength(input, s0, acts, s);
    RanksNotNegative(input, s);
    OutputIsPrefix(input, s);
    if !Complete(s) {
      var a := NoDeadlock(input, s);
    }
  }

  // What a completed transfer leaves behind.
  lemma CompletedTransfer(input: seq<Byte>, s0: State, acts: seq<Action>, s: State)
    requires Init(input, s0) && Runs(s0, acts, s) && Complete(s)
    ensures s.out == input
    ensures s.writerBytes == |input|
    ensures s.writerXfrs == s.readerXfrs + 1
    ensures !s.raced ==> s.readerBytes == |input|
  {
    RunKeepsInv(input, s0, acts, s);
  }

  // The reader's total is, over its late counts, the sum of what the last read before each has
  // returned: its own chunk, or the next one if that was read in between.
  lemma ReaderTotal(input: seq<Byte>, s0: State, acts: seq<Action>, s: State)
    requires Init(input, s0) && Runs(s0, acts, s) && Complete(s)
    ensures var h := HistoryOf(History([], []), s0, acts);
            && |h.sizes| == |h.late| + 1
            && Sum(h.sizes) == |input|
            && (forall i :: 0 <= i < |h.sizes| ==> (h.sizes[i] == 0 <==> i == |h.late|))
            && (forall i :: 0 <= i < |h.late| ==> h.late[i] == i + 1 || h.late[i] == i + 2)
            && OneBehind(h.sizes, h.late)
            && s.readerBytes == LateTotal(h.sizes, h.late)
  {
    RunKeepsInv(input, s0, acts, s);
    RunTold(input, s0, acts, s, History([], []));
  }

  // If all reads but the empty one return the same number of bytes, at most one chunk is missing
  // from the total.
  lemma ReaderTotalEven(input: seq<Byte>, s0: State, acts: seq<Action>, s: State, k: nat)
    requires Init(input, s0) && Runs(s0, acts, s) && Complete(s)
    requires forall n :: n in HistoryOf(History([], []), s0, acts).sizes ==> n == 0 || n == k
    ensures s.readerBytes == |input| || s.readerBytes == |input| - k
  {
    var h := HistoryOf(History([], []), s0, acts);
    ReaderTotal(input, s0, acts, s);
    var m := |h.late|;
    if m > 0 {
      assert forall i :: 0 <= i < m ==> h.sizes[i] in h.sizes;
      EvenTotal(h.sizes, h.late[..m - 1], k);
      assert h.sizes[..m][..m - 1] == h.sizes[..m - 1];
    }
  }

  // ---------- The reader's byte total ----------

  lemma Then(s: State, a: Action, m: State, rest: seq<Action>, s': State)
    requires |s.buffer| == BUF_SIZE && Enabled(s, a) && Step(s, a) == m && Runs(m, rest, s')
    ensures Runs(s, [a] + rest, s')
  {
  }

  lemma {:induction false} Compose(s: State, x: seq<Action>, m: State, y: seq<Action>, s': State)
    requires Runs(s, x, m) && Runs(m, y, s')
    ensures Runs(s, x + y, s')
    decreases |x|
  {
    if x == [] {
      assert x + y == y;
    } else {
      assert (x + y)[1..] == x[1..] + y;
      Compose(Step(s, x[0]), x[1..], m, y, s');
    }
  }

  // Both processes are about to reserve and the segment is the writer's.
  predicate Idle(s: State) {
    && s.writer.Reserve? && s.reader.ReaderReserve? && s.writeSem == 1 && s.readSem == 0
    && |s.buffer| == BUF_SIZE && s.left != []
  }

  // The writer sends a chunk of k bytes and the reader writes it and hands the segment back.
  lemma SendChunk(s: State, k: nat) returns (acts: seq<Action>, s': State)
    requires Idle(s) && 0 < k <= BUF_SIZE && k <= |s.left|
    ensures Runs(s, acts, s')
    ensures s'.writer.Reserve? && s'.reader.LateCount? && s'.writeSem == 1 && s'.readSem == 0
    ensures |s'.buffer| == BUF_SIZE && s'.left == s.left[k..] && s'.size == k && s'.readerBytes == s.readerBytes
  {
    var w, r := WriterMoves(k), ReaderMoves;
    var s1 := Step(s, w);
    var s2 := Step(s1, w);
    var s3 := Step(s2, w);
    var s4 := Step(s3, w);
    var s5 := Step(s4, r);
    var s6 := Step(s5, r);
    var s7 := Step(s6, r);
    s' := Step(s7, r);
    Then(s7, r, s', [], s');
    Then(s6, r, s7, [r], s');
    Then(s5, r, s6, [r] + [r], s');
    Then(s4, r, s5, [r] + ([r] + [r]), s');
    var half := [r] + ([r] + ([r] + [r]));
    Then(s3, w, s4, half, s');
    Then(s2, w, s3, [w] + half, s');
    Then(s1, w, s2, [w] + ([w] + half), s');
    Then(s, w, s1, [w] + ([w] + ([w] + half)), s');
    acts := [w] + ([w] + ([w] + ([w] + half)));
  }

  lemma TearDown(s: State) returns (acts: seq<Action>, s': State)
    requires s.writer.FinalReserve? && s.reader.Test? && s.writeSem == 0 && s.size == 0 && |s.buffer| == BUF_SIZE
    ensures Runs(s, acts, s') && Complete(s') && s'.readerBytes == s.readerBytes
  {
    var w, r := WriterMoves(0), ReaderMoves;
    var s1 := Step(s, r);
    var s2 := Step(s1, r);
    var s3 := Step(s2, r);
    var s4 := Step(s3, w);
    var s5 := Step(s4, w);
    var s6 := Step(s5, w);
    s' := Step(s6, w);
    Then(s6, w, s', [], s');
    Then(s5, w, s6, [w], s');
    Then(s4, w, s5, [w] + [w], s');
    Then(s3, w, s4, [w] + ([w] + [w]), s');
    var tail := [w] + ([w] + ([w] + [w]));
    Then(s2, r, s3, tail, s');
    Then(s1, r, s2, [r] + tail, s');
    Then(s, r, s1, [r] + ([r] + tail), s');
    acts := [r] + ([r] + ([r] + tail));
  }

  // End of input: the writer reserves and stores the size 0 before the reader's late count,
  // which therefore adds nothing, and then both finish.
  lemma FinishLate(s: State) returns (acts: seq<Action>, s': State)
    requires s.writer.Reserve? && s.reader.LateCount? && s.writeSem == 1 && s.readSem == 0
    requires |s.buffer| == BUF_SIZE && s.left == []
    ensures Runs(s, acts, s') && Complete(s') && s'.readerBytes == s.readerBytes
  {
    var w, r := WriterMoves(0), ReaderMoves;
    var s1 := Step(s, w);
    var s2 := Step(s1, w);
    var s3 := Step(s2, r);
    var s4 := Step(s3, w);
    var s5 := Step(s4, w);
    var s6 := Step(s5, r);
    Then(s5, r, s6, [], s6);
    Then(s4, w, s5, [r], s6);
    Then(s3, w, s4, [w] + [r], s6);
    Then(s2, r, s3, [w] + ([w] + [r]), s6);
    Then(s1, w, s2, [r] + ([w] + ([w] + [r])), s6);
    Then(s, w, s1, [w] + ([r] + ([w] + ([w] + [r]))), s6);
    var rest;
    rest, s' := TearDown(s6);
    acts := [w] + ([w] + ([r] + ([w] + ([w] + [r]))));
    Compose(s, acts, s6, rest, s');
    acts := acts + rest;
  }

  // With full-sized reads, a schedule in which only the last late count is overtaken.
  lemma {:induction false} LoseLastChunk(s: State) returns (acts: seq<Action>, s': State)
    requires Idle(s)
    ensures Runs(s, acts, s') && Complete(s') && s'.readerBytes < s.readerBytes + |s.left|
    decreases |s.left|
  {
    var k := if |s.left| <= BUF_SIZE then |s.left| else BUF_SIZE;
    var x, m := SendChunk(s, k);
    if k == |s.left| {
      var y;
      y, s' := FinishLate(m);
      Compose(s, x, m, y, s');
      acts := x + y;
    } else {
      var m1 := Step(m, ReaderMoves);
      Then(m, ReaderMoves, m1, [], m1);
      Compose(s, x, m, [ReaderMoves] + [], m1);
      var y;
      y, s' := LoseLastChunk(m1);
      Compose(s, x + ([ReaderMoves] + []), m1, y, s');
      acts := x + ([ReaderMoves] + []) + y;
    }
  }

  ghost predicate ReaderTotalReliable(input: seq<Byte>) {
    forall s0, acts, s :: Init(input, s0) && Runs(s0, acts, s) && Complete(s) ==> s.readerBytes == |input|
  }

  lemma {:induction false} NoChunksNoRace(s: State, acts: seq<Action>, s': State)
    requires Inv([], s) && s.readerBytes == 0 && !s.reader.Write? && !s.reader.ReaderRelease? && !s.reader.LateCount?
    requires Runs(s, acts, s')
    ensures s'.readerBytes == 0
    decreases |acts|
  {
    if acts != [] {
      StepKeepsInv([], s, acts[0]);
      NoChunksNoRace(Step(s, acts[0]), acts[1..], s');
    }
  }

  // The reader adds the shared size after it has handed the segment back. Its total is right in
  // every completed run exactly when the input is empty: for every other input some run reports
  // too little, although the data itself arrives intact.
  lemma ReaderTotalReliableIffEmpty(input: seq<Byte>)
    ensures ReaderTotalReliable(input) <==> input == []
  {
    if input == [] {
      forall s0, acts, s | Init(input, s0) && Runs(s0, acts, s) && Complete(s)
        ensures s.readerBytes == |input|
      {
        RunKeepsInv(input, s0, acts, s);
        NoChunksNoRace(s0, acts, s);
      }
    } else {
      var s0 := State(Enter, 1, input, 0, 0, Attach, 0, [], 0, 0, 0, seq(BUF_SIZE, _ => 0), 0, false, false);
      var s1 := Step(s0, ReaderMoves);
      var s2 := Step(s1, WriterMoves(0));
      var acts, s := LoseLastChunk(s2);
      Then(s1, WriterMoves(0), s2, acts, s);
      Then(s0, ReaderMoves, s1, [WriterMoves(0)] + acts, s);
      assert Init(input, s0);
    }
  }
}
