/** Trace writer and trace reader joined by two streams: the writer waits for the answer to each request, and while
    it waits it serves the memory accesses of the handler that works on its request. */
module SiftProtocol {
  import opened Helpers

  type Memory = nat -> Byte

  datatype Kind = Count | NewThread | Syscall | Join | Sync | Fork | Magic | Emu

  /** The record kinds that answer requests. */
  datatype Answer = SyncAnswer | NewThreadAnswer | SyscallAnswer | JoinAnswer | ForkAnswer | MagicAnswer | EmuAnswer

  datatype Op = InvalidOp | Read | Write

  /** A handler's access; data is what is to be written. */
  datatype Request = Request(op: Op, addr: nat, size: nat, data: seq<Byte>)

  /** A completed access: the data read or written. */
  datatype Access = Access(op: Op, addr: nat, data: seq<Byte>)

  /** A request carries a bound on the accesses its handler will make, for reasoning only. */
  datatype ToReader =
    | Plain
    | Ask(kind: Kind, size: nat, accesses: nat)
    | MemoryResponse(addr: nat, op: Op, data: seq<Byte>)

  datatype ToWriter =
    | Answered(answer: Answer, size: nat, value: int)
    | MemoryRequest(request: Request, size: nat)

  datatype WriterAt = Idle | Waiting(kind: Kind) | Serving(kind: Kind, request: Request) | WriterFailed

  /** `left` bounds the memory accesses the handler still makes. */
  datatype ReaderAt = Reading | Handling(kind: Kind, left: nat) | Awaiting(kind: Kind, left: nat, request: Request)
      | ReaderFailed

  datatype Result = Result(kind: Kind, value: int)

  datatype State = State(
    writer: WriterAt, reader: ReaderAt, toReader: seq<ToReader>, toWriter: seq<ToWriter>, mem: Memory,
    log: seq<Access>, asked: seq<Kind>, given: seq<Result>, returned: seq<Result>)

  datatype Move =
    | AppStores(addr: nat, data: seq<Byte>)
    | SendPlain
    | SendAsk(kind: Kind, size: nat, accesses: nat)
    | WriterReceives
    | WriterServes
    | ReaderReceives
    | AskMemory(request: Request)
    | ReaderAnswers(value: int)

  // ---------- record kinds and sizes ----------

  function AnswerTo(k: Kind): Answer {
    match k
    case Count => SyncAnswer
    case NewThread => NewThreadAnswer
    case Syscall => SyscallAnswer
    case Join => JoinAnswer
    case Sync => SyncAnswer
    case Fork => ForkAnswer
    case Magic => MagicAnswer
    case Emu => EmuAnswer
  }

  /** The payload size the reader's handler code puts into its answer. */
  function SizeSent(k: Kind): nat {
    match k
    case Count => 4
    case NewThread => 4
    case Syscall => 8
    case Join => 4
    case Sync => 4
    case Fork => 4
    case Magic => 8
    case Emu => 1 + 48
  }

  /** The payload sizes the writer's wait code accepts. */
  predicate SizeAccepted(k: Kind, size: nat) {
    match k
    case Emu => size <= 1 + 48
    case Syscall => size == 8
    case Magic => size == 8
    case _ => size == 4
  }

  /** The sizes of the requests the writer sends; a system call may come without argument bytes. */
  predicate SizeAsked(k: Kind, size: nat) {
    match k
    case Count => size == 4
    case Join => size == 4
    case Syscall => size >= 2
    case Magic => size == 24
    case Emu => size == 2 + 8
    case _ => size == 0
  }

  /** The sizes of the requests the reader takes; it insists on argument bytes in a system call. */
  predicate SizeTaken(k: Kind, size: nat) {
    match k
    case Count => size == 4
    case Join => size == 4
    case Syscall => size > 2
    case Magic => size == 24
    case Emu => size <= 2 + 8
    case _ => size == 0
  }

  /** While waiting for these answers the writer serves memory requests. */
  predicate ServesMemory(k: Kind) {
    k == Syscall || k == Sync || k == Magic || k == Emu
  }

  const REQUEST_HEADER: nat := 20

  function RequestSize(r: Request): nat {
    REQUEST_HEADER + |r.data|
  }

  /** The writer's checks on a memory request. */
  predicate RequestAccepted(r: Request, size: nat) {
    && size >= REQUEST_HEADER
    && match r.op
       case Read => size == REQUEST_HEADER && r.size > 0
       case Write => size > REQUEST_HEADER && size - REQUEST_HEADER == r.size
       case InvalidOp => false
  }

  /** The reader's checks on the answer to a memory request. */
  predicate ResponseAccepted(r: Request, addr: nat, data: seq<Byte>) {
    && addr == r.addr
    && match r.op
       case Read => |data| == r.size
       case Write => data == []
       case InvalidOp => false
  }

  // ---------- memory ----------

  function Load(mem: Memory, a: nat, n: nat): (s: seq<Byte>)
    ensures |s| == n
  {
    seq(n, i requires 0 <= i < n => mem(a + i))
  }

  function Store(mem: Memory, a: nat, data: seq<Byte>): Memory {
    (x: nat) => if a <= x < a + |data| then data[x - a] else mem(x)
  }

  /** Memory after a sequence of accesses. */
  function Final(mem: Memory, log: seq<Access>): Memory {
    if log == [] then mem
    else
      var last := log[|log| - 1];
      var before := Final(mem, log[..|log| - 1]);
      if last.op.Write? then Store(before, last.addr, last.data) else before
  }

  /** Every read in the log gave what the writes before it had left. */
  predicate ReadsRight(mem: Memory, log: seq<Access>) {
    log != [] ==>
      var last := log[|log| - 1];
      && ReadsRight(mem, log[..|log| - 1])
      && (last.op.Read? ==> last.data == Load(Final(mem, log[..|log| - 1]), last.addr, |last.data|))
  }

  lemma LogAppend(mem: Memory, log: seq<Access>, a: Access)
    ensures Final(mem, log + [a]) == if a.op.Write? then Store(Final(mem, log), a.addr, a.data) else Final(mem, log)
    ensures ReadsRight(mem, log + [a]) <==>
      ReadsRight(mem, log) && (a.op.Read? ==> a.data == Load(Final(mem, log), a.addr, |a.data|))
  {
    assert (log + [a])[..|log|] == log;
  }

  // ---------- steps ----------

  predicate Enabled(s: State, m: Move) {
    match m
    case AppStores(_, _) => s.writer.Idle?
    case SendPlain => s.writer.Idle?
    case SendAsk(kind, size, _) => s.writer.Idle? && SizeAsked(kind, size)
    case WriterReceives => s.writer.Waiting? && s.toWriter != []
    case WriterServes => s.writer.Serving?
    case ReaderReceives => (s.reader.Reading? || s.reader.Awaiting?) && s.toReader != []
    case AskMemory(r) => s.reader.Handling? && s.reader.left > 0 && |r.data| == if r.op.Write? then r.size else 0
    case ReaderAnswers(_) => s.reader.Handling?
  }

  function WriterTakes(s: State, k: Kind, msg: ToWriter): State {
    match msg
    case Answered(answer, size, value) =>
      if answer == AnswerTo(k) && SizeAccepted(k, size)
      then s.(writer := Idle, returned := s.returned + [Result(k, value)])
      else s.(writer := WriterFailed)
    case MemoryRequest(request, size) =>
      if ServesMemory(k) && RequestAccepted(request, size)
      then s.(writer := Serving(k, request))
      else s.(writer := WriterFailed)
  }

  function ReaderTakes(s: State, msg: ToReader): State {
    match s.reader
    case Awaiting(k, left, r) =>
      if msg.MemoryResponse? && ResponseAccepted(r, msg.addr, msg.data)
      then s.(reader := Handling(k, left),
              log := s.log + [Access(r.op, r.addr, if r.op.Read? then msg.data else r.data)])
      else s.(reader := ReaderFailed)
    case _ =>
      match msg
      case Ask(kind, size, accesses) =>
        if SizeTaken(kind, size) then s.(reader := Handling(kind, accesses)) else s.(reader := ReaderFailed)
      case _ => s
  }

  function Step(s: State, m: Move): State
    requires Enabled(s, m)
  {
    match m
    case AppStores(addr, data) => s.(mem := Store(s.mem, addr, data), log := s.log + [Access(Write, addr, data)])
    case SendPlain => s.(toReader := s.toReader + [Plain])
    case SendAsk(kind, size, accesses) =>
      s.(toReader := s.toReader + [Ask(kind, size, accesses)], writer := Waiting(kind), asked := s.asked + [kind])
    case WriterReceives => WriterTakes(s.(toWriter := s.toWriter[1..]), s.writer.kind, s.toWriter[0])
    case WriterServes =>
      var r := s.writer.request;
      var s1 := s.(writer := Waiting(s.writer.kind));
      if r.op.Read? then s1.(toReader := s.toReader + [MemoryResponse(r.addr, r.op, Load(s.mem, r.addr, r.size))])
      else s1.(toReader := s.toReader + [MemoryResponse(r.addr, r.op, [])], mem := Store(s.mem, r.addr, r.data))
    case ReaderReceives => ReaderTakes(s.(toReader := s.toReader[1..]), s.toReader[0])
    case AskMemory(r) =>
      s.(reader := Awaiting(s.reader.kind, s.reader.left - 1, r),
          toWriter := s.toWriter + [MemoryRequest(r, RequestSize(r))])
    case ReaderAnswers(value) =>
      var k := s.reader.kind;
      s.(reader := Reading, toWriter := s.toWriter + [Answered(AnswerTo(k), SizeSent(k), value)],
         given := s.given + [Result(k, value)])
  }

  /** Handlers read or write at least one byte, and only where the writer serves memory requests; system calls come
      with argument bytes. */
  predicate Polite(s: State, m: Move) {
    match m
    case AskMemory(r) => s.reader.Handling? ==> r.size > 0 && !r.op.InvalidOp? && ServesMemory(s.reader.kind)
    case SendAsk(kind, size, _) => kind.Syscall? ==> size > 2
    case _ => true
  }

  // ---------- what every run keeps ----------

  predicate AllPlain(ms: seq<ToReader>) {
    forall i | 0 <= i < |ms| :: ms[i].Plain?
  }

  predicate GoodRequest(k: Kind, r: Request) {
    ServesMemory(k) && r.size > 0 && !r.op.InvalidOp? && |r.data| == if r.op.Write? then r.size else 0
  }

  /** The memory a pending write will have changed. */
  function Pending(mem: Memory, r: Request): Memory {
    if r.op.Write? then Store(mem, r.addr, r.data) else mem
  }

  ghost predicate Quiet(s: State) {
    s.toReader == [] && s.toWriter == []
  }

  /** Where writer and reader stand, what is on the way between them, and what memory holds. */
  ghost predicate Inv(mem0: Memory, s: State) {
    var now := Final(mem0, s.log);
    && ReadsRight(mem0, s.log)
    && match s.writer
       case WriterFailed => false
       case Idle =>
         s.reader == Reading && s.toWriter == [] && AllPlain(s.toReader) && s.mem == now
       case Serving(k, r) =>
         s.reader.Awaiting? && s.reader.kind == k && s.reader.request == r && GoodRequest(k, r) && Quiet(s)
             && s.mem == now
       case Waiting(k) =>
         match s.reader
         case ReaderFailed => false
         case Handling(k', _) => k' == k && Quiet(s) && s.mem == now
         case Awaiting(k', _, r) =>
           && k' == k && GoodRequest(k, r)
           && ((s.toReader == [] && s.toWriter == [MemoryRequest(r, RequestSize(r))] && s.mem == now)
               || (s.toWriter == [] && s.mem == Pending(now, r)
                   && s.toReader ==
                         [MemoryResponse(r.addr, r.op, if r.op.Read? then Load(now, r.addr, r.size) else [])]))
         case Reading =>
           && s.mem == now
           && ((s.toWriter == [] && s.toReader != [] && AllPlain(s.toReader[..|s.toReader| - 1])
                && var last := s.toReader[|s.toReader| - 1]; last.Ask? && last.kind == k && SizeTaken(k, last.size))
               || (s.toReader == [] && |s.given| > 0
                   && s.toWriter == [Answered(AnswerTo(k), SizeSent(k), s.given[|s.given| - 1].value)]))
  }

  /** How many requests still wait for their handler's result. */
  function Outstanding(s: State): nat {
    if s.writer.Idle? || (s.reader.Reading? && s.toWriter != []) then 0 else 1
  }

  /** Every request has got exactly one result, the one its handler gave; at most the last is on its way. */
  ghost predicate OneToOne(s: State) {
    && |s.asked| == |s.given| + Outstanding(s)
    && |s.asked| == |s.returned| + (if s.writer.Idle? then 0 else 1)
    && s.returned <= s.given
    && (forall i | 0 <= i < |s.given| :: s.given[i].kind == s.asked[i])
    && (s.writer.Waiting? || s.writer.Serving? ==> s.asked[|s.asked| - 1] == s.writer.kind)
  }

  ghost predicate Start(mem0: Memory, s: State) {
    s == State(Idle, Reading, [], [], mem0, [], [], [], [])
  }

  lemma StepKeepsInv(mem0: Memory, s: State, m: Move)
    requires Enabled(s, m) && Polite(s, m) && Inv(mem0, s)
    ensures Inv(mem0, Step(s, m))
  {
    hide Enabled, Polite, Step, Inv;
    match m
    case AppStores(_, _) => StoreKeepsInv(mem0, s, m);
    case SendPlain => SendKeepsInv(mem0, s, m);
    case SendAsk(_, _, _) => SendKeepsInv(mem0, s, m);
    case WriterReceives => WriterKeepsInv(mem0, s);
    case WriterServes => ServeKeepsInv(mem0, s);
    case ReaderReceives =>
      if s.reader.Awaiting? {
        ResponseKeepsInv(mem0, s);
      } else {
        assert s.reader.Reading? by { ReceivingReader(s); }
        TakeKeepsInv(mem0, s, m);
      }
    case AskMemory(_) => AccessKeepsInv(mem0, s, m);
    case ReaderAnswers(value) => AnswerKeepsInv(mem0, s, value);
  }

  lemma ReceivingReader(s: State)
    requires Enabled(s, ReaderReceives)
    ensures s.reader.Reading? || s.reader.Awaiting?
  {
  }

  lemma StoreKeepsInv(mem0: Memory, s: State, m: Move)
    requires m.AppStores? && Enabled(s, m) && Inv(mem0, s)
    ensures Inv(mem0, Step(s, m))
  {
    hide Load, Store, Final, ReadsRight;
    LogAppend(mem0, s.log, Access(Write, m.addr, m.data));
  }

  lemma SendKeepsInv(mem0: Memory, s: State, m: Move)
    requires (m.SendPlain? || m.SendAsk?) && Enabled(s, m) && Polite(s, m) && Inv(mem0, s)
    ensures Inv(mem0, Step(s, m))
  {
    hide Load, Store, Final, ReadsRight;
  }

  lemma ServeKeepsInv(mem0: Memory, s: State)
    requires Enabled(s, WriterServes) && Inv(mem0, s)
    ensures Inv(mem0, Step(s, WriterServes))
  {
    hide Load, Store, Final, ReadsRight;
  }

  lemma AnswerKeepsInv(mem0: Memory, s: State, value: int)
    requires Enabled(s, ReaderAnswers(value)) && Inv(mem0, s)
    ensures Inv(mem0, Step(s, ReaderAnswers(value)))
  {
    hide Load, Store, Final, ReadsRight;
  }

  lemma ResponseKeepsInv(mem0: Memory, s: State)
    requires s.reader.Awaiting? && Enabled(s, ReaderReceives) && Inv(mem0, s)
    ensures Inv(mem0, Step(s, ReaderReceives))
  {
    hide Load, Store, Final, ReadsRight;
    var r := s.reader.request;
    LogAppend(mem0, s.log, Access(r.op, r.addr, if r.op.Read? then s.toReader[0].data else r.data));
  }

  lemma WriterKeepsInv(mem0: Memory, s: State)
    requires Enabled(s, WriterReceives) && Inv(mem0, s)
    ensures Inv(mem0, Step(s, WriterReceives))
  {
    hide Load, Store, Final, ReadsRight;
  }

  lemma AccessKeepsInv(mem0: Memory, s: State, m: Move)
    requires m.AskMemory? && Enabled(s, m) && Polite(s, m) && Inv(mem0, s)
    ensures Inv(mem0, Step(s, m))
  {
    hide Load, Store, Final, ReadsRight;
  }

  lemma TakeKeepsInv(mem0: Memory, s: State, m: Move)
    requires m.ReaderReceives? && s.reader.Reading? && Enabled(s, m) && Inv(mem0, s)
    ensures Inv(mem0, Step(s, m))
  {
    hide Load, Store, Final, ReadsRight;
    if s.writer.Waiting? && |s.toReader| > 1 {
      var rest := s.toReader[1..];
      assert rest[..|rest| - 1] == s.toReader[..|s.toReader| - 1][1..];
      assert s.toReader[0] == s.toReader[..|s.toReader| - 1][0];
    }
  }

  lemma StepKeepsOneToOne(mem0: Memory, s: State, m: Move)
    requires Enabled(s, m) && Polite(s, m) && Inv(mem0, s) && OneToOne(s)
    ensures OneToOne(Step(s, m))
  {
    hide Load, Store, Final, ReadsRight;
  }

  // ---------- what an impolite move leads to ----------

  /** One side has failed, or the message on its way will make it fail; nothing else can happen. */
  ghost predicate Doomed(s: State) {
    || (s.writer.WriterFailed? && s.reader.Awaiting? && Quiet(s))
    || (s.reader.ReaderFailed? && s.writer.Waiting? && Quiet(s))
    || (s.writer.Waiting? && s.reader.Awaiting? && s.toReader == [] && |s.toWriter| == 1
        && var msg := s.toWriter[0];
           msg.MemoryRequest? && !(ServesMemory(s.writer.kind) && RequestAccepted(msg.request, msg.size)))
    || (s.writer.Waiting? && s.reader.Reading? && s.toWriter == [] && s.toReader != []
        && AllPlain(s.toReader[..|s.toReader| - 1])
        && var last := s.toReader[|s.toReader| - 1]; last.Ask? && !SizeTaken(last.kind, last.size))
  }

  ghost predicate Failed(s: State) {
    s.writer.WriterFailed? || s.reader.ReaderFailed?
  }

  lemma ImpoliteDooms(mem0: Memory, s: State, m: Move)
    requires Enabled(s, m) && !Polite(s, m) && Inv(mem0, s)
    ensures Doomed(Step(s, m)) && !Failed(Step(s, m))
    ensures Step(s, m).given == s.given && Step(s, m).returned == s.returned
  {
    hide Load, Store, Final, ReadsRight;
  }

  /** The steps a doomed run can still take. */
  function DoomedWork(s: State): nat {
    if s.writer.WriterFailed? || s.reader.ReaderFailed? then 0 else |s.toReader| + |s.toWriter|
  }

  /** A doomed run goes on, with no further result, until one side fails; then nothing more can happen. */
  lemma DoomedStays(s: State, m: Move)
    requires Doomed(s) && Enabled(s, m)
    ensures var s' := Step(s, m);
      Doomed(s') && DoomedWork(s') < DoomedWork(s) && s'.given == s.given && s'.returned == s.returned
  {
    hide Load, Store;
    if s.reader.Reading? && |s.toReader| > 1 {
      var rest := s.toReader[1..];
      assert rest[..|rest| - 1] == s.toReader[..|s.toReader| - 1][1..];
      assert s.toReader[0] == s.toReader[..|s.toReader| - 1][0];
    }
  }

  lemma DoomedCanStep(s: State) returns (m: Move)
    requires Doomed(s) && !Failed(s)
    ensures Enabled(s, m)
  {
    m := if s.reader.Reading? then ReaderReceives else WriterReceives;
  }

  // ---------- runs ----------

  ghost predicate StepAt(states: seq<State>, moves: seq<Move>, i: nat) {
    i < |moves| && i + 1 < |states| && Enabled(states[i], moves[i]) && states[i + 1] == Step(states[i], moves[i])
  }

  ghost predicate IsRun(mem0: Memory, states: seq<State>, moves: seq<Move>) {
    && |states| == |moves| + 1 && Start(mem0, states[0])
    && forall i: nat {:trigger StepAt(states, moves, i)} | i < |moves| :: StepAt(states, moves, i)
  }

  ghost predicate AllPolite(states: seq<State>, moves: seq<Move>, i: nat)
    requires i <= |moves| < |states|
  {
    forall j | 0 <= j < i :: Polite(states[j], moves[j])
  }

  lemma {:induction false} RunKeepsAll(mem0: Memory, states: seq<State>, moves: seq<Move>, i: nat)
    requires IsRun(mem0, states, moves) && i <= |moves|
    ensures AllPolite(states, moves, i) ==> Inv(mem0, states[i]) && OneToOne(states[i])
    ensures !AllPolite(states, moves, i) ==> Doomed(states[i])
  {
    hide Inv, OneToOne, Enabled, Step, Polite, Doomed;
    if i == 0 {
      StartIsGood(mem0, states[0]);
    } else {
      RunKeepsAll(mem0, states, moves, i - 1);
      assert StepAt(states, moves, i - 1);
      if !AllPolite(states, moves, i - 1) {
        DoomedStays(states[i - 1], moves[i - 1]);
      } else if Polite(states[i - 1], moves[i - 1]) {
        StepKeepsInv(mem0, states[i - 1], moves[i - 1]);
        StepKeepsOneToOne(mem0, states[i - 1], moves[i - 1]);
      } else {
        ImpoliteDooms(mem0, states[i - 1], moves[i - 1]);
      }
    }
  }

  lemma StartIsGood(mem0: Memory, s: State)
    requires Start(mem0, s)
    ensures Inv(mem0, s) && OneToOne(s)
  {
  }

  /** As long as all moves of a run are polite, no assertion of either side fails, every finished request got the
      one result its handler gave, of the kind that was asked for, and every read of a handler saw memory as the
      writes before it left it. */
  lemma EveryRequestAnsweredOnce(mem0: Memory, states: seq<State>, moves: seq<Move>, i: nat)
    requires IsRun(mem0, states, moves) && i <= |moves| && AllPolite(states, moves, i)
    ensures var s := states[i];
      && !Failed(s)
      && s.returned <= s.given
      && (forall j | 0 <= j < |s.returned| :: j < |s.asked| && s.returned[j].kind == s.asked[j])
      && |s.asked| == |s.returned| + (if s.writer.Idle? then 0 else 1)
      && (s.writer.Idle? ==> s.returned == s.given && s.mem == Final(mem0, s.log))
      && ReadsRight(mem0, s.log)
  {
    hide Final, ReadsRight, Load, Store;
    RunKeepsAll(mem0, states, moves, i);
    var s := states[i];
    assert forall j | 0 <= j < |s.returned| :: s.returned[j] == s.given[j];
    assert s.writer.Idle? ==> s.returned == s.given[..|s.returned|];
  }

  /** A run gets stuck if and only if an assertion has failed, and that happens only after an impolite move; after
      one it is all that can happen. */
  lemma StuckIffFailed(mem0: Memory, states: seq<State>, moves: seq<Move>, i: nat)
    requires IsRun(mem0, states, moves) && i <= |moves|
    ensures (forall m :: !Enabled(states[i], m)) <==> Failed(states[i])
    ensures Failed(states[i]) ==> !AllPolite(states, moves, i)
    ensures !AllPolite(states, moves, i) ==>
      Doomed(states[i]) && forall m | Enabled(states[i], m) :: DoomedWork(Step(states[i], m)) < DoomedWork(states[i])
  {
    hide Inv, OneToOne, Step, Polite, Doomed;
    RunKeepsAll(mem0, states, moves, i);
    var s := states[i];
    if AllPolite(states, moves, i) {
      var m := NeverStuck(mem0, states, moves, i);
      EveryRequestAnsweredOnce(mem0, states, moves, i);
    } else {
      forall m | Enabled(s, m) ensures DoomedWork(Step(s, m)) < DoomedWork(s) {
        DoomedStays(s, m);
      }
      if !Failed(s) {
        var m := DoomedCanStep(s);
      }
    }
  }

  /** While a request is open one of the two sides can always go on, and the writer is stuck in no other state. */
  lemma NeverStuck(mem0: Memory, states: seq<State>, moves: seq<Move>, i: nat) returns (m: Move)
    requires IsRun(mem0, states, moves) && i <= |moves| && AllPolite(states, moves, i)
    ensures Enabled(states[i], m) && Polite(states[i], m)
    ensures !states[i].writer.Idle? ==> m.WriterReceives? || m.WriterServes? || m.ReaderReceives? || m.ReaderAnswers?
  {
    hide Final, ReadsRight, Load, Store;
    RunKeepsAll(mem0, states, moves, i);
    var s := states[i];
    if s.writer.Idle? {
      m := SendPlain;
    } else if s.writer.Serving? {
      m := WriterServes;
    } else if s.toWriter != [] {
      m := WriterReceives;
    } else if s.reader.Handling? {
      m := ReaderAnswers(0);
    } else {
      m := ReaderReceives;
    }
  }

  /** The steps an open request can still take. */
  function Work(s: State): nat {
    match s.reader
    case Handling(_, left) => 4 * left + 2
    case Awaiting(_, left, _) =>
      4 * left + if s.toWriter != [] then 5 else if s.writer.Serving? then 4 else 3
    case ReaderFailed => 0
    case Reading =>
      if s.toReader == [] then 1 else
      var last := s.toReader[|s.toReader| - 1];
      |s.toReader| + 2 + if last.Ask? then 4 * last.accesses else 0
  }

  lemma StepUsesWork(mem0: Memory, s: State, m: Move)
    requires Enabled(s, m) && Polite(s, m) && Inv(mem0, s) && !s.writer.Idle? && !Step(s, m).writer.Idle?
    ensures Work(Step(s, m)) < Work(s)
  {
    hide Final, ReadsRight, Load, Store;
  }

  /** Every request ends: it stays open for no more steps than it had work when it was asked. */
  lemma {:induction false} RequestEnds(mem0: Memory, states: seq<State>, moves: seq<Move>, i: nat, j: nat)
    requires IsRun(mem0, states, moves) && i <= j <= |moves| && AllPolite(states, moves, j)
    requires forall k | i <= k <= j :: !states[k].writer.Idle?
    ensures j - i + Work(states[j]) <= Work(states[i])
  {
    hide Inv, OneToOne, Enabled, Step, Polite, Work;
    if i < j {
      RequestEnds(mem0, states, moves, i, j - 1);
      RunKeepsAll(mem0, states, moves, j - 1);
      assert StepAt(states, moves, j - 1);
      StepUsesWork(mem0, states[j - 1], moves[j - 1]);
    }
  }

  /** A handler's access is served if and only if it reads or writes something during a system call, a
      synchronisation, a magic instruction or an emulation; any other access breaks the writer. */
  lemma ServedIffPolite(mem0: Memory, s: State, r: Request)
    requires Inv(mem0, s) && Enabled(s, AskMemory(r))
    ensures Enabled(Step(s, AskMemory(r)), WriterReceives)
    ensures var writer := Step(Step(s, AskMemory(r)), WriterReceives).writer;
      if r.size > 0 && r.op != InvalidOp && s.reader.kind in {Syscall, Sync, Magic, Emu}
      then writer == Serving(s.reader.kind, r) else writer == WriterFailed
    ensures Polite(s, AskMemory(r)) <==>
      r.size > 0 && r.op != InvalidOp && s.reader.kind in {Syscall, Sync, Magic, Emu}
  {
    hide Final, ReadsRight, Load, Store;
  }

  /** What an answer looks like on its way, and who would take it: a writer that waits for something else fails, but
      for instruction counts and synchronisations, which are answered alike. */
  lemma AnswersTell(mem0: Memory, s: State, value: int, waiting: Kind)
    requires Inv(mem0, s) && Enabled(s, ReaderAnswers(value))
    ensures var kind := s.reader.kind;
      Step(s, ReaderAnswers(value)).toWriter == [
        match kind
        case Count => Answered(SyncAnswer, 4, value)
        case Sync => Answered(SyncAnswer, 4, value)
        case NewThread => Answered(NewThreadAnswer, 4, value)
        case Join => Answered(JoinAnswer, 4, value)
        case Fork => Answered(ForkAnswer, 4, value)
        case Syscall => Answered(SyscallAnswer, 8, value)
        case Magic => Answered(MagicAnswer, 8, value)
        case Emu => Answered(EmuAnswer, 49, value)]
    ensures var kind, s' := s.reader.kind, Step(s, ReaderAnswers(value)).(writer := Waiting(waiting));
      Enabled(s', WriterReceives)
      && if kind == waiting || {kind, waiting} == {Count, Sync} then Step(s', WriterReceives).writer == Idle
         else Step(s', WriterReceives).writer == WriterFailed
  {
    hide Final, ReadsRight, Load, Store;
    assert {s.reader.kind, waiting} == {Count, Sync} ==> s.reader.kind in {Count, Sync} && waiting in {Count, Sync};
    assert s.reader.kind == Count && waiting == Sync ==> {s.reader.kind, waiting} == {Count, Sync};
    assert s.reader.kind == Sync && waiting == Count ==> {s.reader.kind, waiting} == {Count, Sync};
  }

  /** The sizes that decide: which requests the writer sends, and which answers it takes. */
  lemma SizesDecide(s: State, kind: Kind, size: nat, accesses: nat, answer: Answer, value: int)
    requires s.writer == Idle
    ensures Enabled(s, SendAsk(kind, size, accesses)) <==>
      || (kind in {Count, Join} && size == 4) || (kind == Syscall && size >= 2) || (kind == Magic && size == 24)
      || (kind == Emu && size == 10) || (kind in {NewThread, Sync, Fork} && size == 0)
    ensures var s' := s.(writer := Waiting(kind), toWriter := [Answered(answer, size, value)]);
      Step(s', WriterReceives).writer.Idle? <==>
        || (kind in {Count, Sync} && answer == SyncAnswer && size == 4)
        || (kind == NewThread && answer == NewThreadAnswer && size == 4)
        || (kind == Join && answer == JoinAnswer && size == 4) || (kind == Fork && answer == ForkAnswer && size == 4)
        || (kind == Syscall && answer == SyscallAnswer && size == 8)
        || (kind == Magic && answer == MagicAnswer && size == 8)
        || (kind == Emu && answer == EmuAnswer && size <= 49)
  {
  }

  /** A request is taken if and only if it is polite; the reader fails exactly at a system call without argument
      bytes, which the writer sends like any other. */
  lemma TakenIffPolite(mem0: Memory, s: State, kind: Kind, size: nat, accesses: nat)
    requires Inv(mem0, s) && s.toReader == [] && Enabled(s, SendAsk(kind, size, accesses))
    ensures Enabled(Step(s, SendAsk(kind, size, accesses)), ReaderReceives)
    ensures var reader := Step(Step(s, SendAsk(kind, size, accesses)), ReaderReceives).reader;
      if kind == Syscall && size == 2 then reader == ReaderFailed else reader == Handling(kind, accesses)
    ensures Polite(s, SendAsk(kind, size, accesses)) <==> !(kind == Syscall && size == 2)
  {
    hide Final, ReadsRight, Load, Store;
  }
}
