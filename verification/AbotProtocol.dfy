/** The ABot runtime as a transition system.  One event is one lock section, one queue operation
    or one test of the stop flag, and events of the producer threads, the start/stop caller and
    any number of other HTTP handlers interleave arbitrarily.

    The control event is not part of the state: waiting on it returns after a quarter of a
    second whether it is set or not, so every interleaving below is possible under any use of it. */
module AbotProtocol {
  import opened Common
  import opened InteractiveRuntime

  /** Where a producer thread stands. */
  datatype Pc =
    | LoopTest
    | StopTest
    | Snapshot
    | Generating(of: nat, controls: set<Control>, revision: int)
    | Publishing(of: nat, controls: set<Control>, revision: int, block: seq<Frame>)
    | PutTest(payload: Payload)
    | PutTry(payload: Payload)
    | Done

  datatype Request = Start(controls: set<Control>) | Stop

  /** Where the caller of start/stop stands.  `Clearing` holds the lock. */
  datatype Caller =
    | Idle
    | Joining(request: Request, target: Option<nat>)
    | Entering(request: Request)
    | Clearing(request: Request)

  /** `produced`, `pulled` and `registers` record, for the latest session, the payloads built,
      the payloads taken by clients, and every value the control register has had. */
  datatype State = State(
    core: Core, threads: seq<Pc>, caller: Caller, sessions: nat,
    produced: seq<Payload>, pulled: seq<Payload>, registers: set<(set<Control>, int)>)

  datatype Event =
    | Work(thread: nat, block: Option<seq<Frame>>)  // `block`: what generation returns, None = it raises
    | Pull
    | SetControls(controls: set<Control>, revision: Option<int>)
    | Begin(request: Request)
    | Joined
    | JoinTimeout
    | Enter
    | ClearOne
    | Finish

  function Init(capacity: nat): State {
    State(InitialCore(capacity), [], Idle, 0, [], [], {})
  }

  predicate LockFree(s: State) {
    !s.caller.Clearing?
  }

  function Move(s: State, i: nat, pc: Pc): State
    requires i < |s.threads|
  {
    s.(threads := s.threads[i := pc])
  }

  /** One step of producer thread `i`; `None` while it waits for the lock. */
  function WorkStep(s: State, i: nat, block: Option<seq<Frame>>): Option<State>
    requires i < |s.threads| && s.threads[i] != Done
  {
    match s.threads[i]
    case LoopTest => Some(Move(s, i, if s.core.stop then Done else StopTest))
    case StopTest => Some(Move(s, i, if s.core.stop then Done else Snapshot))
    case Snapshot =>
      if !LockFree(s) then None
      else if s.core.session.None? then Some(Move(s, i, Done))
      else if s.core.controls == {} then Some(Move(s, i, LoopTest))
      else Some(Move(s, i, Generating(s.core.session.value, s.core.controls, s.core.revision)))
    case Generating(of, controls, revision) =>
      Some(Move(s, i, if block.None? then Done else Publishing(of, controls, revision, block.value)))
    case Publishing(of, controls, revision, made) =>
      if !LockFree(s) then None
      else if s.core.session != Some(of) then Some(Move(s, i, Done))
      else if made == [] then
        Some(Move(s.(core := s.core.(chunkIndex := s.core.chunkIndex + 1)), i, Done))
      else
        var core := PublishOn(s.core, made);
        var payload := PayloadFor(core, of, made, controls, revision);
        Some(Move(s.(core := core, produced := s.produced + [payload]), i,
                  if s.core.stop then LoopTest else PutTest(payload)))
    case PutTest(payload) => Some(Move(s, i, if s.core.stop then Done else PutTry(payload)))
    case PutTry(payload) =>
      if |s.core.queue| < s.core.capacity
      then Some(Move(s.(core := s.core.(queue := s.core.queue + [payload])), i, LoopTest))
      else Some(Move(s, i, PutTest(payload)))
    case Done => None
  }

  /** `None` when the event is not possible in `s`. */
  function Apply(s: State, e: Event): Option<State> {
    match e
    case Work(i, block) =>
      if i < |s.threads| && s.threads[i] != Done then WorkStep(s, i, block) else None
    case Pull =>
      if s.core.queue == [] then Some(s)
      else Some(s.(core := s.core.(queue := s.core.queue[1..]), pulled := s.pulled + [s.core.queue[0]]))
    case SetControls(controls, revision) =>
      if !LockFree(s) then None
      else
        var core := SetControlsOn(s.core, controls, revision);
        Some(s.(core := core, registers := s.registers + {(core.controls, core.revision)}))
    case Begin(request) =>
      if s.caller != Idle then None
      else Some(s.(core := SignalStopOn(s.core), caller := Joining(request, s.core.worker)))
    case Joined =>
      if !s.caller.Joining? || !Dead(s, s.caller.target) then None
      else Some(s.(core := DetachOn(s.core, s.caller.target), caller := Entering(s.caller.request)))
    case JoinTimeout =>
      if !s.caller.Joining? || Dead(s, s.caller.target) then None
      else Some(s.(caller := Idle))
    case Enter =>
      if !s.caller.Entering? then None else Some(s.(caller := Clearing(s.caller.request)))
    case ClearOne =>
      if !s.caller.Clearing? || s.core.queue == [] then None
      else Some(s.(core := s.core.(queue := s.core.queue[1..])))
    case Finish =>
      if !s.caller.Clearing? || s.core.queue != [] then None
      else Some(FinishRequest(s, s.caller.request))
  }

  predicate Dead(s: State, target: Option<nat>) {
    target.None? || target.value >= |s.threads| || s.threads[target.value] == Done
  }

  function FinishRequest(s: State, request: Request): State {
    match request
    case Start(controls) =>
      State(StartSessionOn(s.core, s.sessions, controls, |s.threads|), s.threads + [LoopTest], Idle,
            s.sessions + 1, [], [], {(controls, 0)})
    case Stop => s.(core := EndSessionOn(s.core), caller := Idle)
  }

  function Exec(s: State, events: seq<Event>): Option<State>
    decreases |events|
  {
    if events == [] then Some(s)
    else
      var next := Apply(s, events[0]);
      if next.None? then None else Exec(next.value, events[1..])
  }

  // ----- what every reachable state satisfies

  function NewFrames(payloads: seq<Payload>): nat {
    if payloads == [] then 0
    else NewFrames(payloads[..|payloads| - 1]) + payloads[|payloads| - 1].newFrames
  }

  function Live(s: State): Option<Pc> {
    if s.core.worker.Some? && s.core.worker.value < |s.threads| && s.threads[s.core.worker.value] != Done
    then Some(s.threads[s.core.worker.value]) else None
  }

  /** The payload the producer has built and not yet put, if any. */
  function Held(s: State): seq<Payload> {
    var live := Live(s);
    if live.Some? && (live.value.PutTest? || live.value.PutTry?) then [live.value.payload] else []
  }

  /** At most one thread is live, and it is the one the runtime knows. */
  ghost predicate OneWorker(s: State) {
    && (forall i :: 0 <= i < |s.threads| && s.threads[i] != Done ==> s.core.worker == Some(i))
    && (s.core.worker.Some? ==> s.core.worker.value < |s.threads|)
  }

  ghost predicate CallerOk(s: State) {
    match s.caller
    case Idle => true
    case Joining(_, target) => s.core.stop && target == s.core.worker
    case Entering(_) => s.core.stop && s.core.worker == None
    case Clearing(_) => s.core.stop && s.core.worker == None
  }

  /** The current session is the latest one; without one nothing is live or queued. */
  ghost predicate SessionOk(s: State) {
    && (s.core.session.Some? ==> s.sessions > 0 && s.core.session.value == s.sessions - 1)
    && (s.core.session.None? ==> Live(s).None? && s.core.queue == [])
    && (s.core.session.Some? ==> (s.core.controls, s.core.revision) in s.registers)
  }

  /** Whatever the live thread carries comes from the current session and a past register value. */
  ghost predicate WorkerOk(s: State) {
    var live := Live(s);
    live.Some? && (live.value.Generating? || live.value.Publishing?) ==>
      && s.core.session == Some(live.value.of)
      && live.value.controls != {}
      && (live.value.controls, live.value.revision) in s.registers
  }

  /** Payload number `k + 1` of session number `sessions - 1`, as it must read. */
  ghost predicate PayloadOk(k: nat, produced: seq<Payload>, sessions: nat, registers: set<(set<Control>, int)>)
    requires k < |produced|
  {
    var p := produced[k];
    && p.session + 1 == sessions
    && p.chunk == k + 1 && p.version == k + 1
    && p.newFrames > 0
    && p.totalFrames == NewFrames(produced[..k + 1])
    && p.controls != {} && (p.controls, p.revision) in registers
  }

  ghost predicate ProducedOk(produced: seq<Payload>, sessions: nat, registers: set<(set<Control>, int)>) {
    forall k :: 0 <= k < |produced| ==> PayloadOk(k, produced, sessions, registers)
  }

  /** The counters match what was produced; only an empty block, which ends the producer, breaks
      the tie between chunk number and version. */
  ghost predicate CountersOk(c: Core, produced: seq<Payload>, live: Option<Pc>) {
    && |produced| == c.version
    && NewFrames(produced) == |c.frames|
    && (c.chunkIndex == c.version || (c.chunkIndex == c.version + 1 && live.None?))
  }

  /** The frames of block `v` as they sit in the session's video. */
  ghost function BlockOf(frames: seq<Frame>, produced: seq<Payload>, v: nat): seq<Frame>
    requires 1 <= v <= |produced|
  {
    var hi := NewFrames(produced[..v]);
    var lo := NewFrames(produced[..v - 1]);
    if lo <= hi <= |frames| then frames[lo..hi] else []
  }

  /** The cache holds exactly the newest blocks, each with its own frames. */
  ghost predicate CacheOk(blocks: map<nat, seq<Frame>>, version: nat, frames: seq<Frame>, produced: seq<Payload>) {
    && WindowCached(blocks, version)
    && (forall v :: v in blocks && v <= |produced| ==> blocks[v] == BlockOf(frames, produced, v))
  }

  /** The session's payloads in their one order: taken, then queued, then held. */
  function Line(s: State): seq<Payload> {
    s.pulled + s.core.queue + Held(s)
  }

  /** Draining has begun or ended: a stop or start has entered its final section. */
  predicate Drained(s: State) {
    s.caller.Clearing? || s.core.session.None?
  }

  ghost predicate InOrder(line: seq<Payload>, produced: seq<Payload>) {
    && (forall k :: 0 <= k < |line| ==> 1 <= line[k].chunk <= |produced| && produced[line[k].chunk - 1] == line[k])
    && (forall j, k :: 0 <= j < k < |line| ==> line[j].chunk < line[k].chunk)
  }

  /** The producer is finished, or back at the top of its loop. */
  predicate Resting(s: State) {
    Live(s).None? || Live(s).value.LoopTest?
  }

  /** Everything produced is in line, except at most the newest payload, given up by a producer
      that has seen the stop signal and is about to finish. */
  ghost predicate Lossless(line: seq<Payload>, produced: seq<Payload>, stopping: bool) {
    || line == produced
    || (stopping && produced != [] && line == produced[..|produced| - 1])
  }

  ghost predicate ControlInv(s: State) {
    OneWorker(s) && CallerOk(s) && SessionOk(s) && WorkerOk(s)
  }

  ghost predicate BooksInv(s: State) {
    && ProducedOk(s.produced, s.sessions, s.registers)
    && CountersOk(s.core, s.produced, Live(s))
    && CacheOk(s.core.blocks, s.core.version, s.core.frames, s.produced)
  }

  ghost predicate Inv(s: State) {
    ControlInv(s) && BooksInv(s) && FifoOk(FifoOf(s))
  }

  // ----- every event keeps the invariant

  lemma ControlKept(s: State, e: Event, t: State)
    requires ControlInv(s) && Apply(s, e) == Some(t)
    ensures ControlInv(t)
  {
    match e
    case Work(i, block) =>
      WorkKeepsControl(s, i, block, t);
    case _ =>
  }

  lemma WorkKeepsControl(s: State, i: nat, block: Option<seq<Frame>>, t: State)
    requires ControlInv(s) && Apply(s, Work(i, block)) == Some(t)
    ensures ControlInv(t)
  {
    assert s.core.worker == Some(i) && Live(s) == Some(s.threads[i]);
    WorkMovesOne(s, i, block, t);
    assert Live(t) == if t.threads[i] == Done then None else Some(t.threads[i]);
  }

  /** A producer's step changes its own place only, and nothing that start and stop set. */
  lemma WorkMovesOne(s: State, i: nat, block: Option<seq<Frame>>, t: State)
    requires Apply(s, Work(i, block)) == Some(t)
    ensures |t.threads| == |s.threads| && i < |s.threads| && t.threads == s.threads[i := t.threads[i]]
    ensures t.core.worker == s.core.worker && t.caller == s.caller && t.core.stop == s.core.stop
    ensures t.core.session == s.core.session && t.sessions == s.sessions && t.registers == s.registers
    ensures t.core.controls == s.core.controls && t.core.revision == s.core.revision
  {
  }

  /** Adding the payload of a freshly generated block to the books. */
  lemma PublishKeepsBooks(s: State, of: nat, made: seq<Frame>, controls: set<Control>, revision: int)
    requires BooksInv(s) && Live(s).Some? && made != []
    requires of + 1 == s.sessions && controls != {} && (controls, revision) in s.registers
    ensures
      var core := PublishOn(s.core, made);
      var produced := s.produced + [PayloadFor(core, of, made, controls, revision)];
      && ProducedOk(produced, s.sessions, s.registers)
      && |produced| == core.version == core.chunkIndex
      && NewFrames(produced) == |core.frames|
      && CacheOk(core.blocks, core.version, core.frames, produced)
  {
    var core := PublishOn(s.core, made);
    var p := PayloadFor(core, of, made, controls, revision);
    var produced := s.produced + [p];
    assert produced[..|s.produced|] == s.produced;
    forall k | 0 <= k < |produced| ensures PayloadOk(k, produced, s.sessions, s.registers) {
      if k < |s.produced| {
        assert PayloadOk(k, s.produced, s.sessions, s.registers);
        assert produced[..k + 1] == s.produced[..k + 1];
      } else {
        assert produced[..k + 1] == produced;
      }
    }
    CachingKeepsWindow(s.core.(frames := core.frames, chunkIndex := core.chunkIndex), made);
    forall v | v in core.blocks && v <= |produced|
      ensures core.blocks[v] == BlockOf(core.frames, produced, v)
    {
      if v <= |s.produced| {
        OlderBlockUnchanged(s, core.frames, p, v);
      } else {
        assert produced[..v] == produced;
      }
    }
  }

  lemma OlderBlockUnchanged(s: State, frames: seq<Frame>, p: Payload, v: nat)
    requires 1 <= v <= |s.produced|
    requires s.core.frames <= frames && NewFrames(s.produced) == |s.core.frames|
    ensures BlockOf(frames, s.produced + [p], v) == BlockOf(s.core.frames, s.produced, v)
  {
    var produced := s.produced + [p];
    assert produced[..v] == s.produced[..v] && produced[..v - 1] == s.produced[..v - 1];
    NewFramesGrows(s.produced, v - 1, v);
    NewFramesGrows(s.produced, v, |s.produced|);
    assert s.produced[..|s.produced|] == s.produced;
  }

  lemma {:induction false} NewFramesGrows(payloads: seq<Payload>, j: nat, k: nat)
    requires j <= k <= |payloads|
    ensures NewFrames(payloads[..j]) <= NewFrames(payloads[..k])
    decreases k - j
  {
    if j < k {
      NewFramesGrows(payloads, j, k - 1);
      assert payloads[..k][..k - 1] == payloads[..k - 1];
    }
  }

  /** What a step does to the books: nothing, one block published, one empty block, or a new session. */
  datatype BookAction =
    | NoEntry
    | Entry(of: nat, block: seq<Frame>, controls: set<Control>, revision: int)
    | EmptyBlock
    | NewSession

  ghost predicate BookStep(s: State, a: BookAction, t: State) {
    match a
    case NoEntry =>
      && t.produced == s.produced && t.sessions == s.sessions && s.registers <= t.registers
      && t.core.blocks == s.core.blocks && t.core.version == s.core.version && t.core.frames == s.core.frames
      && t.core.chunkIndex == s.core.chunkIndex && (Live(s).None? ==> Live(t).None?)
    case Entry(of, block, controls, revision) =>
      && Live(s).Some? && block != [] && of + 1 == s.sessions
      && controls != {} && (controls, revision) in s.registers
      && t.core == PublishOn(s.core, block)
      && t.produced == s.produced + [PayloadFor(t.core, of, block, controls, revision)]
      && t.sessions == s.sessions && t.registers == s.registers
    case EmptyBlock =>
      && Live(s).Some? && Live(t).None?
      && t.core == s.core.(chunkIndex := s.core.chunkIndex + 1)
      && t.produced == s.produced && t.sessions == s.sessions && t.registers == s.registers
    case NewSession =>
      && t.produced == [] && t.core.blocks == map[] && t.core.version == 0 == t.core.chunkIndex && t.core.frames == []
  }

  function BookActionOf(s: State, e: Event): BookAction {
    match e
    case Work(i, _) =>
      if i < |s.threads| && s.threads[i].Publishing? && s.core.session == Some(s.threads[i].of) then
        var pc := s.threads[i];
        if pc.block == [] then EmptyBlock else Entry(pc.of, pc.block, pc.controls, pc.revision)
      else NoEntry
    case Finish => if s.caller.Clearing? && s.caller.request.Start? then NewSession else NoEntry
    case _ => NoEntry
  }

  lemma StepIsBookStep(s: State, e: Event, t: State)
    requires ControlInv(s) && Apply(s, e) == Some(t)
    ensures BookStep(s, BookActionOf(s, e), t)
  {
    match e
    case Work(i, block) =>
      assert s.core.worker == Some(i);
    case _ =>
  }

  lemma BookStepKeeps(s: State, a: BookAction, t: State)
    requires BooksInv(s) && BookStep(s, a, t)
    ensures BooksInv(t)
  {
    match a
    case NoEntry =>
      assert forall k :: 0 <= k < |t.produced| ==>
               PayloadOk(k, s.produced, s.sessions, s.registers) && PayloadOk(k, t.produced, t.sessions, t.registers);
    case Entry(of, block, controls, revision) =>
      PublishKeepsBooks(s, of, block, controls, revision);
    case EmptyBlock =>
    case NewSession =>
  }

  /** The queue discipline on its own: a line of payloads that clients take from the front, and
      into which the producer feeds what it holds. */
  datatype Fifo = Fifo(
    pulled: seq<Payload>, queue: seq<Payload>, held: seq<Payload>, produced: seq<Payload>,
    capacity: nat, stop: bool, resting: bool, drained: bool)

  function FifoOf(s: State): Fifo {
    Fifo(s.pulled, s.core.queue, Held(s), s.produced, s.core.capacity, s.core.stop, Resting(s), Drained(s))
  }

  ghost predicate FifoOk(f: Fifo) {
    && InOrder(f.pulled + f.queue + f.held, f.produced)
    && |f.held| <= 1
    && (!f.drained ==> Lossless(f.pulled + f.queue + f.held, f.produced, f.stop && f.resting))
    && |f.queue| <= f.capacity
  }

  datatype FifoAction = Idling | Take | Put | Give(payload: Payload) | Discard | Reset | Drop

  ghost predicate FifoStep(f: Fifo, a: FifoAction, g: Fifo) {
    && g.capacity == f.capacity
    && match a
       case Idling =>
         && g.pulled == f.pulled && g.queue == f.queue && g.held == f.held && g.produced == f.produced
         && (f.drained ==> g.drained) && (f.stop && f.resting ==> g.stop && g.resting)
       case Take =>
         f.queue != [] && g == f.(pulled := f.pulled + [f.queue[0]], queue := f.queue[1..])
       case Put =>
         && f.held != [] && |f.queue| < f.capacity
         && g == f.(queue := f.queue + f.held, held := [], resting := true)
       case Give(p) =>
         && f.held == [] && !f.resting && p.chunk == |f.produced| + 1
         && g.pulled == f.pulled && g.queue == f.queue && g.produced == f.produced + [p]
         && g.stop == f.stop && g.drained == f.drained
         && (g.held == [p] || (g.held == [] && g.stop && g.resting))
       case Discard =>
         g.drained && f.queue != [] && g == f.(queue := f.queue[1..])
       case Reset => g.pulled == g.queue == g.held == g.produced == []
       case Drop =>
         f.held != [] && f.stop && !f.resting && g == f.(held := [], resting := true)
  }

  lemma Lines(pulled: seq<Payload>, queue: seq<Payload>, held: seq<Payload>)
    ensures pulled + (queue + held) + [] == pulled + queue + held
    ensures pulled + queue + [] + held == pulled + queue + held
    ensures pulled + queue + [] == pulled + queue
    ensures queue != [] ==> pulled + [queue[0]] + queue[1..] + held == pulled + queue + held
    ensures queue != [] ==>
              pulled + queue[1..] + held
              == (pulled + queue + held)[..|pulled|] + (pulled + queue + held)[|pulled| + 1..]
  {
  }

  lemma DiscardInOrder(line: seq<Payload>, produced: seq<Payload>, cut: nat)
    requires InOrder(line, produced) && cut < |line|
    ensures InOrder(line[..cut] + line[cut + 1..], produced)
  {
  }

  lemma FifoStepKeeps(f: Fifo, a: FifoAction, g: Fifo)
    requires FifoOk(f) && FifoStep(f, a, g)
    ensures FifoOk(g)
  {
    match a
    case Give(p) => GiveKeeps(f, p, g);
    case Drop => DropKeeps(f, g);
    case Discard =>
      Lines(f.pulled, f.queue, f.held);
      DiscardInOrder(f.pulled + f.queue + f.held, f.produced, |f.pulled|);
    case _ => MoveKeeps(f, a, g);
  }

  /** Taking and putting move payloads along the line without changing it. */
  lemma MoveKeeps(f: Fifo, a: FifoAction, g: Fifo)
    requires FifoOk(f) && FifoStep(f, a, g) && (a.Idling? || a.Take? || a.Put? || a.Reset?)
    ensures FifoOk(g)
  {
    Lines(f.pulled, f.queue, f.held);
    assert !a.Reset? ==> g.pulled + g.queue + g.held == f.pulled + f.queue + f.held;
  }

  lemma GiveKeeps(f: Fifo, p: Payload, g: Fifo)
    requires FifoOk(f) && FifoStep(f, Give(p), g)
    ensures FifoOk(g)
  {
    var before := f.pulled + f.queue;
    Lines(f.pulled, f.queue, f.held);
    assert g.pulled + g.queue + g.held == before + g.held;
    assert g.produced[..|g.produced| - 1] == f.produced;
    GrownInOrder(before, g.held, f.produced, p);
  }

  lemma DropKeeps(f: Fifo, g: Fifo)
    requires FifoOk(f) && FifoStep(f, Drop, g)
    ensures FifoOk(g)
  {
    var after := f.pulled + f.queue;
    Lines(f.pulled, f.queue, f.held);
    PrefixInOrder(after, f.held, f.produced);
    if !f.drained {
      LastOfLine(after, f.held, f.produced);
    }
  }

  lemma LastOfLine(front: seq<Payload>, held: seq<Payload>, produced: seq<Payload>)
    requires front + held == produced && |held| == 1
    ensures produced != [] && front == produced[..|produced| - 1]
  {
  }

  function FifoActionOf(s: State, e: Event): FifoAction {
    match e
    case Work(i, _) =>
      if i >= |s.threads| then Idling else
      match s.threads[i] {
        case PutTest(_) => if s.core.stop then Drop else Idling
        case PutTry(_) => if |s.core.queue| < s.core.capacity then Put else Idling
        case Publishing(of, controls, revision, made) =>
          if s.core.session == Some(of) && made != []
          then Give(PayloadFor(PublishOn(s.core, made), of, made, controls, revision)) else Idling
        case _ => Idling
      }
    case Pull => if s.core.queue == [] then Idling else Take
    case ClearOne => Discard
    case Finish => if s.caller.Clearing? && s.caller.request.Start? then Reset else Idling
    case _ => Idling
  }

  lemma StepIsFifoStep(s: State, e: Event, t: State)
    requires ControlInv(s) && CountersOk(s.core, s.produced, Live(s)) && Apply(s, e) == Some(t)
    ensures FifoStep(FifoOf(s), FifoActionOf(s, e), FifoOf(t))
  {
    match e
    case Work(i, block) =>
      WorkIsFifoStep(s, i, block, t);
    case _ =>
  }

  lemma WorkIsFifoStep(s: State, i: nat, block: Option<seq<Frame>>, t: State)
    requires OneWorker(s) && WorkerOk(s) && CountersOk(s.core, s.produced, Live(s))
    requires Apply(s, Work(i, block)) == Some(t)
    ensures FifoStep(FifoOf(s), FifoActionOf(s, Work(i, block)), FifoOf(t))
  {
    assert s.core.worker == Some(i) && Live(s) == Some(s.threads[i]);
    WorkMovesOne(s, i, block, t);
    assert Live(t) == if t.threads[i] == Done then None else Some(t.threads[i]);
    if s.threads[i].Publishing? {
      PublishIsFifoStep(s, i, block, t);
    }
  }

  lemma PublishIsFifoStep(s: State, i: nat, block: Option<seq<Frame>>, t: State)
    requires i < |s.threads| && s.threads[i].Publishing? && Live(s) == Some(s.threads[i])
    requires WorkerOk(s) && CountersOk(s.core, s.produced, Live(s)) && Apply(s, Work(i, block)) == Some(t)
    requires i < |t.threads| && Live(t) == if t.threads[i] == Done then None else Some(t.threads[i])
    ensures FifoStep(FifoOf(s), FifoActionOf(s, Work(i, block)), FifoOf(t))
  {
  }

  lemma PrefixInOrder(front: seq<Payload>, back: seq<Payload>, produced: seq<Payload>)
    requires InOrder(front + back, produced)
    ensures InOrder(front, produced)
  {
    assert forall k :: 0 <= k < |front| ==> (front + back)[k] == front[k];
  }

  lemma GrownInOrder(line: seq<Payload>, tail: seq<Payload>, produced: seq<Payload>, p: Payload)
    requires InOrder(line, produced) && p.chunk == |produced| + 1
    requires tail == [] || tail == [p]
    ensures InOrder(line + tail, produced + [p])
  {
  }

  lemma StepKeepsInv(s: State, e: Event, t: State)
    requires Inv(s) && Apply(s, e) == Some(t)
    ensures Inv(t)
  {
    ControlKept(s, e, t);
    StepIsBookStep(s, e, t);
    BookStepKeeps(s, BookActionOf(s, e), t);
    StepIsFifoStep(s, e, t);
    FifoStepKeeps(FifoOf(s), FifoActionOf(s, e), FifoOf(t));
  }

  lemma {:induction false} InvKept(s: State, events: seq<Event>, t: State)
    requires Inv(s) && Exec(s, events) == Some(t)
    ensures Inv(t)
    decreases |events|
  {
    if events != [] {
      var next := Apply(s, events[0]).value;
      StepKeepsInv(s, events[0], next);
      InvKept(next, events[1..], t);
    }
  }

  // ----- what clients and operators can rely on, over whole runs

  lemma InitOk(capacity: nat)
    ensures Inv(Init(capacity))
  {
  }

  lemma {:induction false} CapacityFixed(s: State, events: seq<Event>, t: State)
    requires Exec(s, events) == Some(t)
    ensures t.core.capacity == s.core.capacity
    decreases |events|
  {
    if events != [] {
      CapacityFixed(Apply(s, events[0]).value, events[1..], t);
    }
  }

  /** Under every interleaving the payloads of a session reach clients in chunk order with no
      duplicate, the queue stays within its capacity, and until a stop or start begins to drain
      it, nothing is missing; after a stop signal at most the newest payload can be. */
  lemma LosslessDelivery(capacity: nat, events: seq<Event>, s: State)
    requires Exec(Init(capacity), events) == Some(s)
    ensures |s.core.queue| <= capacity && |Held(s)| <= 1
    ensures forall k :: 0 <= k < |s.produced| ==> s.produced[k].chunk == k + 1
    ensures forall p :: p in Line(s) ==> p in s.produced
    ensures forall j, k :: 0 <= j < k < |Line(s)| ==> Line(s)[j].chunk < Line(s)[k].chunk
    ensures !s.core.stop && s.core.session.Some? ==> s.pulled + s.core.queue + Held(s) == s.produced
    ensures s.core.stop && !Drained(s) ==>
              || s.pulled + s.core.queue + Held(s) == s.produced
              || (Held(s) == [] && s.produced != [] && s.pulled + s.core.queue == s.produced[..|s.produced| - 1])
  {
    ReachedFifo(capacity, events, s);
    Numbered(s.produced, s.sessions, s.registers);
    FifoMeans(s);
  }

  lemma ReachedFifo(capacity: nat, events: seq<Event>, s: State)
    requires Exec(Init(capacity), events) == Some(s)
    ensures FifoOk(FifoOf(s)) && ProducedOk(s.produced, s.sessions, s.registers)
    ensures s.core.capacity == capacity && (s.caller.Clearing? ==> s.core.stop)
  {
    InitOk(capacity);
    InvKept(Init(capacity), events, s);
    CapacityFixed(Init(capacity), events, s);
  }

  lemma Numbered(produced: seq<Payload>, sessions: nat, registers: set<(set<Control>, int)>)
    requires ProducedOk(produced, sessions, registers)
    ensures forall k :: 0 <= k < |produced| ==> produced[k].chunk == k + 1
  {
    forall k | 0 <= k < |produced| ensures produced[k].chunk == k + 1 {
      assert PayloadOk(k, produced, sessions, registers);
    }
  }

  lemma FifoMeans(s: State)
    requires FifoOk(FifoOf(s))
    ensures |s.core.queue| <= s.core.capacity
    ensures forall p :: p in Line(s) ==> p in s.produced
    ensures forall j, k :: 0 <= j < k < |Line(s)| ==> Line(s)[j].chunk < Line(s)[k].chunk
    ensures !s.core.stop && s.core.session.Some? && !s.caller.Clearing? ==>
              s.pulled + s.core.queue + Held(s) == s.produced
    ensures s.core.stop && !Drained(s) ==>
              || s.pulled + s.core.queue + Held(s) == s.produced
              || (Held(s) == [] && s.produced != [] && s.pulled + s.core.queue == s.produced[..|s.produced| - 1])
  {
    Lines(s.pulled, s.core.queue, Held(s));
  }

  /** Each chunk message is consistent with itself and with one instant of the control register. */
  lemma SnapshotConsistency(capacity: nat, events: seq<Event>, s: State, k: nat)
    requires Exec(Init(capacity), events) == Some(s) && k < |s.produced|
    ensures
      var p := s.produced[k];
      && p.controls != {} && (p.controls, p.revision) in s.registers
      && p.version == p.chunk == k + 1
      && p.totalFrames == NewFrames(s.produced[..k + 1])
    ensures |s.produced| == s.core.version && NewFrames(s.produced) == |s.core.frames|
    ensures Live(s).Some? ==> s.core.chunkIndex == s.core.version
  {
    InitOk(capacity);
    InvKept(Init(capacity), events, s);
    assert PayloadOk(k, s.produced, s.sessions, s.registers);
  }

  lemma {:induction false} ExecLast(s: State, events: seq<Event>, t: State)
    requires events != [] && Exec(s, events) == Some(t)
    ensures
      var before := Exec(s, events[..|events| - 1]);
      before.Some? && Apply(before.value, events[|events| - 1]) == Some(t)
    decreases |events|
  {
    if |events| == 1 {
      assert events[1..] == [] && events[..0] == [];
    } else {
      var front, next := events[..|events| - 1], Apply(s, events[0]).value;
      ExecLast(next, events[1..], t);
      assert front[1..] == events[1..][..|events| - 2];
      ExecFirst(s, front, next);
    }
  }

  lemma ExecFirst(s: State, events: seq<Event>, next: State)
    requires events != [] && Apply(s, events[0]) == Some(next)
    ensures Exec(s, events) == Exec(next, events[1..])
  {
  }

  // ----- where a chunk message comes from

  /** The state of the run before its event number `k`. */
  ghost function At(capacity: nat, events: seq<Event>, k: nat): Option<State>
    requires k <= |events|
  {
    Exec(Init(capacity), events[..k])
  }

  /** Event `k` is a step of thread `i`, taken at a place that `here` accepts. */
  ghost predicate OwnStep(capacity: nat, events: seq<Event>, i: nat, k: nat, here: Pc -> bool) {
    && k < |events| && events[k].Work? && events[k].thread == i && At(capacity, events, k).Some?
    && var u := At(capacity, events, k).value;
       i < |u.threads| && here(u.threads[i])
  }

  const IsSnapshot: Pc -> bool := (pc: Pc) => pc.Snapshot?
  const IsGenerating: Pc -> bool := (pc: Pc) => pc.Generating?
  const IsPublishing: Pc -> bool := (pc: Pc) => pc.Publishing?

  /** Event `j` is the last snapshot step of thread `i`; it was taken in the session `sessions`, after
      the payloads `produced`, and the register held `pair` then. */
  ghost predicate SnapshotAt(capacity: nat, events: seq<Event>, i: nat, j: nat, pair: (set<Control>, int),
                             sessions: nat, produced: seq<Payload>) {
    && OwnStep(capacity, events, i, j, IsSnapshot)
    && (forall x: nat :: j < x < |events| ==> !OwnStep(capacity, events, i, x, IsSnapshot))
    && var u := At(capacity, events, j).value;
       (u.core.controls, u.core.revision) == pair && u.sessions == sessions && u.produced == produced
  }

  /** Event `g` is a generation step of thread `i` that returned `block`. */
  ghost predicate GeneratedAt(capacity: nat, events: seq<Event>, i: nat, g: nat, block: seq<Frame>) {
    OwnStep(capacity, events, i, g, IsGenerating) && events[g].block == Some(block)
  }

  lemma StepsOfPrefix(capacity: nat, events: seq<Event>, n: nat, i: nat, here: Pc -> bool)
    requires n <= |events|
    ensures forall k: nat :: k < n ==>
              (OwnStep(capacity, events[..n], i, k, here) <==> OwnStep(capacity, events, i, k, here))
  {
    forall k: nat | k < n
      ensures OwnStep(capacity, events[..n], i, k, here) <==> OwnStep(capacity, events, i, k, here)
    {
      assert events[..n][..k] == events[..k];
    }
  }

  /** While thread `i` generates or publishes, no event but its own moves it or the session's books. */
  lemma WhileBusy(s: State, e: Event, t: State, i: nat)
    requires ControlInv(s) && Apply(s, e) == Some(t) && i < |t.threads|
    requires t.threads[i].Generating? || t.threads[i].Publishing?
    requires !(e.Work? && e.thread == i)
    ensures i < |s.threads| && t.threads[i] == s.threads[i] && t.sessions == s.sessions && t.produced == s.produced
  {
    OnlyLive(s, i);
  }

  lemma OnlyLive(s: State, i: nat)
    requires OneWorker(s)
    ensures i < |s.threads| && s.threads[i] != Done ==>
              forall j :: 0 <= j < |s.threads| && j != i ==> s.threads[j] == Done
  {
  }

  /** How a thread comes to generate, and then to publish: by a snapshot step, which takes what the
      register holds, and by a generation step, which keeps it and adds the block. */
  lemma OwnMove(s: State, i: nat, block: Option<seq<Frame>>, t: State)
    requires Apply(s, Work(i, block)) == Some(t) && i < |t.threads|
    requires t.threads[i].Generating? || t.threads[i].Publishing?
    ensures i < |s.threads| && t.sessions == s.sessions && t.produced == s.produced
    ensures t.threads[i].Generating? ==>
              && s.threads[i].Snapshot?
              && (t.threads[i].controls, t.threads[i].revision) == (s.core.controls, s.core.revision)
    ensures t.threads[i].Publishing? ==>
              && s.threads[i].Generating? && block == Some(t.threads[i].block)
              && (t.threads[i].controls, t.threads[i].revision) == (s.threads[i].controls, s.threads[i].revision)
  {
  }

  lemma {:induction false} BlockBegan(capacity: nat, events: seq<Event>, s: State, i: nat) returns (j: nat)
    requires Exec(Init(capacity), events) == Some(s) && i < |s.threads| && s.threads[i].Generating?
    ensures SnapshotAt(capacity, events, i, j, (s.threads[i].controls, s.threads[i].revision), s.sessions, s.produced)
    decreases |events|
  {
    var n := |events| - 1;
    ExecLast(Init(capacity), events, s);
    var before := Exec(Init(capacity), events[..n]).value;
    if events[n].Work? && events[n].thread == i {
      OwnMove(before, i, events[n].block, s);
      j := n;
    } else {
      ReachedControl(capacity, events[..n], before);
      WhileBusy(before, events[n], s, i);
      j := BlockBegan(capacity, events[..n], before, i);
      SnapshotStays(capacity, events, n, i, j, (s.threads[i].controls, s.threads[i].revision), s.sessions, s.produced);
    }
  }

  /** Another event that is not a snapshot step of the thread leaves its last one where it is. */
  lemma SnapshotStays(capacity: nat, events: seq<Event>, n: nat, i: nat, j: nat, pair: (set<Control>, int),
                      sessions: nat, produced: seq<Payload>)
    requires n + 1 == |events| && SnapshotAt(capacity, events[..n], i, j, pair, sessions, produced)
    requires !OwnStep(capacity, events, i, n, IsSnapshot)
    ensures SnapshotAt(capacity, events, i, j, pair, sessions, produced)
  {
    StepsOfPrefix(capacity, events, n, i, IsSnapshot);
    assert events[..n][..j] == events[..j];
  }

  lemma {:induction false} BlockReturned(capacity: nat, events: seq<Event>, s: State, i: nat) returns (j: nat, g: nat)
    requires Exec(Init(capacity), events) == Some(s) && i < |s.threads| && s.threads[i].Publishing?
    ensures SnapshotAt(capacity, events, i, j, (s.threads[i].controls, s.threads[i].revision), s.sessions, s.produced)
    ensures j < g && GeneratedAt(capacity, events, i, g, s.threads[i].block)
    decreases |events|
  {
    var n := |events| - 1;
    ExecLast(Init(capacity), events, s);
    var before := Exec(Init(capacity), events[..n]).value;
    if events[n].Work? && events[n].thread == i {
      OwnMove(before, i, events[n].block, s);
      j := BlockBegan(capacity, events[..n], before, i);
      g := n;
    } else {
      ReachedControl(capacity, events[..n], before);
      WhileBusy(before, events[n], s, i);
      j, g := BlockReturned(capacity, events[..n], before, i);
      StepsOfPrefix(capacity, events, n, i, IsGenerating);
    }
    SnapshotStays(capacity, events, n, i, j, (s.threads[i].controls, s.threads[i].revision), s.sessions, s.produced);
  }

  /** The story of payload `k`: thread `i` took its snapshot at event `j`, generated a block at event
      `g` and published it at event `m`, with no other snapshot of its own in between.  The message
      carries what the register held at the snapshot, all of this happened in one session, after
      payload `k - 1` was published, and the video grew by the very block generated. */
  ghost predicate Story(capacity: nat, events: seq<Event>, s: State, k: nat, i: nat, j: nat, g: nat, m: nat,
                        block: seq<Frame>)
    requires k < |s.produced|
  {
    && j < g < m < |events|
    && SnapshotAt(capacity, events[..m], i, j, (s.produced[k].controls, s.produced[k].revision),
                  s.sessions, s.produced[..k])
    && GeneratedAt(capacity, events, i, g, block)
    && OwnStep(capacity, events, i, m, IsPublishing) && At(capacity, events, m + 1).Some?
    && var u, v := At(capacity, events, m).value, At(capacity, events, m + 1).value;
       && u.sessions == v.sessions == s.sessions
       && u.produced == s.produced[..k] && v.produced == s.produced[..k + 1]
       && v.core.frames == u.core.frames + block && s.produced[k].newFrames == |block|
  }

  /** Every chunk message is labelled with the snapshot that its own block was generated under. */
  lemma {:induction false} ChunkLabel(capacity: nat, events: seq<Event>, s: State, k: nat)
    returns (i: nat, j: nat, g: nat, m: nat, block: seq<Frame>)
    requires Exec(Init(capacity), events) == Some(s) && k < |s.produced|
    ensures Story(capacity, events, s, k, i, j, g, m, block)
    decreases |events|
  {
    var n := |events| - 1;
    ExecLast(Init(capacity), events, s);
    var before := Exec(Init(capacity), events[..n]).value;
    assert events[..n + 1] == events;
    if s.produced == before.produced {
      ReachedControl(capacity, events[..n], before);
      SameBooks(before, events[n], s);
      i, j, g, m, block := ChunkLabel(capacity, events[..n], before, k);
      StoryGoesOn(capacity, events, n, before, s, k, i, j, g, m, block);
    } else {
      Grown(before, events[n], s);
      if k < |before.produced| {
        i, j, g, m, block := ChunkLabel(capacity, events[..n], before, k);
        StoryGoesOn(capacity, events, n, before, s, k, i, j, g, m, block);
      } else {
        i, m := events[n].thread, n;
        block := before.threads[i].block;
        j, g := BlockReturned(capacity, events[..n], before, i);
        StepsOfPrefix(capacity, events, n, i, IsGenerating);
        assert s.produced[..k] == before.produced && s.produced[..k + 1] == s.produced;
      }
    }
  }

  /** The books change by one published block, or begin anew and empty with a session. */
  lemma Grown(s: State, e: Event, t: State)
    requires Apply(s, e) == Some(t) && t.produced != s.produced && t.produced != []
    ensures t.sessions == s.sessions && |t.produced| == |s.produced| + 1 && t.produced[..|s.produced|] == s.produced
    ensures e.Work? && e.thread < |s.threads| && s.threads[e.thread].Publishing?
    ensures
      var pc, p := s.threads[e.thread], t.produced[|s.produced|];
      && p.controls == pc.controls && p.revision == pc.revision && p.newFrames == |pc.block|
      && t.core.frames == s.core.frames + pc.block
  {
  }

  /** A session that has payloads did not begin with this event. */
  lemma SameBooks(s: State, e: Event, t: State)
    requires Apply(s, e) == Some(t) && t.produced == s.produced && t.produced != []
    ensures t.sessions == s.sessions
  {
  }

  lemma StoryGoesOn(capacity: nat, events: seq<Event>, n: nat, before: State, s: State, k: nat,
                    i: nat, j: nat, g: nat, m: nat, block: seq<Frame>)
    requires n <= |events| && k < |before.produced| <= |s.produced|
    requires s.produced[..|before.produced|] == before.produced
    requires s.sessions == before.sessions && Story(capacity, events[..n], before, k, i, j, g, m, block)
    ensures Story(capacity, events, s, k, i, j, g, m, block)
  {
    assert events[..n][..m] == events[..m] && events[..n][..m + 1] == events[..m + 1];
    assert s.produced[k] == before.produced[k];
    assert s.produced[..k] == before.produced[..k] && s.produced[..k + 1] == before.produced[..k + 1];
    StepsOfPrefix(capacity, events, n, i, IsGenerating);
    StepsOfPrefix(capacity, events, n, i, IsPublishing);
  }

  /** Whatever is pulled, queued or held belongs to the latest session, and nothing is queued or
      held once that session has ended: a stopped producer cannot reach a later session. */
  lemma SessionFencing(capacity: nat, events: seq<Event>, s: State)
    requires Exec(Init(capacity), events) == Some(s)
    ensures forall p :: p in Line(s) ==> p.session + 1 == s.sessions
    ensures s.core.session.Some? ==> s.core.session.value + 1 == s.sessions
    ensures s.core.session.None? ==> s.core.queue == [] && Held(s) == []
  {
    InitOk(capacity);
    InvKept(Init(capacity), events, s);
    LineFenced(Line(s), s.produced, s.sessions, s.registers);
  }

  lemma LineFenced(line: seq<Payload>, produced: seq<Payload>, sessions: nat, registers: set<(set<Control>, int)>)
    requires InOrder(line, produced) && ProducedOk(produced, sessions, registers)
    ensures forall p :: p in line ==> p.session + 1 == sessions
  {
    forall p | p in line ensures p.session + 1 == sessions {
      var k :| 0 <= k < |line| && line[k] == p;
      assert PayloadOk(p.chunk - 1, produced, sessions, registers);
    }
  }

  /** The live thread, by the control part of the invariant. */
  lemma LiveThread(s: State, i: nat)
    requires ControlInv(s) && i < |s.threads| && s.threads[i] != Done
    ensures s.core.worker == Some(i)
    ensures !s.caller.Entering? && !s.caller.Clearing?
    ensures s.threads[i].Generating? || s.threads[i].Publishing? ==> s.core.session == Some(s.threads[i].of)
  {
  }

  /** Only the thread the runtime knows is alive, none is once a request has joined it, and what a
      live thread generates is for the current session. */
  lemma OneProducer(capacity: nat, events: seq<Event>, s: State, i: nat)
    requires Exec(Init(capacity), events) == Some(s) && i < |s.threads| && s.threads[i] != Done
    ensures s.core.worker == Some(i)
    ensures !s.caller.Entering? && !s.caller.Clearing?
    ensures s.threads[i].Generating? || s.threads[i].Publishing? ==> s.core.session == Some(s.threads[i].of)
  {
    InitOk(capacity);
    InvKept(Init(capacity), events, s);
    assert ControlInv(s);
    LiveThread(s, i);
  }

  /** The cache holds the newest `min(12, version)` blocks, each as generated. */
  lemma CacheHoldsNewest(capacity: nat, events: seq<Event>, s: State, v: nat)
    requires Exec(Init(capacity), events) == Some(s)
    ensures v in s.core.blocks <==> 1 <= v <= s.core.version && s.core.version - v < 12
    ensures v in s.core.blocks ==> v <= |s.produced| && s.core.blocks[v] == BlockOf(s.core.frames, s.produced, v)
  {
    InitOk(capacity);
    InvKept(Init(capacity), events, s);
  }

  /** A frame request is answered exactly for a block among the newest twelve of the current session
      and an index within that block, always with that frame of the current session's video. */
  lemma FetchAnswered(capacity: nat, events: seq<Event>, s: State, v: nat, i: nat)
    requires Exec(Init(capacity), events) == Some(s)
    ensures FrameAt(s.core, v, i).Some?
            <==> InWindow(v, s.core.version) && v <= |s.produced| && i < s.produced[v - 1].newFrames
    ensures FrameAt(s.core, v, i).Some? ==>
              var at := NewFrames(s.produced[..v - 1]) + i;
              at < |s.core.frames| && FrameAt(s.core, v, i).value == s.core.frames[at]
  {
    CacheHoldsNewest(capacity, events, s, v);
    ReachedBooks(capacity, events, s);
    if InWindow(v, s.core.version) {
      var before, upto := s.produced[..v - 1], s.produced[..v];
      assert upto[..v - 1] == before && s.produced[..|s.produced|] == s.produced;
      NewFramesGrows(s.produced, v, |s.produced|);
    }
  }

  lemma ReachedBooks(capacity: nat, events: seq<Event>, s: State)
    requires Exec(Init(capacity), events) == Some(s)
    ensures |s.produced| == s.core.version && NewFrames(s.produced) == |s.core.frames|
  {
    InitOk(capacity);
    InvKept(Init(capacity), events, s);
  }

  /** Requests carry no session.  One that belongs to a chunk of an earlier session is refused, or
      answered with a frame of the current session instead: the latter exactly when the current
      session has a block of the same number among its newest twelve that is long enough. */
  lemma StaleFetchExactly(capacity: nat, first: seq<Event>, later: seq<Event>, s: State, t: State, p: Payload, i: nat)
    requires Exec(Init(capacity), first) == Some(s) && Exec(Init(capacity), first + later) == Some(t)
    requires p in s.produced && t.sessions > s.sessions && i < p.newFrames
    ensures p.session + 1 < t.sessions && p.version >= 1
    ensures FrameAt(t.core, p.version, i).Some?
            <==> InWindow(p.version, t.core.version) && p.version <= |t.produced|
                 && i < t.produced[p.version - 1].newFrames
    ensures FrameAt(t.core, p.version, i).Some? ==>
              t.produced[p.version - 1].session > p.session && t.produced[p.version - 1].version == p.version
  {
    var k :| 0 <= k < |s.produced| && s.produced[k] == p;
    ReachedPayload(capacity, first, s, k);
    FetchAnswered(capacity, first + later, t, p.version, i);
    if FrameAt(t.core, p.version, i).Some? {
      ReachedPayload(capacity, first + later, t, p.version - 1);
    }
  }

  lemma ReachedPayload(capacity: nat, events: seq<Event>, s: State, k: nat)
    requires Exec(Init(capacity), events) == Some(s) && k < |s.produced|
    ensures PayloadOk(k, s.produced, s.sessions, s.registers)
  {
    InitOk(capacity);
    InvKept(Init(capacity), events, s);
  }

  /** Within one session the control revision never goes back. */
  lemma {:induction false} RevisionNeverDecreases(s: State, events: seq<Event>, t: State)
    requires Exec(s, events) == Some(t) && t.sessions == s.sessions
    ensures t.core.revision >= s.core.revision
    decreases |events|
  {
    if events != [] {
      var next := Apply(s, events[0]).value;
      SessionsGrow(next, events[1..], t);
      RevisionStep(s, events[0], next);
      RevisionNeverDecreases(next, events[1..], t);
    }
  }

  lemma RevisionStep(s: State, e: Event, t: State)
    requires Apply(s, e) == Some(t)
    ensures t.sessions >= s.sessions
    ensures t.sessions == s.sessions ==> t.core.revision >= s.core.revision
  {
  }

  lemma {:induction false} SessionsGrow(s: State, events: seq<Event>, t: State)
    requires Exec(s, events) == Some(t)
    ensures t.sessions >= s.sessions
    decreases |events|
  {
    if events != [] {
      RevisionStep(s, events[0], Apply(s, events[0]).value);
      SessionsGrow(Apply(s, events[0]).value, events[1..], t);
    }
  }

  // ----- a producer goes on

  /** Nothing here gives the producer a reason to end: no stop or start is requested, and generation
      returns frames whenever it is asked. */
  predicate Undisturbed(e: Event) {
    match e
    case Work(_, block) => block.Some? && block.value != []
    case Begin(_) => false
    case _ => true
  }

  /** A session in which the producer works: no request is under way and the stop flag is not set. */
  predicate Working(s: State) {
    s.core.session.Some? && !s.core.stop && s.caller == Idle && Live(s).Some?
    && (Live(s).value.Publishing? ==> Live(s).value.block != [])
  }

  lemma StepGoesOn(s: State, e: Event, t: State)
    requires ControlInv(s) && Working(s) && Undisturbed(e) && Apply(s, e) == Some(t)
    ensures Working(t) && t.core.worker == s.core.worker && t.sessions == s.sessions
  {
    if e.Work? {
      WorkMovesOne(s, e.thread, e.block, t);
      WorkGoesOn(s, e.thread, e.block, t);
    }
  }

  lemma WorkGoesOn(s: State, i: nat, block: Option<seq<Frame>>, t: State)
    requires ControlInv(s) && Working(s) && Undisturbed(Work(i, block)) && Apply(s, Work(i, block)) == Some(t)
    ensures i < |t.threads| && t.threads[i] != Done && (t.threads[i].Publishing? ==> t.threads[i].block != [])
    ensures s.core.worker == Some(i)
  {
    assert s.core.worker == Some(i) && Live(s) == Some(s.threads[i]);
  }

  /** Undisturbed, the session's one producer keeps working: controls may come and go, clients may be
      slow and the queue full, it neither ends nor is replaced, and its next step is always possible. */
  lemma {:induction false} ProducerGoesOn(capacity: nat, before: seq<Event>, s: State, events: seq<Event>, t: State)
    requires Exec(Init(capacity), before) == Some(s) && Working(s)
    requires (forall k :: 0 <= k < |events| ==> Undisturbed(events[k])) && Exec(s, events) == Some(t)
    ensures Working(t) && t.core.worker == s.core.worker && t.sessions == s.sessions
    ensures forall block :: Apply(t, Work(t.core.worker.value, block)).Some?
  {
    ReachedControl(capacity, before, s);
    GoesOn(s, events, t);
    NoWait(t, t.core.worker.value);
  }

  lemma {:induction false} GoesOn(s: State, events: seq<Event>, t: State)
    requires ControlInv(s) && Working(s)
    requires (forall k :: 0 <= k < |events| ==> Undisturbed(events[k])) && Exec(s, events) == Some(t)
    ensures ControlInv(t) && Working(t) && t.core.worker == s.core.worker && t.sessions == s.sessions
    decreases |events|
  {
    if events != [] {
      var next := Apply(s, events[0]).value;
      StepGoesOn(s, events[0], next);
      ControlKept(s, events[0], next);
      GoesOn(next, events[1..], t);
    }
  }

  /** Only a completed start clears the stop flag. */
  lemma StopStays(s: State, e: Event, t: State)
    requires Apply(s, e) == Some(t) && s.core.stop && !t.core.stop
    ensures e == Finish && s.caller.Clearing? && s.caller.request.Start?
  {
  }

  // ----- a stop completes

  /** Own steps a producer still takes once the stop flag is set. */
  function StepsLeft(pc: Pc): nat {
    match pc
    case Snapshot => 4
    case Generating(_, _, _) => 3
    case Publishing(_, _, _, _) => 2
    case PutTry(_) => 2
    case Done => 0
    case _ => 1
  }

  function OwnSteps(events: seq<Event>, i: nat): nat {
    if events == [] then 0
    else (if events[0].Work? && events[0].thread == i then 1 else 0) + OwnSteps(events[1..], i)
  }

  /** A thread that is over, or on its way out. */
  predicate Stopping(s: State, i: nat) {
    i < |s.threads| && (s.threads[i] == Done || s.core.stop)
  }

  lemma StoppingStep(s: State, e: Event, t: State, i: nat)
    requires OneWorker(s) && CallerOk(s) && Stopping(s, i) && Apply(s, e) == Some(t)
    ensures Stopping(t, i)
    ensures OwnSteps([e], i) + StepsLeft(t.threads[i]) <= StepsLeft(s.threads[i])
  {
    assert [e][1..] == [];
    match e
    case Work(j, block) =>
      WorkMovesOne(s, j, block, t);
      if j == i {
        OwnStepCounts(s, i, block, t);
      }
    case _ =>
  }

  lemma OwnStepCounts(s: State, i: nat, block: Option<seq<Frame>>, t: State)
    requires s.core.stop && Apply(s, Work(i, block)) == Some(t)
    ensures i < |t.threads| && 1 + StepsLeft(t.threads[i]) <= StepsLeft(s.threads[i])
  {
  }

  lemma {:induction false} StoppingRun(s: State, events: seq<Event>, t: State, i: nat)
    requires ControlInv(s) && Stopping(s, i) && Exec(s, events) == Some(t)
    ensures ControlInv(t) && Stopping(t, i)
    ensures OwnSteps(events, i) + StepsLeft(t.threads[i]) <= StepsLeft(s.threads[i])
    decreases |events|
  {
    if events != [] {
      var next := Apply(s, events[0]).value;
      StoppingStep(s, events[0], next, i);
      ControlKept(s, events[0], next);
      StoppingRun(next, events[1..], t, i);
      assert OwnSteps([events[0]], i) + OwnSteps(events[1..], i) == OwnSteps(events, i) by {
        assert [events[0]][1..] == [];
      }
    }
  }

  /** After a stop signal a producer takes at most four more steps of its own, under every
      interleaving and whatever the queue holds; and until it is done none of them has to wait, so
      that a full queue cannot hold up the join. */
  lemma StopCompletes(capacity: nat, before: seq<Event>, s: State, events: seq<Event>, t: State, i: nat)
    requires Exec(Init(capacity), before) == Some(s) && Stopping(s, i) && Exec(s, events) == Some(t)
    ensures Stopping(t, i)
    ensures OwnSteps(events, i) + StepsLeft(t.threads[i]) <= StepsLeft(s.threads[i]) <= 4
    ensures t.threads[i] != Done ==> forall block :: Apply(t, Work(i, block)).Some?
    ensures t.threads[i] == Done && t.caller.Joining? && t.caller.target == Some(i) ==> Apply(t, Joined).Some?
  {
    ReachedControl(capacity, before, s);
    StoppingRun(s, events, t, i);
    if t.threads[i] != Done {
      NoWait(t, i);
    }
  }

  lemma ReachedControl(capacity: nat, events: seq<Event>, s: State)
    requires Exec(Init(capacity), events) == Some(s)
    ensures ControlInv(s)
  {
    InitOk(capacity);
    InvKept(Init(capacity), events, s);
  }

  lemma NoWait(s: State, i: nat)
    requires OneWorker(s) && CallerOk(s) && i < |s.threads| && s.threads[i] != Done
    ensures forall block :: Apply(s, Work(i, block)).Some?
  {
    assert s.core.worker == Some(i);
  }
}
