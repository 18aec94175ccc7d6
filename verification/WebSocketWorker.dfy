/** The websocket worker (pkg/worker/worker.go, pkg/worker/client.go) as a step system: the reader
    goroutine, the two channels, the dispatching select of `Start`, the processing goroutines with
    their wait group, and the shutdown signal. */
module WebSocketWorker {
  import opened Processing

  /** Where `ReadMessages` stands. Its deferred calls close errorChan first, then msgChan. */
  datatype Reader =
    | Looping                  // about to look at ctx.Done()
    | Reading                  // inside conn.ReadJSON
    | Failing                  // select: errorChan <- err, or ctx.Done()
    | Holding(raw: RawMessage) // select: msgChan <- raw, or ctx.Done()
    | ClosingErrors
    | ClosingMessages
    | Exited

  /** What `Start` returns; a cancelled context also says whether the drain finished in time. */
  datatype Outcome = Cancelled(drained: bool) | ShutDown | ReadError | MessagesClosed

  /** Where `Start` stands. Its deferred calls cancel the work context, then close the connection. */
  datatype Starter =
    | Selecting
    | Spawning(rest: seq<Message>) // the loop over the parsed messages
    | Added(rest: seq<Message>)    // processingWg.Add(1) done for rest[0], go statement to come
    | Draining                     // inside shutdown()
    | Leaving(outcome: Outcome)
    | Disconnecting(outcome: Outcome)
    | Returned(outcome: Outcome)

  /** The messages: the buffer of msgChan, and the history of what passed through it. */
  datatype Traffic = Traffic(
    messages: seq<RawMessage>,
    read: seq<RawMessage>,
    dispatched: seq<RawMessage>,
    dropped: seq<RawMessage>,
    parsed: seq<Message>,
    spawned: seq<Message>)

  /** errorChan (how many errors it buffers) and how often each channel was closed. */
  datatype Channels = Channels(errors: nat, errorCloses: nat, messageCloses: nat, errorsSent: nat, readFailed: bool)

  /** `ctxDone` is the context given to `Start`, `workDone` its child that the reader watches. */
  datatype Contexts = Contexts(ctxDone: bool, workDone: bool, connClosed: bool)

  /** shutdownOnce, and how often shutdownChan was closed. */
  datatype Signal = Signal(once: bool, closes: nat, calls: nat)

  /** The wait group, the live processing goroutines, and whether Wait() has returned in shutdown(). */
  datatype Group = Group(wg: int, live: multiset<Message>, waited: bool)

  datatype State = State(reader: Reader, starter: Starter, traffic: Traffic, chans: Channels, ctxs: Contexts,
                         signal: Signal, group: Group)

  datatype ReaderStep =
    | CheckContext
    | ReadOk(raw: RawMessage)
    | ReadFail
    | SendError
    | AbandonError
    | SendMessage
    | HandOver(parsed: seq<Message>) // the send meets the receive of `Start`, as on an unbuffered channel
    | AbandonMessage
    | CloseErrors
    | CloseMessages

  datatype StarterStep =
    | SeeCancel
    | SeeShutdown
    | ReceiveError
    | ReceiveClosedError
    | ReceiveMessage(parsed: seq<Message>)
    | ReceiveClosedMessages
    | Add
    | Go
    | SpawnedAll
    | WaitReturns
    | Drained
    | TimedOut
    | CancelWork
    | CloseConnection

  /** `parsed` above is what ParseRawMessage makes of the dispatched message: any sequence. */
  datatype Step =
    | Read(r: ReaderStep)
    | Start(t: StarterStep)
    | Finish(message: Message) // a processing goroutine calls Done and ends
    | CancelContext
    | CallShutdown

  function Dispatched(t: Traffic, raw: RawMessage, parsed: seq<Message>): Traffic {
    t.(dispatched := t.dispatched + [raw], parsed := t.parsed + parsed)
  }

  /** When the Go runtime lets the reader take a step; `capacity` is config.BufferSize. */
  predicate CanRead(capacity: nat, s: State, step: ReaderStep) {
    match step
    case CheckContext => s.reader.Looping?
    case ReadOk(_) => s.reader.Reading? && !s.ctxs.connClosed
    case ReadFail => s.reader.Reading?
    case SendError => s.reader.Failing? && s.chans.errors < 1
    case AbandonError => s.reader.Failing? && s.ctxs.workDone
    case SendMessage => s.reader.Holding? && |s.traffic.messages| < capacity
    case HandOver(_) => s.reader.Holding? && s.traffic.messages == [] && s.starter.Selecting?
    case AbandonMessage => s.reader.Holding? && s.ctxs.workDone
    case CloseErrors => s.reader.ClosingErrors?
    case CloseMessages => s.reader.ClosingMessages?
  }

  function DoRead(capacity: nat, s: State, step: ReaderStep): State
    requires CanRead(capacity, s, step)
  {
    match step
    case CheckContext => s.(reader := if s.ctxs.workDone then ClosingErrors else Reading)
    case ReadOk(raw) => s.(reader := Holding(raw), traffic := s.traffic.(read := s.traffic.read + [raw]))
    case ReadFail => s.(reader := Failing, chans := s.chans.(readFailed := true))
    case SendError =>
      s.(reader := ClosingErrors,
         chans := s.chans.(errors := s.chans.errors + 1, errorsSent := s.chans.errorsSent + 1))
    case AbandonError => s.(reader := ClosingErrors)
    case SendMessage =>
      s.(reader := Looping, traffic := s.traffic.(messages := s.traffic.messages + [s.reader.raw]))
    case HandOver(parsed) =>
      s.(reader := Looping, starter := Spawning(parsed), traffic := Dispatched(s.traffic, s.reader.raw, parsed))
    case AbandonMessage =>
      s.(reader := ClosingErrors, traffic := s.traffic.(dropped := s.traffic.dropped + [s.reader.raw]))
    case CloseErrors => s.(reader := ClosingMessages, chans := s.chans.(errorCloses := s.chans.errorCloses + 1))
    case CloseMessages => s.(reader := Exited, chans := s.chans.(messageCloses := s.chans.messageCloses + 1))
  }

  predicate CanStart(s: State, step: StarterStep) {
    match step
    case SeeCancel => s.starter.Selecting? && s.ctxs.ctxDone
    case SeeShutdown => s.starter.Selecting? && s.signal.closes > 0
    case ReceiveError => s.starter.Selecting? && s.chans.errors > 0
    case ReceiveClosedError => s.starter.Selecting? && s.chans.errors == 0 && s.chans.errorCloses > 0
    case ReceiveMessage(_) => s.starter.Selecting? && s.traffic.messages != []
    case ReceiveClosedMessages => s.starter.Selecting? && s.traffic.messages == [] && s.chans.messageCloses > 0
    case Add => s.starter.Spawning? && s.starter.rest != []
    case Go => s.starter.Added? && s.starter.rest != []
    case SpawnedAll => s.starter.Spawning? && s.starter.rest == []
    case WaitReturns => s.starter.Draining? && s.group.wg == 0
    case Drained => s.starter.Draining? && s.group.waited
    case TimedOut => s.starter.Draining?
    case CancelWork => s.starter.Leaving?
    case CloseConnection => s.starter.Disconnecting?
  }

  function DoStart(s: State, step: StarterStep): State
    requires CanStart(s, step)
  {
    match step
    case SeeCancel => s.(starter := Draining)
    case SeeShutdown => s.(starter := Leaving(ShutDown))
    case ReceiveError => s.(starter := Leaving(ReadError), chans := s.chans.(errors := s.chans.errors - 1))
    case ReceiveClosedError => s
    case ReceiveMessage(parsed) =>
      s.(starter := Spawning(parsed),
         traffic := Dispatched(s.traffic.(messages := s.traffic.messages[1..]), s.traffic.messages[0], parsed))
    case ReceiveClosedMessages => s.(starter := Leaving(MessagesClosed))
    case Add => s.(starter := Added(s.starter.rest), group := s.group.(wg := s.group.wg + 1))
    case Go =>
      var message := s.starter.rest[0];
      s.(starter := Spawning(s.starter.rest[1..]),
         group := s.group.(live := s.group.live + multiset{message}),
         traffic := s.traffic.(spawned := s.traffic.spawned + [message]))
    case SpawnedAll => s.(starter := Selecting)
    case WaitReturns => s.(group := s.group.(waited := true))
    case Drained => s.(starter := Leaving(Cancelled(true)))
    case TimedOut => s.(starter := Leaving(Cancelled(false)))
    case CancelWork => s.(starter := Disconnecting(s.starter.outcome), ctxs := s.ctxs.(workDone := true))
    case CloseConnection => s.(starter := Returned(s.starter.outcome), ctxs := s.ctxs.(connClosed := true))
  }

  predicate Enabled(capacity: nat, s: State, step: Step) {
    match step
    case Read(r) => CanRead(capacity, s, r)
    case Start(t) => CanStart(s, t)
    case Finish(message) => message in s.group.live
    case CancelContext => true
    case CallShutdown => true
  }

  function Apply(capacity: nat, s: State, step: Step): State
    requires Enabled(capacity, s, step)
  {
    match step
    case Read(r) => DoRead(capacity, s, r)
    case Start(t) => DoStart(s, t)
    case Finish(message) =>
      s.(group := s.group.(live := s.group.live - multiset{message}, wg := s.group.wg - 1))
    case CancelContext => s.(ctxs := s.ctxs.(ctxDone := true, workDone := true))
    case CallShutdown =>
      s.(signal := Signal(true, if s.signal.once then s.signal.closes else s.signal.closes + 1, s.signal.calls + 1))
  }

  const START := State(Looping, Selecting, Traffic([], [], [], [], [], []), Channels(0, 0, 0, 0, false),
                       Contexts(false, false, false), Signal(false, 0, 0), Group(0, multiset{}, false))

  ghost predicate Runs(capacity: nat, s: State, steps: seq<Step>)
    decreases |steps|
  {
    steps == [] || (Enabled(capacity, s, steps[0]) && Runs(capacity, Apply(capacity, s, steps[0]), steps[1..]))
  }

  ghost function After(capacity: nat, s: State, steps: seq<Step>): State
    decreases |steps|
  {
    if steps == [] || !Enabled(capacity, s, steps[0]) then s
    else After(capacity, Apply(capacity, s, steps[0]), steps[1..])
  }

  // ------------------------------------------------------------------ what every step keeps

  function InHand(r: Reader): seq<RawMessage> {
    if r.Holding? then [r.raw] else []
  }

  function ToSpawn(st: Starter): seq<Message> {
    if st.Spawning? || st.Added? then st.rest else []
  }

  ghost predicate Ended(r: Reader) {
    r.ClosingErrors? || r.ClosingMessages? || r.Exited?
  }

  /** Nothing read is lost, duplicated or reordered on its way to the dispatcher, apart from at most
      one message that the reader held when the work context was cancelled. */
  ghost predicate Flow(capacity: nat, r: Reader, st: Starter, t: Traffic, workDone: bool) {
    && t.dispatched + t.messages + InHand(r) + t.dropped == t.read
    && |t.messages| <= capacity
    && |t.dropped| <= 1
    && (t.dropped != [] ==> workDone && Ended(r))
    && t.spawned + ToSpawn(st) == t.parsed
  }

  /** Each channel is closed at most once, by a reader that sends no more; at most one error is sent,
      and its buffer slot is free until then. */
  ghost predicate ChannelsOk(r: Reader, c: Channels) {
    && c.errorCloses == (if r.ClosingMessages? || r.Exited? then 1 else 0)
    && c.messageCloses == (if r.Exited? then 1 else 0)
    && c.errors <= c.errorsSent <= 1
    && (r.Failing? ==> c.readFailed)
    && (c.errorsSent == 1 ==> Ended(r) && c.readFailed)
  }

  ghost predicate SignalOk(g: Signal) {
    g.closes == (if g.calls > 0 then 1 else 0) && (g.once <==> g.calls > 0)
  }

  predicate HasOutcome(st: Starter) {
    st.Leaving? || st.Disconnecting? || st.Returned?
  }

  ghost predicate GroupOk(st: Starter, g: Group) {
    && g.wg == |g.live| + (if st.Added? then 1 else 0)
    && (st.Added? ==> st.rest != [])
    && (g.waited ==> g.wg == 0 && (st.Draining? || HasOutcome(st)))
    && (HasOutcome(st) && st.outcome == Cancelled(true) ==> g.waited)
  }

  ghost predicate ContextsOk(st: Starter, c: Contexts) {
    && (st.Draining? || (HasOutcome(st) && st.outcome.Cancelled?) ==> c.ctxDone)
    && (c.workDone <==> c.ctxDone || st.Disconnecting? || st.Returned?)
    && (c.connClosed <==> st.Returned?)
  }

  /** The other three outcomes of `Start` have their cause, too. */
  ghost predicate Caused(s: State) {
    HasOutcome(s.starter) ==>
      match s.starter.outcome
      case Cancelled(_) => true
      case ShutDown => s.signal.closes > 0
      case ReadError => s.chans.errorsSent == 1
      case MessagesClosed => s.reader.Exited? && s.traffic.messages == []
  }

  ghost predicate Inv(capacity: nat, s: State) {
    && Flow(capacity, s.reader, s.starter, s.traffic, s.ctxs.workDone)
    && ChannelsOk(s.reader, s.chans)
    && SignalOk(s.signal)
    && GroupOk(s.starter, s.group)
    && ContextsOk(s.starter, s.ctxs)
    && Caused(s)
  }

  lemma FlowRead(capacity: nat, s: State, step: ReaderStep)
    requires Flow(capacity, s.reader, s.starter, s.traffic, s.ctxs.workDone) && CanRead(capacity, s, step)
    ensures var s' := DoRead(capacity, s, step);
            Flow(capacity, s'.reader, s'.starter, s'.traffic, s'.ctxs.workDone)
  {
    var t := s.traffic;
    match step
    case SendMessage =>
      assert t.dispatched + t.messages + [s.reader.raw] == t.dispatched + (t.messages + [s.reader.raw]);
    case HandOver(parsed) =>
      assert t.dispatched + [] + [s.reader.raw] == (t.dispatched + [s.reader.raw]) + [];
      assert t.spawned + [] == t.parsed;
    case AbandonMessage =>
      assert t.dropped == [];
    case _ =>
  }

  lemma FlowStart(capacity: nat, s: State, step: StarterStep)
    requires Flow(capacity, s.reader, s.starter, s.traffic, s.ctxs.workDone) && CanStart(s, step)
    ensures var s' := DoStart(s, step);
            Flow(capacity, s'.reader, s'.starter, s'.traffic, s'.ctxs.workDone)
  {
    var t := s.traffic;
    match step
    case ReceiveMessage(parsed) =>
      assert t.messages == [t.messages[0]] + t.messages[1..];
      assert t.dispatched + t.messages == (t.dispatched + [t.messages[0]]) + t.messages[1..];
      assert t.spawned + [] == t.parsed;
    case Go =>
      assert s.starter.rest == [s.starter.rest[0]] + s.starter.rest[1..];
      assert t.spawned + s.starter.rest == (t.spawned + [s.starter.rest[0]]) + s.starter.rest[1..];
    case _ =>
  }

  lemma ReadKeepsInv(capacity: nat, s: State, step: ReaderStep)
    requires Inv(capacity, s) && CanRead(capacity, s, step)
    ensures Inv(capacity, DoRead(capacity, s, step))
  {
    FlowRead(capacity, s, step);
  }

  lemma StartKeepsInv(capacity: nat, s: State, step: StarterStep)
    requires Inv(capacity, s) && CanStart(s, step)
    ensures Inv(capacity, DoStart(s, step))
  {
    FlowStart(capacity, s, step);
  }

  lemma InvStep(capacity: nat, s: State, step: Step)
    requires Inv(capacity, s) && Enabled(capacity, s, step)
    ensures Inv(capacity, Apply(capacity, s, step))
  {
    match step
    case Read(r) => ReadKeepsInv(capacity, s, r);
    case Start(t) => StartKeepsInv(capacity, s, t);
    case _ =>
  }

  lemma {:induction false} InvRun(capacity: nat, s: State, steps: seq<Step>)
    requires Inv(capacity, s) && Runs(capacity, s, steps)
    ensures Inv(capacity, After(capacity, s, steps))
    decreases |steps|
  {
    if steps != [] {
      InvStep(capacity, s, steps[0]);
      InvRun(capacity, Apply(capacity, s, steps[0]), steps[1..]);
    }
  }

  // ------------------------------------------------------------------ the promises

  /** In every reachable state: what was read is what was dispatched, then buffered, then in the
      reader's hand, in that order, and then at most one dropped message, which takes a cancelled
      work context; every parsed message is spawned in order. */
  lemma NothingLostOrReordered(capacity: nat, steps: seq<Step>)
    requires Runs(capacity, START, steps)
    ensures var s := After(capacity, START, steps);
            && s.traffic.dispatched + s.traffic.messages + InHand(s.reader) + s.traffic.dropped == s.traffic.read
            && (!s.ctxs.workDone ==> s.traffic.dispatched + s.traffic.messages + InHand(s.reader) == s.traffic.read)
            && |s.traffic.messages| <= capacity && |s.traffic.dropped| <= 1
            && s.traffic.spawned <= s.traffic.parsed
  {
    InvRun(capacity, START, steps);
    var s := After(capacity, START, steps);
    if !s.ctxs.workDone {
      assert s.traffic.dropped == [];
    }
  }

  /** Each channel is closed at most once and only after the last send; one error at most is sent,
      and whenever the reader wants to send it the buffer has room, so that send never blocks. */
  lemma ChannelDiscipline(capacity: nat, steps: seq<Step>)
    requires Runs(capacity, START, steps)
    ensures var s := After(capacity, START, steps);
            && s.chans.errorCloses <= 1 && s.chans.messageCloses <= 1 && s.signal.closes <= 1
            && (s.signal.closes == 1 <==> s.signal.calls > 0)
            && s.chans.errorsSent <= 1
            && (s.reader.Failing? ==> CanRead(capacity, s, SendError) && s.chans.errorCloses == 0)
            && (s.reader.Holding? ==> s.chans.messageCloses == 0)
            && (s.reader.Exited? ==> s.chans.errorCloses == 1 && s.chans.messageCloses == 1)
  {
    InvRun(capacity, START, steps);
  }

  /** The wait group counts the live processing goroutines (plus the one about to be started), and
      every way out of `Start` has its cause. A drained cancellation leaves no goroutine behind; a
      return because the messages ended, with the context untouched, has dispatched all that was read. */
  lemma ReturnsAreJustified(capacity: nat, steps: seq<Step>)
    requires Runs(capacity, START, steps)
    ensures var s := After(capacity, START, steps);
            && s.group.wg == |s.group.live| + (if s.starter.Added? then 1 else 0)
            && (s.starter == Returned(Cancelled(true)) ==>
                s.ctxs.ctxDone && s.group.live == multiset{} && s.group.wg == 0)
            && (s.starter == Returned(Cancelled(false)) ==> s.ctxs.ctxDone)
            && (s.starter == Returned(ShutDown) ==> s.signal.calls > 0)
            && (s.starter == Returned(ReadError) ==> s.chans.readFailed)
            && (s.starter == Returned(MessagesClosed) ==>
                s.reader.Exited? && s.traffic.dispatched + s.traffic.dropped == s.traffic.read)
  {
    InvRun(capacity, START, steps);
    var s := After(capacity, START, steps);
    if s.starter == Returned(MessagesClosed) {
      assert s.traffic.dispatched + [] + [] == s.traffic.dispatched;
    }
  }

  // ------------------------------------------------------------------ what a run did, read off its steps

  lemma {:induction false} LastStep(capacity: nat, s: State, steps: seq<Step>)
    requires steps != [] && Runs(capacity, s, steps)
    ensures var front, last := steps[..|steps| - 1], steps[|steps| - 1];
            && Runs(capacity, s, front) && Enabled(capacity, After(capacity, s, front), last)
            && After(capacity, s, steps) == Apply(capacity, After(capacity, s, front), last)
    decreases |steps|
  {
    if |steps| > 1 {
      assert steps[1..][..|steps| - 2] == steps[..|steps| - 1][1..];
      LastStep(capacity, Apply(capacity, s, steps[0]), steps[1..]);
    }
  }

  lemma FrontAndLast(steps: seq<Step>)
    requires steps != []
    ensures steps[..|steps| - 1] + [steps[|steps| - 1]] == steps
  {
  }

  predicate Ends(st: Starter, outcome: Outcome) {
    HasOutcome(st) && st.outcome == outcome
  }

  /** Where `Start` stands, against the cases its select has taken. */
  ghost predicate Returning(st: Starter, steps: seq<Step>) {
    && (Start(ReceiveError) in steps <==> Ends(st, ReadError))
    && (Start(SeeShutdown) in steps <==> Ends(st, ShutDown))
    && (Start(ReceiveClosedMessages) in steps <==> Ends(st, MessagesClosed))
    && (Start(SeeCancel) in steps <==> st.Draining? || Ends(st, Cancelled(true)) || Ends(st, Cancelled(false)))
    && (Start(Drained) in steps <==> Ends(st, Cancelled(true)))
    && (Start(TimedOut) in steps <==> Ends(st, Cancelled(false)))
    && (Start(CancelWork) in steps <==> st.Disconnecting? || st.Returned?)
    && (Start(CloseConnection) in steps <==> st.Returned?)
  }

  lemma ReturningStep(capacity: nat, s: State, front: seq<Step>, last: Step)
    requires Returning(s.starter, front) && Enabled(capacity, s, last)
    ensures Returning(Apply(capacity, s, last).starter, front + [last])
  {
  }

  /** In every run `Start` is on its way out exactly when its select has taken a case that returns, and
      returns what that case says: a received read error, a shutdown, a closed message channel, or a
      cancellation, drained or timed out. */
  lemma {:induction false} ReturnsWhatItTook(capacity: nat, steps: seq<Step>)
    requires Runs(capacity, START, steps)
    ensures Returning(After(capacity, START, steps).starter, steps)
    decreases |steps|
  {
    if steps != [] {
      var front, last := steps[..|steps| - 1], steps[|steps| - 1];
      LastStep(capacity, START, steps);
      ReturnsWhatItTook(capacity, front);
      ReturningStep(capacity, After(capacity, START, front), front, last);
      FrontAndLast(steps);
    }
  }

  function ReadBy(step: Step): seq<RawMessage> {
    if step.Read? && step.r.ReadOk? then [step.r.raw] else []
  }

  function ParsedBy(step: Step): seq<Message> {
    if step.Read? && step.r.HandOver? then step.r.parsed
    else if step.Start? && step.t.ReceiveMessage? then step.t.parsed
    else []
  }

  function FinishedBy(step: Step): multiset<Message> {
    if step.Finish? then multiset{step.message} else multiset{}
  }

  /** The messages read in a run. */
  ghost function ReadIn(steps: seq<Step>): seq<RawMessage> {
    if steps == [] then [] else ReadIn(steps[..|steps| - 1]) + ReadBy(steps[|steps| - 1])
  }

  /** What the dispatched messages were parsed to. */
  ghost function ParsedIn(steps: seq<Step>): seq<Message> {
    if steps == [] then [] else ParsedIn(steps[..|steps| - 1]) + ParsedBy(steps[|steps| - 1])
  }

  /** The processing goroutines that have ended. */
  ghost function FinishedIn(steps: seq<Step>): multiset<Message> {
    if steps == [] then multiset{} else FinishedIn(steps[..|steps| - 1]) + FinishedBy(steps[|steps| - 1])
  }

  function Count(steps: seq<Step>, step: Step): nat {
    if steps == [] then 0 else Count(steps[..|steps| - 1], step) + if steps[|steps| - 1] == step then 1 else 0
  }

  lemma TrafficStep(capacity: nat, s: State, step: Step)
    requires Enabled(capacity, s, step)
    ensures var t, t' := s.traffic, Apply(capacity, s, step).traffic;
            && t'.read == t.read + ReadBy(step)
            && t'.parsed == t.parsed + ParsedBy(step)
            && (t'.dropped != [] <==> t.dropped != [] || step == Read(AbandonMessage))
  {
  }

  lemma GroupStep(capacity: nat, s: State, step: Step)
    requires Enabled(capacity, s, step)
    ensures var s' := Apply(capacity, s, step);
            multiset(s'.traffic.spawned) + s.group.live ==
              multiset(s.traffic.spawned) + s'.group.live + FinishedBy(step)
  {
  }

  ghost predicate TrafficIs(s: State, steps: seq<Step>) {
    var t := s.traffic;
    && t.read == ReadIn(steps) && t.parsed == ParsedIn(steps)
    && multiset(t.spawned) == s.group.live + FinishedIn(steps)
    && (t.dropped != [] <==> Read(AbandonMessage) in steps)
  }

  lemma TrafficIsAfter(capacity: nat, s: State, front: seq<Step>, last: Step)
    requires Enabled(capacity, s, last) && TrafficIs(s, front)
    ensures TrafficIs(Apply(capacity, s, last), front + [last])
  {
    FrontOf(front, last);
    TrafficStep(capacity, s, last);
    GroupStep(capacity, s, last);
    var s' := Apply(capacity, s, last);
    SpawnedAfter(multiset(s.traffic.spawned), s.group.live, FinishedIn(front), multiset(s'.traffic.spawned),
                 s'.group.live, FinishedBy(last));
  }

  lemma FrontOf(front: seq<Step>, last: Step)
    ensures (front + [last])[..|front|] == front
  {
  }

  lemma SpawnedAfter(spawned: multiset<Message>, live: multiset<Message>, finished: multiset<Message>,
                     spawned': multiset<Message>, live': multiset<Message>, now: multiset<Message>)
    requires spawned == live + finished && spawned' + live == spawned + live' + now
    ensures spawned' == live' + (finished + now)
  {
    forall m
      ensures spawned'[m] == (live' + (finished + now))[m]
    {
      assert (spawned' + live)[m] == (spawned + live' + now)[m];
    }
  }

  /** In every run: exactly the messages of the reads were read, and what they were parsed to, once
      dispatched, is spawned in order; the live goroutines are those spawned and not yet finished. */
  lemma TrafficFollowsSteps(capacity: nat, steps: seq<Step>)
    requires Runs(capacity, START, steps)
    ensures var s := After(capacity, START, steps);
            TrafficIs(s, steps) && s.traffic.spawned + ToSpawn(s.starter) == ParsedIn(steps)
  {
    InvRun(capacity, START, steps);
    TrafficRun(capacity, steps);
  }

  lemma {:induction false} TrafficRun(capacity: nat, steps: seq<Step>)
    requires Runs(capacity, START, steps)
    ensures TrafficIs(After(capacity, START, steps), steps)
    decreases |steps|
  {
    if steps != [] {
      var front, last := steps[..|steps| - 1], steps[|steps| - 1];
      LastStep(capacity, START, steps);
      TrafficRun(capacity, front);
      TrafficIsAfter(capacity, After(capacity, START, front), front, last);
      FrontAndLast(steps);
    }
  }

  ghost predicate ErrorsAre(c: Channels, steps: seq<Step>) {
    && c.errorsSent == Count(steps, Read(SendError))
    && c.errors + Count(steps, Start(ReceiveError)) == c.errorsSent
    && (c.readFailed <==> Read(ReadFail) in steps)
  }

  ghost predicate SignalsAre(g: Signal, c: Contexts, waited: bool, steps: seq<Step>) {
    && g.calls == Count(steps, CallShutdown)
    && (c.ctxDone <==> CancelContext in steps)
    && (waited <==> Start(WaitReturns) in steps)
  }

  /** A reader whose read failed does not go on; without a failed read it ends only when the work context
      is done. */
  ghost predicate ReaderIs(r: Reader, c: Channels, workDone: bool) {
    && (c.readFailed ==> r.Failing? || Ended(r))
    && (Ended(r) ==> c.errorsSent > 0 || workDone)
  }

  lemma ReaderStays(capacity: nat, s: State, step: Step)
    requires ReaderIs(s.reader, s.chans, s.ctxs.workDone) && Enabled(capacity, s, step)
    ensures var s' := Apply(capacity, s, step); ReaderIs(s'.reader, s'.chans, s'.ctxs.workDone)
  {
  }

  lemma ErrorsStep(capacity: nat, s: State, front: seq<Step>, last: Step)
    requires Enabled(capacity, s, last) && ErrorsAre(s.chans, front)
    ensures ErrorsAre(Apply(capacity, s, last).chans, front + [last])
  {
    assert (front + [last])[..|front|] == front;
  }

  lemma SignalsStep(capacity: nat, s: State, front: seq<Step>, last: Step)
    requires Enabled(capacity, s, last) && SignalsAre(s.signal, s.ctxs, s.group.waited, front)
    ensures var s' := Apply(capacity, s, last); SignalsAre(s'.signal, s'.ctxs, s'.group.waited, front + [last])
  {
    assert (front + [last])[..|front|] == front;
  }

  ghost predicate Signalled(s: State, steps: seq<Step>) {
    && ErrorsAre(s.chans, steps)
    && SignalsAre(s.signal, s.ctxs, s.group.waited, steps)
    && ReaderIs(s.reader, s.chans, s.ctxs.workDone)
  }

  lemma SignalledAfter(capacity: nat, s: State, front: seq<Step>, last: Step)
    requires Enabled(capacity, s, last) && Signalled(s, front)
    ensures Signalled(Apply(capacity, s, last), front + [last])
  {
    ErrorsStep(capacity, s, front, last);
    SignalsStep(capacity, s, front, last);
    ReaderStays(capacity, s, last);
  }

  /** In every run: errors sent, received and left over, failed reads, calls of Shutdown, cancellation and
      the end of the drain are those of the steps. A failed read ends the reading, and nothing else does
      but a work context that is done. */
  lemma {:induction false} SignalsFollowSteps(capacity: nat, steps: seq<Step>)
    requires Runs(capacity, START, steps)
    ensures Signalled(After(capacity, START, steps), steps)
    decreases |steps|
  {
    if steps != [] {
      var front, last := steps[..|steps| - 1], steps[|steps| - 1];
      LastStep(capacity, START, steps);
      SignalsFollowSteps(capacity, front);
      SignalledAfter(capacity, After(capacity, START, front), front, last);
      FrontAndLast(steps);
    }
  }

  // ------------------------------------------------------------------ progress

  /** How many steps of its own a cancelled, disconnected reader can still take. */
  function StepsLeft(r: Reader): nat {
    match r
    case Exited => 0
    case ClosingMessages => 1
    case ClosingErrors => 2
    case Looping => 3
    case Failing => 3
    case Reading => 4
    case Holding(_) => 4
  }

  function FirstStep(r: Reader): ReaderStep
    requires !r.Exited?
  {
    match r
    case Looping => CheckContext
    case Reading => ReadFail
    case Failing => AbandonError
    case Holding(_) => AbandonMessage
    case ClosingErrors => CloseErrors
    case ClosingMessages => CloseMessages
  }

  function ReaderSteps(steps: seq<Step>): nat {
    if steps == [] then 0 else (if steps[0].Read? then 1 else 0) + ReaderSteps(steps[1..])
  }

  lemma ReaderAdvances(capacity: nat, s: State, step: Step)
    requires s.starter.Returned? && s.ctxs.workDone && s.ctxs.connClosed && Enabled(capacity, s, step)
    ensures var s' := Apply(capacity, s, step);
            && s'.starter == s.starter && s'.ctxs.workDone && s'.ctxs.connClosed
            && StepsLeft(s'.reader) + (if step.Read? then 1 else 0) <= StepsLeft(s.reader)
  {
  }

  /** In its select `Start` can take every case that has something to see: a cancellation, a shutdown, an
      error sent and not received, a buffered message, a closed message channel; and no other. */
  ghost predicate SeesEverything(s: State, steps: seq<Step>) {
    && (CancelContext in steps <==> CanStart(s, SeeCancel))
    && (Count(steps, CallShutdown) > 0 <==> CanStart(s, SeeShutdown))
    && (Count(steps, Read(SendError)) > Count(steps, Start(ReceiveError)) <==> CanStart(s, ReceiveError))
    && (s.traffic.messages != [] <==> CanStart(s, ReceiveMessage([])))
    && (s.reader.Exited? && s.traffic.messages == [] <==> CanStart(s, ReceiveClosedMessages))
  }

  lemma SelectSeesEverything(capacity: nat, steps: seq<Step>, s: State)
    requires Runs(capacity, START, steps) && s == After(capacity, START, steps) && s.starter.Selecting?
    ensures SeesEverything(s, steps)
  {
    InvRun(capacity, START, steps);
    SignalsFollowSteps(capacity, steps);
    SelectSees(capacity, s, steps);
  }

  lemma SelectSees(capacity: nat, s: State, steps: seq<Step>)
    requires Inv(capacity, s) && Signalled(s, steps) && s.starter.Selecting?
    ensures SeesEverything(s, steps)
  {
  }

  /** No goroutine leak: after `Start` has returned the reader is never blocked, and in any further
      run it takes at most as many steps as StepsLeft says, so it exits. */
  lemma {:induction false} ReaderExits(capacity: nat, s: State, steps: seq<Step>)
    requires s.starter.Returned? && s.ctxs.workDone && s.ctxs.connClosed && Runs(capacity, s, steps)
    ensures var s' := After(capacity, s, steps);
            && s'.starter == s.starter && s'.ctxs.workDone
            && ReaderSteps(steps) + StepsLeft(s'.reader) <= StepsLeft(s.reader)
            && (!s'.reader.Exited? ==> CanRead(capacity, s', FirstStep(s'.reader)))
    decreases |steps|
  {
    if steps != [] {
      ReaderAdvances(capacity, s, steps[0]);
      ReaderExits(capacity, Apply(capacity, s, steps[0]), steps[1..]);
    }
  }

  /** Every reachable return of `Start` is such a state. */
  lemma ReturnDisconnects(capacity: nat, steps: seq<Step>, more: seq<Step>)
    requires Runs(capacity, START, steps) && After(capacity, START, steps).starter.Returned?
    requires Runs(capacity, After(capacity, START, steps), more)
    ensures ReaderSteps(more) <= 4
  {
    InvRun(capacity, START, steps);
    ReaderExits(capacity, After(capacity, START, steps), more);
  }

  /** A step `Start` itself can take next, whatever the other goroutines do. */
  ghost predicate StarterCanMove(s: State) {
    exists t :: CanStart(s, t)
  }

  /** Until it returns, `Start` is never deadlocked: it can move, or it waits in its select while the
      reader can; a reader that has exited always leaves it a move. */
  lemma StartIsNeverStuck(capacity: nat, steps: seq<Step>)
    requires Runs(capacity, START, steps)
    ensures var s := After(capacity, START, steps);
            !s.starter.Returned? ==>
              StarterCanMove(s) || (s.starter.Selecting? && !s.reader.Exited? && exists r :: CanRead(capacity, s, r))
  {
    InvRun(capacity, START, steps);
    var s := After(capacity, START, steps);
    match s.starter {
      case Selecting => SelectIsNeverStuck(capacity, s);
      case Spawning(rest) => assert CanStart(s, if rest == [] then SpawnedAll else Add);
      case Added(rest) => assert CanStart(s, Go);
      case Draining => assert CanStart(s, TimedOut);
      case Leaving(_) => assert CanStart(s, CancelWork);
      case Disconnecting(_) => assert CanStart(s, CloseConnection);
      case Returned(_) =>
    }
  }

  lemma SelectIsNeverStuck(capacity: nat, s: State)
    requires s.starter.Selecting? && ChannelsOk(s.reader, s.chans)
    ensures StarterCanMove(s) || (!s.reader.Exited? && exists r :: CanRead(capacity, s, r))
  {
    if s.traffic.messages != [] {
      assert CanStart(s, ReceiveMessage([]));
    } else if s.reader.Exited? {
      assert CanStart(s, ReceiveClosedMessages);
    } else if s.reader.Holding? {
      assert CanRead(capacity, s, HandOver([]));
    } else {
      assert CanRead(capacity, s, if s.reader.Failing? then SendError else FirstStep(s.reader));
    }
  }
}
