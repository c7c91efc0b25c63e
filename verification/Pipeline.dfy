// The four threads of the update pipeline as interleaved steps: MpsDb::fwUpdateReader,
// MpsDb::updateInputs, Engine::engineThread and MpsDb::mitigationWriter
// (src/central_node_database.cc, src/central_node_engine.cc), joined by two queues
// (src/queue.cc) and the inputsUpdated flag.
module Pipeline {
  import opened Words

  // What the threads compute: how a card takes its part of an update message, the
  // passes of one evaluation, and the mitigation message left by the last pass
  datatype System<!M, !D, !E, !O> = System(
    cards: seq<D>, memory: E, passes: nat,
    update: (nat, D, M) -> D,
    pass: (nat, E, seq<D>) -> E,
    result: E -> O)

  // ---- The sequential loop: read, update inputs, check faults, write ----

  function UpdateUpTo<M, D, E, O>(y: System<M, D, E, O>, devices: seq<D>, m: M, c: nat): (r: seq<D>)
    requires c <= |devices|
    ensures |r| == |devices|
    ensures forall i | 0 <= i < |r| :: r[i] == if i < c then y.update(i, devices[i], m) else devices[i]
  {
    if c == 0 then devices
    else
      var r := UpdateUpTo(y, devices, m, c - 1);
      r[c - 1 := y.update(c - 1, devices[c - 1], m)]
  }

  function EvaluateUpTo<M, D, E, O>(y: System<M, D, E, O>, memory: E, devices: seq<D>, p: nat): E {
    if p == 0 then memory else y.pass(p - 1, EvaluateUpTo(y, memory, devices, p - 1), devices)
  }

  function DevicesAfter<M, D, E, O>(y: System<M, D, E, O>, messages: seq<M>): (r: seq<D>)
    ensures |r| == |y.cards|
  {
    if messages == [] then y.cards
    else
      var before := DevicesAfter(y, messages[..|messages| - 1]);
      UpdateUpTo(y, before, messages[|messages| - 1], |before|)
  }

  function MemoryAfter<M, D, E, O>(y: System<M, D, E, O>, messages: seq<M>): E {
    if messages == [] then y.memory
    else EvaluateUpTo(y, MemoryAfter(y, messages[..|messages| - 1]), DevicesAfter(y, messages), y.passes)
  }

  // One mitigation message per update message, in order
  function Mitigations<M, D, E, O>(y: System<M, D, E, O>, messages: seq<M>): (r: seq<O>)
    ensures |r| == |messages|
  {
    if messages == [] then []
    else Mitigations(y, messages[..|messages| - 1]) + [y.result(MemoryAfter(y, messages))]
  }

  lemma {:induction false} MitigationsPrefix<M, D, E, O>(y: System<M, D, E, O>, messages: seq<M>, n: nat)
    requires n <= |messages|
    ensures Mitigations(y, messages[..n]) <= Mitigations(y, messages)
  {
    if n == |messages| {
      assert messages[..n] == messages;
    } else {
      var shorter := messages[..|messages| - 1];
      MitigationsPrefix(y, shorter, n);
      assert shorter[..n] == messages[..n];
    }
  }

  lemma {:induction false} MitigationAt<M, D, E, O>(y: System<M, D, E, O>, messages: seq<M>, k: nat)
    requires k < |messages|
    ensures Mitigations(y, messages)[k] == y.result(MemoryAfter(y, messages[..k + 1]))
  {
    var shorter := messages[..|messages| - 1];
    if k < |shorter| {
      MitigationAt(y, shorter, k);
      assert shorter[..k + 1] == messages[..k + 1];
    } else {
      assert messages[..k + 1] == messages;
    }
  }

  // ---- The threads ----

  datatype Updater<M> = Idle | Holding | Updating(c: nat)

  datatype Evaluator = Waiting | Evaluating(p: nat) | Pushing

  datatype Writer<O> = Popping | Writing(o: O)

  // received and popped are history: all messages read, and those taken off the queue.
  datatype State<M, D, E, O> = State(
    received: seq<M>, popped: seq<M>,
    fwUpdateQueue: seq<M>, fwUpdateBuffer: Option<M>, updater: Updater<M>,
    devices: seq<D>, inputsUpdated: bool,
    evaluator: Evaluator, memory: E,
    softwareMitigationQueue: seq<O>, writer: Writer<O>, written: seq<O>)

  // WakeUp is a wait that ends without its condition: a time-out or a spurious wake-up.
  datatype Action<M> =
    | Read(m: M)
    | PopUpdate | StartUpdate | UpdateCard | AnnounceInputs
    | StartCycle | RunPass | InputProcessed | PushMitigation
    | PopMitigation | WriteMitigation
    | WakeUp

  function Start<M, D, E, O>(y: System<M, D, E, O>): State<M, D, E, O> {
    State([], [], [], None, Idle, y.cards, false, Waiting, y.memory, [], Popping, [])
  }

  predicate Enabled<M, D, E, O>(y: System<M, D, E, O>, s: State<M, D, E, O>, a: Action<M>) {
    match a
    case Read(_) => true
    case PopUpdate => s.updater.Idle? && |s.fwUpdateQueue| > 0
    case StartUpdate => s.updater.Holding? && !s.inputsUpdated
    case UpdateCard => s.updater.Updating? && s.updater.c < |s.devices| && s.fwUpdateBuffer.Some?
    case AnnounceInputs => s.updater.Updating? && s.updater.c == |s.devices|
    case StartCycle => s.evaluator.Waiting? && s.inputsUpdated
    case RunPass => s.evaluator.Evaluating? && s.evaluator.p < y.passes
    case InputProcessed => s.evaluator.Evaluating? && s.evaluator.p == y.passes
    case PushMitigation => s.evaluator.Pushing?
    case PopMitigation => s.writer.Popping? && |s.softwareMitigationQueue| > 0
    case WriteMitigation => s.writer.Writing?
    case WakeUp => true
  }

  function Next<M, D, E, O>(y: System<M, D, E, O>, s: State<M, D, E, O>, a: Action<M>): State<M, D, E, O>
    requires Enabled(y, s, a)
  {
    match a
    case Read(m) => s.(received := s.received + [m], fwUpdateQueue := s.fwUpdateQueue + [m])
    case PopUpdate =>
      var m := s.fwUpdateQueue[0];
      s.(popped := s.popped + [m], fwUpdateQueue := s.fwUpdateQueue[1..], fwUpdateBuffer := Some(m), updater := Holding)
    case StartUpdate => s.(updater := Updating(0))
    case UpdateCard =>
      var c := s.updater.c;
      s.(devices := s.devices[c := y.update(c, s.devices[c], s.fwUpdateBuffer.value)], updater := Updating(c + 1))
    case AnnounceInputs => s.(inputsUpdated := true, updater := Idle)
    case StartCycle => s.(evaluator := Evaluating(0))
    case RunPass =>
      s.(memory := y.pass(s.evaluator.p, s.memory, s.devices), evaluator := Evaluating(s.evaluator.p + 1))
    case InputProcessed => s.(inputsUpdated := false, evaluator := Pushing)
    case PushMitigation =>
      s.(softwareMitigationQueue := s.softwareMitigationQueue + [y.result(s.memory)], evaluator := Waiting)
    case PopMitigation =>
      s.(softwareMitigationQueue := s.softwareMitigationQueue[1..], writer := Writing(s.softwareMitigationQueue[0]))
    case WriteMitigation => s.(written := s.written + [s.writer.o], writer := Popping)
    case WakeUp => s
  }

  // ---- What every state of every interleaving satisfies ----

  // How many messages are wholly in the devices
  function Applied<M, D, E, O>(s: State<M, D, E, O>): int {
    if s.updater.Idle? then |s.popped| else |s.popped| - 1
  }

  // How many the evaluator has finished with
  function Evaluated<M, D, E, O>(s: State<M, D, E, O>): int {
    if s.inputsUpdated then Applied(s) - 1 else Applied(s)
  }

  // All mitigation messages pushed so far, where they are now
  function Pushed<M, D, E, O>(s: State<M, D, E, O>): seq<O> {
    s.written + (if s.writer.Writing? then [s.writer.o] else []) + s.softwareMitigationQueue
  }

  ghost predicate UpdaterAgrees<M, D, E, O>(y: System<M, D, E, O>, s: State<M, D, E, O>) {
    && s.received == s.popped + s.fwUpdateQueue
    && (!s.updater.Idle? ==> |s.popped| > 0 && s.fwUpdateBuffer == Some(s.popped[|s.popped| - 1]))
    && (s.updater.Updating? ==> s.updater.c <= |y.cards| && !s.inputsUpdated)
    && (s.inputsUpdated ==> Applied(s) > 0)
  }

  ghost predicate DevicesAgree<M, D, E, O>(y: System<M, D, E, O>, s: State<M, D, E, O>)
    requires UpdaterAgrees(y, s)
  {
    var before := DevicesAfter(y, s.popped[..Applied(s)]);
    s.devices == match s.updater
      case Updating(c) => UpdateUpTo(y, before, s.popped[|s.popped| - 1], c)
      case _ => before
  }

  ghost predicate EvaluatorAgrees<M, D, E, O>(y: System<M, D, E, O>, s: State<M, D, E, O>)
    requires UpdaterAgrees(y, s)
  {
    match s.evaluator
    case Waiting => s.memory == MemoryAfter(y, s.popped[..Evaluated(s)])
    case Pushing => Evaluated(s) > 0 && s.memory == MemoryAfter(y, s.popped[..Evaluated(s)])
    case Evaluating(p) =>
      && s.inputsUpdated && p <= y.passes
      && s.memory == EvaluateUpTo(y, MemoryAfter(y, s.popped[..Evaluated(s)]), s.devices, p)
  }

  ghost predicate OutputAgrees<M, D, E, O>(y: System<M, D, E, O>, s: State<M, D, E, O>)
    requires UpdaterAgrees(y, s)
  {
    var n := if s.evaluator.Pushing? then Evaluated(s) - 1 else Evaluated(s);
    0 <= n && Pushed(s) == Mitigations(y, s.popped[..n])
  }

  ghost predicate Invariant<M, D, E, O>(y: System<M, D, E, O>, s: State<M, D, E, O>) {
    UpdaterAgrees(y, s) && DevicesAgree(y, s) && EvaluatorAgrees(y, s) && OutputAgrees(y, s)
  }

  lemma StartAgrees<M, D, E, O>(y: System<M, D, E, O>)
    ensures Invariant(y, Start(y))
  {
  }

  lemma ReadStep<M, D, E, O>(y: System<M, D, E, O>, s: State<M, D, E, O>, m: M)
    requires Invariant(y, s)
    ensures Invariant(y, Next(y, s, Read(m)))
  {
    hide DevicesAfter, MemoryAfter, Mitigations, UpdateUpTo, EvaluateUpTo;
  }

  lemma PopUpdateStep<M, D, E, O>(y: System<M, D, E, O>, s: State<M, D, E, O>)
    requires Invariant(y, s) && Enabled(y, s, PopUpdate)
    ensures Invariant(y, Next(y, s, PopUpdate))
  {
    hide DevicesAfter, MemoryAfter, Mitigations, UpdateUpTo, EvaluateUpTo;
    var s' := Next(y, s, PopUpdate);
    assert forall n: nat | n <= |s.popped| :: s'.popped[..n] == s.popped[..n];
  }

  lemma UpdateCardStep<M, D, E, O>(y: System<M, D, E, O>, s: State<M, D, E, O>)
    requires Invariant(y, s) && Enabled(y, s, UpdateCard)
    ensures Invariant(y, Next(y, s, UpdateCard))
  {
    hide DevicesAfter, MemoryAfter, Mitigations, EvaluateUpTo;
    var c := s.updater.c;
    assert UpdateUpTo(y, DevicesAfter(y, s.popped[..Applied(s)]), s.popped[|s.popped| - 1], c)[c]
      == DevicesAfter(y, s.popped[..Applied(s)])[c];
  }

  lemma AnnounceInputsStep<M, D, E, O>(y: System<M, D, E, O>, s: State<M, D, E, O>)
    requires Invariant(y, s) && Enabled(y, s, AnnounceInputs)
    ensures Invariant(y, Next(y, s, AnnounceInputs))
  {
    hide MemoryAfter, Mitigations, UpdateUpTo, EvaluateUpTo;
    assert s.popped[..|s.popped|] == s.popped;
  }

  lemma InputProcessedStep<M, D, E, O>(y: System<M, D, E, O>, s: State<M, D, E, O>)
    requires Invariant(y, s) && Enabled(y, s, InputProcessed)
    ensures Invariant(y, Next(y, s, InputProcessed))
  {
    hide Mitigations, DevicesAfter, UpdateUpTo, EvaluateUpTo;
    var n := Applied(s);
    assert s.popped[..n][..n - 1] == s.popped[..n - 1];
  }

  lemma PushMitigationStep<M, D, E, O>(y: System<M, D, E, O>, s: State<M, D, E, O>)
    requires Invariant(y, s) && Enabled(y, s, PushMitigation)
    ensures Invariant(y, Next(y, s, PushMitigation))
  {
    hide MemoryAfter, DevicesAfter, UpdateUpTo, EvaluateUpTo;
    var n := Evaluated(s);
    assert s.popped[..n][..n - 1] == s.popped[..n - 1];
    assert Pushed(Next(y, s, PushMitigation)) == Pushed(s) + [y.result(s.memory)];
  }

  lemma WriterStep<M, D, E, O>(y: System<M, D, E, O>, s: State<M, D, E, O>, a: Action<M>)
    requires Invariant(y, s) && Enabled(y, s, a) && (a.PopMitigation? || a.WriteMitigation?)
    ensures Invariant(y, Next(y, s, a))
  {
    hide DevicesAfter, MemoryAfter, Mitigations, UpdateUpTo, EvaluateUpTo;
    assert Pushed(Next(y, s, a)) == Pushed(s);
  }

  // The steps that only move one thread along
  lemma PlainStep<M, D, E, O>(y: System<M, D, E, O>, s: State<M, D, E, O>, a: Action<M>)
    requires Invariant(y, s) && Enabled(y, s, a) && (a.StartUpdate? || a.StartCycle? || a.RunPass? || a.WakeUp?)
    ensures Invariant(y, Next(y, s, a))
  {
    hide DevicesAfter, MemoryAfter, Mitigations;
  }

  lemma EveryStep<M, D, E, O>(y: System<M, D, E, O>, s: State<M, D, E, O>, a: Action<M>)
    requires Invariant(y, s) && Enabled(y, s, a)
    ensures Invariant(y, Next(y, s, a))
  {
    hide Invariant, Enabled, Next;
    match a
    case Read(m) => ReadStep(y, s, m);
    case PopUpdate => PopUpdateStep(y, s);
    case UpdateCard => UpdateCardStep(y, s);
    case AnnounceInputs => AnnounceInputsStep(y, s);
    case InputProcessed => InputProcessedStep(y, s);
    case PushMitigation => PushMitigationStep(y, s);
    case PopMitigation => WriterStep(y, s, a);
    case WriteMitigation => WriterStep(y, s, a);
    case _ => PlainStep(y, s, a);
  }

  // ---- Runs ----

  // Any interleaving of the threads from the start
  ghost predicate IsRun<M, D, E, O>(y: System<M, D, E, O>, states: seq<State<M, D, E, O>>, actions: seq<Action<M>>) {
    && |states| == |actions| + 1 && states[0] == Start(y)
    && forall i | 0 <= i < |actions| ::
         Enabled(y, states[i], actions[i]) && states[i + 1] == Next(y, states[i], actions[i])
  }

  lemma {:induction false} RunKeepsInvariant<M, D, E, O>(y: System<M, D, E, O>, states: seq<State<M, D, E, O>>,
                                                         actions: seq<Action<M>>, n: nat)
    requires IsRun(y, states, actions) && n < |states|
    ensures Invariant(y, states[n])
  {
    if n == 0 {
      StartAgrees(y);
    } else {
      RunKeepsInvariant(y, states, actions, n - 1);
      EveryStep(y, states[n - 1], actions[n - 1]);
    }
  }

  // Whatever the interleaving, the mitigation messages written are those of the
  // sequential loop on the messages read, one per update and in order, as far as
  // they have come.
  lemma WrittenIsPrefix<M, D, E, O>(y: System<M, D, E, O>, states: seq<State<M, D, E, O>>, actions: seq<Action<M>>,
                                    n: nat)
    requires IsRun(y, states, actions) && n < |states|
    ensures states[n].written <= Mitigations(y, states[n].received)
  {
    var s := states[n];
    RunKeepsInvariant(y, states, actions, n);
    var k := if s.evaluator.Pushing? then Evaluated(s) - 1 else Evaluated(s);
    assert s.received[..k] == s.popped[..k];
    MitigationsPrefix(y, s.received, k);
  }

  // Devices are never written while the engine evaluates, and what it evaluates are the
  // devices after a whole number of updates.
  lemma DevicesStillWhileEvaluating<M, D, E, O>(y: System<M, D, E, O>, states: seq<State<M, D, E, O>>,
                                                actions: seq<Action<M>>, n: nat)
    requires IsRun(y, states, actions) && n < |actions| && states[n].evaluator.Evaluating?
    ensures states[n + 1].devices == states[n].devices
    ensures exists k: nat :: k <= |states[n].received| && states[n].devices == DevicesAfter(y, states[n].received[..k])
  {
    var s := states[n];
    RunKeepsInvariant(y, states, actions, n);
    assert s.received[..Applied(s)] == s.popped[..Applied(s)];
  }

  // ---- Progress ----

  // Steps of the pipeline itself, leaving out new messages and idle wake-ups
  ghost predicate Works<M>(a: Action<M>) {
    !a.Read? && !a.WakeUp?
  }

  // As long as a message read has no mitigation written, some thread can work.
  lemma NoDeadlock<M, D, E, O>(y: System<M, D, E, O>, states: seq<State<M, D, E, O>>, actions: seq<Action<M>>, n: nat)
    requires IsRun(y, states, actions) && n < |states| && |states[n].written| < |states[n].received|
    ensures exists a :: Works(a) && Enabled(y, states[n], a)
  {
    var s := states[n];
    RunKeepsInvariant(y, states, actions, n);
    var a: Action<M> :=
      if s.writer.Writing? then WriteMitigation
      else if |s.softwareMitigationQueue| > 0 then PopMitigation
      else if s.evaluator.Pushing? then PushMitigation
      else if s.evaluator.Evaluating? then (if s.evaluator.p < y.passes then RunPass else InputProcessed)
      else if s.inputsUpdated then StartCycle
      else if s.updater.Updating? then (if s.updater.c < |s.devices| then UpdateCard else AnnounceInputs)
      else if s.updater.Holding? then StartUpdate
      else PopUpdate;
    assert Works(a) && Enabled(y, s, a);
  }

  function Times(k: nat, n: nat): nat {
    if n == 0 then 0 else k + Times(k, n - 1)
  }

  // The steps still to be made for what has been read
  function Work<M, D, E, O>(y: System<M, D, E, O>, s: State<M, D, E, O>): int
  {
    var perCycle := y.passes + 5;
    var perMessage := |y.cards| + 3 + perCycle;
    Times(perMessage, |s.fwUpdateQueue|)
    + (match s.updater
       case Idle => 0
       case Holding => perMessage - 1
       case Updating(c) => perMessage - 2 - c)
    + (if !s.inputsUpdated then 0
       else match s.evaluator
         case Evaluating(p) => perCycle - 1 - p
         case _ => perCycle)
    + (if s.evaluator.Pushing? then 3 else 0)
    + 2 * |s.softwareMitigationQueue|
    + (if s.writer.Writing? then 1 else 0)
  }

  // Every step of the pipeline brings it nearer to that end, so without new messages
  // everything read is written after that many steps.
  lemma WorkGetsDone<M, D, E, O>(y: System<M, D, E, O>, s: State<M, D, E, O>, a: Action<M>)
    requires Invariant(y, s) && Enabled(y, s, a) && Works(a)
    ensures 0 <= Work(y, Next(y, s, a)) < Work(y, s)
  {
    hide DevicesAfter, MemoryAfter, Mitigations, UpdateUpTo, EvaluateUpTo;
  }
}
