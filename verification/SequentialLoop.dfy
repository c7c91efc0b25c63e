// The sequential loop of a central node, read, update inputs, check faults, as an instance
// of the pipeline: what the four threads write is what the cycles decide.
module SequentialLoop {
  import opened Words
  import opened Bypass
  import opened Latching
  import opened Layout
  import opened Tables
  import opened Devices
  import opened CycleRules
  import opened EvaluationCycle
  import opened CycleProperties
  import opened Cards
  import opened Reload
  import opened Pipeline
  import MitigationWords

  // One update message: status bits and time-out bit of every card
  datatype Message = Message(statuses: seq<CardStatus>, timeoutStatus: seq<bool>)

  // What an update writes for a card
  datatype CardState = CardState(inputs: map<DeviceInput, Latch>, devices: map<AnalogDevice, Latch>,
                                 online: bool, active: bool)

  // What a cycle leaves for the next one: the words, and the ignore flags, which stay with
  // devices the engine leaves alone
  datatype Memory = Memory(words: seq<Word>, digitalIgnored: seq<bool>, analogIgnored: seq<bool>)

  // ---- The update of a card ----

  ghost predicate Usable(s: CardState, status: CardStatus) {
    && status.Sized() && (forall x | x in s.inputs :: x.channel < STATUS_BITS)
    && (forall v | v in s.devices :: v.channel.Fits())
  }

  ghost function Updated(card: ApplicationCard, s: CardState, status: CardStatus, timeoutStatus: bool, enabled: bool)
    : (after: CardState)
    requires Usable(s, status)
    ensures after.online == !timeoutStatus && after.active == enabled
  {
    CardState(
      map x | x in s.inputs ::
        if card.isDigital then InputStep(s.inputs[x], x.faultValue, x.autoReset, InputUpdate(status.At(x.channel)))
        else s.inputs[x],
      map v | v in s.devices ::
        if !card.isDigital && card.isAnalog then AnalogStep(s.devices[v], AnalogUpdate(v.Thresholds(status)))
        else s.devices[v],
      !timeoutStatus, enabled)
  }

  // ---- A cycle ----

  lemma LeastExists(db: Database, snap: Snapshot, dest: nat, n: nat)
    requires Fits(db, snap) && dest < |db.destinationMasks| && Limit(db, snap, dest, n)
    ensures exists least: nat :: LeastLimit(db, snap, dest, least)
    decreases n
  {
    hide Limit;
    if m: nat :| m < n && Limit(db, snap, dest, m) {
      LeastExists(db, snap, dest, m);
    } else {
      assert LeastLimit(db, snap, dest, n);
    }
  }

  ghost function Least(db: Database, snap: Snapshot, dest: nat): (least: nat)
    requires Fits(db, snap) && dest < |db.destinationMasks|
    ensures LeastLimit(db, snap, dest, least)
  {
    LeastExists(db, snap, dest, db.highestBeamClass.number);
    var least: nat :| LeastLimit(db, snap, dest, least);
    least
  }

  // Buffer word `word` for the least limits of all destinations
  ghost function WordFor(db: Database, snap: Snapshot, word: nat): (w: Word)
    requires Fits(db, snap)
    ensures exists numbers: seq<nat> ::
      && |numbers| == |db.destinationMasks|
      && (forall i | 0 <= i < |numbers| :: LeastLimit(db, snap, i, numbers[i]))
      && MitigationWords.Written(word, db.destinationMasks, numbers, |numbers|, w)
  {
    var masks := db.destinationMasks;
    var numbers := seq(|masks|, i requires 0 <= i < |masks| => Least(db, snap, i));
    var w: Word := set b: nat |
      b < 32 && MitigationWords.RaisedBy(masks, numbers, |masks|, MitigationWords.Base(word) + b / 4, b % 4);
    assert MitigationWords.Written(word, masks, numbers, |numbers|, w);
    w
  }

  // The cycle as a function of what it reads
  ghost function Cycle(db: Database, snap: Snapshot): Memory
    requires Fits(db, snap)
  {
    Memory([WordFor(db, snap, 0), WordFor(db, snap, 1)],
           seq(|db.digitalDevices|, d requires 0 <= d < |db.digitalDevices| => DeviceIgnored(db, snap, DigitalAt(d))),
           seq(|db.analogDevices|, a requires 0 <= a < |db.analogDevices| => DeviceIgnored(db, snap, AnalogAt(a))))
  }

  // ---- What a cycle reads, put together from the states of the cards ----

  ghost function LatchOf(ds: seq<CardState>, x: DeviceInput, otherwise: Word): Word {
    if c :| 0 <= c < |ds| && x in ds[c].inputs then ds[c].inputs[x].latched else otherwise
  }

  ghost function AnalogSnapOf(ds: seq<CardState>, v: AnalogDevice, base: AnalogSnap, ignored: bool): AnalogSnap {
    if c :| 0 <= c < |ds| && v in ds[c].devices then
      AnalogSnap(ds[c].devices[v].latched, base.bypassMask, ds[c].active, !ds[c].online, ignored)
    else base.(heldIgnored := ignored)
  }

  // `base` has the bypasses and permits, and what is not updated; n inputs of device d
  ghost function DigitalSnapOf(cards: seq<ApplicationCard>, ds: seq<CardState>, v: DigitalDevice, base: DigitalSnap,
                               ignored: bool): DigitalSnap
    requires |ds| == |cards| && |base.inputs| == |v.inputDevices|
  {
    var inputs := seq(|base.inputs|, k requires 0 <= k < |base.inputs| =>
      InputSnap(LatchOf(ds, v.inputDevices[k], base.inputs[k].latched), base.inputs[k].bypassed));
    if c :| 0 <= c < |cards| && v in cards[c].digitalDevices then
      DigitalSnap(inputs, ds[c].active, !ds[c].online, base.heldValue, ignored)
    else DigitalSnap(inputs, base.active, base.offline, base.heldValue, ignored)
  }

  ghost predicate Shaped(e: Engine, base: Snapshot, memory: Memory) {
    && e.Wired() && Fits(e.db, base)
    && |memory.digitalIgnored| == |e.digitalDevices| && |memory.analogIgnored| == |e.analogDevices|
  }

  ghost function SnapFrom(node: CentralNode, base: Snapshot, memory: Memory, ds: seq<CardState>): (snap: Snapshot)
    requires Shaped(node.engine, base, memory) && |ds| == |node.cards|
    ensures Fits(node.engine.db, snap)
  {
    var e := node.engine;
    Snapshot(
      seq(|base.digital|, d requires 0 <= d < |base.digital| =>
        DigitalSnapOf(node.cards, ds, e.digitalDevices[d], base.digital[d], memory.digitalIgnored[d])),
      seq(|base.analog|, a requires 0 <= a < |base.analog| =>
        AnalogSnapOf(ds, e.analogDevices[a], base.analog[a], memory.analogIgnored[a])),
      base.permits)
  }

  // ---- The node as a pipeline ----

  ghost function UpdateOf(node: CentralNode, enabled: seq<bool>, c: nat, s: CardState, m: Message): CardState {
    if c < |node.cards| && |m.statuses| == |m.timeoutStatus| == |enabled| == |node.cards|
       && Usable(s, m.statuses[c]) then
      Updated(node.cards[c], s, m.statuses[c], m.timeoutStatus[c], enabled[c])
    else s
  }

  ghost function PassOf(node: CentralNode, base: Snapshot, memory: Memory, ds: seq<CardState>): Memory {
    if Shaped(node.engine, base, memory) && |ds| == |node.cards| then
      Cycle(node.engine.db, SnapFrom(node, base, memory, ds))
    else memory
  }

  ghost function SystemOf(node: CentralNode, base: Snapshot, enabled: seq<bool>, start: seq<CardState>, memory: Memory)
    : System<Message, CardState, Memory, seq<Word>>
  {
    System(start, memory, 1,
           (c: nat, s: CardState, m: Message) => UpdateOf(node, enabled, c, s, m),
           (p: nat, e: Memory, ds: seq<CardState>) => PassOf(node, base, e, ds),
           (e: Memory) => e.words)
  }

  // ---- The node holds these states ----

  ghost predicate Holds(card: ApplicationCard, s: CardState)
    reads card`online, card`active, card.Inputs(), card.analogDevices`value, card.analogDevices`latchedValue
  {
    && s.inputs.Keys == card.Inputs() && (forall x | x in card.Inputs() :: s.inputs[x] == x.State())
    && (forall v | v in s.devices :: v in card.analogDevices)
    && (forall v | v in card.analogDevices :: v in s.devices && s.devices[v] == v.State())
    && s.online == card.online && s.active == card.active
  }

  // Its devices have the flags of the card.
  ghost predicate InStep(node: CentralNode, ds: seq<CardState>)
    requires |ds| == |node.cards|
    reads *
  {
    forall c | 0 <= c < |ds| ::
      Holds(node.cards[c], ds[c]) && node.Flagged(node.cards[c], !ds[c].online, ds[c].active)
  }

  // What no update writes: bypasses, permits, masks, and devices that are on no card
  ghost predicate Rest(node: CentralNode, base: Snapshot)
    requires node.engine.Wired() && Fits(node.engine.db, base)
    reads *
  {
    var e := node.engine;
    && (forall d, k | 0 <= d < |e.digitalDevices| && 0 <= k < |e.digitalDevices[d].inputDevices| ::
          var x := e.digitalDevices[d].inputDevices[k];
          && base.digital[d].inputs[k].bypassed ==
               (if x.bypass.status == BypassValid then Some(x.bypass.value) else None)
          && (x !in node.Inputs() ==> x.latchedValue == base.digital[d].inputs[k].latched))
    && (forall d | 0 <= d < |e.digitalDevices| && e.digitalDevices[d] !in node.DigitalDevices() ::
          && e.digitalDevices[d].modeActive == base.digital[d].active
          && e.digitalDevices[d].faultedOffline == base.digital[d].offline)
    && (forall a | 0 <= a < |e.analogDevices| ::
          var v := e.analogDevices[a];
          && v.bypassMask.bits == base.analog[a].bypassMask
          && (v !in node.AnalogDevices() ==>
                && v.latchedValue == base.analog[a].latched && v.modeActive == base.analog[a].active
                && v.faultedOffline == base.analog[a].offline))
    && e.PermitsAgree(base)
  }

  // What the engine keeps of devices it leaves alone
  ghost predicate Held(node: CentralNode, base: Snapshot, memory: Memory)
    requires Shaped(node.engine, base, memory)
    reads node.engine.digitalDevices`value, node.engine.digitalDevices`ignored, node.engine.analogDevices`ignored
  {
    var e := node.engine;
    && (forall d | 0 <= d < |e.digitalDevices| && !e.db.digitalDevices[d].Evaluated() ::
          && e.digitalDevices[d].value == base.digital[d].heldValue
          && e.digitalDevices[d].ignored == memory.digitalIgnored[d])
    && (forall a | 0 <= a < |e.analogDevices| && !e.db.analogDevices[a].Evaluated() ::
          e.analogDevices[a].ignored == memory.analogIgnored[a])
  }

  // So the engine is about to evaluate the snapshot put together from them.
  lemma AboutToEvaluate(node: CentralNode, base: Snapshot, memory: Memory, ds: seq<CardState>)
    requires node.Wired() && Shaped(node.engine, base, memory) && |ds| == |node.cards|
    requires Rest(node, base) && Held(node, base, memory) && InStep(node, ds)
    ensures node.engine.Agrees(SnapFrom(node, base, memory, ds))
  {
    var e, snap := node.engine, SnapFrom(node, base, memory, ds);
    forall d | 0 <= d < |e.digitalDevices|
      ensures e.InputsAgree(d, snap) && e.DigitalHeld(d, snap)
      ensures e.digitalDevices[d].modeActive == snap.digital[d].active
      ensures e.digitalDevices[d].faultedOffline == snap.digital[d].offline
    {
      DigitalAgrees(node, base, memory, ds, d);
    }
    forall a | 0 <= a < |e.analogDevices|
      ensures e.AnalogHeld(a, snap)
      ensures e.analogDevices[a].modeActive == snap.analog[a].active
      ensures e.analogDevices[a].faultedOffline == snap.analog[a].offline
      ensures e.analogDevices[a].latchedValue == snap.analog[a].latched
      ensures e.analogDevices[a].bypassMask.bits == snap.analog[a].bypassMask
    {
      AnalogAgrees(node, base, memory, ds, a);
    }
  }

  lemma LatchFound(node: CentralNode, ds: seq<CardState>, x: DeviceInput, otherwise: Word)
    requires |ds| == |node.cards| && InStep(node, ds) && (x !in node.Inputs() ==> x.latchedValue == otherwise)
    ensures LatchOf(ds, x, otherwise) == x.latchedValue
  {
    if x in node.Inputs() {
      var c :| 0 <= c < |node.cards| && x in node.cards[c].Inputs();
      assert Holds(node.cards[c], ds[c]);
    }
    forall c | 0 <= c < |ds| && x in ds[c].inputs
      ensures ds[c].inputs[x].latched == x.latchedValue && x in node.Inputs()
    {
      assert Holds(node.cards[c], ds[c]);
    }
  }

  lemma DigitalAgrees(node: CentralNode, base: Snapshot, memory: Memory, ds: seq<CardState>, d: nat)
    requires node.Wired() && Shaped(node.engine, base, memory) && |ds| == |node.cards|
    requires Rest(node, base) && Held(node, base, memory) && InStep(node, ds) && d < |node.engine.digitalDevices|
    ensures
      var e, snap := node.engine, SnapFrom(node, base, memory, ds);
      && e.InputsAgree(d, snap) && e.DigitalHeld(d, snap)
      && e.digitalDevices[d].modeActive == snap.digital[d].active
      && e.digitalDevices[d].faultedOffline == snap.digital[d].offline
  {
    hide LatchOf, CentralNode.Wired;
    var device := node.engine.digitalDevices[d];
    forall k | 0 <= k < |device.inputDevices|
      ensures LatchOf(ds, device.inputDevices[k], base.digital[d].inputs[k].latched)
        == device.inputDevices[k].latchedValue
    {
      LatchFound(node, ds, device.inputDevices[k], base.digital[d].inputs[k].latched);
    }
    forall c | 0 <= c < |node.cards| && device in node.cards[c].digitalDevices
      ensures device.modeActive == ds[c].active && device.faultedOffline == !ds[c].online
    {
      node.CardParts(c);
    }
  }

  lemma AnalogFound(node: CentralNode, ds: seq<CardState>, v: AnalogDevice, c: nat)
    requires node.Wired() && |ds| == |node.cards| && InStep(node, ds) && c < |ds|
    requires v in ds[c].devices
    ensures v in node.AnalogDevices() && ds[c].devices[v].latched == v.latchedValue
    ensures v.modeActive == ds[c].active && v.faultedOffline == !ds[c].online
  {
    hide CentralNode.Wired;
    node.CardParts(c);
    assert Holds(node.cards[c], ds[c]) && node.Flagged(node.cards[c], !ds[c].online, ds[c].active);
    assert v in node.cards[c].analogDevices;
  }

  lemma AnalogAgrees(node: CentralNode, base: Snapshot, memory: Memory, ds: seq<CardState>, a: nat)
    requires node.Wired() && Shaped(node.engine, base, memory) && |ds| == |node.cards|
    requires Rest(node, base) && Held(node, base, memory) && InStep(node, ds) && a < |node.engine.analogDevices|
    ensures
      var e, snap := node.engine, SnapFrom(node, base, memory, ds);
      && e.AnalogHeld(a, snap)
      && e.analogDevices[a].modeActive == snap.analog[a].active
      && e.analogDevices[a].faultedOffline == snap.analog[a].offline
      && e.analogDevices[a].latchedValue == snap.analog[a].latched
      && e.analogDevices[a].bypassMask.bits == snap.analog[a].bypassMask
  {
    hide CentralNode.Wired, Holds, CentralNode.Flagged;
    var v := node.engine.analogDevices[a];
    forall c: nat | c < |ds| && v in ds[c].devices
      ensures v in node.AnalogDevices() && ds[c].devices[v].latched == v.latchedValue
      ensures v.modeActive == ds[c].active && v.faultedOffline == !ds[c].online
    {
      AnalogFound(node, ds, v, c);
    }
    if v in node.AnalogDevices() {
      AnalogListed(node, ds, v);
    }
  }

  lemma AnalogListed(node: CentralNode, ds: seq<CardState>, v: AnalogDevice)
    requires |ds| == |node.cards| && InStep(node, ds) && v in node.AnalogDevices()
    ensures exists c :: 0 <= c < |ds| && v in ds[c].devices
  {
    var c :| 0 <= c < |node.cards| && v in node.cards[c].analogDevices;
    assert Holds(node.cards[c], ds[c]);
  }

  // ---- One update ----

  ghost predicate AllHold(node: CentralNode, ds: seq<CardState>)
    reads *
  {
    |ds| == |node.cards| && forall c | 0 <= c < |ds| :: Holds(node.cards[c], ds[c])
  }

  // The state of the card is that of the samples taken before an update.
  ghost predicate TakenFrom(card: ApplicationCard, s: CardState, was: Samples) {
    && s.inputs.Keys == card.Inputs() && (forall x | x in s.inputs :: x in was.inputs && was.inputs[x] == s.inputs[x])
    && (forall v | v in s.devices :: v in card.analogDevices)
    && (forall v | v in card.analogDevices :: v in s.devices && v in was.devices && was.devices[v] == s.devices[v])
  }

  lemma Taken(card: ApplicationCard, node: CentralNode, s: CardState, was: Samples)
    requires Holds(card, s) && node.NotSampled(card, was)
    ensures TakenFrom(card, s, was)
  {
  }

  lemma UpdatedHolds(node: CentralNode, card: ApplicationCard, s: CardState, was: Samples, status: CardStatus,
                     timeoutStatus: bool, enabled: bool)
    requires status.Sized() && card.ChannelsFit() && TakenFrom(card, s, was)
    requires node.CardSampled(card, was, status) && node.Flagged(card, timeoutStatus, enabled)
    ensures Usable(s, status) && Holds(card, Updated(card, s, status, timeoutStatus, enabled))
  {
    hide InputStep, AnalogStep;
  }

  ghost predicate Shapes(node: CentralNode, m: Message) {
    |m.statuses| == |m.timeoutStatus| == |node.cards| && forall s | s in m.statuses :: s.Sized()
  }

  // The states of the cards after an update are those of the pipeline ...
  method UpdateCards(node: CentralNode, m: Message, ghost enabled: seq<bool>, ghost ds: seq<CardState>)
    returns (ghost after: seq<CardState>)
    requires node.Wired() && AllHold(node, ds) && Shapes(node, m)
    requires |enabled| == |node.cards| && forall c | 0 <= c < |enabled| :: enabled[c] == node.Enabled(c)
    modifies node.engine`reloadInactive, node.cards`online, node.cards`active
    modifies node.DigitalDevices()`faultedOffline, node.DigitalDevices()`modeActive, node.Inputs()
    modifies node.AnalogDevices()`value, node.AnalogDevices()`previousValue, node.AnalogDevices()`latchedValue
    modifies node.AnalogDevices()`faultedOffline, node.AnalogDevices()`modeActive
    ensures |after| == |ds| && forall c | 0 <= c < |ds| :: after[c] == UpdateOf(node, enabled, c, ds[c], m)
    ensures |after| == |node.cards| && InStep(node, after)
  {
    hide CentralNode.Wired, CentralNode.NotSampled, CentralNode.CardSampled, CentralNode.Flagged, CentralNode.CardMode;
    hide Holds, TakenFrom, Usable, Updated;
    ghost var was := node.TakeSamples();
    forall c | 0 <= c < |ds| ensures TakenFrom(node.cards[c], ds[c], was) {
      Taken(node.cards[c], node, ds[c], was);
    }
    node.UpdateInputs(m.statuses, m.timeoutStatus, was);
    after := seq(|ds|, c requires 0 <= c < |ds| => UpdateOf(node, enabled, c, ds[c], m));
    forall c | 0 <= c < |ds|
      ensures Holds(node.cards[c], after[c]) && node.Flagged(node.cards[c], !after[c].online, after[c].active)
    {
      node.CardParts(c);
      UpdatedHolds(node, node.cards[c], ds[c], was, m.statuses[c], m.timeoutStatus[c], enabled[c]);
    }
  }

  // ... and all else is as it was.
  method UpdateRound(node: CentralNode, m: Message, ghost base: Snapshot, ghost memory: Memory,
                     ghost enabled: seq<bool>, ghost ds: seq<CardState>)
    returns (ghost after: seq<CardState>)
    requires node.Wired() && Shaped(node.engine, base, memory) && AllHold(node, ds) && Shapes(node, m)
    requires Rest(node, base) && Held(node, base, memory)
    requires |enabled| == |node.cards| && forall c | 0 <= c < |enabled| :: enabled[c] == node.Enabled(c)
    modifies node.engine`reloadInactive, node.cards`online, node.cards`active
    modifies node.DigitalDevices()`faultedOffline, node.DigitalDevices()`modeActive, node.Inputs()
    modifies node.AnalogDevices()`value, node.AnalogDevices()`previousValue, node.AnalogDevices()`latchedValue
    modifies node.AnalogDevices()`faultedOffline, node.AnalogDevices()`modeActive
    ensures |after| == |ds| && forall c | 0 <= c < |ds| :: after[c] == UpdateOf(node, enabled, c, ds[c], m)
    ensures |after| == |node.cards| && InStep(node, after) && Rest(node, base) && Held(node, base, memory)
  {
    hide CentralNode.Wired, Shapes, AllHold, InStep, Held, UpdateOf;
    hide CentralNode.Inputs, CentralNode.DigitalDevices, CentralNode.AnalogDevices;
    after := UpdateCards(node, m, enabled, ds);
  }

  // ---- One cycle ----

  lemma WordsDecided(e: Engine, snap: Snapshot, numbers: seq<nat>)
    requires e.Wired() && Fits(e.db, snap) && e.Limited(snap, numbers)
    ensures e.softwareMitigationBuffer == [WordFor(e.db, snap, 0), WordFor(e.db, snap, 1)]
  {
    hide LeastLimit, MitigationWords.Written;
    WordDecided(e.db, snap, numbers, 0, e.softwareMitigationBuffer[0]);
    WordDecided(e.db, snap, numbers, 1, e.softwareMitigationBuffer[1]);
  }

  lemma WordDecided(db: Database, snap: Snapshot, numbers: seq<nat>, word: nat, w: Word)
    requires Fits(db, snap) && |numbers| == |db.destinationMasks|
    requires forall i | 0 <= i < |numbers| :: LeastLimit(db, snap, i, numbers[i])
    requires MitigationWords.Written(word, db.destinationMasks, numbers, |numbers|, w)
    ensures w == WordFor(db, snap, word)
  {
    hide LeastLimit, MitigationWords.Written, WordFor;
    var numbers': seq<nat> :|
      && |numbers'| == |db.destinationMasks|
      && (forall i | 0 <= i < |numbers'| :: LeastLimit(db, snap, i, numbers'[i]))
      && MitigationWords.Written(word, db.destinationMasks, numbers', |numbers'|, WordFor(db, snap, word));
    forall i | 0 <= i < |numbers| ensures numbers[i] == numbers'[i] {
      LeastLimitUnique(db, snap, i, numbers[i], numbers'[i]);
    }
    assert numbers == numbers';
    SameWord(word, db.destinationMasks, numbers, w, WordFor(db, snap, word));
  }

  lemma HeldAfter(node: CentralNode, base: Snapshot, memory: Memory, ds: seq<CardState>, flags: seq<seq<bool>>)
    requires Shaped(node.engine, base, memory) && |ds| == |node.cards|
    requires node.engine.InputsDecided(SnapFrom(node, base, memory, ds), flags)
    ensures
      var after := PassOf(node, base, memory, ds);
      Shaped(node.engine, base, after) && Held(node, base, after)
    ensures node.engine.FourFlags()
  {
    hide WordFor, DeviceIgnored, LatchOf, AnalogSnapOf, Engine.FaultsEvaluated, Engine.StatesDecided;
    hide Engine.ConditionsDecided;
  }

  lemma FlagsOf(e: Engine) returns (flags: seq<seq<bool>>)
    requires e.FourFlags()
    ensures e.FlagsAre(flags)
  {
    flags := seq(|e.analogDevices|, a requires 0 <= a < |e.analogDevices| reads e.analogDevices =>
      e.analogDevices[a].ignoredIntegrator);
  }

  method CycleOnly(node: CentralNode, ghost base: Snapshot, ghost memory: Memory, ghost ds: seq<CardState>,
                   ghost starts: seq<int>)
    returns (ghost after: Memory)
    requires node.Wired() && Shaped(node.engine, base, memory) && |ds| == |node.cards| && InStep(node, ds)
    requires Rest(node, base) && Held(node, base, memory)
    requires node.engine.HistoryAgrees(starts) && node.engine.FourFlags()
    modifies node.engine, node.engine.conditions, node.engine.faults, node.engine.states
    modifies node.engine.destinations`tentativeBeamClass, node.engine.destinations`previousAllowedBeamClass
    modifies node.engine.destinations`allowedBeamClass
    modifies node.engine.digitalDevices`value, node.engine.digitalDevices`ignored
    modifies node.engine.analogDevices`ignored, node.engine.analogDevices`ignoredIntegrator
    ensures after == PassOf(node, base, memory, ds) && node.engine.softwareMitigationBuffer == after.words
    ensures Shaped(node.engine, base, after) && Held(node, base, after)
    ensures node.engine.HistoryAgrees(starts) && node.engine.FourFlags()
  {
    hide Engine.Wired, Engine.Agrees, Engine.FlagsAre, Engine.HistoryAgrees, Engine.Limited, Engine.InputsDecided, Fits;
    hide CentralNode.Wired, Rest, Held, InStep, SnapFrom, Engine.FourFlags, WordFor;
    ghost var snap := SnapFrom(node, base, memory, ds);
    AboutToEvaluate(node, base, memory, ds);
    ghost var flags := FlagsOf(node.engine);
    var result;
    ghost var numbers;
    result, numbers := node.engine.CheckFaults(snap, starts, flags);
    after := PassOf(node, base, memory, ds);
    WordsDecided(node.engine, snap, numbers);
    HeldAfter(node, base, memory, ds, flags);
  }

  // A cycle writes nothing the next update or cycle reads but what it hands on: no bypass and
  // permit, ...
  method CycleApart(node: CentralNode, ghost base: Snapshot, ghost memory: Memory, ghost ds: seq<CardState>,
                    ghost starts: seq<int>)
    returns (ghost after: Memory)
    requires node.Wired() && Shaped(node.engine, base, memory) && |ds| == |node.cards| && InStep(node, ds)
    requires Rest(node, base) && Held(node, base, memory)
    requires node.engine.HistoryAgrees(starts) && node.engine.FourFlags()
    modifies node.engine, node.engine.conditions, node.engine.faults, node.engine.states
    modifies node.engine.destinations`tentativeBeamClass, node.engine.destinations`previousAllowedBeamClass
    modifies node.engine.destinations`allowedBeamClass
    modifies node.engine.digitalDevices`value, node.engine.digitalDevices`ignored
    modifies node.engine.analogDevices`ignored, node.engine.analogDevices`ignoredIntegrator
    ensures after == PassOf(node, base, memory, ds) && node.engine.softwareMitigationBuffer == after.words
    ensures Shaped(node.engine, base, after) && Held(node, base, after)
    ensures node.engine.HistoryAgrees(starts) && node.engine.FourFlags()
    ensures Rest(node, base)
  {
    hide Engine.Wired, Engine.HistoryAgrees, Engine.FourFlags, Fits, CentralNode.Wired, Held, InStep;
    hide PassOf, CentralNode.Inputs, CentralNode.DigitalDevices, CentralNode.AnalogDevices;
    after := CycleOnly(node, base, memory, ds, starts);
  }

  // ... and no state of a card.
  method CycleRound(node: CentralNode, ghost base: Snapshot, ghost memory: Memory, ghost ds: seq<CardState>,
                    ghost starts: seq<int>)
    returns (ghost after: Memory)
    requires node.Wired() && Shaped(node.engine, base, memory) && |ds| == |node.cards| && InStep(node, ds)
    requires Rest(node, base) && Held(node, base, memory)
    requires node.engine.HistoryAgrees(starts) && node.engine.FourFlags()
    modifies node.engine, node.engine.conditions, node.engine.faults, node.engine.states
    modifies node.engine.destinations`tentativeBeamClass, node.engine.destinations`previousAllowedBeamClass
    modifies node.engine.destinations`allowedBeamClass
    modifies node.engine.digitalDevices`value, node.engine.digitalDevices`ignored
    modifies node.engine.analogDevices`ignored, node.engine.analogDevices`ignoredIntegrator
    ensures after == PassOf(node, base, memory, ds) && node.engine.softwareMitigationBuffer == after.words
    ensures Shaped(node.engine, base, after) && Held(node, base, after)
    ensures node.engine.HistoryAgrees(starts) && node.engine.FourFlags()
    ensures Rest(node, base) && AllHold(node, ds)
  {
    hide Engine.Wired, Engine.HistoryAgrees, Engine.FourFlags, Fits, CentralNode.Wired, Held, Rest;
    hide CentralNode.Flagged, PassOf, CentralNode.Inputs, CentralNode.DigitalDevices, CentralNode.AnalogDevices;
    after := CycleApart(node, base, memory, ds, starts);
    forall c | 0 <= c < |ds| ensures Holds(node.cards[c], ds[c]) {
      assert old(Holds(node.cards[c], ds[c]));
    }
  }

  // ---- The loop ----

  lemma OneMoreMessage(node: CentralNode, base: Snapshot, enabled: seq<bool>, start: seq<CardState>, memory: Memory,
                       messages: seq<Message>, n: nat, after: seq<CardState>)
    requires n < |messages|
    requires
      var y := SystemOf(node, base, enabled, start, memory);
      var before := DevicesAfter(y, messages[..n]);
      && |after| == |before|
      && forall c | 0 <= c < |before| :: after[c] == UpdateOf(node, enabled, c, before[c], messages[n])
    ensures
      var y := SystemOf(node, base, enabled, start, memory);
      var next := PassOf(node, base, MemoryAfter(y, messages[..n]), after);
      && DevicesAfter(y, messages[..n + 1]) == after && MemoryAfter(y, messages[..n + 1]) == next
      && Mitigations(y, messages[..n + 1]) == Mitigations(y, messages[..n]) + [next.words]
  {
    hide UpdateOf, PassOf;
    var y := SystemOf(node, base, enabled, start, memory);
    var longer := messages[..n + 1];
    assert longer[..n] == messages[..n];
    var before := DevicesAfter(y, messages[..n]);
    assert UpdateUpTo(y, before, messages[n], |before|) == after;
    var was := MemoryAfter(y, messages[..n]);
    assert EvaluateUpTo(y, was, after, 1) == y.pass(0, EvaluateUpTo(y, was, after, 0), after);
  }

  // One update and the cycle after it
  method Round(node: CentralNode, m: Message, ghost base: Snapshot, ghost memory: Memory,
               ghost enabled: seq<bool>, ghost ds: seq<CardState>, ghost starts: seq<int>)
    returns (ghost next: Memory, ghost after: seq<CardState>)
    requires node.Wired() && Shaped(node.engine, base, memory) && AllHold(node, ds) && Shapes(node, m)
    requires Rest(node, base) && Held(node, base, memory)
    requires node.engine.HistoryAgrees(starts) && node.engine.FourFlags()
    requires |enabled| == |node.cards| && forall c | 0 <= c < |enabled| :: enabled[c] == node.Enabled(c)
    modifies node.engine, node.engine.conditions, node.engine.faults, node.engine.states
    modifies node.engine.destinations`tentativeBeamClass, node.engine.destinations`previousAllowedBeamClass
    modifies node.engine.destinations`allowedBeamClass
    modifies node.engine.digitalDevices, node.engine.analogDevices, node.cards
    modifies node.DigitalDevices(), node.AnalogDevices(), node.Inputs()
    ensures |after| == |ds| && forall c | 0 <= c < |ds| :: after[c] == UpdateOf(node, enabled, c, ds[c], m)
    ensures next == PassOf(node, base, memory, after) && node.engine.softwareMitigationBuffer == next.words
    ensures Shaped(node.engine, base, next) && Rest(node, base) && Held(node, base, next) && AllHold(node, after)
    ensures node.engine.HistoryAgrees(starts) && node.engine.FourFlags()
  {
    hide CentralNode.Wired, Engine.Wired, Fits, AllHold, InStep, Rest, Held, Shapes, Engine.HistoryAgrees;
    hide Engine.FourFlags, UpdateOf, PassOf;
    after := UpdateRound(node, m, base, memory, enabled, ds);
    next := CycleRound(node, base, memory, after, starts);
  }

  // The loop of a node, update inputs and check faults, on any messages puts out what its
  // pipeline is to write.
  method Loop(node: CentralNode, messages: seq<Message>, ghost base: Snapshot, ghost memory: Memory,
              ghost enabled: seq<bool>, ghost start: seq<CardState>, ghost starts: seq<int>)
    returns (outputs: seq<seq<Word>>)
    requires node.Wired() && Shaped(node.engine, base, memory) && AllHold(node, start)
    requires forall m | m in messages :: Shapes(node, m)
    requires Rest(node, base) && Held(node, base, memory)
    requires node.engine.HistoryAgrees(starts) && node.engine.FourFlags()
    requires |enabled| == |node.cards| && forall c | 0 <= c < |enabled| :: enabled[c] == node.Enabled(c)
    modifies node.engine, node.engine.conditions, node.engine.faults, node.engine.states
    modifies node.engine.destinations`tentativeBeamClass, node.engine.destinations`previousAllowedBeamClass
    modifies node.engine.destinations`allowedBeamClass
    modifies node.engine.digitalDevices, node.engine.analogDevices, node.cards
    modifies node.DigitalDevices(), node.AnalogDevices(), node.Inputs()
    ensures outputs == Mitigations(SystemOf(node, base, enabled, start, memory), messages)
  {
    hide CentralNode.Wired, Engine.Wired, Fits, AllHold, InStep, Rest, Held, Shapes, Engine.HistoryAgrees;
    hide Engine.FourFlags, UpdateOf, PassOf;
    ghost var y := SystemOf(node, base, enabled, start, memory);
    outputs := [];
    for n := 0 to |messages|
      invariant outputs == Mitigations(y, messages[..n])
      invariant AllHold(node, DevicesAfter(y, messages[..n]))
      invariant Shaped(node.engine, base, MemoryAfter(y, messages[..n]))
      invariant Rest(node, base) && Held(node, base, MemoryAfter(y, messages[..n]))
      invariant node.engine.HistoryAgrees(starts) && node.engine.FourFlags()
    {
      ghost var m := MemoryAfter(y, messages[..n]);
      ghost var before := DevicesAfter(y, messages[..n]);
      ghost var next, after := Round(node, messages[n], base, m, enabled, before, starts);
      OneMoreMessage(node, base, enabled, start, memory, messages, n, after);
      outputs := outputs + [node.engine.softwareMitigationBuffer];
    }
    assert messages[..|messages|] == messages;
  }

  // It can be started from every state of a node.
  lemma LoopStarts(node: CentralNode) returns (base: Snapshot, memory: Memory, start: seq<CardState>)
    requires node.Wired() && node.engine.Wired()
    ensures Shaped(node.engine, base, memory) && Rest(node, base) && Held(node, base, memory) && AllHold(node, start)
  {
    var e := node.engine;
    base := SnapshotExists(e);
    var digital, analog := [], [];
    for d := 0 to |e.digitalDevices|
      invariant |digital| == d && forall i | 0 <= i < d :: digital[i] == e.digitalDevices[i].ignored
    {
      digital := digital + [e.digitalDevices[d].ignored];
    }
    for a := 0 to |e.analogDevices|
      invariant |analog| == a && forall i | 0 <= i < a :: analog[i] == e.analogDevices[i].ignored
    {
      analog := analog + [e.analogDevices[a].ignored];
    }
    memory := Memory([ZERO, ZERO], digital, analog);
    start := CardsHeld(node);
    AgreesRest(node, base, memory);
  }

  lemma CardsHeld(node: CentralNode) returns (start: seq<CardState>)
    ensures AllHold(node, start)
  {
    start := [];
    for c := 0 to |node.cards|
      invariant |start| == c && forall i | 0 <= i < c :: Holds(node.cards[i], start[i])
    {
      var card := node.cards[c];
      var s := CardState(map x | x in card.Inputs() :: x.State(), map v | v in card.analogDevices :: v.State(),
                         card.online, card.active);
      assert Holds(card, s);
      start := start + [s];
    }
  }

  lemma AgreesRest(node: CentralNode, base: Snapshot, memory: Memory)
    requires Shaped(node.engine, base, memory) && node.engine.Agrees(base)
    requires forall d | 0 <= d < |memory.digitalIgnored| ::
      memory.digitalIgnored[d] == node.engine.digitalDevices[d].ignored
    requires forall a | 0 <= a < |memory.analogIgnored| ::
      memory.analogIgnored[a] == node.engine.analogDevices[a].ignored
    ensures Rest(node, base) && Held(node, base, memory)
  {
    var e := node.engine;
    forall d | 0 <= d < |e.digitalDevices|
      ensures !e.db.digitalDevices[d].Evaluated() ==> e.digitalDevices[d].value == base.digital[d].heldValue
      ensures forall k | 0 <= k < |e.digitalDevices[d].inputDevices| ::
        var x := e.digitalDevices[d].inputDevices[k];
        && x.latchedValue == base.digital[d].inputs[k].latched
        && base.digital[d].inputs[k].bypassed == if x.bypass.status == BypassValid then Some(x.bypass.value) else None
    {
      assert e.DigitalHeld(d, base) && e.InputsAgree(d, base);
    }
  }

  // ---- What the threads write ----

  lemma PassShaped(node: CentralNode, base: Snapshot, memory: Memory, ds: seq<CardState>)
    requires Shaped(node.engine, base, memory)
    ensures Shaped(node.engine, base, PassOf(node, base, memory, ds))
  {
    hide WordFor, DeviceIgnored, SnapFrom;
  }

  lemma {:induction false} MemoryShaped(node: CentralNode, base: Snapshot, enabled: seq<bool>, start: seq<CardState>,
                                        memory: Memory, messages: seq<Message>)
    requires Shaped(node.engine, base, memory)
    ensures Shaped(node.engine, base, MemoryAfter(SystemOf(node, base, enabled, start, memory), messages))
  {
    hide Shaped, PassOf, UpdateOf;
    if messages != [] {
      var y := SystemOf(node, base, enabled, start, memory);
      var before := messages[..|messages| - 1];
      MemoryShaped(node, base, enabled, start, memory, before);
      var ds := DevicesAfter(y, messages);
      var was := MemoryAfter(y, before);
      assert EvaluateUpTo(y, was, ds, 1) == y.pass(0, EvaluateUpTo(y, was, ds, 0), ds);
      PassShaped(node, base, was, ds);
    }
  }

  // The snapshot the cycle for message k is to evaluate
  ghost function SnapAt(node: CentralNode, base: Snapshot, enabled: seq<bool>, start: seq<CardState>, memory: Memory,
                        messages: seq<Message>, k: nat): (snap: Snapshot)
    requires Shaped(node.engine, base, memory) && |start| == |node.cards| && k < |messages|
    ensures Fits(node.engine.db, snap)
  {
    var y := SystemOf(node, base, enabled, start, memory);
    MemoryShaped(node, base, enabled, start, memory, messages[..k]);
    SnapFrom(node, base, MemoryAfter(y, messages[..k]), DevicesAfter(y, messages[..k + 1]))
  }

  // Whatever the interleaving of the threads, mitigation message k holds the least limits of
  // the inputs as they are after update message k, read one after the other.
  lemma WrittenAreLeastLimits(node: CentralNode, base: Snapshot, enabled: seq<bool>, start: seq<CardState>,
                              memory: Memory, states: seq<State<Message, CardState, Memory, seq<Word>>>,
                              actions: seq<Action<Message>>, n: nat, k: nat)
    requires Shaped(node.engine, base, memory) && |start| == |node.cards|
    requires IsRun(SystemOf(node, base, enabled, start, memory), states, actions)
    requires n < |states| && k < |states[n].written|
    ensures k < |states[n].received|
    ensures
      var snap := SnapAt(node, base, enabled, start, memory, states[n].received, k);
      states[n].written[k] == [WordFor(node.engine.db, snap, 0), WordFor(node.engine.db, snap, 1)]
  {
    hide WordFor, SnapFrom, UpdateOf, IsRun, Shaped;
    var y := SystemOf(node, base, enabled, start, memory);
    var messages := states[n].received;
    WrittenIsPrefix(y, states, actions, n);
    MitigationAt(y, messages, k);
    PassedAt(node, base, enabled, start, memory, messages, k);
  }

  lemma PassedAt(node: CentralNode, base: Snapshot, enabled: seq<bool>, start: seq<CardState>, memory: Memory,
                 messages: seq<Message>, k: nat)
    requires Shaped(node.engine, base, memory) && |start| == |node.cards| && k < |messages|
    ensures
      var snap := SnapAt(node, base, enabled, start, memory, messages, k);
      MemoryAfter(SystemOf(node, base, enabled, start, memory), messages[..k + 1]).words ==
        [WordFor(node.engine.db, snap, 0), WordFor(node.engine.db, snap, 1)]
  {
    hide WordFor, SnapFrom, UpdateOf;
    var y := SystemOf(node, base, enabled, start, memory);
    var longer := messages[..k + 1];
    assert longer[..k] == messages[..k];
    MemoryShaped(node, base, enabled, start, memory, messages[..k]);
    var ds, was := DevicesAfter(y, longer), MemoryAfter(y, messages[..k]);
    assert EvaluateUpTo(y, was, ds, 1) == y.pass(0, EvaluateUpTo(y, was, ds, 0), ds);
  }

  // And so the firmware reads at every bit of one destination its least limit.
  lemma WordDecodes(db: Database, snap: Snapshot, word: nat, k: nat, o: nat, least: nat)
    requires Fits(db, snap) && word < 2 && k < 8
    requires MitigationWords.Owns(db.destinationMasks, o, MitigationWords.Base(word) + k)
    requires LeastLimit(db, snap, o, least)
    ensures MitigationWords.Nibble(WordFor(db, snap, word), k) == least % 16
  {
    hide LeastLimit, MitigationWords.Written, MitigationWords.Nibble, WordFor;
    var w := WordFor(db, snap, word);
    var numbers: seq<nat> :|
      && |numbers| == |db.destinationMasks|
      && (forall i | 0 <= i < |numbers| :: LeastLimit(db, snap, i, numbers[i]))
      && MitigationWords.Written(word, db.destinationMasks, numbers, |numbers|, w);
    MitigationWords.MitigationRoundTrip(db.destinationMasks, numbers, word, w, k);
    LeastLimitUnique(db, snap, o, least, numbers[o]);
  }
}
