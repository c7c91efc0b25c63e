// The first round after Engine::loadConfig (src/central_node_engine.cc): the images are
// written and the cards enabled, then come the first update of the inputs and the first
// cycle.
module StartUp {
  import opened Words
  import opened Bypass
  import opened Layout
  import opened Tables
  import opened Devices
  import opened CycleRules
  import opened IntegratorRules
  import opened EvaluationCycle
  import opened CycleProperties
  import opened Cards
  import opened FirmwareMask
  import opened Reload

  const NO_FLAGS := [false, false, false, false]

  // Devices and conditions as constructed, and nothing logged.  Nothing is said of the mode
  // of cards and devices, which no constructor sets.
  ghost predicate Fresh(e: Engine)
    reads e`history, e`reloadInactive, e.conditions`state, e.analogDevices`ignored, e.analogDevices`ignoredIntegrator
  {
    && e.history == [] && !e.reloadInactive
    && (forall v | v in e.analogDevices :: !v.ignored && v.ignoredIntegrator == NO_FLAGS)
    && (forall c | c in e.conditions :: !c.state)
  }

  ghost function NoFlags(n: nat): (flags: seq<seq<bool>>)
    ensures |flags| == n && forall a | 0 <= a < n :: flags[a] == NO_FLAGS
  {
    seq(n, _ => NO_FLAGS)
  }

  // With no condition met, no flag is written but with false.
  lemma UnmetFlag(db: Database, met: seq<bool>, a: nat, g: nat)
    requires db.WellFormed() && |met| == |db.conditions| && forall c | 0 <= c < |met| :: !met[c]
    ensures !IntegratorFlag(db, met, |met|, 0, a, g, false)
  {
    if SomeWriter(db, met, |met|, 0, a, g) {
      var d, i := LastWriterExists(db, met, |met|, 0, a, g);
      LastWriterDecides(db, met, |met|, 0, a, g, false, d, i);
    } else {
      NoWriterKeeps(db, met, |met|, 0, a, g, false);
    }
  }

  // A cycle without a condition met ignores the evaluated devices of inactive cards only.
  lemma NothingMet(e: Engine, snap: Snapshot)
    requires e.Wired() && Fits(e.db, snap) && e.InputsDecided(snap, NoFlags(|e.analogDevices|))
    requires forall c | c in e.conditions :: !c.state
    requires forall a | 0 <= a < |e.analogDevices| && !e.db.analogDevices[a].Evaluated() :: !snap.analog[a].heldIgnored
    ensures forall a | 0 <= a < |e.analogDevices| ::
      && e.analogDevices[a].ignoredIntegrator == NO_FLAGS
      && e.analogDevices[a].ignored == (e.db.analogDevices[a].Evaluated() && !snap.analog[a].active)
  {
    hide ConditionMet, IntegratorFlag, Engine.FaultsEvaluated, Engine.StatesDecided, Engine.DigitalValuesAgree;
    var met := Conditions(e.db, snap);
    assert forall c | 0 <= c < |met| :: met[c] == e.conditions[c].state;
    forall a | 0 <= a < |e.analogDevices|
      ensures e.analogDevices[a].ignoredIntegrator == NO_FLAGS
      ensures e.analogDevices[a].ignored == (e.db.analogDevices[a].Evaluated() && !snap.analog[a].active)
    {
      forall g: nat | g < 4 ensures !e.analogDevices[a].ignoredIntegrator[g] {
        UnmetFlag(e.db, met, a, g);
      }
    }
  }

  lemma HeldNotIgnored(e: Engine, snap: Snapshot)
    requires e.Wired() && Fits(e.db, snap) && forall a | 0 <= a < |e.analogDevices| :: e.AnalogHeld(a, snap)
    requires forall v | v in e.analogDevices :: !v.ignored
    ensures forall a | 0 <= a < |e.analogDevices| && !e.db.analogDevices[a].Evaluated() :: !snap.analog[a].heldIgnored
  {
    forall a | 0 <= a < |e.analogDevices| && !e.db.analogDevices[a].Evaluated() ensures !snap.analog[a].heldIgnored {
      assert e.AnalogHeld(a, snap);
    }
  }

  // The first cycle: without a reload it met no condition.
  method FirstCycle(node: CentralNode, ghost snap: Snapshot, ghost starts: seq<int>)
    returns (result: nat, ghost numbers: seq<nat>)
    requires node.Wired() && node.engine.Wired() && Fits(node.engine.db, snap) && node.engine.Agrees(snap)
    requires node.engine.HistoryAgrees(starts) && node.engine.FlagsAre(NoFlags(|node.engine.analogDevices|))
    requires forall c | c in node.engine.conditions :: !c.state
    requires forall v | v in node.engine.analogDevices :: !v.ignored
    modifies node.engine, node.engine.conditions, node.engine.destinations, node.engine.faults, node.engine.states
    modifies node.engine.digitalDevices`value, node.engine.digitalDevices`ignored
    modifies node.engine.analogDevices`ignored, node.engine.analogDevices`ignoredIntegrator
    ensures node.engine.Limited(snap, numbers) && node.engine.InputsDecided(snap, NoFlags(|node.engine.analogDevices|))
    ensures node.engine.HistoryAgrees(starts) && !node.engine.reloadInactive && node.ModesAre(snap)
    ensures node.engine.FourFlags()
    ensures result > 0 <==> old(node.engine.reloadInactive) || exists c :: c in node.engine.conditions && c.state
    ensures result == 0 ==> forall a | 0 <= a < |node.engine.analogDevices| ::
      && node.engine.analogDevices[a].ignoredIntegrator == NO_FLAGS
      && node.engine.analogDevices[a].ignored ==
           (node.engine.db.analogDevices[a].Evaluated() && !node.engine.analogDevices[a].modeActive)
  {
    hide Engine.Limited, Engine.HistoryAgrees, Engine.FlagsAre, Engine.InputsDecided, Engine.Wired, Fits;
    hide CentralNode.Wired;
    hide Engine.Agrees;
    var e := node.engine;
    node.AgreedModes(snap);
    HeldNotIgnored(e, snap);
    result, numbers := e.CheckFaults(snap, starts, NoFlags(|e.analogDevices|));
    node.DecidedFlags(snap, NoFlags(|e.analogDevices|));
    if result == 0 {
      NothingMet(e, snap);
    }
  }

  // ... and the rules the firmware was given are not among what it changed.
  method FirstCycleOnly(node: CentralNode, ghost snap: Snapshot, ghost starts: seq<int>) returns (result: nat)
    requires node.Wired() && node.engine.Wired() && Fits(node.engine.db, snap) && node.engine.Agrees(snap)
    requires node.engine.HistoryAgrees(starts) && node.engine.FlagsAre(NoFlags(|node.engine.analogDevices|))
    requires forall c | c in node.engine.conditions :: !c.state
    requires forall v | v in node.engine.analogDevices :: !v.ignored
    modifies node.engine, node.engine.conditions, node.engine.destinations, node.engine.faults, node.engine.states
    modifies node.engine.digitalDevices`value, node.engine.digitalDevices`ignored
    modifies node.engine.analogDevices`ignored, node.engine.analogDevices`ignoredIntegrator
    ensures node.ClassesLimited(snap) && node.FlagsSettled(snap, NoFlags(|node.engine.analogDevices|))
    ensures node.engine.HistoryAgrees(starts) && !node.engine.reloadInactive
    ensures node.FastRulesKept() && node.engine.FourFlags()
    ensures result > 0 <==> old(node.engine.reloadInactive) || exists c :: c in node.engine.conditions && c.state
    ensures result == 0 ==> forall a | 0 <= a < |node.engine.analogDevices| ::
      && node.engine.analogDevices[a].ignoredIntegrator == NO_FLAGS
      && node.engine.analogDevices[a].ignored ==
           (node.engine.db.analogDevices[a].Evaluated() && !node.engine.analogDevices[a].modeActive)
  {
    hide Engine.Limited, Engine.HistoryAgrees, Engine.FlagsAre, Engine.InputsDecided, Engine.Wired, Fits;
    hide CentralNode.Wired;
    hide Engine.Agrees, CentralNode.ModesAre;
    ghost var numbers;
    result, numbers := FirstCycle(node, snap, starts);
  }

  // The firmware limits nothing for this device: every integrator is bypassed or has no
  // destination.
  ghost predicate NoRules(device: AnalogDevice)
    requires Ready(device)
    reads device`fastDestinationMask, device`fastPowerClass, device`fastPowerClassInit, device`ignoredIntegrator
    reads device.bypass`status
  {
    forall i | 0 <= i < device.channel.numIntegrators ::
      device.bypass[i].status == BypassValid || device.fastDestinationMask[i] * Sixteen() == {}
  }

  // No FAST device with rules was ignored on this card.
  ghost predicate RulesStand(card: ApplicationCard)
    requires AllReady(card.analogDevices)
    reads card.analogDevices`ignored, card.analogDevices`fastDestinationMask, card.analogDevices`fastPowerClass
    reads card.analogDevices`fastPowerClassInit, card.analogDevices`ignoredIntegrator
    reads (set a, i | 0 <= a < |card.analogDevices| && 0 <= i < |card.analogDevices[a].bypass| ::
             card.analogDevices[a].bypass[i])`status
  {
    !card.isDigital && card.isAnalog ==>
      forall a | 0 <= a < |card.analogDevices| && card.analogDevices[a].evaluation == FastEvaluation ::
        !card.analogDevices[a].ignored || NoRules(card.analogDevices[a])
  }

  // Nothing is ignored on the card ...
  ghost predicate NothingIgnored(devices: seq<AnalogDevice>)
    reads devices`ignored, devices`ignoredIntegrator
  {
    forall v | v in devices :: !v.ignored && v.ignoredIntegrator == NO_FLAGS
  }

  // ... and after a cycle that changed only the ignored flags, an image written then is
  // still exact if and only if no device with rules is ignored.
  twostate lemma ImageStands(node: CentralNode, new c: nat)
    requires node.Wired() && node.FastRulesKept() && c < |node.cards|
    requires old(node.CardImage(node.cards[c])) && old(NothingIgnored(node.cards[c].analogDevices))
    requires old(AllReady(node.cards[c].analogDevices)) && AllReady(node.cards[c].analogDevices)
    requires node.cards[c].applicationConfigBuffer[..] == old(node.cards[c].applicationConfigBuffer[..])
    requires forall v | v in node.cards[c].analogDevices :: v.ignoredIntegrator == NO_FLAGS
    ensures node.CardImage(node.cards[c]) <==> RulesStand(node.cards[c])
  {
    hide CentralNode.Wired, NoRules;
    var card := node.cards[c];
    node.CardParts(c);
    if card.isDigital {
      hide DigitalImage;
      DigitalImageKept(card.applicationConfigBuffer[..], card.digitalDevices);
    } else if card.isAnalog {
      hide AnalogImage, MaskInForce;
      ImageFollowsMasks(card.applicationConfigBuffer[..], card.analogDevices);
      forall a | 0 <= a < |card.analogDevices| && card.analogDevices[a].evaluation == FastEvaluation
        ensures (!card.analogDevices[a].ignored || NoRules(card.analogDevices[a])) <==>
          forall i | 0 <= i < card.analogDevices[a].channel.numIntegrators ::
            MaskInForce(card.analogDevices[a], i) == old(MaskInForce(card.analogDevices[a], i))
      {
        MasksStand(card.analogDevices[a]);
      }
    }
  }

  twostate lemma MasksStand(device: AnalogDevice)
    requires Ready(device) && old(Ready(device)) && device.fastDestinationMask == old(device.fastDestinationMask)
    requires forall b | b in device.bypass :: b.status == old(b.status)
    requires !old(device.ignored) && old(device.ignoredIntegrator) == NO_FLAGS && device.ignoredIntegrator == NO_FLAGS
    ensures (!device.ignored || NoRules(device)) <==>
      forall i | 0 <= i < device.channel.numIntegrators :: MaskInForce(device, i) == old(MaskInForce(device, i))
  {
    hide Sixteen;
    forall i | 0 <= i < device.channel.numIntegrators
      ensures MaskInForce(device, i) == old(MaskInForce(device, i)) <==>
        !device.ignored || device.bypass[i].status == BypassValid || device.fastDestinationMask[i] * Sixteen() == {}
    {
      assert device.bypass[i] in device.bypass;
    }
  }

  // The last step of loadConfig
  method Load(node: CentralNode)
    requires node.Wired() && forall c | 0 <= c < |node.cards| :: AllReady(node.cards[c].analogDevices)
    modifies node.Buffers(), node.firmware
    ensures forall c | 0 <= c < |node.cards| :: node.CardImage(node.cards[c])
    ensures forall c | 0 <= c < |node.cards| && node.HasDevices(node.cards[c]) :: node.Enabled(c)
  {
    hide CentralNode.CardImage, AllReady;
    node.WriteFirmwareConfiguration(true);
    assert forall c | 0 <= c < |node.cards| && node.HasDevices(node.cards[c]) ::
      node.Equipped(|node.cards|, node.cards[c].globalId);
  }

  // What the first update leaves as it is
  ghost predicate Unevaluated(node: CentralNode, starts: seq<int>)
    reads node.manager`queue, node.manager.bypasses, node.manager.masks
    reads node.engine`history, node.engine.faults`worstState, node.engine.conditions`state
    reads node.engine.analogDevices`ignored, node.engine.analogDevices`ignoredIntegrator
  {
    && node.manager.Valid() && node.engine.HistoryAgrees(starts) && NothingIgnored(node.engine.analogDevices)
    && forall k | k in node.engine.conditions :: !k.state
  }

  // The first update keeps the images.
  method FirstUpdate(node: CentralNode, statuses: seq<CardStatus>, timeoutStatus: seq<bool>, ghost starts: seq<int>)
    requires |statuses| == |timeoutStatus| == |node.cards| && forall s | s in statuses :: s.Sized()
    requires node.Wired() && Unevaluated(node, starts)
    requires forall c | 0 <= c < |node.cards| :: AllReady(node.cards[c].analogDevices) && node.CardImage(node.cards[c])
    modifies node.engine`reloadInactive, node.cards`online, node.cards`active
    modifies node.DigitalDevices()`faultedOffline, node.DigitalDevices()`modeActive, node.Inputs()
    modifies node.AnalogDevices()`value, node.AnalogDevices()`previousValue
    modifies node.AnalogDevices()`latchedValue
    modifies node.AnalogDevices()`faultedOffline, node.AnalogDevices()`modeActive
    ensures Unevaluated(node, starts)
    ensures forall c | 0 <= c < |node.cards| ::
      AllReady(node.cards[c].analogDevices) && node.CardImage(node.cards[c]) && node.CardMode(node.cards[c])
    ensures forall c | 0 <= c < |node.cards| :: node.cards[c].active == old(node.Enabled(c))
    ensures node.engine.reloadInactive <==>
      || old(node.engine.reloadInactive)
      || exists c :: 0 <= c < |node.cards| && old(node.Enabled(c) != node.cards[c].active)
  {
    hide CentralNode.Wired, CentralNode.CardImage, AllReady, CentralNode.NotSampled, CentralNode.CardSampled;
    hide CentralNode.CardMode, CentralNode.Flagged, Unevaluated;
    ghost var was := node.TakeSamples();
    node.UpdateInputs(statuses, timeoutStatus, was);
  }

  // The first cycle, and the reload it asks for.  Without one the images stay exact if and
  // only if no device with rules was ignored.
  method EvaluateFirst(node: CentralNode, ghost starts: seq<int>) returns (reload: bool, ghost after: Snapshot)
    requires node.Wired() && node.engine.Wired() && node.engine.HistoryAgrees(starts)
    requires NothingIgnored(node.engine.analogDevices) && forall k | k in node.engine.conditions :: !k.state
    requires forall c | 0 <= c < |node.cards| ::
      AllReady(node.cards[c].analogDevices) && node.CardImage(node.cards[c])
    modifies node.engine, node.engine.conditions, node.engine.destinations, node.engine.faults, node.engine.states
    modifies node.engine.digitalDevices`value, node.engine.digitalDevices`ignored
    modifies node.engine.analogDevices`ignored, node.engine.analogDevices`ignoredIntegrator, node.Buffers()
    ensures node.ClassesLimited(after) && node.FlagsSettled(after, NoFlags(|node.engine.analogDevices|))
    ensures node.engine.HistoryAgrees(starts)
    ensures reload <==> old(node.engine.reloadInactive) || exists k :: k in node.engine.conditions && k.state
    ensures !reload ==> forall a | 0 <= a < |node.engine.analogDevices| ::
      node.engine.analogDevices[a].ignored ==
        (node.engine.db.analogDevices[a].Evaluated() && !node.engine.analogDevices[a].modeActive)
    ensures forall c | 0 <= c < |node.cards| ::
      AllReady(node.cards[c].analogDevices) && (node.CardImage(node.cards[c]) <==> reload || RulesStand(node.cards[c]))
  {
    hide CentralNode.CardImage, RulesStand, CentralNode.Wired, AllReady, Engine.Wired, Engine.HistoryAgrees;
    hide CentralNode.FlagsSettled, CentralNode.ClassesLimited;
    after := SnapshotExists(node.engine);
    label Loaded:
    var result := FirstCycleOnly(node, after, starts);
    node.StillReady@Loaded();
    reload := result > 0;
    if reload {
      node.WriteFirmwareConfiguration(false);
    } else {
      forall c | 0 <= c < |node.cards| ensures node.CardImage(node.cards[c]) <==> RulesStand(node.cards[c]) {
        node.CardParts(c);
        assert forall v | v in node.engine.analogDevices :: v.ignoredIntegrator == NO_FLAGS;
        ImageStands@Loaded(node, c);
      }
    }
  }

  lemma ConfiguredParts(node: CentralNode)
    requires node.Configured()
    ensures node.Wired() && node.engine.Wired()
  {
  }

  lemma LoadedHistory(e: Engine, starts: seq<int>)
    requires Fresh(e) && |starts| == |e.faults| && forall f | 0 <= f < |starts| :: e.faults[f].worstState == starts[f]
    ensures e.HistoryAgrees(starts) && NothingIgnored(e.analogDevices) && !e.reloadInactive
    ensures forall k | k in e.conditions :: !k.state
  {
  }

  lemma SettledWhen(node: CentralNode, after: Snapshot, flags: seq<seq<bool>>, starts: seq<int>)
    requires node.Configured() && node.manager.Valid() && node.FlagsSettled(after, flags)
    requires node.engine.HistoryAgrees(starts)
    requires forall c | 0 <= c < |node.cards| :: AllReady(node.cards[c].analogDevices) && node.CardMode(node.cards[c])
    ensures node.Settled(after, flags, starts) <==>
      node.manager.refreshFirmwareConfiguration || forall c | 0 <= c < |node.cards| :: node.CardImage(node.cards[c])
  {
  }

  // The first cycle establishes what every later step keeps if and only if it asked for a
  // reload, or no device with rules was ignored.
  method SettleFirst(node: CentralNode, ghost starts: seq<int>) returns (reload: bool, ghost after: Snapshot)
    requires node.Configured() && Unevaluated(node, starts)
    requires forall c | 0 <= c < |node.cards| ::
      AllReady(node.cards[c].analogDevices) && node.CardImage(node.cards[c]) && node.CardMode(node.cards[c])
    modifies node.engine, node.engine.conditions, node.engine.destinations, node.engine.faults, node.engine.states
    modifies node.engine.digitalDevices`value, node.engine.digitalDevices`ignored
    modifies node.engine.analogDevices`ignored, node.engine.analogDevices`ignoredIntegrator, node.Buffers()
    ensures node.ClassesLimited(after)
    ensures forall c | 0 <= c < |node.cards| :: AllReady(node.cards[c].analogDevices) && node.CardMode(node.cards[c])
    ensures reload <==> old(node.engine.reloadInactive) || exists k :: k in node.engine.conditions && k.state
    ensures !reload ==> forall a | 0 <= a < |node.engine.analogDevices| ::
      node.engine.analogDevices[a].ignored ==
        (node.engine.db.analogDevices[a].Evaluated() && !node.engine.analogDevices[a].modeActive)
    ensures forall c | 0 <= c < |node.cards| :: node.CardImage(node.cards[c]) <==> reload || RulesStand(node.cards[c])
    ensures node.Settled(after, NoFlags(|node.engine.analogDevices|), starts) <==>
      reload || node.manager.refreshFirmwareConfiguration
      || forall c | 0 <= c < |node.cards| :: RulesStand(node.cards[c])
  {
    hide CentralNode.CardImage, CentralNode.CardMode, RulesStand, CentralNode.Wired, BypassManager.Valid, AllReady;
    hide Engine.Wired, Engine.HistoryAgrees, CentralNode.Configured, CentralNode.Settled;
    hide CentralNode.FlagsSettled, CentralNode.ClassesLimited, NothingIgnored;
    ConfiguredParts(node);
    reload, after := EvaluateFirst(node, starts);
    SettledWhen(node, after, NoFlags(|node.engine.analogDevices|), starts);
  }

  lemma LoadedUnevaluated(node: CentralNode, starts: seq<int>)
    requires node.manager.Valid() && Fresh(node.engine) && |starts| == |node.engine.faults|
    requires forall f | 0 <= f < |starts| :: node.engine.faults[f].worstState == starts[f]
    ensures Unevaluated(node, starts) && !node.engine.reloadInactive
  {
    hide BypassManager.Valid;
    LoadedHistory(node.engine, starts);
  }

  // The first update and cycle, whatever cards are enabled
  method RoundAfterLoad(node: CentralNode, statuses: seq<CardStatus>, timeoutStatus: seq<bool>, ghost starts: seq<int>)
    returns (reload: bool, ghost after: Snapshot)
    requires |statuses| == |timeoutStatus| == |node.cards| && forall s | s in statuses :: s.Sized()
    requires node.Configured() && Unevaluated(node, starts) && !node.engine.reloadInactive
    requires forall c | 0 <= c < |node.cards| :: AllReady(node.cards[c].analogDevices) && node.CardImage(node.cards[c])
    modifies node.engine, node.engine.conditions, node.engine.destinations, node.engine.faults, node.engine.states
    modifies node.engine.digitalDevices`value, node.engine.digitalDevices`ignored, node.Buffers()
    modifies node.engine.analogDevices`ignored, node.engine.analogDevices`ignoredIntegrator
    modifies node.cards`online, node.cards`active, node.Inputs()
    modifies node.DigitalDevices()`faultedOffline, node.DigitalDevices()`modeActive
    modifies node.AnalogDevices()`value, node.AnalogDevices()`previousValue
    modifies node.AnalogDevices()`latchedValue
    modifies node.AnalogDevices()`faultedOffline, node.AnalogDevices()`modeActive
    ensures node.ClassesLimited(after)
    ensures reload <==>
      || (exists c :: 0 <= c < |node.cards| && old(node.Enabled(c) != node.cards[c].active))
      || exists k :: k in node.engine.conditions && k.state
    ensures forall c | 0 <= c < |node.cards| ::
      && AllReady(node.cards[c].analogDevices) && node.CardMode(node.cards[c])
      && node.cards[c].active == old(node.Enabled(c))
    ensures !reload ==> forall a | 0 <= a < |node.engine.analogDevices| ::
      node.engine.analogDevices[a].ignored ==
        (node.engine.db.analogDevices[a].Evaluated() && !node.engine.analogDevices[a].modeActive)
    ensures forall c | 0 <= c < |node.cards| :: node.CardImage(node.cards[c]) <==> reload || RulesStand(node.cards[c])
    ensures node.Settled(after, NoFlags(|node.engine.analogDevices|), starts) <==>
      reload || node.manager.refreshFirmwareConfiguration
      || forall c | 0 <= c < |node.cards| :: RulesStand(node.cards[c])
  {
    hide CentralNode.CardImage, CentralNode.CardMode, RulesStand, CentralNode.Wired, AllReady;
    hide Engine.Wired, CentralNode.Configured, CentralNode.Settled;
    hide CentralNode.FlagsSettled, CentralNode.ClassesLimited, Unevaluated;
    hide CentralNode.Buffers, CentralNode.DigitalDevices, CentralNode.AnalogDevices, CentralNode.Inputs, NoFlags;
    ConfiguredParts(node);
    FirstUpdate(node, statuses, timeoutStatus, starts);
    reload, after := SettleFirst(node, starts);
  }

  // Where all cards are active nothing is ignored.
  lemma ActiveStands(node: CentralNode, c: nat)
    requires node.Wired() && node.engine.Wired() && c < |node.cards| && AllReady(node.cards[c].analogDevices)
    requires node.HasDevices(node.cards[c]) ==> node.cards[c].active
    requires node.CardMode(node.cards[c])
    requires forall a | 0 <= a < |node.engine.analogDevices| ::
      node.engine.analogDevices[a].ignored ==
        (node.engine.db.analogDevices[a].Evaluated() && !node.engine.analogDevices[a].modeActive)
    ensures RulesStand(node.cards[c])
  {
    hide CentralNode.Wired, NoRules;
    node.CardParts(c);
    forall v | v in node.cards[c].analogDevices && !node.cards[c].isDigital && node.cards[c].isAnalog
      ensures !v.ignored
    {
      assert node.engine.analogDevices[v.id] == v;
    }
  }

  // The first round, from loading on, establishes what every later step keeps: the load
  // enables every card that has devices, so the first update finds them active.
  method FirstRound(node: CentralNode, statuses: seq<CardStatus>, timeoutStatus: seq<bool>, ghost starts: seq<int>)
    returns (reload: bool, ghost after: Snapshot)
    requires |statuses| == |timeoutStatus| == |node.cards| && forall s | s in statuses :: s.Sized()
    requires node.Configured() && node.manager.Valid() && Fresh(node.engine)
    requires forall c | 0 <= c < |node.cards| :: AllReady(node.cards[c].analogDevices)
    requires |starts| == |node.engine.faults|
    requires forall f | 0 <= f < |starts| :: node.engine.faults[f].worstState == starts[f]
    modifies node.engine, node.engine.conditions, node.engine.destinations, node.engine.faults, node.engine.states
    modifies node.engine.digitalDevices, node.engine.analogDevices, node.Buffers(), node.cards
    modifies node.DigitalDevices(), node.AnalogDevices(), node.Inputs(), node.firmware
    ensures node.Settled(after, NoFlags(|node.engine.analogDevices|), starts) && node.ClassesLimited(after)
    ensures forall c | 0 <= c < |node.cards| && node.HasDevices(node.cards[c]) :: node.cards[c].active
  {
    hide CentralNode.CardImage, CentralNode.CardMode, RulesStand, CentralNode.Wired, BypassManager.Valid, AllReady;
    hide Engine.Wired, CentralNode.Configured, CentralNode.Settled, CentralNode.ClassesLimited, Fresh, Unevaluated;
    hide CentralNode.Buffers, CentralNode.DigitalDevices, CentralNode.AnalogDevices, CentralNode.Inputs, NoFlags;
    ConfiguredParts(node);
    Load(node);
    LoadedUnevaluated(node, starts);
    reload, after := RoundAfterLoad(node, statuses, timeoutStatus, starts);
    forall c | 0 <= c < |node.cards| && !reload ensures RulesStand(node.cards[c]) {
      ActiveStands(node, c);
    }
  }

  // So from loading on, whatever steps follow, a refresh is pending or the images are exact,
  // and the classes allowed are the least limits of the last cycle.
  method Operate(node: CentralNode, statuses: seq<CardStatus>, timeoutStatus: seq<bool>, steps: seq<Step>,
                 ghost starts: seq<int>)
    returns (ghost after: Snapshot, ghost flags: seq<seq<bool>>)
    requires |statuses| == |timeoutStatus| == |node.cards| && forall s | s in statuses :: s.Sized()
    requires node.Configured() && node.manager.Valid() && Fresh(node.engine)
    requires forall c | 0 <= c < |node.cards| :: AllReady(node.cards[c].analogDevices)
    requires |starts| == |node.engine.faults|
    requires forall f | 0 <= f < |starts| :: node.engine.faults[f].worstState == starts[f]
    requires forall step | step in steps :: node.Possible(step)
    modifies node.manager, node.manager.masks, node.manager.bypasses, node.firmware, node.deviceInputs
    modifies node.engine, node.engine.conditions, node.engine.destinations, node.engine.faults, node.engine.states
    modifies node.engine.digitalDevices, node.engine.analogDevices, node.Buffers(), node.cards
    modifies node.DigitalDevices(), node.AnalogDevices(), node.Inputs()
    ensures node.Settled(after, flags, starts) && node.ClassesLimited(after)
    ensures node.manager.refreshFirmwareConfiguration ||
      forall c | 0 <= c < |node.cards| :: node.CardImage(node.cards[c])
    ensures steps != [] && steps[|steps| - 1].BypassStep? ==>
      forall c | 0 <= c < |node.cards| :: node.CardImage(node.cards[c])
  {
    hide CentralNode.CardImage, CentralNode.Wired, BypassManager.Valid, AllReady, CentralNode.Configured;
    hide CentralNode.Settled, CentralNode.ClassesLimited, Fresh, CentralNode.Possible;
    var reload;
    reload, after := FirstRound(node, statuses, timeoutStatus, starts);
    flags := NoFlags(|node.engine.analogDevices|);
    after, flags := node.TakeSteps(steps, after, flags, starts);
    node.ImagesExact(after, flags, starts);
  }

  // ---- A card disabled before the first update ----

  // One FAST analog device, evaluated, and nothing else
  function OneDevice(): Database {
    Database(BeamClass(1, 5), BeamClass(0, 0), [], [DeviceRow(1, FastEvaluation, [])], [], [], [])
  }

  // The device, with a rule for destination 0, belongs to the manager.
  ghost predicate Bypassable(manager: BypassManager, device: AnalogDevice)
    reads device, device.bypass
  {
    && device.id == 0 && device.evaluation == FastEvaluation && device.channel == AnalogChannel(0, 1, 1)
    && Ready(device) && device.fastDestinationMask[0] == {0}
    && !device.ignored && device.ignoredIntegrator == NO_FLAGS
    && forall i | 0 <= i < 4 ::
         && device.bypass[i] in manager.bypasses && device.bypass[i].mask == device.bypassMask
         && device.bypass[i].index == i && device.bypass[i].configUpdate && device.bypass[i].status == BypassExpired
  }

  method NewDevice() returns (manager: BypassManager, device: AnalogDevice)
    ensures fresh(manager) && fresh(device) && Bypassable(manager, device)
    ensures manager.Valid() && manager.Directory() && !manager.refreshFirmwareConfiguration
  {
    hide BypassManager.Valid;
    var row := Bypassed(0, true);
    var masks;
    manager, masks := CreateBypassMap([], [row]);
    assert [row][0].id == 0;
    var four := manager.analog[0];
    assert FourBypasses(four, row, masks[0]);
    device := new AnalogDevice(0, FastEvaluation, AnalogChannel(0, 1, 1), four, masks[0]);
    device.fastDestinationMask := device.fastDestinationMask[0 := {0}];
  }

  // Its node, with a card taken to be inactive
  ghost predicate OneCard(node: CentralNode, device: AnalogDevice)
    reads node.cards`active
  {
    && node.engine.db == OneDevice() && node.engine.digitalDevices == [] && node.engine.analogDevices == [device]
    && node.engine.faults == [] && node.engine.conditions == [] && node.engine.destinations == []
    && node.deviceInputs == [] && |node.cards| == 1
    && var card := node.cards[0];
       && card.digitalDevices == [] && card.analogDevices == [device] && !card.isDigital && card.isAnalog
       && card.applicationConfigBuffer.Length == CONFIG_BITS && card.globalId == 0 && !card.active
  }

  lemma OneCardConfigured(node: CentralNode, device: AnalogDevice)
    requires OneCard(node, device) && Bypassable(node.manager, device) && node.manager.Directory()
    ensures node.Configured()
  {
    hide BypassManager.Directory;
    assert node.CardWired(0);
  }

  lemma OneCardDevices(node: CentralNode, device: AnalogDevice)
    requires OneCard(node, device)
    ensures node.DigitalDevices() == {} && node.Inputs() == {} && node.AnalogDevices() == {device}
  {
    assert device in node.cards[0].analogDevices;
  }

  method NewCard() returns (node: CentralNode, device: AnalogDevice)
    ensures fresh(node.engine) && fresh(device) && fresh(node.cards[..]) && fresh(node.Buffers())
    ensures fresh(node.firmware)
    ensures node.engine.states == {}
    ensures OneCard(node, device) && Bypassable(node.manager, device) && Fresh(node.engine)
    ensures node.manager.Valid() && node.manager.Directory() && !node.manager.refreshFirmwareConfiguration
  {
    hide BypassManager.Valid, BypassManager.Directory;
    var manager;
    manager, device := NewDevice();
    var buffer := new bool[CONFIG_BITS];
    var card := new ApplicationCard(0, [], [device], false, true, buffer);
    card.active := false;
    var engine := new Engine(OneDevice(), [], [device], [], [], [], {});
    var firmware := new Firmware();
    node := new CentralNode(manager, engine, [card], [], map[], firmware);
  }

  ghost predicate RuleIn(device: AnalogDevice)
    reads device`fastDestinationMask, device.bypass`status
  {
    && device.evaluation == FastEvaluation && device.channel.numIntegrators == 1 && |device.bypass| == 4
    && |device.fastDestinationMask| == 4 && device.fastDestinationMask[0] == {0}
    && device.bypass[0].status == BypassExpired
  }

  // On a card that is not active the device is ignored, and its rule is not to stand.
  lemma RuleLeft(node: CentralNode, card: ApplicationCard, device: AnalogDevice)
    requires card.analogDevices == [device] && !card.isDigital && card.isAnalog
    requires AllReady(card.analogDevices) && RuleIn(device)
    requires node.CardMode(card) && !card.active && device.ignored == !device.modeActive
    ensures !RulesStand(card)
  {
    assert [device][0] == device && 0 in device.fastDestinationMask[0] * Sixteen();
    assert card.analogDevices[0].ignored && !NoRules(card.analogDevices[0]);
  }

  method LoadAndDisable() returns (node: CentralNode, device: AnalogDevice)
    ensures fresh(node.engine) && fresh(device) && fresh(node.cards[..]) && fresh(node.Buffers())
    ensures node.engine.states == {} && node.DigitalDevices() == {} && node.Inputs() == {}
    ensures node.AnalogDevices() == {device}
    ensures OneCard(node, device) && AllReady([device]) && RuleIn(device) && Unevaluated(node, [])
    ensures node.Configured() && !node.engine.reloadInactive && !node.manager.refreshFirmwareConfiguration
    ensures node.CardImage(node.cards[0]) && !node.Enabled(0)
  {
    hide CentralNode.Configured, CentralNode.CardImage, CentralNode.Wired, BypassManager.Valid, BypassManager.Directory;
    hide Fresh, Unevaluated, CentralNode.AnalogDevices, CentralNode.DigitalDevices, CentralNode.Inputs;
    node, device := NewCard();
    OneCardConfigured(node, device);
    OneCardDevices(node, device);
    ConfiguredParts(node);
    Load(node);
    node.firmware.SetAppTimeoutEnable(0, false);
    LoadedUnevaluated(node, []);
  }

  method EvaluateDisabled(status: CardStatus) returns (node: CentralNode, device: AnalogDevice)
    requires status.Sized()
    ensures node.Configured() && !node.manager.refreshFirmwareConfiguration
    ensures |node.cards| == 1 && node.cards[0].analogDevices == [device]
    ensures !node.cards[0].isDigital && node.cards[0].isAnalog
    ensures node.CardMode(node.cards[0]) && !node.cards[0].active && AllReady(node.cards[0].analogDevices)
    ensures device.ignored == !device.modeActive && RuleIn(device)
    ensures node.CardImage(node.cards[0]) <==> RulesStand(node.cards[0])
  {
    hide CentralNode.Configured, CentralNode.Settled, CentralNode.CardImage, CentralNode.FlagsSettled, Engine.Wired;
    hide CentralNode.ClassesLimited, CentralNode.Wired, BypassManager.Valid, BypassManager.Directory, AllReady;
    hide RulesStand, CentralNode.CardMode, NoFlags, Unevaluated, CentralNode.AnalogDevices;
    node, device := LoadAndDisable();
    var reload;
    ghost var after;
    reload, after := RoundAfterLoad(node, [status], [false], []);
    assert node.engine.analogDevices[0] == device;
  }

  // Nothing in the program disables a card.  If its caller does so between loading and the
  // first update, and the card was taken to be inactive, no reload is asked for: the device
  // is ignored, and its rule stays in the firmware.
  method StaleWhenDisabled(status: CardStatus) returns (node: CentralNode)
    requires status.Sized()
    ensures node.Configured() && |node.cards| == 1
    ensures !node.manager.refreshFirmwareConfiguration && !node.CardImage(node.cards[0])
  {
    hide CentralNode.Configured, CentralNode.CardImage, RulesStand, CentralNode.CardMode, RuleIn, AllReady;
    var device;
    node, device := EvaluateDisabled(status);
    RuleLeft(node, node.cards[0], device);
  }
}
