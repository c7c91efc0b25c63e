// What the firmware is given, field by field: the buffers of the cards and the rules compiled
// into FAST devices (src/central_node_inputs.cc, src/central_node_database.cc), in terms of bit
// positions and the rows of the configuration alone.
module FirmwareOutcome {
  import opened Words
  import opened Bypass
  import opened Layout
  import opened Tables
  import opened Devices
  import opened Compile
  import opened Cards
  import opened Reload
  import FirmwareRules

  // ---- The buffer of an analog card ----

  // The number held by four bits of a buffer, the lowest first
  predicate FourBits(buffer: seq<bool>, at: nat, number: nat) {
    && at + 4 <= |buffer|
    && number % 16 == (if buffer[at] then 1 else 0) + (if buffer[at + 1] then 2 else 0)
         + (if buffer[at + 2] then 4 else 0) + if buffer[at + 3] then 8 else 0
  }

  lemma ReadFour(buffer: seq<bool>, at: nat, number: nat)
    requires at + 4 <= |buffer| && ReadNibble(buffer, at) == number % 16
    ensures FourBits(buffer, at, number)
  {
  }

  predicate SixteenBits(buffer: seq<bool>, at: nat, mask: set<nat>) {
    at + 16 <= |buffer| && forall p | at <= p < at + 16 :: buffer[p] <==> p - at in mask
  }

  // The classes of integrator i of channel n start 32 bits after those of the channel before,
  // and 32 for each channel of the card after those of the integrator before.
  lemma AnalogClassWritten(buffer: seq<bool>, devices: seq<AnalogDevice>, a: nat, i: nat, j: nat)
    requires AnalogImage(buffer, devices) && SharedCard(devices) && a < |devices|
    requires devices[a].evaluation == FastEvaluation && i < devices[a].channel.numIntegrators && j < 8
    ensures
      var c := devices[a].channel;
      |buffer| == 2048 && FourBits(buffer, 32 * (i * c.numChannelsCard + c.number) + 4 * j,
                                   devices[a].fastPowerClass[8 * i + j])
  {
    hide AnalogImageBit, ReadNibble;
    AnalogClassRoundTrip(buffer, devices, a, i, j);
    ReadFour(buffer, 32 * devices[a].channel.Slot(i) + 4 * j, devices[a].fastPowerClass[8 * i + j]);
  }

  // The masks follow from bit 768 on, 16 bits each: a destination stands in the mask while the
  // integrator has no valid bypass and neither it nor its device is ignored.
  lemma AnalogMaskWritten(buffer: seq<bool>, devices: seq<AnalogDevice>, a: nat, i: nat)
    requires AnalogImage(buffer, devices) && SharedCard(devices) && a < |devices|
    requires devices[a].evaluation == FastEvaluation && i < devices[a].channel.numIntegrators
    ensures
      var v, c := devices[a], devices[a].channel;
      && |buffer| == 2048 && i < |v.fastDestinationMask| && i < |v.bypass| && i < |v.ignoredIntegrator|
      && SixteenBits(buffer, 768 + 16 * (i * c.numChannelsCard + c.number),
                     if v.bypass[i].status == BypassValid || v.ignoredIntegrator[i] || v.ignored then {}
                     else v.fastDestinationMask[i])
  {
    hide AnalogImageBit;
    var v, at := devices[a], 768 + 16 * devices[a].channel.Slot(i);
    SlotOwned(v.channel, i);
    forall p | at <= p < at + 16 ensures buffer[p] == MaskBit(v, i, p - at) {
      MaskBitRead(buffer, devices, a, i, p - at);
    }
  }

  // Bit p is one of those of integrator i of the channel.
  predicate OfIntegrator(c: AnalogChannel, i: nat, p: nat) {
    var slot := i * c.numChannelsCard + c.number;
    32 * slot <= p < 32 * slot + 32 || 768 + 16 * slot <= p < 768 + 16 * slot + 16
  }

  lemma OwnedOfIntegrator(c: AnalogChannel, p: nat)
    requires c.Fits()
    ensures OwnsBit(c, p) ==> exists i: nat :: i < c.numIntegrators && OfIntegrator(c, i, p)
  {
    if OwnsClassBit(c, p) {
      OwnedSlot(c, p / 32);
      assert OfIntegrator(c, c.Integrator(p / 32), p);
    }
    if OwnsMaskBit(c, p) {
      OwnedSlot(c, (p - 768) / 16);
      assert OfIntegrator(c, c.Integrator((p - 768) / 16), p);
    }
  }

  // Nothing else is written.
  lemma AnalogOtherBits(buffer: seq<bool>, devices: seq<AnalogDevice>, p: nat)
    requires AnalogImage(buffer, devices) && p < |buffer|
    requires forall a, i: nat |
        0 <= a < |devices| && devices[a].evaluation == FastEvaluation && i < devices[a].channel.numIntegrators ::
        !OfIntegrator(devices[a].channel, i, p)
    ensures !buffer[p]
  {
    hide AnalogImageBit;
    forall a | 0 <= a < |devices| && devices[a].evaluation == FastEvaluation
      ensures !OwnsBit(devices[a].channel, p)
    {
      assert Ready(devices[a]);
      OwnedOfIntegrator(devices[a].channel, p);
    }
    AnalogRestIsZero(buffer, devices, p);
  }

  // ---- The buffer of a digital card ----

  // A record of 21 bits for each channel: four of the class, sixteen of the mask, without
  // destinations while the input has a valid bypass, and the expected state.
  lemma DigitalRecordWritten(buffer: seq<bool>, devices: seq<DigitalDevice>, d: nat)
    requires DigitalImage(buffer, devices) && SeparateRecords(devices) && d < |devices|
    requires devices[d].evaluation == FastEvaluation && |devices[d].inputDevices| == 1
    ensures
      var v, input := devices[d], devices[d].inputDevices[0];
      var at := 21 * input.channel;
      && at + 21 <= |buffer| == 2048 && FourBits(buffer, at, v.fastPowerClass)
      && SixteenBits(buffer, at + 4, if input.bypass.status == BypassValid then {} else v.fastDestinationMask)
      && buffer[at + 20] == v.fastExpectedState
  {
    hide DigitalImageBit, ReadNibble, NibbleBit, FourBits;
    assert HasRecord(devices[d]);
    var at := 21 * devices[d].inputDevices[0].channel;
    DigitalRoundTrip(buffer, devices, d);
    ReadFour(buffer, at, devices[d].fastPowerClass);
    forall p | at + 4 <= p < at + 20 ensures buffer[p] == DigitalBit(devices[d], p - at) {
      RecordBitRead(buffer, devices, d, p - at);
    }
  }

  lemma DigitalOtherBits(buffer: seq<bool>, devices: seq<DigitalDevice>, p: nat)
    requires DigitalImage(buffer, devices) && p < |buffer|
    requires forall d |
        0 <= d < |devices| && devices[d].evaluation == FastEvaluation && |devices[d].inputDevices| == 1 ::
        var at := 21 * devices[d].inputDevices[0].channel;
        !(at <= p < at + 21)
    ensures !buffer[p]
  {
    hide DigitalImageBit;
    assert forall channel: nat | p / 21 == channel :: 21 * channel <= p < 21 * channel + 21;
    DigitalRestIsZero(buffer, devices, p);
  }

  // ---- All cards ----

  // The classes and the mask of one integrator
  ghost predicate IntegratorStored(buffer: seq<bool>, v: AnalogDevice, i: nat)
    requires i < |v.fastDestinationMask| == |v.bypass| == |v.ignoredIntegrator| == 4 && |v.fastPowerClass| == 32
    reads v`fastDestinationMask, v`fastPowerClass, v`ignored, v`ignoredIntegrator, v.bypass`status
  {
    var slot := i * v.channel.numChannelsCard + v.channel.number;
    && (forall t | 8 * i <= t < 8 * i + 8 :: FourBits(buffer, 32 * slot + 4 * (t - 8 * i), v.fastPowerClass[t]))
    && SixteenBits(buffer, 768 + 16 * slot,
                   if v.bypass[i].status == BypassValid || v.ignoredIntegrator[i] || v.ignored then {}
                   else v.fastDestinationMask[i])
  }

  ghost predicate AnalogStored(buffer: seq<bool>, v: AnalogDevice)
    reads v`fastDestinationMask, v`fastPowerClass, v`ignored, v`ignoredIntegrator, v.bypass`status
  {
    && |v.fastPowerClass| == 32 && |v.fastDestinationMask| == |v.bypass| == |v.ignoredIntegrator| == 4
    && v.channel.numIntegrators <= 4
    && forall i: nat | i < v.channel.numIntegrators :: IntegratorStored(buffer, v, i)
  }

  ghost predicate DigitalStored(buffer: seq<bool>, v: DigitalDevice)
    requires |v.inputDevices| == 1
    reads v`fastDestinationMask, v`fastPowerClass, v`fastExpectedState, v.inputDevices[0].bypass`status
  {
    var input := v.inputDevices[0];
    var at := 21 * input.channel;
    && at + 21 <= |buffer| && FourBits(buffer, at, v.fastPowerClass)
    && SixteenBits(buffer, at + 4, if input.bypass.status == BypassValid then {} else v.fastDestinationMask)
    && buffer[at + 20] == v.fastExpectedState
  }

  // An exact image has the rules of every FAST device of the card.
  lemma CardHolds(node: CentralNode, c: nat)
    requires node.Wired() && c < |node.cards| && node.CardImage(node.cards[c])
    requires AllReady(node.cards[c].analogDevices)
    ensures
      var card := node.cards[c];
      && (card.isAnalog ==> forall v | v in card.analogDevices && v.evaluation == FastEvaluation ::
            AnalogStored(card.applicationConfigBuffer[..], v))
      && (card.isDigital ==> forall v | v in card.digitalDevices && v.evaluation == FastEvaluation ::
            |v.inputDevices| == 1 && DigitalStored(card.applicationConfigBuffer[..], v))
  {
    hide AnalogImage, DigitalImage, FourBits, SixteenBits, CentralNode.Wired;
    node.CardParts(c);
    var card, buffer := node.cards[c], node.cards[c].applicationConfigBuffer[..];
    if card.isAnalog {
      forall v | v in card.analogDevices && v.evaluation == FastEvaluation ensures AnalogStored(buffer, v) {
        var a :| 0 <= a < |card.analogDevices| && card.analogDevices[a] == v;
        AnalogDeviceStored(buffer, card.analogDevices, a);
      }
    }
    if card.isDigital {
      forall v | v in card.digitalDevices && v.evaluation == FastEvaluation
        ensures |v.inputDevices| == 1 && DigitalStored(buffer, v)
      {
        var d :| 0 <= d < |card.digitalDevices| && card.digitalDevices[d] == v;
        DigitalRecordWritten(buffer, card.digitalDevices, d);
      }
    }
  }

  lemma AnalogDeviceStored(buffer: seq<bool>, devices: seq<AnalogDevice>, a: nat)
    requires AnalogImage(buffer, devices) && SharedCard(devices) && a < |devices| && Ready(devices[a])
    requires devices[a].evaluation == FastEvaluation
    ensures AnalogStored(buffer, devices[a])
  {
    hide AnalogImage, FourBits, SixteenBits, SharedCard;
    var v := devices[a];
    forall i: nat | i < v.channel.numIntegrators ensures IntegratorStored(buffer, v, i) {
      var slot := i * v.channel.numChannelsCard + v.channel.number;
      AnalogMaskWritten(buffer, devices, a, i);
      forall t | 8 * i <= t < 8 * i + 8 ensures FourBits(buffer, 32 * slot + 4 * (t - 8 * i), v.fastPowerClass[t]) {
        AnalogClassWritten(buffer, devices, a, i, t - 8 * i);
        assert 8 * i + (t - 8 * i) == t;
      }
    }
  }

  // ---- Rules compiled into an analog device ----

  // AllowedClass k of state s of the fault of fault input m, which names the device
  ghost predicate Listed(config: Configuration, v: Device, m: nat, s: nat, k: nat)
    requires config.Wired()
  {
    && m < |config.inputs| && config.inputs[m].device == v
    && s < |config.db.faults[config.inputs[m].fault].states|
    && k < |config.db.faults[config.inputs[m].fault].states[s].allowedClasses|
  }

  ghost function StateAt(config: Configuration, m: nat, s: nat): FaultStateRow
    requires config.Wired() && m < |config.inputs| && s < |config.db.faults[config.inputs[m].fault].states|
  {
    config.db.faults[config.inputs[m].fault].states[s]
  }

  // The highest one bit lies in byte g, and the lowest one bit is t.
  predicate HighestIn(value: Word, g: nat) {
    (exists b :: b in value && b / 8 == g) && forall b | b in value :: b / 8 <= g
  }

  predicate LowestAt(value: Word, t: nat) {
    t in value && forall b | b in value :: t <= b
  }

  // No state of a fault that the device feeds has value zero.
  ghost predicate NoZeroStates(config: Configuration, a: nat)
    requires config.Wired()
  {
    forall m, s |
      0 <= m < |config.inputs| && config.inputs[m].device == AnalogAt(a)
      && 0 <= s < |config.db.faults[config.inputs[m].fault].states| ::
      config.db.faults[config.inputs[m].fault].states[s].deviceState.value != {}
  }

  // Destination bit b is in the mask of integrator g exactly when a listed rule of that
  // integrator has it.
  ghost predicate MaskGiven(config: Configuration, a: nat, g: nat, b: nat)
    requires config.Wired() && a < |config.analogDevices|
    reads config.analogDevices`fastDestinationMask
  {
    && g < |config.analogDevices[a].fastDestinationMask|
    && (b in config.analogDevices[a].fastDestinationMask[g] <==>
          exists m: nat, s: nat, k: nat :: Listed(config, AnalogAt(a), m, s, k)
            && HighestIn(StateAt(config, m, s).deviceState.value, g)
            && b in config.db.destinationMasks[StateAt(config, m, s).allowedClasses[k].destination])
  }

  // A listed rule of threshold t
  ghost predicate AtThreshold(config: Configuration, a: nat, t: nat, m: nat, s: nat, k: nat)
    requires config.Wired()
  {
    Listed(config, AnalogAt(a), m, s, k) && LowestAt(StateAt(config, m, s).deviceState.value, t)
  }

  // The class of threshold t is the least of those, and 0 without one.
  ghost predicate ClassGiven(config: Configuration, a: nat, t: nat)
    requires config.Wired() && a < |config.analogDevices|
    reads config.analogDevices`fastPowerClass
  {
    && t < |config.analogDevices[a].fastPowerClass|
    && var n := config.analogDevices[a].fastPowerClass[t];
       && (forall m: nat, s: nat, k: nat | AtThreshold(config, a, t, m, s, k) ::
             n <= StateAt(config, m, s).allowedClasses[k].beamClass.number)
       && (|| (exists m: nat, s: nat, k: nat :: AtThreshold(config, a, t, m, s, k)
                 && n == StateAt(config, m, s).allowedClasses[k].beamClass.number)
           || (n == 0 && forall m: nat, s: nat, k: nat :: !AtThreshold(config, a, t, m, s, k)))
  }

  lemma PlaceOfRule(value: Word)
    requires value != {}
    ensures forall g: nat :: DeviceState(value, ZERO).GetIntegrator() == g <==> HighestIn(value, g)
    ensures forall t: nat :: LowestBit(value) == t <==> LowestAt(value, t)
  {
  }

  lemma ListedIsFed(config: Configuration, a: nat, m: nat, s: nat, k: nat)
    requires config.Wired()
    ensures Listed(config, AnalogAt(a), m, s, k) <==> FirmwareRules.Feeds(config, a, m, s, k)
    ensures Listed(config, AnalogAt(a), m, s, k) && NoZeroStates(config, a) ==>
      var r, row := FirmwareRules.RuleOf(config, m, s, k), StateAt(config, m, s);
      && (forall g: nat :: r.integrator == g <==> HighestIn(row.deviceState.value, g))
      && (forall t: nat :: r.threshold == t <==> LowestAt(row.deviceState.value, t))
      && r.mask == config.db.destinationMasks[row.allowedClasses[k].destination]
      && r.number == row.allowedClasses[k].beamClass.number
  {
    hide HighestIn, LowestAt;
    if Listed(config, AnalogAt(a), m, s, k) && NoZeroStates(config, a) {
      PlaceOfRule(StateAt(config, m, s).deviceState.value);
    }
  }

  lemma AnalogMaskCompiled(config: Configuration, a: nat, g: nat, b: nat)
    requires config.Wired() && config.AllDone(|config.inputs|) && a < |config.analogDevices| && g < 4
    requires config.analogDevices[a].evaluation == FastEvaluation && NoZeroStates(config, a)
    ensures MaskGiven(config, a, g, b)
  {
    hide Listed, HighestIn, LowestAt, FirmwareRules.Feeds, FirmwareRules.RuleOf, NoZeroStates;
    FirmwareRules.CompiledMaskExact(config, a, g, b);
    forall m: nat, s: nat, k: nat
      ensures Listed(config, AnalogAt(a), m, s, k) <==> FirmwareRules.Feeds(config, a, m, s, k)
      ensures FirmwareRules.Feeds(config, a, m, s, k) ==>
        FirmwareRules.HasRule(config, m, s, k)
        && (FirmwareRules.Names(FirmwareRules.RuleOf(config, m, s, k), g, b) <==>
              HighestIn(StateAt(config, m, s).deviceState.value, g)
              && b in config.db.destinationMasks[StateAt(config, m, s).allowedClasses[k].destination])
    {
      ListedIsFed(config, a, m, s, k);
      FedHasRule(config, a, m, s, k);
    }
  }

  lemma FedHasRule(config: Configuration, a: nat, m: nat, s: nat, k: nat)
    requires config.Wired()
    ensures FirmwareRules.Feeds(config, a, m, s, k) ==> FirmwareRules.HasRule(config, m, s, k)
  {
  }

  lemma AnalogClassCompiled(config: Configuration, a: nat, t: nat)
    requires config.Wired() && config.AllDone(|config.inputs|) && a < |config.analogDevices| && t < 32
    requires config.analogDevices[a].evaluation == FastEvaluation && NoZeroStates(config, a)
    ensures ClassGiven(config, a, t)
  {
    hide Listed, HighestIn, LowestAt, FirmwareRules.Feeds, FirmwareRules.RuleOf, NoZeroStates;
    FirmwareRules.CompiledClassExact(config, a, t);
    forall m: nat, s: nat, k: nat
      ensures Listed(config, AnalogAt(a), m, s, k) <==> FirmwareRules.Feeds(config, a, m, s, k)
      ensures FirmwareRules.Feeds(config, a, m, s, k) ==>
        && FirmwareRules.HasRule(config, m, s, k)
        && FirmwareRules.RuleOf(config, m, s, k).number == StateAt(config, m, s).allowedClasses[k].beamClass.number
        && (FirmwareRules.RuleOf(config, m, s, k).threshold == t <==>
              LowestAt(StateAt(config, m, s).deviceState.value, t))
    {
      ListedIsFed(config, a, m, s, k);
      FedHasRule(config, a, m, s, k);
    }
    forall m: nat, s: nat, k: nat | AtThreshold(config, a, t, m, s, k)
      ensures FirmwareRules.SomeRuleAllows(config, a, t, StateAt(config, m, s).allowedClasses[k].beamClass.number)
    {
      assert FirmwareRules.Feeds(config, a, m, s, k);
    }
  }

  // ---- Rules compiled into a digital device ----

  // Fault input m is the last one that names the device.
  ghost predicate LastInput(config: Configuration, d: nat, m: nat) {
    && m < |config.inputs| && config.inputs[m].device == DigitalAt(d)
    && forall n | m < n < |config.inputs| :: config.inputs[n].device != DigitalAt(d)
  }

  // The device has the rules of the one state of the fault of that input: all its destinations,
  // the least class or 100 if none is below, and it is to be high exactly for a value of zero.
  ghost predicate DigitalGiven(config: Configuration, d: nat, m: nat)
    requires config.Wired() && d < |config.digitalDevices| && m < |config.inputs|
    reads config.digitalDevices
  {
    var v, states := config.digitalDevices[d], config.db.faults[config.inputs[m].fault].states;
    && |states| == 1 && v.fastExpectedState == (states[0].deviceState.value == {})
    && (forall b: nat :: b in v.fastDestinationMask <==> exists k ::
          0 <= k < |states[0].allowedClasses|
          && b in config.db.destinationMasks[states[0].allowedClasses[k].destination])
    && v.fastPowerClass <= 100
    && (forall k | 0 <= k < |states[0].allowedClasses| ::
          v.fastPowerClass <= states[0].allowedClasses[k].beamClass.number)
    && (|| v.fastPowerClass == 100
        || exists k ::
             0 <= k < |states[0].allowedClasses| && v.fastPowerClass == states[0].allowedClasses[k].beamClass.number)
  }

  lemma {:induction false} LastFault(config: Configuration, n: nat, d: nat, m: nat)
    requires config.Wired() && m < n <= |config.inputs| && config.inputs[m].device == DigitalAt(d)
    requires forall l | m < l < n :: config.inputs[l].device != DigitalAt(d)
    ensures config.FaultFor(n, d) == Some(config.inputs[m].fault)
  {
    if m < n - 1 {
      LastFault(config, n - 1, d, m);
    }
  }

  lemma {:induction false} NoFault(config: Configuration, n: nat, d: nat)
    requires config.Wired() && n <= |config.inputs|
    requires forall l | 0 <= l < n :: config.inputs[l].device != DigitalAt(d)
    ensures config.FaultFor(n, d) == None
  {
    if n > 0 {
      NoFault(config, n - 1, d);
    }
  }

  lemma DigitalCompiled(config: Configuration, d: nat, m: nat)
    requires config.Wired() && config.AllDone(|config.inputs|) && d < |config.digitalDevices|
    requires config.digitalDevices[d].evaluation == FastEvaluation && LastInput(config, d, m)
    ensures DigitalGiven(config, d, m)
  {
    LastFault(config, |config.inputs|, d, m);
    assert config.DigitalDone(|config.inputs|, d);
    var row := config.db.faults[config.inputs[m].fault].states[0];
    assert DigitalCompiledFrom(config.digitalDevices[d], row, config.db.destinationMasks, |row.allowedClasses|);
  }

  // ---- Loading ----

  // Fault input n can be compiled: a FAST analog device takes no state of value zero, and a FAST
  // digital device one state.
  ghost predicate Compiles(config: Configuration, n: nat)
    requires config.Wired() && n < |config.inputs|
  {
    var states := config.db.faults[config.inputs[n].fault].states;
    match config.inputs[n].device
    case AnalogAt(a) =>
      config.analogDevices[a].evaluation == FastEvaluation ==>
        forall s | 0 <= s < |states| :: states[s].deviceState.value != {}
    case DigitalAt(d) => config.digitalDevices[d].evaluation == FastEvaluation ==> |states| == 1
  }

  // An analog device without rules
  predicate Bare(v: AnalogDevice)
    reads v`fastDestinationMask, v`fastPowerClass, v`fastPowerClassInit
  {
    && |v.fastDestinationMask| == 4 && |v.fastPowerClass| == |v.fastPowerClassInit| == 32
    && (forall g | 0 <= g < 4 :: v.fastDestinationMask[g] == {})
    && forall t | 0 <= t < 32 :: v.fastPowerClass[t] == 0 && v.fastPowerClassInit[t]
  }

  lemma BareCompiled(v: AnalogDevice)
    ensures Bare(v) <==> CompiledFrom(v, [])
  {
    if CompiledFrom(v, []) {
      forall g | 0 <= g < 4 ensures v.fastDestinationMask[g] == {} {
        if b: nat :| b in v.fastDestinationMask[g] {
          assert false;
        }
      }
    }
  }

  lemma CompilesOrFails(config: Configuration, n: nat)
    requires config.Wired() && n < |config.inputs|
    ensures Compiles(config, n) <==> config.Fault(n) == Configured
    ensures !Compiles(config, n) ==>
      config.Fault(n) == if config.inputs[n].device.AnalogAt? then InvalidDeviceState else NotOneFaultState
  {
  }

  // Every FAST device ends up with exactly the rules the rows list for it, if they can all be
  // compiled, and otherwise the first fault input that cannot decides what is wrong.
  method LoadRules(config: Configuration) returns (outcome: Outcome)
    requires config.Wired() && forall v | v in config.analogDevices :: Bare(v)
    modifies config.analogDevices`fastDestinationMask, config.analogDevices`fastPowerClass
    modifies config.analogDevices`fastPowerClassInit, config.digitalDevices`fastDestinationMask
    modifies config.digitalDevices`fastPowerClass, config.digitalDevices`fastExpectedState
    ensures outcome == Configured <==> forall n | 0 <= n < |config.inputs| :: Compiles(config, n)
    ensures outcome != Configured ==> exists n ::
      && 0 <= n < |config.inputs| && !Compiles(config, n) && (forall m | 0 <= m < n :: Compiles(config, m))
      && outcome == if config.inputs[n].device.AnalogAt? then InvalidDeviceState else NotOneFaultState
    ensures outcome == Configured ==> forall a |
      0 <= a < |config.analogDevices| && config.analogDevices[a].evaluation == FastEvaluation ::
      && (forall g: nat, b: nat | g < 4 :: MaskGiven(config, a, g, b))
      && forall t: nat | t < 32 :: ClassGiven(config, a, t)
    ensures outcome == Configured ==> forall v |
      v in config.analogDevices && v.evaluation != FastEvaluation :: Bare(v)
    ensures outcome == Configured ==> forall d: nat, m: nat |
      d < |config.digitalDevices| && config.digitalDevices[d].evaluation == FastEvaluation && LastInput(config, d, m) ::
      DigitalGiven(config, d, m)
    ensures outcome == Configured ==> forall d |
      && 0 <= d < |config.digitalDevices|
      && (config.digitalDevices[d].evaluation != FastEvaluation
          || forall n | 0 <= n < |config.inputs| :: config.inputs[n].device != DigitalAt(d)) ::
      var v := config.digitalDevices[d];
      && v.fastDestinationMask == old(v.fastDestinationMask) && v.fastPowerClass == old(v.fastPowerClass)
      && v.fastExpectedState == old(v.fastExpectedState)
  {
    hide Configuration.AllDone, MaskGiven, ClassGiven, DigitalGiven, Compiles, Bare, CompiledFrom;
    forall a | 0 <= a < |config.analogDevices| ensures CompiledFrom(config.analogDevices[a], []) {
      BareCompiled(config.analogDevices[a]);
    }
    ghost var done;
    outcome, done := config.ConfigureFaultInputs();
    forall n | 0 <= n < |config.inputs|
      ensures Compiles(config, n) <==> config.Fault(n) == Configured
      ensures !Compiles(config, n) ==>
        config.Fault(n) == if config.inputs[n].device.AnalogAt? then InvalidDeviceState else NotOneFaultState
    {
      CompilesOrFails(config, n);
    }
    if outcome == Configured {
      forall a | 0 <= a < |config.analogDevices| {
        AnalogLoaded(config, a);
      }
      forall d: nat, m: nat | d < |config.digitalDevices| && config.digitalDevices[d].evaluation == FastEvaluation
          && LastInput(config, d, m)
        ensures DigitalGiven(config, d, m)
      {
        DigitalCompiled(config, d, m);
      }
      forall d | 0 <= d < |config.digitalDevices|
          && forall n | 0 <= n < |config.inputs| :: config.inputs[n].device != DigitalAt(d)
        ensures config.FaultFor(|config.inputs|, d) == None
      {
        NoFault(config, |config.inputs|, d);
      }
    }
  }

  lemma AnalogLoaded(config: Configuration, a: nat)
    requires config.Wired() && config.AllDone(|config.inputs|) && a < |config.analogDevices|
    requires forall n | 0 <= n < |config.inputs| :: Compiles(config, n)
    ensures config.analogDevices[a].evaluation == FastEvaluation ==>
      && (forall g: nat, b: nat | g < 4 :: MaskGiven(config, a, g, b))
      && forall t: nat | t < 32 :: ClassGiven(config, a, t)
    ensures config.analogDevices[a].evaluation != FastEvaluation ==> Bare(config.analogDevices[a])
  {
    hide MaskGiven, ClassGiven;
    if config.analogDevices[a].evaluation == FastEvaluation {
      assert NoZeroStates(config, a) by { InputsCompile(config, a); }
      forall g: nat, b: nat | g < 4 ensures MaskGiven(config, a, g, b) {
        AnalogMaskCompiled(config, a, g, b);
      }
      forall t: nat | t < 32 ensures ClassGiven(config, a, t) {
        AnalogClassCompiled(config, a, t);
      }
    } else {
      assert config.AnalogDone(|config.inputs|, a);
      BareCompiled(config.analogDevices[a]);
    }
  }

  lemma InputsCompile(config: Configuration, a: nat)
    requires config.Wired() && a < |config.analogDevices| && config.analogDevices[a].evaluation == FastEvaluation
    requires forall n | 0 <= n < |config.inputs| :: Compiles(config, n)
    ensures NoZeroStates(config, a)
  {
    forall m, s |
        0 <= m < |config.inputs| && config.inputs[m].device == AnalogAt(a)
        && 0 <= s < |config.db.faults[config.inputs[m].fault].states|
      ensures config.db.faults[config.inputs[m].fault].states[s].deviceState.value != {}
    {
      assert Compiles(config, m);
    }
  }
}
