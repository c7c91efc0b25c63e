// From the rules of the configuration to the bits the firmware is given: what is
// compiled and packed limits the beam at least as strictly as every rule asks.
module FirmwareRules {
  import opened Words
  import opened Bypass
  import opened Layout
  import opened Tables
  import opened Devices
  import opened Compile
  import opened Cards

  // AllowedClass k of state s of the fault of fault input m
  ghost predicate HasRule(config: Configuration, m: nat, s: nat, k: nat)
    requires config.Wired()
  {
    m < |config.inputs| && s < |config.db.faults[config.inputs[m].fault].states|
    && k < |config.db.faults[config.inputs[m].fault].states[s].allowedClasses|
  }

  ghost function Row(config: Configuration, m: nat, s: nat): FaultStateRow
    requires config.Wired() && m < |config.inputs| && s < |config.db.faults[config.inputs[m].fault].states|
  {
    config.db.faults[config.inputs[m].fault].states[s]
  }

  ghost function RuleOf(config: Configuration, m: nat, s: nat, k: nat): FastRule
    requires config.Wired() && HasRule(config, m, s, k)
  {
    var row := Row(config, m, s);
    FastRule(row.deviceState.GetIntegrator(), LowestBit(row.deviceState.value),
             config.db.destinationMasks[row.allowedClasses[k].destination], row.allowedClasses[k].beamClass.number)
  }

  lemma {:induction false} RowRuleCompiled(row: FaultStateRow, masks: seq<set<nat>>, n: nat, threshold: nat, k: nat)
    requires k < n <= |row.allowedClasses| && RowFits(row, masks)
    ensures FastRule(row.deviceState.GetIntegrator(), threshold, masks[row.allowedClasses[k].destination],
                     row.allowedClasses[k].beamClass.number) in RowRules(row, masks, n, threshold)
  {
    if k < n - 1 {
      RowRuleCompiled(row, masks, n - 1, threshold, k);
    }
  }

  lemma {:induction false} FaultRuleCompiled(rows: seq<FaultStateRow>, masks: seq<set<nat>>, n: nat, s: nat, k: nat)
    requires s < n <= |rows| && RowsFit(rows, masks) && k < |rows[s].allowedClasses|
    ensures FastRule(rows[s].deviceState.GetIntegrator(), LowestBit(rows[s].deviceState.value),
                     masks[rows[s].allowedClasses[k].destination], rows[s].allowedClasses[k].beamClass.number)
      in FaultRules(rows, masks, n)
  {
    if s < n - 1 {
      FaultRuleCompiled(rows, masks, n - 1, s, k);
    } else {
      RowRuleCompiled(rows[s], masks, |rows[s].allowedClasses|, LowestBit(rows[s].deviceState.value), k);
    }
  }

  lemma {:induction false} RuleCompiled(config: Configuration, n: nat, a: nat, m: nat, s: nat, k: nat)
    requires config.Wired() && m < n <= |config.inputs| && HasRule(config, m, s, k)
    requires config.inputs[m].device == AnalogAt(a)
    ensures RuleOf(config, m, s, k) in config.RulesFor(n, a)
  {
    if m < n - 1 {
      RuleCompiled(config, n - 1, a, m, s, k);
    } else {
      var rows := config.db.faults[config.inputs[m].fault].states;
      FaultRuleCompiled(rows, config.db.destinationMasks, |rows|, s, k);
    }
  }

  lemma {:induction false} RowRuleComesFrom(row: FaultStateRow, masks: seq<set<nat>>, n: nat, threshold: nat,
                                            r: FastRule)
    returns (k: nat)
    requires n <= |row.allowedClasses| && RowFits(row, masks) && r in RowRules(row, masks, n, threshold)
    ensures k < n
    ensures r == FastRule(row.deviceState.GetIntegrator(), threshold, masks[row.allowedClasses[k].destination],
                          row.allowedClasses[k].beamClass.number)
  {
    if r in RowRules(row, masks, n - 1, threshold) {
      k := RowRuleComesFrom(row, masks, n - 1, threshold, r);
    } else {
      k := n - 1;
    }
  }

  lemma {:induction false} FaultRuleComesFrom(rows: seq<FaultStateRow>, masks: seq<set<nat>>, n: nat, r: FastRule)
    returns (s: nat, k: nat)
    requires n <= |rows| && RowsFit(rows, masks) && r in FaultRules(rows, masks, n)
    ensures s < n && k < |rows[s].allowedClasses|
    ensures r == FastRule(rows[s].deviceState.GetIntegrator(), LowestBit(rows[s].deviceState.value),
                          masks[rows[s].allowedClasses[k].destination], rows[s].allowedClasses[k].beamClass.number)
  {
    if r in FaultRules(rows, masks, n - 1) {
      s, k := FaultRuleComesFrom(rows, masks, n - 1, r);
    } else {
      s := n - 1;
      k := RowRuleComesFrom(rows[s], masks, |rows[s].allowedClasses|, LowestBit(rows[s].deviceState.value), r);
    }
  }

  // AllowedClass k of state s of a fault that device a feeds through fault input m
  ghost predicate Feeds(config: Configuration, a: nat, m: nat, s: nat, k: nat)
    requires config.Wired()
  {
    HasRule(config, m, s, k) && config.inputs[m].device == AnalogAt(a)
  }

  // Nothing is compiled but rules of the configuration.
  lemma {:induction false} RuleComesFrom(config: Configuration, n: nat, a: nat, r: FastRule)
    returns (m: nat, s: nat, k: nat)
    requires config.Wired() && n <= |config.inputs| && r in config.RulesFor(n, a)
    ensures m < n && Feeds(config, a, m, s, k) && r == RuleOf(config, m, s, k)
  {
    if r in config.RulesFor(n - 1, a) {
      m, s, k := RuleComesFrom(config, n - 1, a, r);
    } else {
      m := n - 1;
      var rows := config.db.faults[config.inputs[m].fault].states;
      s, k := FaultRuleComesFrom(rows, config.db.destinationMasks, |rows|, r);
    }
  }

  lemma RulesAreFed(config: Configuration, a: nat, r: FastRule)
    requires config.Wired()
    ensures r in config.RulesFor(|config.inputs|, a) <==>
      exists m: nat, s: nat, k: nat :: Feeds(config, a, m, s, k) && r == RuleOf(config, m, s, k)
  {
    hide HasRule, RuleOf;
    if r in config.RulesFor(|config.inputs|, a) {
      var m, s, k := RuleComesFrom(config, |config.inputs|, a, r);
    }
    if m: nat, s: nat, k: nat :| Feeds(config, a, m, s, k) && r == RuleOf(config, m, s, k) {
      FedRuleCompiled(config, a, m, s, k);
    }
  }

  lemma FedRuleCompiled(config: Configuration, a: nat, m: nat, s: nat, k: nat)
    requires config.Wired() && Feeds(config, a, m, s, k)
    ensures RuleOf(config, m, s, k) in config.RulesFor(|config.inputs|, a)
  {
    RuleCompiled(config, |config.inputs|, a, m, s, k);
  }

  // ---- What a compiled device holds, in terms of the configuration alone ----

  // Some rule the device feeds, of integrator g, names destination bit b.
  ghost predicate SomeRuleNames(config: Configuration, a: nat, g: nat, b: nat)
    requires config.Wired()
  {
    exists m: nat, s: nat, k: nat :: Feeds(config, a, m, s, k) && Names(RuleOf(config, m, s, k), g, b)
  }

  predicate Names(r: FastRule, g: nat, b: nat) {
    r.integrator == g && b in r.mask
  }

  predicate Allows(r: FastRule, t: nat, number: nat) {
    r.threshold == t && r.number == number
  }

  // Some rule the device feeds, of threshold t, has this class number.
  ghost predicate SomeRuleAllows(config: Configuration, a: nat, t: nat, number: nat)
    requires config.Wired()
  {
    exists m: nat, s: nat, k: nat :: Feeds(config, a, m, s, k) && Allows(RuleOf(config, m, s, k), t, number)
  }

  lemma CompiledMaskExact(config: Configuration, a: nat, g: nat, b: nat)
    requires config.Wired() && config.AllDone(|config.inputs|) && a < |config.analogDevices| && g < 4
    requires config.analogDevices[a].evaluation == FastEvaluation
    ensures |config.analogDevices[a].fastDestinationMask| == 4
    ensures b in config.analogDevices[a].fastDestinationMask[g] <==> SomeRuleNames(config, a, g, b)
  {
    hide HasRule, RuleOf, ClassesExact;
    assert config.AnalogDone(|config.inputs|, a);
    var rules := config.RulesFor(|config.inputs|, a);
    if r :| r in rules && Names(r, g, b) {
      RulesAreFed(config, a, r);
    }
    if m: nat, s: nat, k: nat :| Feeds(config, a, m, s, k) && Names(RuleOf(config, m, s, k), g, b) {
      RulesAreFed(config, a, RuleOf(config, m, s, k));
    }
  }

  lemma CompiledClassExact(config: Configuration, a: nat, t: nat)
    requires config.Wired() && config.AllDone(|config.inputs|) && a < |config.analogDevices| && t < 32
    requires config.analogDevices[a].evaluation == FastEvaluation
    ensures |config.analogDevices[a].fastPowerClass| == 32
    ensures
      var class' := config.analogDevices[a].fastPowerClass[t];
      if exists number: nat :: SomeRuleAllows(config, a, t, number) then
        && SomeRuleAllows(config, a, t, class')
        && forall number: nat | SomeRuleAllows(config, a, t, number) :: class' <= number
      else class' == 0
  {
    hide HasRule, RuleOf, MasksExact;
    assert config.AnalogDone(|config.inputs|, a);
    var rules := config.RulesFor(|config.inputs|, a);
    forall number: nat
      ensures SomeRuleAllows(config, a, t, number) <==> exists r :: r in rules && Allows(r, t, number)
    {
      AllowsRule(config, a, t, number);
    }
  }

  lemma AllowsRule(config: Configuration, a: nat, t: nat, number: nat)
    requires config.Wired()
    ensures SomeRuleAllows(config, a, t, number) <==>
      exists r :: r in config.RulesFor(|config.inputs|, a) && Allows(r, t, number)
  {
    hide HasRule, RuleOf;
    if r :| r in config.RulesFor(|config.inputs|, a) && Allows(r, t, number) {
      RulesAreFed(config, a, r);
    }
    if m: nat, s: nat, k: nat :| Feeds(config, a, m, s, k) && Allows(RuleOf(config, m, s, k), t, number) {
      RulesAreFed(config, a, RuleOf(config, m, s, k));
    }
  }

  // Every rule of a FAST analog device is covered by what is compiled: the class of its
  // threshold is no higher, and the mask of its integrator names its destinations.
  lemma CompilationIsConservative(config: Configuration, a: nat, m: nat, s: nat, k: nat)
    requires config.Wired() && config.AllDone(|config.inputs|)
    requires HasRule(config, m, s, k) && config.inputs[m].device == AnalogAt(a)
    requires config.analogDevices[a].evaluation == FastEvaluation && Row(config, m, s).deviceState.value != ZERO
    ensures
      var r := RuleOf(config, m, s, k);
      && CompiledFrom(config.analogDevices[a], config.RulesFor(|config.inputs|, a))
      && r.threshold < 32 && config.analogDevices[a].fastPowerClass[r.threshold] <= r.number
      && r.mask <= config.analogDevices[a].fastDestinationMask[r.integrator]
  {
    var r := RuleOf(config, m, s, k);
    RuleCompiled(config, |config.inputs|, a, m, s, k);
    assert config.AnalogDone(|config.inputs|, a);
    assert r.threshold < 32;
  }

  // For a state of one threshold bit b, the image of the card holds at the place of
  // threshold b a class no higher than that of any rule of the state, and, unless the
  // integrator is bypassed or ignored, its mask names the destination of the rule.
  lemma ImageEnforcesRule(config: Configuration, a: nat, m: nat, s: nat, k: nat, b: nat,
                          devices: seq<AnalogDevice>, i: nat, buffer: seq<bool>)
    requires config.Wired() && config.AllDone(|config.inputs|)
    requires HasRule(config, m, s, k) && config.inputs[m].device == AnalogAt(a)
    requires config.analogDevices[a].evaluation == FastEvaluation && Row(config, m, s).deviceState.value == {b}
    requires i < |devices| && devices[i] == config.analogDevices[a] && b < 8 * devices[i].channel.numIntegrators
    requires AnalogImage(buffer, devices) && SharedCard(devices) && Ready(devices[i])
    requires RuleOf(config, m, s, k).number < 16 && forall d | d in RuleOf(config, m, s, k).mask :: d < 16
    ensures
      var slot := devices[i].channel.Slot(b / 8);
      && slot < 24
      && ReadNibble(buffer, 32 * slot + 4 * (b % 8)) <= RuleOf(config, m, s, k).number
      && (devices[i].bypass[b / 8].status == BypassValid || devices[i].ignoredIntegrator[b / 8] || devices[i].ignored
          || RuleOf(config, m, s, k).mask <= ReadMask(buffer, MASK_BASE + 16 * slot))
  {
    hide AnalogImage, CompiledFrom, Row, Ready;
    CompilationIsConservative(config, a, m, s, k);
    assert LowestBit({b}) == b;
    SingleBitIntegrator(b);
    assert 8 * (b / 8) + b % 8 == b;
    ImageEnforces(devices, i, buffer, b / 8, b % 8, RuleOf(config, m, s, k));
  }

  // For any value but zero the class is at the lowest bit and the mask at the integrator.
  lemma ImageEnforcesAnyRule(config: Configuration, a: nat, m: nat, s: nat, k: nat,
                             devices: seq<AnalogDevice>, i: nat, buffer: seq<bool>)
    requires config.Wired() && config.AllDone(|config.inputs|)
    requires HasRule(config, m, s, k) && config.inputs[m].device == AnalogAt(a)
    requires config.analogDevices[a].evaluation == FastEvaluation && Row(config, m, s).deviceState.value != ZERO
    requires i < |devices| && devices[i] == config.analogDevices[a]
    requires AnalogImage(buffer, devices) && SharedCard(devices) && Ready(devices[i])
    requires RuleOf(config, m, s, k).threshold < 8 * devices[i].channel.numIntegrators
    requires RuleOf(config, m, s, k).integrator < devices[i].channel.numIntegrators
    requires RuleOf(config, m, s, k).number < 16 && forall d | d in RuleOf(config, m, s, k).mask :: d < 16
    ensures
      var r := RuleOf(config, m, s, k);
      var v := devices[i];
      && v.channel.Slot(r.threshold / 8) < 24 && v.channel.Slot(r.integrator) < 24
      && ReadNibble(buffer, 32 * v.channel.Slot(r.threshold / 8) + 4 * (r.threshold % 8)) <= r.number
      && (v.bypass[r.integrator].status == BypassValid || v.ignoredIntegrator[r.integrator] || v.ignored
          || r.mask <= ReadMask(buffer, MASK_BASE + 16 * v.channel.Slot(r.integrator)))
  {
    hide AnalogImage, CompiledFrom, Row, ReadNibble, Layout.AnalogChannel.Slot;
    CompilationIsConservative(config, a, m, s, k);
    var r := RuleOf(config, m, s, k);
    assert 8 * (r.threshold / 8) + r.threshold % 8 == r.threshold;
    AnalogClassRoundTrip(buffer, devices, i, r.threshold / 8, r.threshold % 8);
    AnalogMaskRoundTrip(buffer, devices, i, r.integrator);
  }

  lemma SingleBitIntegrator(b: nat)
    requires b < 32
    ensures DeviceState({b}, ZERO).GetIntegrator() == b / 8
  {
  }

  lemma ImageEnforces(devices: seq<AnalogDevice>, i: nat, buffer: seq<bool>, g: nat, j: nat, r: FastRule)
    requires AnalogImage(buffer, devices) && SharedCard(devices) && i < |devices|
    requires devices[i].evaluation == FastEvaluation && g < devices[i].channel.numIntegrators && j < 8
    requires Ready(devices[i]) && r.number < 16 && forall d | d in r.mask :: d < 16
    requires devices[i].fastPowerClass[8 * g + j] <= r.number && r.mask <= devices[i].fastDestinationMask[g]
    ensures
      var slot := devices[i].channel.Slot(g);
      && slot < 24
      && ReadNibble(buffer, 32 * slot + 4 * j) <= r.number
      && (devices[i].bypass[g].status == BypassValid || devices[i].ignoredIntegrator[g] || devices[i].ignored
          || r.mask <= ReadMask(buffer, MASK_BASE + 16 * slot))
  {
    hide AnalogImage, ReadNibble, Layout.AnalogChannel.Slot;
    AnalogClassRoundTrip(buffer, devices, i, g, j);
    AnalogMaskRoundTrip(buffer, devices, i, g);
  }

  // ---- Digital devices ----

  // The one fault state a FAST digital device is compiled from: that of the fault of its
  // last fault input
  ghost function DigitalRow(config: Configuration, d: nat): FaultStateRow
    requires config.Wired() && config.FaultFor(|config.inputs|, d).Some?
    requires |config.db.faults[config.FaultFor(|config.inputs|, d).value].states| == 1
  {
    config.db.faults[config.FaultFor(|config.inputs|, d).value].states[0]
  }

  ghost predicate DigitalFed(config: Configuration, d: nat)
    requires config.Wired()
  {
    && d < |config.digitalDevices| && config.digitalDevices[d].evaluation == FastEvaluation
    && config.FaultFor(|config.inputs|, d).Some?
    && |config.db.faults[config.FaultFor(|config.inputs|, d).value].states| == 1
  }

  predicate CoversDigital(device: DigitalDevice, mask: set<nat>, number: nat)
    reads device`fastPowerClass, device`fastDestinationMask
  {
    device.fastPowerClass <= number && mask <= device.fastDestinationMask
  }

  ghost predicate SomeAllowedNames(row: FaultStateRow, masks: seq<set<nat>>, b: nat)
    requires RowFits(row, masks)
  {
    exists k :: 0 <= k < |row.allowedClasses| && b in masks[row.allowedClasses[k].destination]
  }

  ghost predicate SomeAllowedUpTo(row: FaultStateRow, number: nat) {
    exists k :: 0 <= k < |row.allowedClasses| && row.allowedClasses[k].beamClass.number <= number
  }

  // The record of a FAST digital device covers a limit of some destinations to a class
  // exactly when the fault it is compiled from names them all and goes as low.  Rules
  // that reach the device through other faults are lost, unless they are so covered.
  lemma DigitalRuleCovered(config: Configuration, d: nat, mask: set<nat>, number: nat)
    requires config.Wired() && config.AllDone(|config.inputs|) && DigitalFed(config, d) && number < 100
    ensures CoversDigital(config.digitalDevices[d], mask, number) <==>
      && SomeAllowedUpTo(DigitalRow(config, d), number)
      && forall b | b in mask :: SomeAllowedNames(DigitalRow(config, d), config.db.destinationMasks, b)
  {
    assert config.DigitalDone(|config.inputs|, d);
    assert DigitalCompiledFrom(config.digitalDevices[d], DigitalRow(config, d), config.db.destinationMasks,
                               |DigitalRow(config, d).allowedClasses|);
  }

  // Every rule of the fault it is compiled from is covered.
  lemma DigitalCompilationIsConservative(config: Configuration, d: nat, k: nat)
    requires config.Wired() && config.AllDone(|config.inputs|) && DigitalFed(config, d)
    requires k < |DigitalRow(config, d).allowedClasses|
    ensures
      var allowed := DigitalRow(config, d).allowedClasses[k];
      CoversDigital(config.digitalDevices[d], config.db.destinationMasks[allowed.destination], allowed.beamClass.number)
  {
    assert config.DigitalDone(|config.inputs|, d);
    assert DigitalCompiledFrom(config.digitalDevices[d], DigitalRow(config, d), config.db.destinationMasks,
                               |DigitalRow(config, d).allowedClasses|);
  }

  // The record in the image of its card holds a class no higher than that of any such
  // rule, its destinations unless the input is bypassed, and, as the expected state, the
  // opposite of the faulted one.
  lemma DigitalImageEnforcesRule(config: Configuration, d: nat, k: nat,
                                 devices: seq<DigitalDevice>, i: nat, buffer: seq<bool>)
    requires config.Wired() && config.AllDone(|config.inputs|) && DigitalFed(config, d)
    requires k < |DigitalRow(config, d).allowedClasses| && DigitalRow(config, d).allowedClasses[k].beamClass.number < 16
    requires forall b | b in config.db.destinationMasks[DigitalRow(config, d).allowedClasses[k].destination] :: b < 16
    requires i < |devices| && devices[i] == config.digitalDevices[d] && HasRecord(devices[i])
    requires DigitalImage(buffer, devices) && SeparateRecords(devices)
    ensures
      var at := DIGITAL_RECORD * devices[i].inputDevices[0].channel;
      var allowed := DigitalRow(config, d).allowedClasses[k];
      && ReadNibble(buffer, at) <= allowed.beamClass.number
      && (devices[i].inputDevices[0].bypass.status == BypassValid
          || config.db.destinationMasks[allowed.destination] <= ReadMask(buffer, at + DIGITAL_MASK))
      && buffer[at + DIGITAL_STATE] == (DigitalRow(config, d).deviceState.value == ZERO)
  {
    hide DigitalImageBit, ReadNibble;
    DigitalCompilationIsConservative(config, d, k);
    DigitalRoundTrip(buffer, devices, i);
    assert config.DigitalDone(|config.inputs|, d);
    assert DigitalCompiledFrom(config.digitalDevices[d], DigitalRow(config, d), config.db.destinationMasks,
                               |DigitalRow(config, d).allowedClasses|);
  }

  // ---- A rule that is lost ----

  // A fault of one state that limits one destination
  function OneRule(id: nat, destination: nat, number: nat): FaultRow {
    var allowed := AllowedClass(id, BeamClass(id, number), destination);
    FaultRow(FastEvaluation, [FaultInputRow(0, DigitalAt(0))], [FaultStateRow(id, DeviceState(ZERO, ONE), [allowed])],
             None)
  }

  // Two such faults fed by one FAST digital device
  function TwoRules(): Database {
    Database(BeamClass(9, 9), BeamClass(0, 0), [DeviceRow(1, FastEvaluation, [0])], [],
             [OneRule(0, 0, 0), OneRule(1, 1, 5)], [], [{0}, {1}])
  }

  // They are compiled without complaint, ...
  method CompileTwoRules() returns (config: Configuration)
    ensures config.Wired() && config.AllDone(|config.inputs|) && config.db == TwoRules() && DigitalFed(config, 0)
    ensures config.inputs == [FaultInput(0, DigitalAt(0)), FaultInput(1, DigitalAt(0))]
  {
    var bypass := new InputBypass(0, BypassDigital, 0, null, true);
    var input := new DeviceInput(0, bypass, ONE, false);
    var device := new DigitalDevice(0, FastEvaluation, [input]);
    config := new Configuration(TwoRules(), [device], [], [FaultInput(0, DigitalAt(0)), FaultInput(1, DigitalAt(0))]);
    var outcome;
    ghost var done;
    outcome, done := config.ConfigureFaultInputs();
  }

  // ... and the rule of the first fault is not in force: the record has neither its class nor
  // its destination.
  lemma RuleLost(config: Configuration)
    requires config.Wired() && config.AllDone(|config.inputs|) && config.db == TwoRules() && DigitalFed(config, 0)
    requires config.inputs == [FaultInput(0, DigitalAt(0)), FaultInput(1, DigitalAt(0))]
    ensures HasRule(config, 0, 0, 0) && RuleOf(config, 0, 0, 0).mask == {0} && RuleOf(config, 0, 0, 0).number == 0
    ensures !CoversDigital(config.digitalDevices[0], {0}, 9) && !CoversDigital(config.digitalDevices[0], {}, 0)
  {
    hide Configuration.Wired, Configuration.AllDone, CoversDigital;
    assert config.FaultFor(2, 0) == Some(1);
    DigitalRuleCovered(config, 0, {0}, 9);
    DigitalRuleCovered(config, 0, {}, 0);
  }
}
