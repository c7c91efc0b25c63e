// MpsDb::configureFaultInputs in src/central_node_database.cc: the rules the firmware
// enforces by itself, compiled into masks and classes of FAST devices.
module Compile {
  import opened Words
  import opened Tables
  import opened Devices

  datatype Outcome = Configured | InvalidDeviceState | NotOneFaultState

  // One AllowedClass of a state of an analog device
  datatype FastRule = FastRule(integrator: nat, threshold: nat, mask: set<nat>, number: nat)

  // ---- Which integrator and which threshold ----

  predicate HasBitIn(value: Word, byte: nat) {
    exists b :: b in value && 8 * byte <= b < 8 * byte + 8
  }

  // The four tests of the source, each overriding the one before; 4 for no bit at all
  method IntegratorIndex(value: Word) returns (integratorIndex: nat)
    ensures integratorIndex == 4 <==> value == ZERO
    ensures value != ZERO ==> integratorIndex == DeviceState(value, ZERO).GetIntegrator()
    ensures value != ZERO ==> HasBitIn(value, integratorIndex)
    ensures value != {} ==>
      (exists b :: b in value && b / 8 == integratorIndex) && forall b | b in value :: b / 8 <= integratorIndex
  {
    integratorIndex := 4;
    if HasBitIn(value, 0) {
      integratorIndex := 0;
    }
    if HasBitIn(value, 1) {
      integratorIndex := 1;
    }
    if HasBitIn(value, 2) {
      integratorIndex := 2;
    }
    if HasBitIn(value, 3) {
      integratorIndex := 3;
    }
    if value != ZERO {
      var b :| b in value;
      assert HasBitIn(value, b / 8);
    }
  }

  // The scan for the lowest one bit, which gives up after 32 of them
  method ThresholdIndex(value: Word) returns (found: bool, thresholdIndex: nat)
    ensures found <==> value != ZERO
    ensures found ==> Lowest(value, thresholdIndex) && thresholdIndex < 32
    ensures found ==> thresholdIndex in value && forall b | b in value :: thresholdIndex <= b
  {
    thresholdIndex := 0;
    var rest: set<nat> := value;
    var isSet := false;
    while !isSet
      invariant thresholdIndex < 32 && rest == ShiftRight(value, thresholdIndex)
      invariant forall b | b in value :: thresholdIndex <= b
      invariant isSet ==> thresholdIndex in value
      decreases 32 - thresholdIndex, !isSet
    {
      ShiftOnce(value, thresholdIndex);
      if 0 in rest {
        isSet := true;
      } else {
        thresholdIndex := thresholdIndex + 1;
        rest := ShiftRight(rest, 1);
      }
      if thresholdIndex >= 32 {
        return false, thresholdIndex;
      }
    }
    found := true;
  }

  // The lowest bit lies in the byte of the integrator exactly when all bits do.
  lemma OneByte(value: Word, low: nat)
    requires value != ZERO && Lowest(value, low)
    ensures low / 8 == DeviceState(value, ZERO).GetIntegrator() <==> forall b | b in value :: b / 8 == low / 8
  {
  }

  // ---- The rules of a fault, in the order they are compiled ----

  ghost predicate RowFits(row: FaultStateRow, masks: seq<set<nat>>) {
    forall k | 0 <= k < |row.allowedClasses| :: row.allowedClasses[k].destination < |masks|
  }

  ghost function RowRules(row: FaultStateRow, masks: seq<set<nat>>, n: nat, threshold: nat): seq<FastRule>
    requires n <= |row.allowedClasses| && RowFits(row, masks)
  {
    if n == 0 then []
    else
      var allowed := row.allowedClasses[n - 1];
      RowRules(row, masks, n - 1, threshold)
      + [FastRule(row.deviceState.GetIntegrator(), threshold, masks[allowed.destination], allowed.beamClass.number)]
  }

  ghost function LowestBit(value: Word): (t: nat)
    ensures Lowest(value, t)
  {
    if value == ZERO then 0 else LowestFrom(value, 0)
  }

  ghost function LowestFrom(value: Word, t: nat): (r: nat)
    requires value != ZERO && forall b | b in value :: t <= b
    ensures r in value && forall b | b in value :: r <= b
    decreases 32 - t
  {
    if t in value then t else LowestFrom(value, t + 1)
  }

  ghost predicate RowsFit(rows: seq<FaultStateRow>, masks: seq<set<nat>>) {
    forall s | 0 <= s < |rows| :: RowFits(rows[s], masks)
  }

  ghost function FaultRules(rows: seq<FaultStateRow>, masks: seq<set<nat>>, n: nat): seq<FastRule>
    requires n <= |rows| && RowsFit(rows, masks)
  {
    if n == 0 then []
    else
      var row := rows[n - 1];
      FaultRules(rows, masks, n - 1) + RowRules(row, masks, |row.allowedClasses|, LowestBit(row.deviceState.value))
  }

  // ---- What a list of rules compiles to ----

  ghost predicate MasksExact(masks: seq<set<nat>>, rules: seq<FastRule>) {
    && |masks| == 4
    && forall g, b: nat | 0 <= g < 4 :: b in masks[g] <==> exists r :: r in rules && r.integrator == g && b in r.mask
  }

  ghost predicate ClassesExact(classes: seq<nat>, init: seq<bool>, rules: seq<FastRule>) {
    && |classes| == |init| == 32
    && (forall t | 0 <= t < 32 :: init[t] <==> forall r | r in rules :: r.threshold != t)
    && (forall t | 0 <= t < 32 && init[t] :: classes[t] == 0)
    && (forall t | 0 <= t < 32 && !init[t] ::
          && (exists r :: r in rules && r.threshold == t && r.number == classes[t])
          && (forall r | r in rules && r.threshold == t :: classes[t] <= r.number))
  }

  // Each integrator mask is the union, and each threshold class the least, of its rules.
  ghost predicate CompiledFrom(device: AnalogDevice, rules: seq<FastRule>)
    reads device`fastDestinationMask, device`fastPowerClass, device`fastPowerClassInit
  {
    && MasksExact(device.fastDestinationMask, rules)
    && ClassesExact(device.fastPowerClass, device.fastPowerClassInit, rules)
  }

  lemma OneMoreMask(masks: seq<set<nat>>, rules: seq<FastRule>, r: FastRule)
    requires MasksExact(masks, rules) && r.integrator < 4
    ensures MasksExact(masks[r.integrator := masks[r.integrator] + r.mask], rules + [r])
  {
    var rules' := rules + [r];
    assert r in rules' && forall q :: q in rules' <==> q in rules || q == r;
  }

  lemma OneMoreClass(classes: seq<nat>, init: seq<bool>, rules: seq<FastRule>, r: FastRule)
    requires ClassesExact(classes, init, rules) && r.threshold < 32
    ensures
      var t := r.threshold;
      var lower := if init[t] || r.number < classes[t] then classes[t := r.number] else classes;
      ClassesExact(lower, init[t := false], rules + [r])
  {
    var rules' := rules + [r];
    assert r in rules' && forall q :: q in rules' <==> q in rules || q == r;
  }

  // One AllowedClass
  method CompileAllowedClass(device: AnalogDevice, r: FastRule, ghost rules: seq<FastRule>)
    requires CompiledFrom(device, rules) && r.integrator < 4 && r.threshold < 32
    modifies device`fastDestinationMask, device`fastPowerClass, device`fastPowerClassInit
    ensures CompiledFrom(device, rules + [r])
  {
    var g, t := r.integrator, r.threshold;
    OneMoreMask(device.fastDestinationMask, rules, r);
    OneMoreClass(device.fastPowerClass, device.fastPowerClassInit, rules, r);
    device.fastDestinationMask := device.fastDestinationMask[g := device.fastDestinationMask[g] + r.mask];
    if device.fastPowerClassInit[t] {
      device.fastPowerClass := device.fastPowerClass[t := r.number];
      device.fastPowerClassInit := device.fastPowerClassInit[t := false];
    } else {
      if r.number < device.fastPowerClass[t] {
        device.fastPowerClass := device.fastPowerClass[t := r.number];
      }
      assert device.fastPowerClassInit[t := false] == device.fastPowerClassInit;
    }
  }

  // One fault state
  method CompileState(device: AnalogDevice, row: FaultStateRow, masks: seq<set<nat>>, ghost rules: seq<FastRule>)
    returns (outcome: Outcome)
    requires CompiledFrom(device, rules) && RowFits(row, masks)
    modifies device`fastDestinationMask, device`fastPowerClass, device`fastPowerClassInit
    ensures outcome == if row.deviceState.value == ZERO then InvalidDeviceState else Configured
    ensures outcome == Configured ==>
      CompiledFrom(device, rules + RowRules(row, masks, |row.allowedClasses|, LowestBit(row.deviceState.value)))
  {
    hide CompiledFrom;
    var integratorIndex := IntegratorIndex(row.deviceState.value);
    if integratorIndex >= 4 {
      return InvalidDeviceState;
    }
    var found, thresholdIndex := ThresholdIndex(row.deviceState.value);
    assert thresholdIndex == LowestBit(row.deviceState.value);
    assert rules + [] == rules;
    for n := 0 to |row.allowedClasses|
      invariant CompiledFrom(device, rules + RowRules(row, masks, n, thresholdIndex))
    {
      var allowed := row.allowedClasses[n];
      var r := FastRule(integratorIndex, thresholdIndex, masks[allowed.destination], allowed.beamClass.number);
      CompileAllowedClass(device, r, rules + RowRules(row, masks, n, thresholdIndex));
      assert rules + RowRules(row, masks, n, thresholdIndex) + [r] ==
        rules + RowRules(row, masks, n + 1, thresholdIndex);
    }
    outcome := Configured;
  }

  ghost predicate StatesNonZero(rows: seq<FaultStateRow>, n: nat)
    requires n <= |rows|
  {
    forall s | 0 <= s < n :: rows[s].deviceState.value != ZERO
  }

  // A fault input of a FAST analog device
  method CompileAnalog(device: AnalogDevice, rows: seq<FaultStateRow>, masks: seq<set<nat>>, ghost rules: seq<FastRule>)
    returns (outcome: Outcome)
    requires CompiledFrom(device, rules) && RowsFit(rows, masks)
    modifies device`fastDestinationMask, device`fastPowerClass, device`fastPowerClassInit
    ensures outcome == if StatesNonZero(rows, |rows|) then Configured else InvalidDeviceState
    ensures outcome == Configured ==> CompiledFrom(device, rules + FaultRules(rows, masks, |rows|))
  {
    hide CompiledFrom;
    assert rules + [] == rules;
    for n := 0 to |rows|
      invariant StatesNonZero(rows, n) && CompiledFrom(device, rules + FaultRules(rows, masks, n))
    {
      ghost var before := rules + FaultRules(rows, masks, n);
      outcome := CompileState(device, rows[n], masks, before);
      if outcome != Configured {
        return;
      }
      assert before + RowRules(rows[n], masks, |rows[n].allowedClasses|, LowestBit(rows[n].deviceState.value))
        == rules + FaultRules(rows, masks, n + 1);
    }
    outcome := Configured;
  }

  // ---- Digital devices ----

  ghost predicate DigitalCompiledFrom(device: DigitalDevice, row: FaultStateRow, masks: seq<set<nat>>, n: nat)
    requires n <= |row.allowedClasses| && RowFits(row, masks)
    reads device`fastDestinationMask, device`fastPowerClass, device`fastExpectedState
  {
    && device.fastExpectedState == (row.deviceState.value == ZERO)
    && (forall b: nat :: b in device.fastDestinationMask <==>
          exists k :: 0 <= k < n && b in masks[row.allowedClasses[k].destination])
    && device.fastPowerClass <= 100
    && (forall k | 0 <= k < n :: device.fastPowerClass <= row.allowedClasses[k].beamClass.number)
    && (|| device.fastPowerClass == 100
        || exists k :: 0 <= k < n && device.fastPowerClass == row.allowedClasses[k].beamClass.number)
  }

  // A fault input of a FAST digital device: starts afresh each time
  method CompileDigital(device: DigitalDevice, rows: seq<FaultStateRow>, masks: seq<set<nat>>)
    returns (outcome: Outcome)
    requires RowsFit(rows, masks)
    modifies device`fastDestinationMask, device`fastPowerClass, device`fastExpectedState
    ensures outcome == if |rows| == 1 then Configured else NotOneFaultState
    ensures outcome == Configured ==> DigitalCompiledFrom(device, rows[0], masks, |rows[0].allowedClasses|)
  {
    device.fastDestinationMask, device.fastPowerClass, device.fastExpectedState := {}, 100, false;
    if |rows| != 1 {
      return NotOneFaultState;
    }
    var row := rows[0];
    if row.deviceState.value == ZERO {
      device.fastExpectedState := true;
    }
    for n := 0 to |row.allowedClasses|
      invariant DigitalCompiledFrom(device, row, masks, n)
    {
      var allowed := row.allowedClasses[n];
      device.fastDestinationMask := device.fastDestinationMask + masks[allowed.destination];
      if allowed.beamClass.number < device.fastPowerClass {
        device.fastPowerClass := allowed.beamClass.number;
      }
    }
    outcome := Configured;
  }

  // ---- All fault inputs, in the order of their ids ----

  datatype FaultInput = FaultInput(fault: nat, device: Device)

  class Configuration {
    const db: Database
    const digitalDevices: seq<DigitalDevice>
    const analogDevices: seq<AnalogDevice>
    const inputs: seq<FaultInput>

    constructor (db: Database, digitalDevices: seq<DigitalDevice>, analogDevices: seq<AnalogDevice>,
                 inputs: seq<FaultInput>)
      ensures this.db == db && this.digitalDevices == digitalDevices && this.analogDevices == analogDevices
      ensures this.inputs == inputs
    {
      this.db, this.digitalDevices, this.analogDevices, this.inputs := db, digitalDevices, analogDevices, inputs;
    }

    ghost predicate Wired() {
      && db.WellFormed()
      && |digitalDevices| == |db.digitalDevices| && |analogDevices| == |db.analogDevices|
      && (forall d | 0 <= d < |digitalDevices| :: digitalDevices[d].id == d)
      && (forall a | 0 <= a < |analogDevices| :: analogDevices[a].id == a)
      && (forall n | 0 <= n < |inputs| :: inputs[n].fault < |db.faults| && db.HasDevice(inputs[n].device))
    }

    // The rules that reach analog device a through the first n fault inputs
    ghost function RulesFor(n: nat, a: nat): seq<FastRule>
      requires Wired() && n <= |inputs|
    {
      if n == 0 then []
      else if inputs[n - 1].device == AnalogAt(a) then
        var rows := db.faults[inputs[n - 1].fault].states;
        RulesFor(n - 1, a) + FaultRules(rows, db.destinationMasks, |rows|)
      else RulesFor(n - 1, a)
    }

    // The fault a digital device is compiled for: that of its last fault input
    ghost function FaultFor(n: nat, d: nat): Option<nat>
      requires Wired() && n <= |inputs|
      ensures FaultFor(n, d).Some? ==> FaultFor(n, d).value < |db.faults|
    {
      if n == 0 then None
      else if inputs[n - 1].device == DigitalAt(d) then Some(inputs[n - 1].fault)
      else FaultFor(n - 1, d)
    }

    // What is wrong with fault input n, if anything
    ghost function Fault(n: nat): Outcome
      requires Wired() && n < |inputs|
    {
      var rows := db.faults[inputs[n].fault].states;
      match inputs[n].device
      case AnalogAt(a) =>
        if analogDevices[a].evaluation == FastEvaluation && !StatesNonZero(rows, |rows|) then InvalidDeviceState
        else Configured
      case DigitalAt(d) =>
        if digitalDevices[d].evaluation == FastEvaluation && |rows| != 1 then NotOneFaultState else Configured
    }

    ghost predicate AnalogDone(n: nat, a: nat)
      requires Wired() && n <= |inputs| && a < |analogDevices|
      reads analogDevices[a]
    {
      CompiledFrom(analogDevices[a], if analogDevices[a].evaluation == FastEvaluation then RulesFor(n, a) else [])
    }

    ghost predicate DigitalDone(n: nat, d: nat)
      requires Wired() && n <= |inputs| && d < |digitalDevices|
      reads digitalDevices[d]
    {
      digitalDevices[d].evaluation == FastEvaluation && FaultFor(n, d).Some? ==>
        var rows := db.faults[FaultFor(n, d).value].states;
        |rows| == 1 && DigitalCompiledFrom(digitalDevices[d], rows[0], db.destinationMasks, |rows[0].allowedClasses|)
    }

    ghost predicate AllDone(n: nat)
      requires Wired() && n <= |inputs|
      reads analogDevices, digitalDevices
    {
      && (forall a | 0 <= a < |analogDevices| :: AnalogDone(n, a))
      && (forall d | 0 <= d < |digitalDevices| :: DigitalDone(n, d))
    }

    // A digital device that is not FAST, or that no fault input names, keeps its fields.
    twostate predicate OthersKept(n: nat)
      requires Wired() && n <= |inputs|
      reads digitalDevices`fastDestinationMask, digitalDevices`fastPowerClass, digitalDevices`fastExpectedState
    {
      forall d |
        0 <= d < |digitalDevices| && (digitalDevices[d].evaluation != FastEvaluation || FaultFor(n, d).None?) ::
        && digitalDevices[d].fastDestinationMask == old(digitalDevices[d].fastDestinationMask)
        && digitalDevices[d].fastPowerClass == old(digitalDevices[d].fastPowerClass)
        && digitalDevices[d].fastExpectedState == old(digitalDevices[d].fastExpectedState)
    }

    method ConfigureFaultInput(n: nat) returns (outcome: Outcome)
      requires Wired() && n < |inputs|
      requires AllDone(n)
      modifies analogDevices`fastDestinationMask, analogDevices`fastPowerClass, analogDevices`fastPowerClassInit
      modifies digitalDevices`fastDestinationMask, digitalDevices`fastPowerClass, digitalDevices`fastExpectedState
      ensures outcome == Fault(n)
      ensures outcome == Configured ==> AllDone(n + 1)
      ensures OthersKept(n + 1)
    {
      hide CompiledFrom, DigitalCompiledFrom, FaultRules;
      var rows := db.faults[inputs[n].fault].states;
      outcome := Configured;
      match inputs[n].device
      case AnalogAt(v) =>
        if analogDevices[v].evaluation == FastEvaluation {
          assert AnalogDone(n, v);
          outcome := CompileAnalog(analogDevices[v], rows, db.destinationMasks, RulesFor(n, v));
        }
        ghost var next := n + 1;
        forall a | 0 <= a < |analogDevices| && outcome == Configured ensures AnalogDone(next, a) {
          assert old(AnalogDone(n, a)) && (a != v ==> analogDevices[a].id != analogDevices[v].id);
        }
        forall d | 0 <= d < |digitalDevices| ensures DigitalDone(next, d) {
          assert old(DigitalDone(n, d));
        }
      case DigitalAt(v) =>
        if digitalDevices[v].evaluation == FastEvaluation {
          outcome := CompileDigital(digitalDevices[v], rows, db.destinationMasks);
        }
        ghost var next := n + 1;
        forall d | 0 <= d < |digitalDevices| && outcome == Configured ensures DigitalDone(next, d) {
          assert old(DigitalDone(n, d)) && (d != v ==> digitalDevices[d].id != digitalDevices[v].id);
        }
        forall a | 0 <= a < |analogDevices| ensures AnalogDone(next, a) {
          assert old(AnalogDone(n, a));
        }
    }

    // The first fault input that cannot be compiled decides the outcome; without one,
    // every FAST device ends up with exactly the rules of its faults.
    method ConfigureFaultInputs() returns (outcome: Outcome, ghost done: nat)
      requires Wired() && forall a | 0 <= a < |analogDevices| :: CompiledFrom(analogDevices[a], [])
      modifies analogDevices`fastDestinationMask, analogDevices`fastPowerClass, analogDevices`fastPowerClassInit
      modifies digitalDevices`fastDestinationMask, digitalDevices`fastPowerClass, digitalDevices`fastExpectedState
      ensures done <= |inputs| && forall n | 0 <= n < done :: Fault(n) == Configured
      ensures outcome == if done < |inputs| then Fault(done) else Configured
      ensures done < |inputs| ==> outcome != Configured
      ensures outcome == Configured ==> AllDone(|inputs|) && OthersKept(|inputs|)
    {
      hide CompiledFrom, DigitalCompiledFrom, FaultRules, Fault;
      done := 0;
      for n := 0 to |inputs|
        invariant done == n && forall m | 0 <= m < n :: Fault(m) == Configured
        invariant AllDone(n) && OthersKept(n)
      {
        outcome := ConfigureFaultInput(n);
        if outcome != Configured {
          return;
        }
        done := n + 1;
      }
      outcome := Configured;
    }
  }
}
