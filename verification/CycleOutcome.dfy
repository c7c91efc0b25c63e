// What a cycle leaves, field by field: Engine::checkFaults (src/central_node_engine.cc) in
// terms of the rows of the configuration and the fields of the objects alone.
module CycleOutcome {
  import opened Words
  import opened Bypass
  import opened Tables
  import opened Devices
  import opened CycleRules
  import opened EvaluationCycle
  import IntegratorRules
  import MitigationRules
  import MitigationWords

  // ---- Values ----

  // The engine evaluates a device that has a card and an evaluation.
  predicate Looked(row: DeviceRow) {
    row.cardId != 1000 && row.evaluation != NoEvaluation
  }

  // A valid bypass stands in for the latched value of an input.
  ghost predicate InputHas(x: DeviceInput, b: nat)
    reads x, x.bypass
  {
    if x.bypass.status == BypassValid then b in x.bypass.value else b in x.latchedValue
  }

  // A digital device has bit b when one of its inputs supplies it at its position.
  ghost predicate DigitalHas(e: Engine, d: nat, b: nat)
    requires e.Wired() && d < |e.digitalDevices|
    reads *
  {
    var bits := e.db.digitalDevices[d].inputBits;
    b < 32 && exists k :: 0 <= k < |bits| && bits[k] <= b && InputHas(e.digitalDevices[d].inputDevices[k], b - bits[k])
  }

  ghost predicate DigitalValues(e: Engine)
    requires e.Wired()
    reads *
  {
    forall d | 0 <= d < |e.digitalDevices| && Looked(e.db.digitalDevices[d]) ::
      forall b: nat :: b in e.digitalDevices[d].value <==> DigitalHas(e, d, b)
  }

  // An analog device has the thresholds that are latched and not masked by a bypass.
  ghost predicate DeviceHas(e: Engine, v: Device, b: nat)
    requires e.Wired() && e.db.HasDevice(v)
    reads *
  {
    match v
    case DigitalAt(d) => b in e.digitalDevices[d].value
    case AnalogAt(a) => b in e.analogDevices[a].latchedValue && b in e.analogDevices[a].bypassMask.bits
  }

  ghost predicate FaultHas(e: Engine, f: nat, b: nat)
    requires e.Wired() && f < |e.faults|
    reads *
  {
    var inputs := e.db.faults[f].inputs;
    b < 32 && exists k ::
      0 <= k < |inputs| && inputs[k].bitPosition <= b && DeviceHas(e, inputs[k].device, b - inputs[k].bitPosition)
  }

  ghost predicate FaultValues(e: Engine)
    requires e.Wired()
    reads *
  {
    forall f | 0 <= f < |e.faults| :: forall b: nat :: b in e.faults[f].value <==> FaultHas(e, f, b)
  }

  lemma DigitalValuesHold(e: Engine, snap: Snapshot)
    requires e.Wired() && Fits(e.db, snap) && e.DigitalValuesAgree(snap)
    requires forall d | 0 <= d < |e.digitalDevices| :: e.InputsAgree(d, snap)
    ensures DigitalValues(e)
  {
    forall d, b: nat | 0 <= d < |e.digitalDevices| && Looked(e.db.digitalDevices[d])
      ensures b in e.digitalDevices[d].value <==> DigitalHas(e, d, b)
    {
      var bits, inputs := e.db.digitalDevices[d].inputBits, snap.digital[d].inputs;
      GatherBit(inputs, bits, |inputs|, b);
      assert e.InputsAgree(d, snap);
      assert forall k | 0 <= k < |bits| && bits[k] <= b ::
        b - bits[k] in InputValue(inputs[k]) <==> InputHas(e.digitalDevices[d].inputDevices[k], b - bits[k]);
    }
  }

  lemma FaultValuesHold(e: Engine, snap: Snapshot)
    requires e.Wired() && Fits(e.db, snap) && e.DigitalValuesAgree(snap) && e.ThresholdsAgree(snap)
    requires e.FaultsEvaluated(snap)
    ensures FaultValues(e)
  {
    hide AnyMatch, RestrictionAmong, DigitalValue;
    forall f, b: nat | 0 <= f < |e.faults| ensures b in e.faults[f].value <==> FaultHas(e, f, b) {
      var inputs := e.db.faults[f].inputs;
      CombineBit(e.db, snap, f, |inputs|, b);
      forall k | 0 <= k < |inputs| && inputs[k].bitPosition <= b
        ensures b - inputs[k].bitPosition in DeviceValue(e.db, snap, inputs[k].device) <==>
          DeviceHas(e, inputs[k].device, b - inputs[k].bitPosition)
      {
      }
      assert forall k | 0 <= k < |inputs| :: HasBitFrom(e.db, snap, f, k, b) <==>
        (inputs[k].bitPosition <= b && DeviceHas(e, inputs[k].device, b - inputs[k].bitPosition));
    }
  }

  // ---- Fault states ----

  // The value of the fault under the mask of the state is the value of the state.
  ghost predicate StateMatches(e: Engine, f: nat, s: nat)
    requires e.Wired() && f < |e.faults| && s < |e.db.faults[f].states|
    reads e.faults`value
  {
    var state := e.db.faults[f].states[s].deviceState;
    forall b: nat :: b in state.value <==> b in state.mask && b in e.faults[f].value
  }

  ghost predicate FaultsMatched(e: Engine)
    requires e.Wired()
    reads e.faults`faulted, e.faults`value, e.faults`faultedDisplay
  {
    forall f | 0 <= f < |e.faults| ::
      && (e.faults[f].faulted <==> exists s :: 0 <= s < |e.db.faults[f].states| && StateMatches(e, f, s))
      && (e.faults[f].faultedDisplay <==> exists s, k ::
            && 0 <= s < |e.db.faults[f].states| && 0 <= k < |e.db.faults[f].states[s].allowedClasses|
            && StateMatches(e, f, s)
            && e.db.faults[f].states[s].allowedClasses[k].beamClass.number < e.db.highestBeamClass.number)
  }

  // A state is faulted when it matches, or when it is the default state of its fault and no
  // fault up to this one has a match.
  ghost predicate StatesMarked(e: Engine)
    requires e.Wired()
    reads e.faults`value, e.faults`faulted, e.states`faulted
  {
    forall f, s | 0 <= f < |e.faults| && 0 <= s < |e.faults[f].faultStates| ::
      e.faults[f].faultStates[s].faulted <==>
        || StateMatches(e, f, s)
        || (e.db.faults[f].defaultState == Some(s) && forall g | 0 <= g <= f :: !e.faults[g].faulted)
  }

  lemma MatchIsBitwise(e: Engine, snap: Snapshot, f: nat, s: nat)
    requires e.Wired() && Fits(e.db, snap) && f < |e.faults| && s < |e.db.faults[f].states|
    requires e.faults[f].value == FaultValue(e.db, snap, f)
    ensures Matches(e.db, snap, f, s) <==> StateMatches(e, f, s)
  {
    hide FaultValue;
    var state := e.db.faults[f].states[s].deviceState;
    if StateMatches(e, f, s) {
      assert state.value == And(e.faults[f].value, state.mask);
    }
  }

  lemma FaultsMatchedHold(e: Engine, snap: Snapshot)
    requires e.Wired() && Fits(e.db, snap) && e.FaultsEvaluated(snap)
    ensures FaultsMatched(e)
  {
    hide FaultValue, Matches, StateMatches;
    forall f, s: nat | 0 <= f < |e.faults| && s < |e.db.faults[f].states|
      ensures Matches(e.db, snap, f, s) <==> StateMatches(e, f, s)
    {
      MatchIsBitwise(e, snap, f, s);
    }
    forall f | 0 <= f < |e.faults|
      ensures e.faults[f].faulted <==> exists s :: 0 <= s < |e.db.faults[f].states| && StateMatches(e, f, s)
      ensures e.faults[f].faultedDisplay <==> exists s, k ::
        && 0 <= s < |e.db.faults[f].states| && 0 <= k < |e.db.faults[f].states[s].allowedClasses|
        && StateMatches(e, f, s)
        && e.db.faults[f].states[s].allowedClasses[k].beamClass.number < e.db.highestBeamClass.number
    {
      DisplayHolds(e, snap, f);
    }
  }

  lemma DisplayHolds(e: Engine, snap: Snapshot, f: nat)
    requires e.Wired() && Fits(e.db, snap) && f < |e.faults|
    requires forall s: nat | s < |e.db.faults[f].states| :: Matches(e.db, snap, f, s) <==> StateMatches(e, f, s)
    ensures AnyMatch(e.db, snap, f) <==> exists s :: 0 <= s < |e.db.faults[f].states| && StateMatches(e, f, s)
    ensures RestrictionAmong(e.db, snap, f, |e.db.faults[f].states|) <==> exists s, k ::
      && 0 <= s < |e.db.faults[f].states| && 0 <= k < |e.db.faults[f].states[s].allowedClasses|
      && StateMatches(e, f, s)
      && e.db.faults[f].states[s].allowedClasses[k].beamClass.number < e.db.highestBeamClass.number
  {
    hide Matches, StateMatches;
    var rows := e.db.faults[f].states;
    forall s | 0 <= s < |rows|
      ensures Restricts(e.db, f, s) <==> exists k ::
        0 <= k < |rows[s].allowedClasses| && rows[s].allowedClasses[k].beamClass.number < e.db.highestBeamClass.number
    {
      assert forall k | 0 <= k < |rows[s].allowedClasses| :: rows[s].allowedClasses[k] in rows[s].allowedClasses;
    }
  }

  lemma StatesMarkedHold(e: Engine, snap: Snapshot)
    requires e.Wired() && Fits(e.db, snap) && e.FaultsEvaluated(snap)
    requires forall r | e.db.HasState(r) :: e.State(r).faulted == StateFaulted(e.db, snap, r)
    ensures StatesMarked(e)
  {
    hide FaultValue, Matches, StateMatches, AnyMatch, RestrictionAmong;
    forall f, s | 0 <= f < |e.faults| && 0 <= s < |e.faults[f].faultStates|
      ensures e.faults[f].faultStates[s].faulted <==>
        || StateMatches(e, f, s)
        || (e.db.faults[f].defaultState == Some(s) && forall g | 0 <= g <= f :: !e.faults[g].faulted)
    {
      MatchIsBitwise(e, snap, f, s);
      assert e.db.HasState(StateRef(f, s)) && e.State(StateRef(f, s)) == e.faults[f].faultStates[s];
    }
  }

  // A state of value zero, such as a switch that is in neither position, is faulted while
  // none of its bits is supplied by an input.
  lemma ZeroState(e: Engine, f: nat, s: nat)
    requires e.Wired() && FaultValues(e) && StatesMarked(e) && f < |e.faults| && s < |e.faults[f].faultStates|
    requires e.db.faults[f].states[s].deviceState.value == {} && e.db.faults[f].defaultState != Some(s)
    ensures e.faults[f].faultStates[s].faulted <==>
      forall b | b in e.db.faults[f].states[s].deviceState.mask :: !FaultHas(e, f, b)
  {
    hide FaultHas;
  }

  // With one digital device of one input, both at position zero, and a full mask: while the
  // input reads zero.
  lemma ZeroStateOfSwitch(e: Engine, f: nat, s: nat, d: nat)
    requires e.Wired() && DigitalValues(e) && FaultValues(e) && StatesMarked(e)
    requires f < |e.faults| && s < |e.faults[f].faultStates| && d < |e.digitalDevices|
    requires e.db.faults[f].inputs == [FaultInputRow(0, DigitalAt(d))] && Looked(e.db.digitalDevices[d])
    requires e.db.digitalDevices[d].inputBits == [0] && e.db.faults[f].defaultState != Some(s)
    requires e.db.faults[f].states[s].deviceState.value == {}
    requires forall b: nat | b < 32 :: b in e.db.faults[f].states[s].deviceState.mask
    ensures e.faults[f].faultStates[s].faulted <==> forall b: nat :: !InputHas(e.digitalDevices[d].inputDevices[0], b)
  {
    hide InputHas;
    ZeroState(e, f, s);
    var x := e.digitalDevices[d].inputDevices[0];
    forall b: nat ensures b < 32 ==> (FaultHas(e, f, b) <==> InputHas(x, b)) {
      OneInputHas(e, f, d, b);
    }
    hide FaultHas;
    assert forall b: nat | 32 <= b :: !InputHas(x, b) by { WordsAreShort(x); }
  }

  lemma OneInputHas(e: Engine, f: nat, d: nat, b: nat)
    requires e.Wired() && DigitalValues(e) && f < |e.faults| && d < |e.digitalDevices|
    requires e.db.faults[f].inputs == [FaultInputRow(0, DigitalAt(d))] && Looked(e.db.digitalDevices[d])
    requires e.db.digitalDevices[d].inputBits == [0]
    ensures FaultHas(e, f, b) <==> b < 32 && InputHas(e.digitalDevices[d].inputDevices[0], b)
  {
    hide InputHas;
    var inputs, bits := e.db.faults[f].inputs, e.db.digitalDevices[d].inputBits;
    assert inputs[0] == FaultInputRow(0, DigitalAt(d)) && bits[0] == 0;
    assert b in e.digitalDevices[d].value <==> DigitalHas(e, d, b);
  }

  lemma WordsAreShort(x: DeviceInput)
    ensures forall b: nat | 32 <= b :: !InputHas(x, b)
  {
  }

  // ---- Conditions and what they ignore ----

  // A condition is met when the bits of its mask are those at which an input state is faulted.
  ghost predicate ConditionsMet(e: Engine)
    requires e.Wired()
    reads e.conditions`state, e.states`faulted
  {
    forall c | 0 <= c < |e.conditions| ::
      e.conditions[c].state <==> forall b: nat :: b in e.db.conditions[c].mask <==> b < 32 && FaultedAt(e, c, b)
  }

  ghost predicate FaultedAt(e: Engine, c: nat, b: nat)
    requires e.Wired() && c < |e.conditions|
    reads e.states`faulted
  {
    exists k :: 0 <= k < |e.db.conditions[c].inputs| && e.db.conditions[c].inputs[k].bitPosition == b
      && e.State(e.db.conditions[c].inputs[k].faultState).faulted
  }

  // Row i of a condition that is met
  ghost predicate InForce(e: Engine, c: nat, i: nat)
    requires e.Wired()
    reads e.conditions`state
  {
    c < |e.conditions| && e.conditions[c].state && i < |e.db.conditions[c].ignoreConditions|
  }

  // A fault state is ignored when a row in force names it.
  ghost predicate StatesIgnored(e: Engine)
    requires e.Wired()
    reads e.conditions`state, e.states`ignored
  {
    forall f, s | 0 <= f < |e.faults| && 0 <= s < |e.faults[f].faultStates| ::
      e.faults[f].faultStates[s].ignored <==> exists c: nat, i: nat ::
        InForce(e, c, i) && e.db.conditions[c].ignoreConditions[i].faultState == Some(StateRef(f, s))
  }

  // A digital device is ignored when its card is not active or a row in force names it ...
  ghost predicate DigitalNamed(e: Engine, d: nat)
    requires e.Wired()
    reads e.conditions`state
  {
    exists c: nat, i: nat :: InForce(e, c, i) && e.db.conditions[c].ignoreConditions[i].device == Some(DigitalAt(d))
  }

  // ... and an analog device when that row has no fault state beside it.
  ghost predicate AnalogNamed(e: Engine, a: nat)
    requires e.Wired()
    reads e.conditions`state
  {
    exists c: nat, i: nat :: InForce(e, c, i)
      && e.db.conditions[c].ignoreConditions[i].device == Some(AnalogAt(a))
      && e.db.conditions[c].ignoreConditions[i].faultState == None
  }

  lemma ConditionsMetHold(e: Engine, snap: Snapshot)
    requires e.Wired() && Fits(e.db, snap) && e.ConditionsDecided(snap)
    requires forall r | e.db.HasState(r) :: e.State(r).faulted == StateFaulted(e.db, snap, r)
    ensures ConditionsMet(e)
  {
    hide StateFaulted, ConditionMet, ConditionHasBit, FaultedAt;
    forall c | 0 <= c < |e.conditions|
      ensures e.conditions[c].state <==> forall b: nat :: b in e.db.conditions[c].mask <==> b < 32 && FaultedAt(e, c, b)
    {
      ConditionMetWhen(e.db, snap, c);
      forall b: nat ensures ConditionHasBit(e.db, snap, c, |e.db.conditions[c].inputs|, b) <==> FaultedAt(e, c, b) {
        SuppliedAt(e, snap, c, b);
      }
    }
  }

  lemma SuppliedAt(e: Engine, snap: Snapshot, c: nat, b: nat)
    requires e.Wired() && Fits(e.db, snap) && c < |e.conditions|
    requires forall r | e.db.HasState(r) :: e.State(r).faulted == StateFaulted(e.db, snap, r)
    ensures ConditionHasBit(e.db, snap, c, |e.db.conditions[c].inputs|, b) <==> FaultedAt(e, c, b)
  {
    hide StateFaulted;
  }

  lemma RowsInForce(e: Engine, snap: Snapshot)
    requires e.Wired() && Fits(e.db, snap) && e.ConditionsDecided(snap)
    ensures forall r: StateRef :: StateIgnored(e.db, Conditions(e.db, snap), r) <==> exists c: nat, i: nat ::
      InForce(e, c, i) && e.db.conditions[c].ignoreConditions[i].faultState == Some(r)
    ensures forall d: nat :: DeviceNamed(e.db, Conditions(e.db, snap), DigitalAt(d)) <==> DigitalNamed(e, d)
    ensures forall a: nat :: DeviceNamed(e.db, Conditions(e.db, snap), AnalogAt(a)) <==> AnalogNamed(e, a)
  {
    hide ConditionMet;
    var met := Conditions(e.db, snap);
    assert forall c: nat, i: nat :: InForce(e, c, i) <==>
      c < |met| && met[c] && i < |e.db.conditions[c].ignoreConditions|;
  }

  lemma StatesIgnoredHold(e: Engine, snap: Snapshot)
    requires e.Wired() && Fits(e.db, snap) && e.ConditionsDecided(snap) && e.StatesDecided(snap)
    ensures StatesIgnored(e)
  {
    hide StateFaulted, StateIgnored, ConditionMet;
    RowsInForce(e, snap);
    forall f, s | 0 <= f < |e.faults| && 0 <= s < |e.faults[f].faultStates|
      ensures e.faults[f].faultStates[s].ignored == StateIgnored(e.db, Conditions(e.db, snap), StateRef(f, s))
    {
      assert e.db.HasState(StateRef(f, s)) && e.State(StateRef(f, s)) == e.faults[f].faultStates[s];
    }
  }

  // Devices start ignored when their card is not active; a device the engine leaves alone
  // starts with the flag it had.
  ghost predicate DevicesIgnored(e: Engine, digital: seq<bool>, analog: seq<bool>)
    requires e.Wired() && |digital| == |e.digitalDevices| && |analog| == |e.analogDevices|
    reads e.conditions`state, e.digitalDevices`ignored, e.digitalDevices`modeActive
    reads e.analogDevices`ignored, e.analogDevices`modeActive
  {
    && (forall d | 0 <= d < |e.digitalDevices| :: e.digitalDevices[d].ignored <==>
          || DigitalNamed(e, d)
          || (if Looked(e.db.digitalDevices[d]) then !e.digitalDevices[d].modeActive else digital[d]))
    && (forall a | 0 <= a < |e.analogDevices| :: e.analogDevices[a].ignored <==>
          || AnalogNamed(e, a)
          || (if Looked(e.db.analogDevices[a]) then !e.analogDevices[a].modeActive else analog[a]))
  }

  lemma DevicesIgnoredHold(e: Engine, snap: Snapshot, digital: seq<bool>, analog: seq<bool>)
    requires e.Wired() && Fits(e.db, snap) && e.ConditionsDecided(snap) && e.DevicesDecided(snap) && e.ModesAgree(snap)
    requires |digital| == |e.digitalDevices| && |analog| == |e.analogDevices|
    requires forall d | 0 <= d < |digital| && !Looked(e.db.digitalDevices[d]) ::
      snap.digital[d].heldIgnored == digital[d]
    requires forall a | 0 <= a < |analog| && !Looked(e.db.analogDevices[a]) :: snap.analog[a].heldIgnored == analog[a]
    ensures DevicesIgnored(e, digital, analog)
  {
    hide DeviceNamed, ConditionMet, DigitalNamed, AnalogNamed;
    RowsInForce(e, snap);
  }

  // An analog device that rows in force name beside fault states alone keeps the flag it
  // started with.
  lemma BesideStatesAlone(e: Engine, digital: seq<bool>, analog: seq<bool>, a: nat)
    requires e.Wired() && |digital| == |e.digitalDevices| && |analog| == |e.analogDevices|
    requires DevicesIgnored(e, digital, analog) && a < |e.analogDevices|
    requires forall c: nat, i: nat |
        InForce(e, c, i) && e.db.conditions[c].ignoreConditions[i].device == Some(AnalogAt(a)) ::
        e.db.conditions[c].ignoreConditions[i].faultState.Some?
    ensures e.analogDevices[a].ignored ==
      if Looked(e.db.analogDevices[a]) then !e.analogDevices[a].modeActive else analog[a]
  {
  }

  // ---- Faults ----

  ghost predicate OutOfService(e: Engine, v: Device)
    requires e.Wired() && e.db.HasDevice(v)
    reads e.digitalDevices`ignored, e.digitalDevices`modeActive, e.analogDevices`ignored, e.analogDevices`modeActive
  {
    match v
    case DigitalAt(d) => e.digitalDevices[d].ignored || !e.digitalDevices[d].modeActive
    case AnalogAt(a) => e.analogDevices[a].ignored || !e.analogDevices[a].modeActive
  }

  ghost predicate OnCardOffline(e: Engine, v: Device)
    requires e.Wired() && e.db.HasDevice(v)
    reads e.digitalDevices`faultedOffline, e.analogDevices`faultedOffline
  {
    match v
    case DigitalAt(d) => e.digitalDevices[d].faultedOffline
    case AnalogAt(a) => e.analogDevices[a].faultedOffline
  }

  ghost predicate OnCardActive(e: Engine, v: Device)
    requires e.Wired() && e.db.HasDevice(v)
    reads e.digitalDevices`modeActive, e.analogDevices`modeActive
  {
    match v
    case DigitalAt(d) => e.digitalDevices[d].modeActive
    case AnalogAt(a) => e.analogDevices[a].modeActive
  }

  ghost predicate FaultsSet(e: Engine)
    requires e.Wired()
    reads e.faults`ignored, e.faults`faultedOffline, e.faults`faultActive
    reads e.digitalDevices`ignored, e.digitalDevices`modeActive, e.digitalDevices`faultedOffline
    reads e.analogDevices`ignored, e.analogDevices`modeActive, e.analogDevices`faultedOffline
  {
    forall f | 0 <= f < |e.faults| ::
      var inputs := e.db.faults[f].inputs;
      var last := |inputs| - 1;
      && (e.faults[f].ignored <==> exists k :: 0 <= k < |inputs| && OutOfService(e, inputs[k].device))
      && (e.faults[f].faultedOffline <==> inputs != [] && OnCardOffline(e, inputs[last].device))
      && (e.faults[f].faultActive <==> inputs == [] || OnCardActive(e, inputs[last].device))
  }

  lemma FaultsSetHold(e: Engine, snap: Snapshot)
    requires e.Wired() && Fits(e.db, snap) && e.DevicesDecided(snap) && e.ModesAgree(snap)
    requires forall f | 0 <= f < |e.faults| :: e.FaultDecided(f, snap)
    ensures FaultsSet(e)
  {
    hide DeviceIgnored;
    forall v | e.db.HasDevice(v)
      ensures OutOfPlay(e.db, snap, v) <==> OutOfService(e, v)
      ensures Offline(e.db, snap, v) <==> OnCardOffline(e, v)
      ensures Active(e.db, snap, v) <==> OnCardActive(e, v)
    {
    }
    hide OutOfPlay, Offline, Active, OutOfService, OnCardOffline, OnCardActive;
    forall f | 0 <= f < |e.faults|
      ensures
        var inputs := e.db.faults[f].inputs;
        var last := |inputs| - 1;
        && (e.faults[f].ignored <==> exists k :: 0 <= k < |inputs| && OutOfService(e, inputs[k].device))
        && (e.faults[f].faultedOffline <==> inputs != [] && OnCardOffline(e, inputs[last].device))
        && (e.faults[f].faultActive <==> inputs == [] || OnCardActive(e, inputs[last].device))
    {
      assert e.FaultDecided(f, snap);
    }
  }

  // ---- Classes ----

  // AllowedClass k of state s of fault f limits its destination: the fault is slow, online
  // and not ignored, and the state is faulted and not ignored.
  ghost predicate Limiting(e: Engine, f: nat, s: nat, k: nat)
    requires e.Wired()
    reads e.faults`ignored, e.faults`faultedOffline, e.states`faulted, e.states`ignored
  {
    && f < |e.faults| && s < |e.faults[f].faultStates| && k < |e.db.faults[f].states[s].allowedClasses|
    && e.db.faults[f].evaluation == SlowEvaluation && !e.faults[f].faultedOffline && !e.faults[f].ignored
    && e.faults[f].faultStates[s].faulted && !e.faults[f].faultStates[s].ignored
  }

  // Every destination is allowed the least of the highest class, the class of every limiting
  // rule for it, and the permits set on it.
  ghost predicate LeastClass(e: Engine, i: nat)
    requires e.Wired() && i < |e.destinations|
    reads e.faults`ignored, e.faults`faultedOffline, e.states`faulted, e.states`ignored
    reads e.destinations`allowedBeamClass, e.destinations`forceBeamClass, e.destinations`maxPermit
    reads e.destinations`softPermit
  {
    var d, n := e.destinations[i], e.destinations[i].allowedBeamClass.number;
    && n <= e.db.highestBeamClass.number
    && (forall f: nat, s: nat, k: nat | Limiting(e, f, s, k) ::
          e.db.faults[f].states[s].allowedClasses[k].destination == i ==>
            n <= e.db.faults[f].states[s].allowedClasses[k].beamClass.number)
    && (d.forceBeamClass.Some? ==> n <= d.forceBeamClass.value.number)
    && (d.maxPermit.Some? ==> n <= d.maxPermit.value.number)
    && (d.softPermit.Some? ==> n <= d.softPermit.value.number)
    && (|| n == e.db.highestBeamClass.number
        || (exists f: nat, s: nat, k: nat :: Limiting(e, f, s, k)
              && e.db.faults[f].states[s].allowedClasses[k].destination == i
              && e.db.faults[f].states[s].allowedClasses[k].beamClass.number == n)
        || (d.forceBeamClass.Some? && n == d.forceBeamClass.value.number)
        || (d.maxPermit.Some? && n == d.maxPermit.value.number)
        || (d.softPermit.Some? && n == d.softPermit.value.number))
  }

  lemma RuleIsLimiting(e: Engine, snap: Snapshot, f: nat, s: nat, k: nat)
    requires e.Wired() && Fits(e.db, snap) && e.StatesDecided(snap)
    requires forall g | 0 <= g < |e.faults| :: e.FaultDecided(g, snap)
    ensures Limiting(e, f, s, k) <==>
      HasRule(e.db, RuleRef(StateRef(f, s), k)) && RuleApplies(e.db, snap, RuleRef(StateRef(f, s), k))
  {
    hide StateFaulted, StateIgnored, FaultIgnored, FaultOffline, FaultActive, ConditionMet;
    if HasRule(e.db, RuleRef(StateRef(f, s), k)) {
      assert e.FaultDecided(f, snap) && e.State(StateRef(f, s)) == e.faults[f].faultStates[s];
    }
  }

  lemma LeastClassHolds(e: Engine, snap: Snapshot, i: nat)
    requires e.Wired() && Fits(e.db, snap) && e.StatesDecided(snap) && i < |e.destinations|
    requires LeastLimit(e.db, snap, i, e.destinations[i].allowedBeamClass.number) && e.PermitsAgree(snap)
    requires forall f | 0 <= f < |e.faults| :: e.FaultDecided(f, snap)
    ensures LeastClass(e, i)
  {
    hide RuleApplies, Limiting, Engine.StatesDecided, Engine.FaultDecided, RuleLimit;
    forall f: nat, s: nat, k: nat
      ensures Limiting(e, f, s, k) <==>
        HasRule(e.db, RuleRef(StateRef(f, s), k)) && RuleApplies(e.db, snap, RuleRef(StateRef(f, s), k))
    {
      RuleIsLimiting(e, snap, f, s, k);
    }
    var d, n := e.destinations[i], e.destinations[i].allowedBeamClass.number;
    assert PermitSnap(d.forceBeamClass, d.maxPermit, d.softPermit) == snap.permits[i];
    assert Limit(e.db, snap, i, e.db.highestBeamClass.number);
    LimitingRules(e, snap, i, n);
    forall f: nat, s: nat, k: nat | Limiting(e, f, s, k) && e.db.faults[f].states[s].allowedClasses[k].destination == i
      ensures n <= e.db.faults[f].states[s].allowedClasses[k].beamClass.number
    {
      LimitingRules(e, snap, i, e.db.faults[f].states[s].allowedClasses[k].beamClass.number);
      assert Limit(e.db, snap, i, e.db.faults[f].states[s].allowedClasses[k].beamClass.number);
    }
    assert d.forceBeamClass.Some? ==> Limit(e.db, snap, i, d.forceBeamClass.value.number);
    assert d.maxPermit.Some? ==> Limit(e.db, snap, i, d.maxPermit.value.number);
    assert d.softPermit.Some? ==> Limit(e.db, snap, i, d.softPermit.value.number);
  }

  lemma LimitingRules(e: Engine, snap: Snapshot, i: nat, n: nat)
    requires e.Wired() && Fits(e.db, snap)
    requires forall f: nat, s: nat, k: nat :: Limiting(e, f, s, k) <==>
      HasRule(e.db, RuleRef(StateRef(f, s), k)) && RuleApplies(e.db, snap, RuleRef(StateRef(f, s), k))
    ensures RuleLimit(e.db, snap, i, n) <==> exists f: nat, s: nat, k: nat ::
      && Limiting(e, f, s, k) && e.db.faults[f].states[s].allowedClasses[k].destination == i
      && e.db.faults[f].states[s].allowedClasses[k].beamClass.number == n
  {
    hide RuleApplies;
    if RuleLimit(e.db, snap, i, n) {
      var r :| HasRule(e.db, r) && RuleApplies(e.db, snap, r)
        && Rule(e.db, r).destination == i && Rule(e.db, r).beamClass.number == n;
      assert r == RuleRef(StateRef(r.at.fault, r.at.state), r.allowed);
      assert Limiting(e, r.at.fault, r.at.state, r.allowed);
    }
  }

  // The first word has the classes of the destinations with bits 8 to 15, four bits each,
  // and the second those with bits 0 to 7.
  ghost predicate BufferWritten(e: Engine)
    requires e.Wired()
    reads e`softwareMitigationBuffer, e.destinations`allowedBeamClass
  {
    && |e.softwareMitigationBuffer| == 2
    && (forall b: nat :: b in e.softwareMitigationBuffer[0] <==> b < 32 && ClassBitAt(e, 8 + b / 4, b % 4))
    && (forall b: nat :: b in e.softwareMitigationBuffer[1] <==> b < 32 && ClassBitAt(e, b / 4, b % 4))
  }

  // Some destination with mask bit k has a class with bit j.
  ghost predicate ClassBitAt(e: Engine, k: nat, j: nat)
    requires e.Wired() && j < 4
    reads e.destinations`allowedBeamClass
  {
    exists i :: 0 <= i < |e.destinations| && k in e.db.destinationMasks[i]
      && NibbleBit(e.destinations[i].allowedBeamClass.number, j)
  }

  lemma BufferWrittenHolds(e: Engine, snap: Snapshot, numbers: seq<nat>)
    requires e.Wired() && Fits(e.db, snap) && e.Limited(snap, numbers)
    ensures BufferWritten(e)
  {
    hide LeastLimit, NibbleBit;
    forall k: nat, j: nat | j < 4
      ensures MitigationWords.RaisedBy(e.db.destinationMasks, numbers, |numbers|, k, j) <==> ClassBitAt(e, k, j)
    {
      RaisedAt(e, numbers, k, j);
    }
    hide ClassBitAt, MitigationWords.RaisedBy;
    assert forall w: Word, b: nat | b in w :: b < 32;
  }

  lemma RaisedAt(e: Engine, numbers: seq<nat>, k: nat, j: nat)
    requires e.Wired() && |numbers| == |e.destinations| && j < 4
    requires forall i | 0 <= i < |numbers| :: e.destinations[i].allowedBeamClass.number == numbers[i]
    ensures MitigationWords.RaisedBy(e.db.destinationMasks, numbers, |numbers|, k, j) <==> ClassBitAt(e, k, j)
  {
    hide NibbleBit;
  }

  // ---- What an operator is shown ----

  // AllowedClass k of state s counts for the report of fault f, slow and ignored or not.
  ghost predicate Counting(e: Engine, f: nat, s: nat, k: nat)
    requires e.Wired() && f < |e.faults|
    reads e.states`faulted, e.states`ignored
  {
    && s < |e.faults[f].faultStates| && k < |e.db.faults[f].states[s].allowedClasses|
    && e.faults[f].faultStates[s].faulted && !e.faults[f].faultStates[s].ignored
    && e.db.faults[f].states[s].allowedClasses[k].beamClass.number < 100
  }

  // It is the first of those with the least class.
  ghost predicate First(e: Engine, f: nat, s: nat, k: nat)
    requires e.Wired() && f < |e.faults|
    reads e.states`faulted, e.states`ignored
  {
    && Counting(e, f, s, k)
    && forall t: nat, l: nat | Counting(e, f, t, l) ::
         var n, m := e.db.faults[f].states[s].allowedClasses[k].beamClass.number,
                     e.db.faults[f].states[t].allowedClasses[l].beamClass.number;
         n < m || (n == m && (s < t || (s == t && k <= l)))
  }

  // Its state is displayed; without one a fault that is not faulted shows 0, one that is
  // keeps what it showed, and one whose card is offline shows -1.
  ghost predicate Shows(e: Engine, f: nat, shown: int)
    requires e.Wired() && f < |e.faults|
    reads e.faults`displayState, e.faults`faulted, e.faults`faultedOffline, e.states`faulted, e.states`ignored
  {
    if e.faults[f].faultedOffline then e.faults[f].displayState == -1
    else
      || (exists s: nat, k: nat :: First(e, f, s, k) && e.faults[f].displayState == e.db.faults[f].states[s].id)
      || ((forall s: nat, k: nat :: !Counting(e, f, s, k))
          && e.faults[f].displayState == if e.faults[f].faulted then shown else 0)
  }

  // The class logged with a change is that of the same rule, or 0 without one.
  ghost predicate ClassLogged(e: Engine, f: nat, id: nat)
    requires e.Wired() && f < |e.faults|
    reads e.faults`faultedOffline, e.states`faulted, e.states`ignored
  {
    if e.faults[f].faultedOffline then id == 0
    else
      || (exists s: nat, k: nat :: First(e, f, s, k) && id == e.db.faults[f].states[s].allowedClasses[k].id)
      || ((forall s: nat, k: nat :: !Counting(e, f, s, k)) && id == 0)
  }

  // Each fault whose reported state changed is logged once, in the order of the faults, with the
  // state before, the state now and the class of the rule reported.
  ghost predicate ChangesShown(e: Engine, before: seq<FaultLog>, worst: seq<int>)
    requires e.Wired() && |worst| == |e.faults|
    reads e`history, e.faults`worstState, e.faults`faultedOffline, e.states`faulted, e.states`ignored
  {
    && before <= e.history
    && (forall k | |before| <= k < |e.history| ::
          var entry := e.history[k];
          && entry.fault < |e.faults| && entry.oldValue == worst[entry.fault]
          && entry.newValue == e.faults[entry.fault].worstState && entry.newValue != entry.oldValue
          && ClassLogged(e, entry.fault, entry.allowedClass))
    && (forall k, l | |before| <= k < l < |e.history| :: e.history[k].fault < e.history[l].fault)
    && (forall f | 0 <= f < |e.faults| && e.faults[f].worstState != worst[f] ::
          exists k :: |before| <= k < |e.history| && e.history[k].fault == f)
  }

  lemma ChangesShownHold(e: Engine, before: seq<FaultLog>, worst: seq<int>, news: seq<MitigationRules.Worst>)
    requires e.Wired() && |worst| == |news| == |e.faults| && e.ChangesLogged(before, worst, news)
    requires forall f | 0 <= f < |e.faults| ::
      e.faults[f].worstState == news[f].state && ClassLogged(e, f, news[f].allowedId)
    ensures ChangesShown(e, before, worst)
  {
    hide ClassLogged, Engine.Wired;
    var added := e.history[|before|..];
    assert forall k | |before| <= k < |e.history| :: e.history[k] == added[k - |before|];
    forall k | 0 <= k < |added|
      ensures added[k].fault < |e.faults| && added[k] ==
        FaultLog(added[k].fault, worst[added[k].fault], news[added[k].fault].state, news[added[k].fault].allowedId)
      ensures news[added[k].fault].state != worst[added[k].fault]
    {
      assert ChangeOf(worst, news, added[k].fault) == [added[k]];
      assert added[k] == [added[k]][0];
    }
    forall f | 0 <= f < |e.faults| && e.faults[f].worstState != worst[f]
      ensures exists k :: |before| <= k < |e.history| && e.history[k].fault == f
    {
      var k :| 0 <= k < |added| && added[k].fault == f;
      assert e.history[|before| + k].fault == f;
    }
  }

  lemma CountedIsCounting(e: Engine, snap: Snapshot, f: nat, s: nat, k: nat)
    requires e.Wired() && Fits(e.db, snap) && e.StatesDecided(snap) && f < |e.faults|
    ensures Counting(e, f, s, k) <==>
      MitigationRules.Counted(e.db, snap, f, s, k) && MitigationRules.ClassAt(e.db, f, s, k) < 100
  {
    hide StateFaulted, StateIgnored, ConditionMet;
    if HasRule(e.db, RuleRef(StateRef(f, s), k)) {
      assert e.State(StateRef(f, s)) == e.faults[f].faultStates[s];
    }
  }

  lemma FirstIsLeast(e: Engine, snap: Snapshot, f: nat, s0: nat, k0: nat)
    requires e.Wired() && Fits(e.db, snap) && e.StatesDecided(snap) && f < |e.faults|
    requires MitigationRules.FirstLeast(e.db, snap, f, s0, k0, |e.db.faults[f].states|, 0)
    requires MitigationRules.ClassAt(e.db, f, s0, k0) < 100
    ensures First(e, f, s0, k0)
  {
    hide Engine.StatesDecided, StateCounts, Engine.Wired;
    CountedIsCounting(e, snap, f, s0, k0);
    forall t: nat, l: nat | Counting(e, f, t, l)
      ensures MitigationRules.Counted(e.db, snap, f, t, l)
    {
      CountedIsCounting(e, snap, f, t, l);
    }
  }

  lemma ShowsHold(e: Engine, snap: Snapshot, f: nat, shown: int)
    requires e.Wired() && Fits(e.db, snap) && e.StatesDecided(snap) && f < |e.faults|
    requires e.faults[f].faultedOffline == FaultOffline(e.db, snap, f)
    requires e.faults[f].faulted == AnyMatch(e.db, snap, f)
    requires e.faults[f].displayState == MitigationRules.Reported(e.db, snap, f, shown).state
    ensures Shows(e, f, shown) && ClassLogged(e, f, MitigationRules.Reported(e.db, snap, f, shown).allowedId)
  {
    hide FaultOffline, AnyMatch, Engine.StatesDecided, StateCounts, First, Counting;
    hide MitigationRules.WorstSoFar;
    var n := |e.db.faults[f].states|;
    var start := if AnyMatch(e.db, snap, f) then shown else 0;
    MitigationRules.WorstIsFirstLeast(e.db, snap, f, n, 0, start);
    var w := MitigationRules.WorstSoFar(e.db, snap, f, n, 0, start);
    if w.maximumClass == 100 {
      forall s: nat, k: nat ensures !Counting(e, f, s, k) && !First(e, f, s, k) {
        NothingCounting(e, snap, f, s, k, start, w);
      }
    } else {
      var s0: nat, k0: nat :| MitigationRules.FirstLeast(e.db, snap, f, s0, k0, n, 0)
        && w == MitigationRules.Worst(MitigationRules.ClassAt(e.db, f, s0, k0), e.db.faults[f].states[s0].id,
                                      e.db.faults[f].states[s0].allowedClasses[k0].id);
      FirstIsLeast(e, snap, f, s0, k0);
    }
  }

  lemma NothingCounting(e: Engine, snap: Snapshot, f: nat, s: nat, k: nat, start: int, w: MitigationRules.Worst)
    requires e.Wired() && Fits(e.db, snap) && e.StatesDecided(snap) && f < |e.faults| && w.maximumClass == 100
    requires MitigationRules.DescribesWorst(e.db, snap, f, |e.db.faults[f].states|, 0, start, w)
    ensures !Counting(e, f, s, k) && !First(e, f, s, k)
  {
    hide Engine.StatesDecided, StateCounts, Engine.Wired;
    CountedIsCounting(e, snap, f, s, k);
  }

  // ---- Integrator flags ----

  // Row i of condition c writes flag g of analog device a: it names the device beside a state
  // of that integrator that no earlier row in force names.
  ghost predicate Writes(e: Engine, c: nat, i: nat, a: nat, g: nat)
    requires e.Wired()
    reads e.conditions`state
  {
    && c < |e.conditions| && i < |e.db.conditions[c].ignoreConditions|
    && var row := e.db.conditions[c].ignoreConditions[i];
       && row.device == Some(AnalogAt(a)) && row.faultState.Some?
       && e.db.faults[row.faultState.value.fault].states[row.faultState.value.state].deviceState.GetIntegrator() == g
       && forall d: nat, j: nat | InForce(e, d, j) && (d < c || (d == c && j < i)) ::
            e.db.conditions[d].ignoreConditions[j].faultState != row.faultState
  }

  ghost predicate Later(c: nat, i: nat, d: nat, j: nat) {
    c < d || (c == d && i < j)
  }

  // The last such row sets the flag to the state of its condition; without one it stays.
  ghost predicate FlagSet(e: Engine, a: nat, g: nat, was: bool, flag: bool)
    requires e.Wired()
    reads e.conditions`state
  {
    || (exists c: nat, i: nat :: Writes(e, c, i, a, g) && flag == e.conditions[c].state
          && forall d: nat, j: nat | Later(c, i, d, j) :: !Writes(e, d, j, a, g))
    || ((forall c: nat, i: nat :: !Writes(e, c, i, a, g)) && flag == was)
  }

  ghost predicate FlagsWritten(e: Engine, was: seq<seq<bool>>)
    requires e.Wired() && |was| == |e.analogDevices|
    reads e.conditions`state, e.analogDevices`ignoredIntegrator
  {
    forall a, g: nat | 0 <= a < |e.analogDevices| && g < 4 ::
      && |was[a]| == |e.analogDevices[a].ignoredIntegrator| == 4
      && FlagSet(e, a, g, was[a][g], e.analogDevices[a].ignoredIntegrator[g])
  }

  lemma WriterIsRow(e: Engine, snap: Snapshot, c: nat, i: nat, a: nat, g: nat)
    requires e.Wired() && Fits(e.db, snap) && e.ConditionsDecided(snap)
    ensures Writes(e, c, i, a, g) <==> IntegratorRules.Writer(e.db, Conditions(e.db, snap), c, i, a, g)
  {
    hide ConditionMet;
    var met := Conditions(e.db, snap);
    assert forall d | 0 <= d < |met| :: met[d] == e.conditions[d].state;
    if IntegratorRules.HasRow(e.db, c, i) && e.db.conditions[c].ignoreConditions[i].faultState.Some? {
      NamedEarlier(e, snap, c, i, e.db.conditions[c].ignoreConditions[i].faultState.value);
    }
  }

  lemma NamedEarlier(e: Engine, snap: Snapshot, c: nat, i: nat, r: StateRef)
    requires e.Wired() && Fits(e.db, snap) && e.ConditionsDecided(snap) && IntegratorRules.HasRow(e.db, c, i)
    ensures IgnoredSoFar(e.db, Conditions(e.db, snap), c, i, r) <==>
      exists d: nat, j: nat :: InForce(e, d, j) && (d < c || (d == c && j < i))
        && e.db.conditions[d].ignoreConditions[j].faultState == Some(r)
  {
    hide ConditionMet;
    var met := Conditions(e.db, snap);
    assert forall d | 0 <= d < |met| :: met[d] == e.conditions[d].state;
    if d: nat, j: nat :|
        && InForce(e, d, j) && (d < c || (d == c && j < i))
        && e.db.conditions[d].ignoreConditions[j].faultState == Some(r) {
      if d < c {
        assert met[..c][d] && NamesState(e.db.conditions[d].ignoreConditions, |e.db.conditions[d].ignoreConditions|, r);
      }
    }
    if IgnoredSoFar(e.db, met, c, i, r) {
      if StateIgnored(e.db, met[..c], r) {
        var d :| 0 <= d < c && met[..c][d]
          && NamesState(e.db.conditions[d].ignoreConditions, |e.db.conditions[d].ignoreConditions|, r);
        var j :| 0 <= j < |e.db.conditions[d].ignoreConditions|
          && e.db.conditions[d].ignoreConditions[j].faultState == Some(r);
        assert InForce(e, d, j);
      } else {
        var j :| 0 <= j < i && e.db.conditions[c].ignoreConditions[j].faultState == Some(r);
        assert InForce(e, c, j);
      }
    }
  }

  lemma FlagsWrittenHold(e: Engine, snap: Snapshot, flags: seq<seq<bool>>)
    requires e.Wired() && Fits(e.db, snap) && e.ConditionsDecided(snap)
    requires e.FlagsSoFar(Conditions(e.db, snap), |e.conditions|, 0, flags)
    ensures |flags| == |e.analogDevices| && FlagsWritten(e, flags)
  {
    hide ConditionMet, FlagSet, IntegratorFlag;
    forall a, g: nat | 0 <= a < |e.analogDevices| && g < 4
      ensures FlagSet(e, a, g, flags[a][g], e.analogDevices[a].ignoredIntegrator[g])
    {
      FlagWritten(e, snap, a, g, flags[a][g]);
    }
  }

  lemma FlagWritten(e: Engine, snap: Snapshot, a: nat, g: nat, was: bool)
    requires e.Wired() && Fits(e.db, snap) && e.ConditionsDecided(snap)
    ensures FlagSet(e, a, g, was, IntegratorFlag(e.db, Conditions(e.db, snap), |e.conditions|, 0, a, g, was))
  {
    hide ConditionMet, Writes, IntegratorFlag, IntegratorRules.Writer;
    var met := Conditions(e.db, snap);
    forall c: nat, i: nat ensures Writes(e, c, i, a, g) <==> IntegratorRules.Writer(e.db, met, c, i, a, g) {
      WriterIsRow(e, snap, c, i, a, g);
    }
    forall c: nat, i: nat | Writes(e, c, i, a, g) ensures c < |met| {
      WriterInRange(e, c, i, a, g);
    }
    if IntegratorRules.SomeWriter(e.db, met, |met|, 0, a, g) {
      var c, i := IntegratorRules.LastWriterExists(e.db, met, |met|, 0, a, g);
      IntegratorRules.LastWriterDecides(e.db, met, |met|, 0, a, g, was, c, i);
      assert met[c] == e.conditions[c].state;
    } else {
      IntegratorRules.NoWriterKeeps(e.db, met, |met|, 0, a, g, was);
    }
  }

  lemma WriterInRange(e: Engine, c: nat, i: nat, a: nat, g: nat)
    requires e.Wired() && Writes(e, c, i, a, g)
    ensures c < |e.conditions|
  {
  }

  // ---- One cycle ----

  // A cycle writes none of what it reads.
  method CycleKept(e: Engine, ghost snap: Snapshot, ghost starts: seq<int>, ghost flags: seq<seq<bool>>,
                   ghost worst: seq<int>, ghost news: seq<MitigationRules.Worst>)
    returns (result: nat, ghost numbers: seq<nat>)
    requires e.Wired() && Fits(e.db, snap) && e.ReportsAre(worst, news, snap)
    requires e.Wired() && Fits(e.db, snap) && e.Agrees(snap) && e.FlagsAre(flags) && e.HistoryAgrees(starts)
    modifies e`softwareMitigationBuffer, e`history, e`reloadInactive, e.conditions`state
    modifies e.destinations`tentativeBeamClass, e.destinations`previousAllowedBeamClass
    modifies e.destinations`allowedBeamClass, e.digitalDevices`value, e.digitalDevices`ignored
    modifies e.analogDevices`ignored, e.analogDevices`ignoredIntegrator
    modifies e.faults`value, e.faults`oldValue, e.faults`sendUpdate, e.faults`faulted, e.faults`faultedDisplay
    modifies e.faults`ignored, e.faults`faultedOffline, e.faults`faultActive, e.faults`displayState
    modifies e.faults`worstState, e.states`faulted, e.states`ignored
    ensures e.Limited(snap, numbers) && e.InputsDecided(snap, flags)
    ensures forall f | 0 <= f < |e.faults| :: e.FaultDecided(f, snap)
    ensures forall f | 0 <= f < |e.faults| ::
      e.faults[f].worstState == e.faults[f].displayState ==
        MitigationRules.Reported(e.db, snap, f, old(e.faults[f].displayState)).state
    ensures e.ModesAgree(snap) && e.ThresholdsAgree(snap) && e.PermitsAgree(snap)
    ensures forall d | 0 <= d < |e.digitalDevices| :: e.InputsAgree(d, snap)
    ensures e.ChangesLogged(old(e.history), worst, news)
  {
    hide Engine.Wired, Fits, Engine.FlagsAre, Engine.HistoryAgrees, Engine.Limited, Engine.InputsDecided;
    hide Engine.ModesAgree, Engine.ThresholdsAgree, Engine.PermitsAgree, Engine.InputsAgree, Engine.FaultDecided;
    hide Engine.DigitalHeld, Engine.AnalogHeld, Engine.ReportsAre, Engine.ChangesLogged, MitigationRules.Reported;
    result, numbers := e.CheckFaults(snap, starts, flags);
  }

  // The ignore flags of all devices
  ghost predicate FlagsHeld(e: Engine, digital: seq<bool>, analog: seq<bool>)
    reads e.digitalDevices`ignored, e.analogDevices`ignored
  {
    && |digital| == |e.digitalDevices| && (forall d | 0 <= d < |digital| :: digital[d] == e.digitalDevices[d].ignored)
    && |analog| == |e.analogDevices| && (forall a | 0 <= a < |analog| :: analog[a] == e.analogDevices[a].ignored)
  }

  lemma FlagsStart(e: Engine, snap: Snapshot, digital: seq<bool>, analog: seq<bool>)
    requires e.Wired() && Fits(e.db, snap) && e.Agrees(snap) && FlagsHeld(e, digital, analog)
    ensures forall d | 0 <= d < |digital| && !Looked(e.db.digitalDevices[d]) ::
      snap.digital[d].heldIgnored == digital[d]
    ensures forall a | 0 <= a < |analog| && !Looked(e.db.analogDevices[a]) :: snap.analog[a].heldIgnored == analog[a]
  {
    forall d | 0 <= d < |digital| && !Looked(e.db.digitalDevices[d]) ensures snap.digital[d].heldIgnored == digital[d] {
      assert e.DigitalHeld(d, snap);
    }
    forall a | 0 <= a < |analog| && !Looked(e.db.analogDevices[a]) ensures snap.analog[a].heldIgnored == analog[a] {
      assert e.AnalogHeld(a, snap);
    }
  }

  // Everything that follows from the flags of the inputs being decided
  lemma InputsTold(e: Engine, snap: Snapshot, flags: seq<seq<bool>>, digital: seq<bool>, analog: seq<bool>)
    requires e.Wired() && Fits(e.db, snap) && e.InputsDecided(snap, flags)
    requires e.ModesAgree(snap) && e.ThresholdsAgree(snap)
    requires forall d | 0 <= d < |e.digitalDevices| :: e.InputsAgree(d, snap)
    requires |digital| == |e.digitalDevices| && |analog| == |e.analogDevices| == |flags|
    requires forall d | 0 <= d < |digital| && !Looked(e.db.digitalDevices[d]) ::
      snap.digital[d].heldIgnored == digital[d]
    requires forall a | 0 <= a < |analog| && !Looked(e.db.analogDevices[a]) :: snap.analog[a].heldIgnored == analog[a]
    ensures DigitalValues(e) && FaultValues(e) && FaultsMatched(e) && StatesMarked(e) && ConditionsMet(e)
    ensures StatesIgnored(e) && DevicesIgnored(e, digital, analog) && FlagsWritten(e, flags)
  {
    hide DigitalValues, FaultValues, FaultsMatched, StatesMarked, ConditionsMet, StatesIgnored, DevicesIgnored;
    hide FlagsWritten, Engine.FaultsEvaluated, Engine.DevicesDecided, Engine.ConditionsDecided, Engine.FlagsSoFar;
    hide Engine.DigitalValuesAgree, Engine.ModesAgree, Engine.ThresholdsAgree, Engine.InputsAgree;
    hide StateFaulted, StateIgnored;
    DigitalValuesHold(e, snap);
    FaultValuesHold(e, snap);
    FaultsMatchedHold(e, snap);
    StatesMarkedHold(e, snap);
    ConditionsMetHold(e, snap);
    StatesIgnoredHold(e, snap);
    DevicesIgnoredHold(e, snap, digital, analog);
    FlagsWrittenHold(e, snap, flags);
  }

  lemma ClassesTold(e: Engine, snap: Snapshot, numbers: seq<nat>)
    requires e.Wired() && Fits(e.db, snap) && e.StatesDecided(snap) && e.Limited(snap, numbers) && e.PermitsAgree(snap)
    requires forall f | 0 <= f < |e.faults| :: e.FaultDecided(f, snap)
    ensures BufferWritten(e) && forall i | 0 <= i < |e.destinations| :: LeastClass(e, i)
  {
    hide BufferWritten, LeastClass, LeastLimit, Engine.FaultDecided, Engine.StatesDecided, Engine.PermitsAgree;
    BufferWrittenHolds(e, snap, numbers);
    forall i | 0 <= i < |e.destinations| ensures LeastClass(e, i) {
      LeastClassHolds(e, snap, i);
    }
  }

  lemma ReportTold(e: Engine, snap: Snapshot, f: nat, shown: int)
    requires e.Wired() && Fits(e.db, snap) && e.StatesDecided(snap) && e.FaultsEvaluated(snap) && f < |e.faults|
    requires e.FaultDecided(f, snap)
    requires e.faults[f].displayState == MitigationRules.Reported(e.db, snap, f, shown).state
    ensures Shows(e, f, shown) && ClassLogged(e, f, MitigationRules.Reported(e.db, snap, f, shown).allowedId)
  {
    hide FaultOffline, FaultIgnored, FaultActive, AnyMatch, FaultValue, RestrictionAmong, Engine.StatesDecided;
    ShowsHold(e, snap, f, shown);
  }

  // From any state a cycle leaves values, states, flags, classes and words as their fields
  // tell; `flags`, `digital` and `analog` are the ignore flags and `worst` the reported states
  // it starts from.
  method RunCycle(e: Engine, ghost snap: Snapshot, ghost starts: seq<int>, ghost flags: seq<seq<bool>>,
                  ghost digital: seq<bool>, ghost analog: seq<bool>, ghost worst: seq<int>)
    returns (result: nat)
    requires e.Wired() && Fits(e.db, snap) && e.Agrees(snap) && e.FlagsAre(flags) && e.HistoryAgrees(starts)
    requires FlagsHeld(e, digital, analog) && WorstHeld(e, worst)
    modifies e`softwareMitigationBuffer, e`history, e`reloadInactive, e.conditions`state
    modifies e.destinations`tentativeBeamClass, e.destinations`previousAllowedBeamClass
    modifies e.destinations`allowedBeamClass, e.digitalDevices`value, e.digitalDevices`ignored
    modifies e.analogDevices`ignored, e.analogDevices`ignoredIntegrator
    modifies e.faults`value, e.faults`oldValue, e.faults`sendUpdate, e.faults`faulted, e.faults`faultedDisplay
    modifies e.faults`ignored, e.faults`faultedOffline, e.faults`faultActive, e.faults`displayState
    modifies e.faults`worstState, e.states`faulted, e.states`ignored
    ensures DigitalValues(e) && FaultValues(e) && FaultsMatched(e) && StatesMarked(e) && ConditionsMet(e)
    ensures |analog| == |flags| && |digital| == |e.digitalDevices| && |analog| == |e.analogDevices|
    ensures StatesIgnored(e) && DevicesIgnored(e, digital, analog) && FlagsWritten(e, flags) && FaultsSet(e)
    ensures BufferWritten(e) && forall i | 0 <= i < |e.destinations| :: LeastClass(e, i)
    ensures forall f | 0 <= f < |e.faults| ::
      Shows(e, f, old(e.faults[f].displayState)) && e.faults[f].worstState == e.faults[f].displayState
    ensures ChangesShown(e, old(e.history), worst)
  {
    hide DigitalValues, FaultValues, FaultsMatched, StatesMarked, ConditionsMet, StatesIgnored, DevicesIgnored;
    hide FlagsWritten, FaultsSet, BufferWritten, LeastClass, Shows, Looked, ClassLogged, ChangesShown;
    hide Engine.ChangesLogged, Engine.ReportsAre;
    hide Engine.Wired, Fits, Engine.Agrees, Engine.HistoryAgrees, Engine.Limited, Engine.InputsDecided;
    hide Engine.ModesAgree, Engine.ThresholdsAgree, Engine.PermitsAgree, Engine.InputsAgree, Engine.FaultDecided;
    hide Engine.StatesDecided, Engine.FaultsEvaluated, Engine.DevicesDecided, MitigationRules.Reported;
    FlagsStart(e, snap, digital, analog);
    ghost var news := NewReports(e, snap, worst);
    ghost var numbers;
    result, numbers := CycleKept(e, snap, starts, flags, worst, news);
    DecidedParts(e, snap, flags);
    InputsTold(e, snap, flags, digital, analog);
    FaultsSetHold(e, snap);
    ClassesTold(e, snap, numbers);
    forall f | 0 <= f < |e.faults| ensures Shows(e, f, old(e.faults[f].displayState)) {
      ReportTold(e, snap, f, old(e.faults[f].displayState));
    }
    forall f | 0 <= f < |e.faults| ensures ClassLogged(e, f, news[f].allowedId) {
      ReportTold(e, snap, f, old(e.faults[f].displayState));
    }
    ChangesShownHold(e, old(e.history), worst, news);
  }

  ghost predicate WorstHeld(e: Engine, worst: seq<int>)
    reads e.faults`worstState
  {
    |worst| == |e.faults| && forall f | 0 <= f < |worst| :: worst[f] == e.faults[f].worstState
  }

  lemma NewReports(e: Engine, snap: Snapshot, worst: seq<int>) returns (news: seq<MitigationRules.Worst>)
    requires e.Wired() && Fits(e.db, snap) && WorstHeld(e, worst)
    ensures e.ReportsAre(worst, news, snap) && |news| == |e.faults|
    ensures forall f | 0 <= f < |news| :: news[f] == MitigationRules.Reported(e.db, snap, f, e.faults[f].displayState)
  {
    hide MitigationRules.Reported;
    var olds;
    olds, news := e.Reports(snap);
    assert olds == worst;
  }

  lemma DecidedParts(e: Engine, snap: Snapshot, flags: seq<seq<bool>>)
    requires e.Wired() && Fits(e.db, snap) && e.InputsDecided(snap, flags)
    ensures e.StatesDecided(snap) && e.FaultsEvaluated(snap) && e.DevicesDecided(snap)
  {
    hide Engine.StatesDecided, Engine.FaultsEvaluated, Engine.DevicesDecided;
  }
}
