// Engine::checkFaults and its passes, src/central_node_engine.cc.
module EvaluationCycle {
  import opened Words
  import opened Bypass
  import opened Tables
  import opened Devices
  import opened CycleRules
  import opened MitigationRules
  import MitigationWords

  // One call of History::logFault
  datatype FaultLog = FaultLog(fault: nat, oldValue: int, newValue: int, allowedClass: nat)

  // The value the log holds for fault f, when it started at `start`
  function LastValue(log: seq<FaultLog>, f: nat, start: int): int {
    if log == [] then start
    else if log[|log| - 1].fault == f then log[|log| - 1].newValue
    else LastValue(log[..|log| - 1], f, start)
  }

  // Every entry is a change, and starts where the previous one of its fault ended.
  ghost predicate DeltaChain(log: seq<FaultLog>, starts: seq<int>) {
    forall k | 0 <= k < |log| ::
      && log[k].oldValue != log[k].newValue && log[k].fault < |starts|
      && log[k].oldValue == LastValue(log[..k], log[k].fault, starts[log[k].fault])
  }

  function LogEntry(f: nat, oldValue: int, w: Worst): seq<FaultLog> {
    if w.state != oldValue then [FaultLog(f, oldValue, w.state, w.allowedId)] else []
  }

  lemma ChainGrows(log: seq<FaultLog>, starts: seq<int>, f: nat, w: Worst)
    requires DeltaChain(log, starts) && f < |starts|
    ensures
      var longer := log + LogEntry(f, LastValue(log, f, starts[f]), w);
      && DeltaChain(longer, starts) && LastValue(longer, f, starts[f]) == w.state
      && forall g: nat | g < |starts| && g != f :: LastValue(longer, g, starts[g]) == LastValue(log, g, starts[g])
  {
    var entry := LogEntry(f, LastValue(log, f, starts[f]), w);
    var longer := log + entry;
    if entry == [] {
      assert longer == log;
    } else {
      assert longer[..|longer| - 1] == log;
      forall k | 0 <= k < |log| ensures longer[..k] == log[..k] && longer[k] == log[k] {
      }
    }
  }

  ghost function ChangeOf(olds: seq<int>, news: seq<Worst>, f: nat): seq<FaultLog>
    requires f < |olds| == |news|
  {
    if news[f].state == olds[f] then [] else [FaultLog(f, olds[f], news[f].state, news[f].allowedId)]
  }

  // The entries are the changes of the first n faults, in their order.
  ghost predicate Changes(added: seq<FaultLog>, olds: seq<int>, news: seq<Worst>, n: nat)
    requires n <= |olds| == |news|
  {
    && (forall k | 0 <= k < |added| :: added[k].fault < n && ChangeOf(olds, news, added[k].fault) == [added[k]])
    && (forall k, l | 0 <= k < l < |added| :: added[k].fault < added[l].fault)
    && (forall f | 0 <= f < n && news[f].state != olds[f] :: exists k :: 0 <= k < |added| && added[k].fault == f)
  }

  lemma NoChange(olds: seq<int>, news: seq<Worst>)
    requires |olds| == |news|
    ensures Changes([], olds, news, 0)
  {
  }

  lemma OneMoreChange(added: seq<FaultLog>, olds: seq<int>, news: seq<Worst>, n: nat)
    requires n < |olds| == |news| && Changes(added, olds, news, n)
    ensures Changes(added + ChangeOf(olds, news, n), olds, news, n + 1)
  {
    var longer := added + ChangeOf(olds, news, n);
    forall f | 0 <= f < n + 1 && news[f].state != olds[f]
      ensures exists k :: 0 <= k < |longer| && longer[k].fault == f
    {
      if f == n {
        assert longer[|added|].fault == n;
      } else {
        var k :| 0 <= k < |added| && added[k].fault == f;
        assert longer[k].fault == f;
      }
    }
  }

  class Engine {
    const db: Database
    const digitalDevices: seq<DigitalDevice>
    const analogDevices: seq<AnalogDevice>
    const faults: seq<Fault>
    const conditions: seq<Condition>
    const destinations: seq<BeamDestination>
    ghost const states: set<FaultState>
    var softwareMitigationBuffer: seq<Word>
    var reloadInactive: bool
    var history: seq<FaultLog>

    constructor (db: Database, digitalDevices: seq<DigitalDevice>, analogDevices: seq<AnalogDevice>, faults: seq<Fault>,
                 conditions: seq<Condition>, destinations: seq<BeamDestination>, ghost states: set<FaultState>)
      ensures this.db == db && this.digitalDevices == digitalDevices && this.analogDevices == analogDevices
      ensures this.faults == faults && this.conditions == conditions && this.destinations == destinations
      ensures this.states == states && history == [] && !reloadInactive
    {
      this.db, this.digitalDevices, this.analogDevices := db, digitalDevices, analogDevices;
      this.faults, this.conditions, this.destinations, this.states := faults, conditions, destinations, states;
      softwareMitigationBuffer, reloadInactive, history := [ZERO, ZERO], false, [];
    }

    // Objects stand at the positions their ids give, so all are different.
    ghost predicate Wired() {
      && db.WellFormed()
      && |digitalDevices| == |db.digitalDevices| && |analogDevices| == |db.analogDevices|
      && |faults| == |db.faults| && |conditions| == |db.conditions| && |destinations| == |db.destinationMasks|
      && (forall d | 0 <= d < |digitalDevices| ::
            digitalDevices[d].id == d && |digitalDevices[d].inputDevices| == |db.digitalDevices[d].inputBits|)
      && (forall a | 0 <= a < |analogDevices| :: analogDevices[a].id == a)
      && (forall f | 0 <= f < |faults| :: faults[f].id == f && |faults[f].faultStates| == |db.faults[f].states|)
      && (forall f, s | 0 <= f < |faults| && 0 <= s < |faults[f].faultStates| ::
            faults[f].faultStates[s] in states && faults[f].faultStates[s].at == StateRef(f, s))
      && (forall c | 0 <= c < |conditions| :: conditions[c].id == c)
      && (forall i | 0 <= i < |destinations| :: destinations[i].id == i)
    }

    function State(r: StateRef): FaultState
      requires Wired() && db.HasState(r)
    {
      faults[r.fault].faultStates[r.state]
    }

    // What a cycle reads and does not write agrees with the snapshot: the inputs of
    // a digital device, ...
    ghost predicate InputsAgree(d: nat, snap: Snapshot)
      reads (set i | i in digitalDevices[d].inputDevices)`latchedValue
      reads (set i | i in digitalDevices[d].inputDevices :: i.bypass)`status
      reads (set i | i in digitalDevices[d].inputDevices :: i.bypass)`value
      requires Wired() && Fits(db, snap) && d < |digitalDevices|
    {
      forall k | 0 <= k < |digitalDevices[d].inputDevices| ::
        var input := digitalDevices[d].inputDevices[k];
        && input.latchedValue == snap.digital[d].inputs[k].latched
        && snap.digital[d].inputs[k].bypassed ==
             if input.bypass.status == BypassValid then Some(input.bypass.value) else None
    }

    // ... the mode of the cards, ...
    ghost predicate ModesAgree(snap: Snapshot)
      reads digitalDevices`modeActive, digitalDevices`faultedOffline, analogDevices`modeActive
      reads analogDevices`faultedOffline
      requires Wired() && Fits(db, snap)
    {
      && (forall d | 0 <= d < |digitalDevices| ::
            && digitalDevices[d].modeActive == snap.digital[d].active
            && digitalDevices[d].faultedOffline == snap.digital[d].offline)
      && (forall a | 0 <= a < |analogDevices| ::
            && analogDevices[a].modeActive == snap.analog[a].active
            && analogDevices[a].faultedOffline == snap.analog[a].offline)
    }

    // ... the thresholds and bypass masks of analog devices ...
    ghost predicate ThresholdsAgree(snap: Snapshot)
      reads analogDevices`latchedValue, set v | v in analogDevices :: v.bypassMask
      requires Wired() && Fits(db, snap)
    {
      forall a | 0 <= a < |analogDevices| ::
        && analogDevices[a].latchedValue == snap.analog[a].latched
        && analogDevices[a].bypassMask.bits == snap.analog[a].bypassMask
    }

    // ... and the operators' permits.
    ghost predicate PermitsAgree(snap: Snapshot)
      reads destinations`forceBeamClass, destinations`maxPermit, destinations`softPermit
      requires Wired() && Fits(db, snap)
    {
      forall i | 0 <= i < |destinations| ::
        var d := destinations[i];
        PermitSnap(d.forceBeamClass, d.maxPermit, d.softPermit) == snap.permits[i]
    }

    method SetTentativeBeamClass()
      requires Wired()
      modifies destinations`tentativeBeamClass, destinations`previousAllowedBeamClass, destinations`allowedBeamClass
      ensures forall i | 0 <= i < |destinations| ::
        && destinations[i].tentativeBeamClass == db.highestBeamClass
        && destinations[i].allowedBeamClass == db.lowestBeamClass
        && destinations[i].previousAllowedBeamClass == old(destinations[i].allowedBeamClass)
    {
      for n := 0 to |destinations|
        invariant forall i | 0 <= i < n ::
          && destinations[i].tentativeBeamClass == db.highestBeamClass
          && destinations[i].allowedBeamClass == db.lowestBeamClass
          && destinations[i].previousAllowedBeamClass == old(destinations[i].allowedBeamClass)
        invariant forall i | n <= i < |destinations| ::
          destinations[i].allowedBeamClass == old(destinations[i].allowedBeamClass)
      {
        var device := destinations[n];
        device.tentativeBeamClass := db.highestBeamClass;
        device.previousAllowedBeamClass := device.allowedBeamClass;
        device.allowedBeamClass := db.lowestBeamClass;
      }
    }

    // The inputs of one digital device, bypassed or latched
    method GatherInputs(d: nat, ghost snap: Snapshot) returns (deviceValue: Word)
      requires Wired() && Fits(db, snap) && d < |digitalDevices| && InputsAgree(d, snap)
      ensures deviceValue == Gather(snap.digital[d].inputs, db.digitalDevices[d].inputBits, |snap.digital[d].inputs|)
    {
      deviceValue := ZERO;
      var inputs := digitalDevices[d].inputDevices;
      for k := 0 to |inputs|
        invariant deviceValue == Gather(snap.digital[d].inputs, db.digitalDevices[d].inputBits, k)
      {
        var input := inputs[k];
        var inputValue := if input.bypass.status == BypassValid then input.bypass.value else input.latchedValue;
        deviceValue := Or(deviceValue, Shift(inputValue, db.digitalDevices[d].inputBits[k]));
      }
    }

    // Values held by devices the engine leaves alone
    ghost predicate DigitalHeld(d: nat, snap: Snapshot)
      requires Wired() && Fits(db, snap) && d < |digitalDevices|
      reads digitalDevices[d]
    {
      !db.digitalDevices[d].Evaluated() ==>
        digitalDevices[d].value == snap.digital[d].heldValue && digitalDevices[d].ignored == snap.digital[d].heldIgnored
    }

    ghost predicate AnalogHeld(a: nat, snap: Snapshot)
      requires Wired() && Fits(db, snap) && a < |analogDevices|
      reads analogDevices[a]
    {
      !db.analogDevices[a].Evaluated() ==> analogDevices[a].ignored == snap.analog[a].heldIgnored
    }

    ghost predicate DigitalUpdated(d: nat, snap: Snapshot)
      requires Wired() && Fits(db, snap) && d < |digitalDevices|
      reads digitalDevices[d]
    {
      && digitalDevices[d].value == DigitalValue(db, snap, d)
      && digitalDevices[d].ignored == IgnoredAtStart(db, snap, DigitalAt(d))
    }

    method UpdateDigitalDevices(ghost snap: Snapshot)
      requires Wired() && Fits(db, snap) && ModesAgree(snap)
      requires forall d | 0 <= d < |digitalDevices| :: InputsAgree(d, snap) && DigitalHeld(d, snap)
      modifies digitalDevices`value, digitalDevices`ignored
      ensures forall d | 0 <= d < |digitalDevices| :: DigitalUpdated(d, snap)
    {
      for n := 0 to |digitalDevices|
        invariant forall d | 0 <= d < n :: DigitalUpdated(d, snap)
        invariant forall d | n <= d < |digitalDevices| :: DigitalHeld(d, snap)
      {
        if db.digitalDevices[n].Evaluated() {
          var deviceValue := GatherInputs(n, snap);
          digitalDevices[n].value := deviceValue;
          digitalDevices[n].ignored := !digitalDevices[n].modeActive;
        } else {
          assert DigitalHeld(n, snap);
        }
      }
    }

    ghost predicate DigitalValuesAgree(snap: Snapshot)
      reads digitalDevices`value
      requires Wired() && Fits(db, snap)
    {
      forall d | 0 <= d < |digitalDevices| :: digitalDevices[d].value == DigitalValue(db, snap, d)
    }

    method DeviceWord(v: Device, ghost snap: Snapshot) returns (w: Word)
      requires Wired() && Fits(db, snap) && ThresholdsAgree(snap) && db.HasDevice(v)
      requires DigitalValuesAgree(snap)
      ensures w == DeviceValue(db, snap, v)
    {
      match v
      case DigitalAt(d) => w := digitalDevices[d].value;
      case AnalogAt(a) => w := And(analogDevices[a].latchedValue, analogDevices[a].bypassMask.bits);
    }

    method FaultWord(f: nat, ghost snap: Snapshot) returns (faultValue: Word)
      requires Wired() && Fits(db, snap) && ThresholdsAgree(snap) && f < |faults|
      requires DigitalValuesAgree(snap)
      ensures faultValue == FaultValue(db, snap, f)
    {
      hide DeviceValue;
      faultValue := ZERO;
      var inputs := db.faults[f].inputs;
      for k := 0 to |inputs|
        invariant faultValue == Combine(db, snap, f, k)
      {
        var inputValue := DeviceWord(inputs[k].device, snap);
        faultValue := Or(faultValue, Shift(inputValue, inputs[k].bitPosition));
      }
    }

    // Compares the value of fault f with each of its states.
    method MatchStates(fault: Fault, f: nat, faultValue: Word, ghost snap: Snapshot) returns (matched: bool)
      requires Wired() && Fits(db, snap) && f < |faults| && fault == faults[f] && faultValue == FaultValue(db, snap, f)
      modifies fault`faulted, fault`faultedDisplay, fault.faultStates`faulted, fault.faultStates`ignored
      ensures matched == AnyMatch(db, snap, f) && fault.faulted == matched
      ensures fault.faultedDisplay == RestrictionAmong(db, snap, f, |fault.faultStates|)
      ensures forall s | 0 <= s < |fault.faultStates| ::
        fault.faultStates[s].faulted == Matches(db, snap, f, s) && !fault.faultStates[s].ignored
      ensures forall s | 0 <= s < |fault.faultStates| ::
        var state := db.faults[f].states[s].deviceState;
        fault.faultStates[s].faulted <==>
          forall b: nat :: b in state.value <==> b in state.mask && b in faultValue
    {
      var rows := db.faults[f].states;
      fault.faulted, fault.faultedDisplay, matched := false, false, false;
      for n := 0 to |rows|
        invariant matched == MatchAmong(db, snap, f, n) && fault.faulted == matched
        invariant fault.faultedDisplay == RestrictionAmong(db, snap, f, n)
        invariant forall s | 0 <= s < n ::
          fault.faultStates[s].faulted == Matches(db, snap, f, s) && !fault.faultStates[s].ignored
      {
        var state := fault.faultStates[n];
        state.ignored := false;
        var maskedValue := And(faultValue, rows[n].deviceState.mask);
        if rows[n].deviceState.value == maskedValue {
          state.faulted := true;
          fault.faulted := true;
          matched := true;
          MarkRestriction(fault, f, n);
        } else {
          state.faulted := false;
        }
        assert state.faulted == Matches(db, snap, f, n);
      }
    }

    method MarkRestriction(fault: Fault, f: nat, s: nat)
      requires Wired() && f < |faults| && fault == faults[f] && s < |fault.faultStates|
      modifies fault`faultedDisplay
      ensures fault.faultedDisplay == (old(fault.faultedDisplay) || Restricts(db, f, s))
    {
      var allowedClasses := db.faults[f].states[s].allowedClasses;
      for a := 0 to |allowedClasses|
        invariant fault.faultedDisplay == (old(fault.faultedDisplay)
          || exists allowed | allowed in allowedClasses[..a] :: allowed.beamClass.number < db.highestBeamClass.number)
      {
        if allowedClasses[a].beamClass.number < db.highestBeamClass.number {
          fault.faultedDisplay := true;
        }
        assert allowedClasses[..a + 1] == allowedClasses[..a] + [allowedClasses[a]];
      }
      assert allowedClasses[..|allowedClasses|] == allowedClasses;
    }

    ghost predicate FaultEvaluated(f: nat, snap: Snapshot)
      reads faults`value, faults`faulted, faults`faultedDisplay, states`faulted, states`ignored
      requires Wired() && Fits(db, snap) && f < |faults|
    {
      && faults[f].value == FaultValue(db, snap, f)
      && faults[f].faulted == AnyMatch(db, snap, f)
      && faults[f].faultedDisplay == RestrictionAmong(db, snap, f, |db.faults[f].states|)
      && forall s | 0 <= s < |faults[f].faultStates| ::
           && faults[f].faultStates[s].faulted == StateFaulted(db, snap, StateRef(f, s))
           && !faults[f].faultStates[s].ignored
    }

    // One round of the fault loop; `faulted` comes in as earlier faults left it.
    method EvaluateFault(fault: Fault, f: nat, faulted: bool, ghost snap: Snapshot) returns (faultedNow: bool)
      requires Wired() && Fits(db, snap) && ThresholdsAgree(snap) && f < |faults| && fault == faults[f]
      requires DigitalValuesAgree(snap)
      requires faulted == AnyMatchBefore(db, snap, f)
      modifies fault`value, fault`oldValue, fault`sendUpdate, fault`faulted, fault`faultedDisplay
      modifies fault.faultStates`faulted, fault.faultStates`ignored
      ensures faultedNow == AnyMatchBefore(db, snap, f + 1)
      ensures fault.oldValue == old(fault.value)
      ensures FaultEvaluated(f, snap)
    {
      fault.sendUpdate := false;
      var faultValue := FaultWord(f, snap);
      fault.oldValue := fault.value;
      fault.value := faultValue;
      var matched := MatchStates(fault, f, faultValue, snap);
      faultedNow := faulted || matched;
      OneMoreFault(db, snap, f);
      if !faultedNow && db.faults[f].defaultState.Some? {
        fault.faultStates[db.faults[f].defaultState.value].faulted := true;
      }
    }

    // The states of different faults are different objects.
    lemma StatesApart(f: nat, g: nat)
      requires Wired() && f < |faults| && g < |faults| && f != g
      ensures forall s | 0 <= s < |faults[f].faultStates| :: faults[f].faultStates[s] !in faults[g].faultStates
    {
      forall s | 0 <= s < |faults[f].faultStates| ensures faults[f].faultStates[s] !in faults[g].faultStates {
        assert faults[f].faultStates[s].at.fault == f;
        assert forall t | 0 <= t < |faults[g].faultStates| :: faults[g].faultStates[t].at.fault == g;
      }
    }

    // ... which leaves the other faults and their states alone
    method EvaluateFaultAt(n: nat, faulted: bool, ghost snap: Snapshot) returns (faultedNow: bool)
      requires Wired() && Fits(db, snap) && ThresholdsAgree(snap) && DigitalValuesAgree(snap) && n < |faults|
      requires faulted == AnyMatchBefore(db, snap, n)
      modifies faults`value, faults`oldValue, faults`sendUpdate, faults`faulted, faults`faultedDisplay
      modifies states`faulted, states`ignored
      ensures faultedNow == AnyMatchBefore(db, snap, n + 1)
      ensures FaultEvaluated(n, snap) && faults[n].oldValue == old(faults[n].value)
      ensures forall f | 0 <= f < |faults| && f != n && old(FaultEvaluated(f, snap)) :: FaultEvaluated(f, snap)
      ensures forall f | 0 <= f < |faults| && f != n ::
        faults[f].value == old(faults[f].value) && faults[f].oldValue == old(faults[f].oldValue)
    {
      hide FaultValue, AnyMatch, RestrictionAmong, StateFaulted, AnyMatchBefore;
      faultedNow := EvaluateFault(faults[n], n, faulted, snap);
      forall f | 0 <= f < |faults| && f != n && old(FaultEvaluated(f, snap)) ensures FaultEvaluated(f, snap) {
        assert faults[f].id != faults[n].id;
        StatesApart(f, n);
      }
      assert forall f | 0 <= f < |faults| && f != n :: faults[f].id != faults[n].id;
    }

    method EvaluateEachFault(ghost snap: Snapshot)
      requires Wired() && Fits(db, snap) && ThresholdsAgree(snap) && DigitalValuesAgree(snap)
      modifies faults`value, faults`oldValue, faults`sendUpdate, faults`faulted, faults`faultedDisplay
      modifies states`faulted, states`ignored
      ensures forall f | 0 <= f < |faults| :: FaultEvaluated(f, snap) && faults[f].oldValue == old(faults[f].value)
    {
      hide FaultEvaluated, ThresholdsAgree, DigitalValuesAgree;
      var faulted := false;
      for n := 0 to |faults|
        invariant ThresholdsAgree(snap) && DigitalValuesAgree(snap)
        invariant faulted == AnyMatchBefore(db, snap, n)
        invariant forall f | 0 <= f < n :: FaultEvaluated(f, snap) && faults[f].oldValue == old(faults[f].value)
        invariant forall f | n <= f < |faults| :: faults[f].value == old(faults[f].value)
      {
        faulted := EvaluateFaultAt(n, faulted, snap);
      }
    }

    method EvaluateFaults(ghost snap: Snapshot)
      requires Wired() && Fits(db, snap) && ModesAgree(snap) && ThresholdsAgree(snap)
      requires forall d | 0 <= d < |digitalDevices| :: InputsAgree(d, snap) && DigitalHeld(d, snap)
      modifies digitalDevices`value, digitalDevices`ignored
      modifies faults`value, faults`oldValue, faults`sendUpdate, faults`faulted, faults`faultedDisplay
      modifies states`faulted, states`ignored
      ensures forall d | 0 <= d < |digitalDevices| :: DigitalUpdated(d, snap)
      ensures forall f | 0 <= f < |faults| :: FaultEvaluated(f, snap) && faults[f].oldValue == old(faults[f].value)
    {
      UpdateDigitalDevices(snap);
      assert DigitalValuesAgree(snap) by {
        forall d | 0 <= d < |digitalDevices| ensures digitalDevices[d].value == DigitalValue(db, snap, d) {
          assert DigitalUpdated(d, snap);
        }
      }
      EvaluateEachFault(snap);
    }

    method BreakAnalogIgnore(ghost snap: Snapshot)
      requires Wired() && Fits(db, snap) && ModesAgree(snap)
      requires forall a | 0 <= a < |analogDevices| :: AnalogHeld(a, snap)
      modifies analogDevices`ignored
      ensures forall a | 0 <= a < |analogDevices| :: analogDevices[a].ignored == IgnoredAtStart(db, snap, AnalogAt(a))
    {
      for n := 0 to |analogDevices|
        invariant forall a | 0 <= a < n :: analogDevices[a].ignored == IgnoredAtStart(db, snap, AnalogAt(a))
        invariant forall a | n <= a < |analogDevices| :: AnalogHeld(a, snap)
      {
        if db.analogDevices[n].Evaluated() {
          analogDevices[n].ignored := !analogDevices[n].modeActive;
        } else {
          assert AnalogHeld(n, snap);
        }
      }
    }

    // ---- The ignore pass: what holds at each place of it ----

    ghost predicate StatesSoFar(met: seq<bool>, c: nat, n: nat)
      reads states`ignored
      requires Wired() && Place(db, met, c, n)
    {
      forall r | db.HasState(r) :: State(r).ignored == IgnoredSoFar(db, met, c, n, r)
    }

    ghost predicate DevicesSoFar(met: seq<bool>, c: nat, n: nat, snap: Snapshot)
      reads digitalDevices`ignored, analogDevices`ignored
      requires Wired() && Fits(db, snap) && Place(db, met, c, n)
    {
      && (forall d | 0 <= d < |digitalDevices| ::
            digitalDevices[d].ignored ==
              (IgnoredAtStart(db, snap, DigitalAt(d)) || NamedSoFar(db, met, c, n, DigitalAt(d))))
      && (forall a | 0 <= a < |analogDevices| ::
            analogDevices[a].ignored ==
              (IgnoredAtStart(db, snap, AnalogAt(a)) || NamedSoFar(db, met, c, n, AnalogAt(a))))
    }

    ghost predicate FourFlags()
      reads analogDevices`ignoredIntegrator
    {
      forall a | 0 <= a < |analogDevices| :: |analogDevices[a].ignoredIntegrator| == 4
    }

    ghost predicate FlagsAre(flags: seq<seq<bool>>)
      reads analogDevices`ignoredIntegrator
    {
      && |flags| == |analogDevices|
      && forall a | 0 <= a < |flags| :: |flags[a]| == 4 && analogDevices[a].ignoredIntegrator == flags[a]
    }

    // The integrator flags follow from those the pass started with.
    ghost predicate FlagsSoFar(met: seq<bool>, c: nat, n: nat, flags: seq<seq<bool>>)
      reads analogDevices`ignoredIntegrator
      requires Wired() && Place(db, met, c, n)
    {
      && |flags| == |analogDevices| && FourFlags()
      && (forall a | 0 <= a < |flags| :: |flags[a]| == 4)
      && (forall a, g | 0 <= a < |flags| && 0 <= g < 4 ::
            analogDevices[a].ignoredIntegrator[g] == IntegratorFlag(db, met, c, n, a, g, flags[a][g]))
    }

    // The part of an ignore condition that names a fault state
    method IgnoreState(c: nat, n: nat, ghost met: seq<bool>, ghost flags: seq<seq<bool>>)
      requires Wired() && Place(db, met, c, n + 1) && conditions[c].state == met[c]
      requires StatesSoFar(met, c, n) && FlagsSoFar(met, c, n, flags)
      modifies states`ignored, analogDevices`ignoredIntegrator
      ensures StatesSoFar(met, c, n + 1) && FlagsSoFar(met, c, n + 1, flags)
    {
      var row := db.conditions[c].ignoreConditions[n];
      if row.faultState.Some? {
        var state := State(row.faultState.value);
        if !state.ignored {
          state.ignored := conditions[c].state;
          if row.device.Some? && row.device.value.AnalogAt? {
            var named := row.faultState.value;
            var integrator := db.faults[named.fault].states[named.state].deviceState.GetIntegrator();
            var device := analogDevices[row.device.value.a];
            device.ignoredIntegrator := device.ignoredIntegrator[integrator := conditions[c].state];
          }
        }
      }
    }

    // The part that names a device; beside a fault state only a digital one counts.
    method IgnoreDevice(c: nat, n: nat, ghost met: seq<bool>, ghost snap: Snapshot)
      requires Wired() && Fits(db, snap) && Place(db, met, c, n + 1) && conditions[c].state == met[c]
      requires DevicesSoFar(met, c, n, snap)
      modifies digitalDevices`ignored, analogDevices`ignored
      ensures DevicesSoFar(met, c, n + 1, snap)
    {
      var row := db.conditions[c].ignoreConditions[n];
      if row.faultState.None? && row.device.Some? && row.device.value.AnalogAt? {
        var device := analogDevices[row.device.value.a];
        if !device.ignored {
          device.ignored := conditions[c].state;
        }
      }
      if row.device.Some? && row.device.value.DigitalAt? {
        var device := digitalDevices[row.device.value.d];
        if !device.ignored {
          device.ignored := conditions[c].state;
        }
      }
    }

    ghost predicate StatesFaulted(snap: Snapshot)
      reads states`faulted
      requires Wired() && Fits(db, snap)
    {
      forall r | db.HasState(r) :: State(r).faulted == StateFaulted(db, snap, r)
    }

    method ConditionWord(c: nat, ghost snap: Snapshot) returns (conditionValue: Word)
      requires Wired() && Fits(db, snap) && c < |conditions| && StatesFaulted(snap)
      ensures conditionValue == ConditionValue(db, snap, c, |db.conditions[c].inputs|)
    {
      hide StateFaulted;
      conditionValue := ZERO;
      var inputs := db.conditions[c].inputs;
      for k := 0 to |inputs|
        invariant conditionValue == ConditionValue(db, snap, c, k)
      {
        var inputValue := if State(inputs[k].faultState).faulted then ONE else ZERO;
        conditionValue := Or(conditionValue, Shift(inputValue, inputs[k].bitPosition));
      }
    }

    method UpdateCondition(condition: Condition, c: nat, ghost snap: Snapshot) returns (changed: bool)
      requires Wired() && Fits(db, snap) && c < |conditions| && condition == conditions[c] && StatesFaulted(snap)
      modifies condition`state
      ensures condition.state == ConditionMet(db, snap, c)
      ensures changed == (condition.state != old(condition.state))
    {
      var conditionValue := ConditionWord(c, snap);
      var newConditionState := db.conditions[c].mask == conditionValue;
      changed := condition.state != newConditionState;
      condition.state := newConditionState;
    }

    method ApplyIgnoreRow(c: nat, n: nat, ghost met: seq<bool>, ghost flags: seq<seq<bool>>, ghost snap: Snapshot)
      requires Wired() && Fits(db, snap) && Place(db, met, c, n + 1) && conditions[c].state == met[c]
      requires StatesSoFar(met, c, n) && DevicesSoFar(met, c, n, snap) && FlagsSoFar(met, c, n, flags)
      modifies states`ignored, digitalDevices`ignored, analogDevices`ignored, analogDevices`ignoredIntegrator
      ensures StatesSoFar(met, c, n + 1) && DevicesSoFar(met, c, n + 1, snap) && FlagsSoFar(met, c, n + 1, flags)
    {
      IgnoreDevice(c, n, met, snap);
      IgnoreState(c, n, met, flags);
    }

    // Finishing the rows of a condition is standing at the next one.
    lemma AtNextCondition(c: nat, met: seq<bool>, flags: seq<seq<bool>>, snap: Snapshot)
      requires Wired() && Fits(db, snap) && c < |conditions| == |met|
      requires
        var n := |db.conditions[c].ignoreConditions|;
        StatesSoFar(met, c, n) && DevicesSoFar(met, c, n, snap) && FlagsSoFar(met, c, n, flags)
      ensures StatesSoFar(met, c + 1, 0) && DevicesSoFar(met, c + 1, 0, snap) && FlagsSoFar(met, c + 1, 0, flags)
    {
      hide IgnoredSoFar, NamedSoFar, IgnoredAtStart, IntegratorFlag;
      NextCondition(db, met, c);
    }

    // One condition: its new state, and every ignore row under it
    method ApplyCondition(condition: Condition, c: nat, ghost met: seq<bool>, ghost flags: seq<seq<bool>>,
                          ghost snap: Snapshot)
      returns (changed: bool)
      requires Wired() && Fits(db, snap) && c < |conditions| && condition == conditions[c] && StatesFaulted(snap)
      requires |met| == |conditions| && met[c] == ConditionMet(db, snap, c)
      requires StatesSoFar(met, c, 0) && DevicesSoFar(met, c, 0, snap) && FlagsSoFar(met, c, 0, flags)
      modifies condition`state, states`ignored, digitalDevices`ignored, analogDevices`ignored
      modifies analogDevices`ignoredIntegrator
      ensures condition.state == met[c] && changed == (met[c] != old(condition.state))
      ensures StatesSoFar(met, c + 1, 0) && DevicesSoFar(met, c + 1, 0, snap) && FlagsSoFar(met, c + 1, 0, flags)
    {
      hide ConditionMet, StatesFaulted, StatesSoFar, DevicesSoFar, FlagsSoFar;
      changed := UpdateCondition(condition, c, snap);
      for n := 0 to |db.conditions[c].ignoreConditions|
        invariant condition.state == met[c]
        invariant StatesSoFar(met, c, n) && DevicesSoFar(met, c, n, snap) && FlagsSoFar(met, c, n, flags)
      {
        ApplyIgnoreRow(c, n, met, flags, snap);
      }
      AtNextCondition(c, met, flags, snap);
    }

    // The value returned says that some condition changed.
    method EvaluateIgnoreConditions(ghost snap: Snapshot, ghost flags: seq<seq<bool>>) returns (reload: bool)
      requires Wired() && Fits(db, snap) && StatesFaulted(snap)
      requires StatesSoFar(Conditions(db, snap), 0, 0) && DevicesSoFar(Conditions(db, snap), 0, 0, snap)
      requires FlagsSoFar(Conditions(db, snap), 0, 0, flags)
      modifies conditions`state, states`ignored, digitalDevices`ignored, analogDevices`ignored
      modifies analogDevices`ignoredIntegrator
      ensures forall c | 0 <= c < |conditions| :: conditions[c].state == ConditionMet(db, snap, c)
      ensures reload == exists c :: 0 <= c < |conditions| && conditions[c].state != old(conditions[c].state)
      ensures StatesSoFar(Conditions(db, snap), |conditions|, 0)
      ensures DevicesSoFar(Conditions(db, snap), |conditions|, 0, snap)
      ensures FlagsSoFar(Conditions(db, snap), |conditions|, 0, flags)
    {
      hide ConditionMet, StateFaulted, IgnoredSoFar, NamedSoFar, IgnoredAtStart, IntegratorFlag;
      reload := false;
      ghost var met := Conditions(db, snap);
      for n := 0 to |conditions|
        invariant StatesSoFar(met, n, 0) && DevicesSoFar(met, n, 0, snap) && FlagsSoFar(met, n, 0, flags)
        invariant forall c | 0 <= c < n :: conditions[c].state == met[c]
        invariant forall c | n <= c < |conditions| :: conditions[c].state == old(conditions[c].state)
        invariant reload == exists c :: 0 <= c < n && conditions[c].state != old(conditions[c].state)
      {
        var changed := ApplyCondition(conditions[n], n, met, flags, snap);
        reload := reload || changed;
      }
    }

    // ---- Faults that are ignored or offline ----

    ghost predicate DevicesDecided(snap: Snapshot)
      reads digitalDevices`ignored, analogDevices`ignored
      requires Wired() && Fits(db, snap)
    {
      && (forall d | 0 <= d < |digitalDevices| :: digitalDevices[d].ignored == DeviceIgnored(db, snap, DigitalAt(d)))
      && (forall a | 0 <= a < |analogDevices| :: analogDevices[a].ignored == DeviceIgnored(db, snap, AnalogAt(a)))
    }

    method DeviceFlags(v: Device, ghost snap: Snapshot) returns (outOfPlay: bool, active: bool, offline: bool)
      requires Wired() && Fits(db, snap) && ModesAgree(snap) && DevicesDecided(snap) && db.HasDevice(v)
      ensures outOfPlay == OutOfPlay(db, snap, v)
      ensures active == Active(db, snap, v) && offline == Offline(db, snap, v)
    {
      hide DeviceIgnored;
      match v
      case DigitalAt(d) =>
        var device := digitalDevices[d];
        outOfPlay, active, offline := device.ignored || !device.modeActive, device.modeActive, device.faultedOffline;
      case AnalogAt(a) =>
        var device := analogDevices[a];
        outOfPlay, active, offline := device.ignored || !device.modeActive, device.modeActive, device.faultedOffline;
    }

    ghost predicate FaultDecided(f: nat, snap: Snapshot)
      reads faults`ignored, faults`faultedOffline, faults`faultActive
      requires Wired() && Fits(db, snap) && f < |faults|
    {
      && faults[f].ignored == FaultIgnored(db, snap, f)
      && faults[f].faultedOffline == FaultOffline(db, snap, f) && faults[f].faultActive == FaultActive(db, snap, f)
    }

    method DecideFault(fault: Fault, f: nat, ghost snap: Snapshot)
      requires Wired() && Fits(db, snap) && ModesAgree(snap) && DevicesDecided(snap) && f < |faults|
      requires fault == faults[f]
      modifies fault`ignored, fault`faultedOffline, fault`faultActive
      ensures FaultDecided(f, snap)
    {
      hide OutOfPlay, Active, Offline, DeviceIgnored;
      fault.ignored, fault.faultedOffline, fault.faultActive := false, false, true;
      var inputs := db.faults[f].inputs;
      for k := 0 to |inputs|
        invariant fault.ignored == IgnoredAmong(db, snap, f, k)
        invariant fault.faultedOffline == (k > 0 && Offline(db, snap, inputs[k - 1].device))
        invariant fault.faultActive == (k > 0 ==> Active(db, snap, inputs[k - 1].device))
      {
        var outOfPlay, active, offline := DeviceFlags(inputs[k].device, snap);
        fault.faultedOffline := offline;
        fault.faultActive := active;
        if outOfPlay {
          fault.ignored := true;
        }
      }
    }

    method SetFaultIgnore(ghost snap: Snapshot)
      requires Wired() && Fits(db, snap) && ModesAgree(snap) && DevicesDecided(snap)
      modifies faults`ignored, faults`faultedOffline, faults`faultActive
      ensures forall f | 0 <= f < |faults| :: FaultDecided(f, snap)
    {
      hide FaultIgnored, FaultOffline, DeviceIgnored;
      for n := 0 to |faults|
        invariant forall f | 0 <= f < n :: FaultDecided(f, snap)
      {
        label Before:
        DecideFault(faults[n], n, snap);
        forall f | 0 <= f < n ensures FaultDecided(f, snap) {
          assert old@Before(FaultDecided(f, snap)) && faults[f].id != faults[n].id;
        }
      }
    }

    // ---- Mitigation ----

    // The tentative class of every destination is the least limit met so far.
    ghost predicate LimitsSoFar(snap: Snapshot, f: nat, s: nat, a: nat)
      reads destinations`tentativeBeamClass
      requires Wired() && Fits(db, snap)
    {
      forall i | 0 <= i < |destinations| :: LeastSoFar(db, snap, i, destinations[i].tentativeBeamClass.number, f, s, a)
    }

    // One allowed class of a counting state
    method ApplyAllowedClass(fault: Fault, f: nat, s: nat, a: nat, ghost snap: Snapshot)
      requires Wired() && Fits(db, snap) && f < |faults| && fault == faults[f]
      requires HasRule(db, RuleRef(StateRef(f, s), a))
      requires fault.ignored == FaultIgnored(db, snap, f) && !FaultOffline(db, snap, f)
      requires StateCounts(db, snap, StateRef(f, s))
      requires LimitsSoFar(snap, f, s, a)
      modifies destinations`tentativeBeamClass
      ensures LimitsSoFar(snap, f, s, a + 1)
    {
      hide LeastSoFar, FaultIgnored, FaultOffline, StateCounts;
      var allowed := db.faults[f].states[s].allowedClasses[a];
      var destination := destinations[allowed.destination];
      forall i | 0 <= i < |destinations| {
        OneRule(db, snap, RuleRef(StateRef(f, s), a), i, destinations[i].tentativeBeamClass.number);
      }
      if destination.tentativeBeamClass.number >= allowed.beamClass.number {
        if db.faults[f].evaluation == SlowEvaluation {
          if !fault.ignored {
            destination.tentativeBeamClass := allowed.beamClass;
          }
        }
      }
    }

    // The loop over the allowed classes of a counting state
    method ApplyState(fault: Fault, f: nat, s: nat, worst: Worst, ghost start: int, ghost snap: Snapshot)
      returns (w: Worst)
      requires Wired() && Fits(db, snap) && f < |faults| && fault == faults[f] && s < |db.faults[f].states|
      requires fault.ignored == FaultIgnored(db, snap, f) && !FaultOffline(db, snap, f)
      requires StateCounts(db, snap, StateRef(f, s))
      requires LimitsSoFar(snap, f, s, 0) && worst == WorstSoFar(db, snap, f, s, 0, start)
      modifies destinations`tentativeBeamClass
      ensures LimitsSoFar(snap, f, s, |db.faults[f].states[s].allowedClasses|)
      ensures w == WorstSoFar(db, snap, f, s, |db.faults[f].states[s].allowedClasses|, start)
    {
      hide LimitsSoFar, FaultIgnored, FaultOffline, StateCounts;
      var allowedClasses := db.faults[f].states[s].allowedClasses;
      w := worst;
      for a := 0 to |allowedClasses|
        invariant LimitsSoFar(snap, f, s, a) && w == WorstSoFar(db, snap, f, s, a, start)
      {
        ApplyAllowedClass(fault, f, s, a, snap);
        if allowedClasses[a].beamClass.number < w.maximumClass {
          w := Worst(allowedClasses[a].beamClass.number, db.faults[f].states[s].id, allowedClasses[a].id);
        }
      }
    }

    ghost predicate StatesDecided(snap: Snapshot)
      reads states`faulted, states`ignored
      requires Wired() && Fits(db, snap)
    {
      forall r | db.HasState(r) ::
        State(r).faulted == StateFaulted(db, snap, r) && State(r).ignored == StateIgnored(db, Conditions(db, snap), r)
    }

    method StateIsActive(r: StateRef, ghost snap: Snapshot) returns (active: bool)
      requires Wired() && Fits(db, snap) && StatesDecided(snap) && db.HasState(r)
      ensures active == StateCounts(db, snap, r)
    {
      hide StateFaulted, StateIgnored;
      active := State(r).faulted && !State(r).ignored;
    }

    // One state of fault f, if it counts
    method ApplyNext(fault: Fault, f: nat, s: nat, worst: Worst, ghost start: int, ghost snap: Snapshot)
      returns (w: Worst)
      requires Wired() && Fits(db, snap) && f < |faults| && fault == faults[f] && s < |db.faults[f].states|
      requires fault.ignored == FaultIgnored(db, snap, f) && !FaultOffline(db, snap, f) && StatesDecided(snap)
      requires LimitsSoFar(snap, f, s, 0) && worst == WorstSoFar(db, snap, f, s, 0, start)
      modifies destinations`tentativeBeamClass
      ensures LimitsSoFar(snap, f, s + 1, 0) && w == WorstSoFar(db, snap, f, s + 1, 0, start)
    {
      hide FaultIgnored, FaultOffline, StateCounts, LeastSoFar;
      w := worst;
      var active := StateIsActive(StateRef(f, s), snap);
      ghost var a := 0;
      if active {
        w := ApplyState(fault, f, s, w, start, snap);
        a := |db.faults[f].states[s].allowedClasses|;
      }
      forall i | 0 <= i < |destinations| {
        StateDone(db, snap, i, destinations[i].tentativeBeamClass.number, f, s, a);
      }
    }

    // The loop over the states of an online fault
    method ApplyStates(fault: Fault, f: nat, start: int, ghost snap: Snapshot) returns (w: Worst)
      requires Wired() && Fits(db, snap) && f < |faults| && fault == faults[f]
      requires fault.ignored == FaultIgnored(db, snap, f) && !FaultOffline(db, snap, f) && StatesDecided(snap)
      requires LimitsSoFar(snap, f, 0, 0)
      modifies destinations`tentativeBeamClass
      ensures LimitsSoFar(snap, f, |db.faults[f].states|, 0)
      ensures w == WorstSoFar(db, snap, f, |db.faults[f].states|, 0, start)
    {
      hide FaultIgnored, FaultOffline, StateCounts, LeastSoFar, StatesDecided;
      w := Worst(NO_CLASS, start, 0);
      for s := 0 to |db.faults[f].states|
        invariant LimitsSoFar(snap, f, s, 0) && w == WorstSoFar(db, snap, f, s, 0, start)
      {
        w := ApplyNext(fault, f, s, w, start, snap);
      }
    }

    method MitigateFault(fault: Fault, f: nat, ghost snap: Snapshot)
      requires Wired() && Fits(db, snap) && f < |faults| && fault == faults[f]
      requires FaultDecided(f, snap) && fault.faulted == AnyMatch(db, snap, f) && StatesDecided(snap)
      requires LimitsSoFar(snap, f, 0, 0)
      modifies destinations`tentativeBeamClass, fault`sendUpdate, fault`displayState, fault`worstState, this`history
      ensures LimitsSoFar(snap, f + 1, 0, 0)
      ensures fault.worstState == fault.displayState == Reported(db, snap, f, old(fault.displayState)).state
      ensures fault.sendUpdate == (fault.worstState != old(fault.worstState))
      ensures history ==
        old(history) + LogEntry(f, old(fault.worstState), Reported(db, snap, f, old(fault.displayState)))
      ensures fault.worstState == old(fault.worstState) ==> history == old(history)
      ensures fault.worstState != old(fault.worstState) ==>
        history == old(history) + [FaultLog(f, old(fault.worstState), fault.worstState,
                                            Reported(db, snap, f, old(fault.displayState)).allowedId)]
    {
      hide FaultIgnored, FaultOffline, AnyMatch, LeastSoFar;
      var w := Worst(NO_CLASS, if fault.faulted then fault.displayState else 0, 0);
      ghost var s := 0;
      if fault.faultedOffline {
        w := Worst(NO_CLASS, -1, 0);
      } else {
        w := ApplyStates(fault, f, w.state, snap);
        s := |db.faults[f].states|;
      }
      forall i | 0 <= i < |destinations| {
        FaultDone(db, snap, i, destinations[i].tentativeBeamClass.number, f, s);
      }
      fault.sendUpdate := w.state != fault.worstState;
      fault.displayState := w.state;
      if fault.sendUpdate {
        history := history + [FaultLog(f, fault.worstState, w.state, w.allowedId)];
      }
      fault.worstState := w.state;
    }

    ghost predicate HistoryAgrees(starts: seq<int>)
      reads this`history, faults`worstState
    {
      && |starts| == |faults| && DeltaChain(history, starts)
      && forall f | 0 <= f < |faults| :: faults[f].worstState == LastValue(history, f, starts[f])
    }

    // The states reported before and by this cycle
    ghost predicate ReportsAre(olds: seq<int>, news: seq<Worst>, snap: Snapshot)
      requires Wired() && Fits(db, snap)
      reads faults`worstState, faults`displayState
    {
      && |olds| == |news| == |faults|
      && forall f | 0 <= f < |faults| ::
           olds[f] == faults[f].worstState && news[f] == Reported(db, snap, f, faults[f].displayState)
    }

    lemma Reports(snap: Snapshot) returns (olds: seq<int>, news: seq<Worst>)
      requires Wired() && Fits(db, snap)
      ensures ReportsAre(olds, news, snap)
      ensures forall os, ns | ReportsAre(os, ns, snap) :: os == olds && ns == news
    {
      hide Reported;
      olds, news := [], [];
      for n := 0 to |faults|
        invariant |olds| == |news| == n
        invariant forall f | 0 <= f < n ::
          olds[f] == faults[f].worstState && news[f] == Reported(db, snap, f, faults[f].displayState)
      {
        olds, news := olds + [faults[n].worstState], news + [Reported(db, snap, n, faults[n].displayState)];
      }
    }

    // Every change of a reported state is logged once, in the order of the faults.
    ghost predicate ChangesLogged(before: seq<FaultLog>, olds: seq<int>, news: seq<Worst>)
      reads this`history
    {
      && before <= history && |olds| == |news| == |faults|
      && Changes(history[|before|..], olds, news, |faults|)
    }

    lemma LogOf(before: seq<FaultLog>, added: seq<FaultLog>, olds: seq<int>, news: seq<Worst>)
      requires history == before + added && |olds| == |news| == |faults| && Changes(added, olds, news, |faults|)
      ensures ChangesLogged(before, olds, news)
    {
      hide Changes;
      assert history[|before|..] == added;
    }

    // One round of the fault loop
    method MitigateNext(n: nat, ghost snap: Snapshot, ghost starts: seq<int>)
      requires Wired() && Fits(db, snap) && n < |faults|
      requires StatesDecided(snap) && LimitsSoFar(snap, n, 0, 0) && HistoryAgrees(starts)
      requires forall f | 0 <= f < |faults| :: FaultDecided(f, snap) && faults[f].faulted == AnyMatch(db, snap, f)
      modifies destinations`tentativeBeamClass, faults`sendUpdate, faults`displayState, faults`worstState, this`history
      ensures StatesDecided(snap) && LimitsSoFar(snap, n + 1, 0, 0) && HistoryAgrees(starts) && old(history) <= history
      ensures forall f | 0 <= f < |faults| :: FaultDecided(f, snap) && faults[f].faulted == AnyMatch(db, snap, f)
      ensures faults[n].worstState == faults[n].displayState
        == Reported(db, snap, n, old(faults[n].displayState)).state
      ensures faults[n].sendUpdate == (faults[n].worstState != old(faults[n].worstState))
      ensures history ==
        if faults[n].worstState == old(faults[n].worstState) then old(history)
        else old(history) + [FaultLog(n, old(faults[n].worstState), faults[n].worstState,
                                      Reported(db, snap, n, old(faults[n].displayState)).allowedId)]
      ensures forall f | 0 <= f < |faults| && f != n ::
        && faults[f].displayState == old(faults[f].displayState) && faults[f].worstState == old(faults[f].worstState)
        && faults[f].sendUpdate == old(faults[f].sendUpdate)
    {
      hide LimitsSoFar, FaultIgnored, FaultOffline, AnyMatch, DeltaChain, LastValue, Reported, StatesDecided;
      ChainGrows(history, starts, n, Reported(db, snap, n, faults[n].displayState));
      label Before:
      MitigateFault(faults[n], n, snap);
      forall f | 0 <= f < |faults| ensures FaultDecided(f, snap) {
        assert old@Before(FaultDecided(f, snap));
      }
    }

    method Mitigate(ghost snap: Snapshot, ghost starts: seq<int>, ghost olds: seq<int>, ghost news: seq<Worst>)
      requires Wired() && Fits(db, snap) && ReportsAre(olds, news, snap)
      requires Wired() && Fits(db, snap) && StatesDecided(snap) && LimitsSoFar(snap, 0, 0, 0) && HistoryAgrees(starts)
      requires forall f | 0 <= f < |faults| :: FaultDecided(f, snap) && faults[f].faulted == AnyMatch(db, snap, f)
      modifies destinations`tentativeBeamClass, faults`sendUpdate, faults`displayState, faults`worstState, this`history
      ensures LimitsSoFar(snap, |faults|, 0, 0) && HistoryAgrees(starts) && old(history) <= history
      ensures ChangesLogged(old(history), olds, news)
      ensures forall f | 0 <= f < |faults| ::
        && faults[f].worstState == faults[f].displayState == Reported(db, snap, f, old(faults[f].displayState)).state
        && faults[f].sendUpdate == (faults[f].worstState != old(faults[f].worstState))
    {
      hide LimitsSoFar, FaultDecided, AnyMatch, HistoryAgrees, Reported, StatesDecided, Changes, ChangesLogged;
      ghost var added: seq<FaultLog> := [];
      NoChange(olds, news);
      for n := 0 to |faults|
        invariant StatesDecided(snap) && LimitsSoFar(snap, n, 0, 0) && HistoryAgrees(starts)
        invariant Changes(added, olds, news, n) && history == old(history) + added
        invariant forall f | 0 <= f < |faults| :: FaultDecided(f, snap) && faults[f].faulted == AnyMatch(db, snap, f)
        invariant forall f | 0 <= f < n ::
          && faults[f].worstState == faults[f].displayState == Reported(db, snap, f, old(faults[f].displayState)).state
          && faults[f].sendUpdate == (faults[f].worstState != old(faults[f].worstState))
        invariant forall f | n <= f < |faults| ::
          faults[f].displayState == old(faults[f].displayState) && faults[f].worstState == old(faults[f].worstState)
      {
        OneMoreChange(added, olds, news, n);
        MitigateNext(n, snap, starts);
        added := added + ChangeOf(olds, news, n);
      }
      LogOf(old(history), added, olds, news);
    }

    // ---- Allowed classes and the mitigation buffer ----

    // DbBeamDestination::setAllowedBeamClass up to the choice of the class
    method ChooseAllowed(destination: BeamDestination, i: nat, ghost snap: Snapshot)
      requires Wired() && Fits(db, snap) && i < |destinations| && destination == destinations[i]
      requires LeastSoFar(db, snap, i, destination.tentativeBeamClass.number, |db.faults|, 0, 0)
      requires PermitSnap(destination.forceBeamClass, destination.maxPermit, destination.softPermit) == snap.permits[i]
      modifies destination`tentativeBeamClass, destination`allowedBeamClass
      ensures LeastLimit(db, snap, i, destination.allowedBeamClass.number)
      ensures
        var allowed := destination.allowedBeamClass;
        && allowed.number <= old(destination.tentativeBeamClass.number)
        && (destination.forceBeamClass.Some? ==> allowed.number <= destination.forceBeamClass.value.number)
        && (destination.maxPermit.Some? ==> allowed.number <= destination.maxPermit.value.number)
        && (destination.softPermit.Some? ==> allowed.number <= destination.softPermit.value.number)
        && (|| allowed == old(destination.tentativeBeamClass) || destination.forceBeamClass == Some(allowed)
            || destination.maxPermit == Some(allowed) || destination.softPermit == Some(allowed))
    {
      hide LeastSoFar, LeastLimit;
      ghost var n := destination.tentativeBeamClass.number;
      if destination.forceBeamClass.Some?
         && destination.forceBeamClass.value.number < destination.tentativeBeamClass.number {
        destination.tentativeBeamClass := destination.forceBeamClass.value;
      }
      if destination.maxPermit.Some? && destination.maxPermit.value.number < destination.tentativeBeamClass.number {
        destination.tentativeBeamClass := destination.maxPermit.value;
      }
      if destination.softPermit.Some? && destination.softPermit.value.number < destination.tentativeBeamClass.number {
        destination.allowedBeamClass := destination.softPermit.value;
      } else {
        destination.allowedBeamClass := destination.tentativeBeamClass;
      }
      AllDone(db, snap, i, n, destination.allowedBeamClass.number);
    }

    ghost predicate BufferHolds(numbers: seq<nat>, n: nat)
      reads this`softwareMitigationBuffer
      requires Wired() && n <= |destinations| == |numbers|
    {
      && |softwareMitigationBuffer| == 2
      && MitigationWords.Written(0, db.destinationMasks, numbers, n, softwareMitigationBuffer[0])
      && MitigationWords.Written(1, db.destinationMasks, numbers, n, softwareMitigationBuffer[1])
    }

    // ... and what it writes for the firmware
    method WriteAllowed(i: nat, number: nat, ghost numbers: seq<nat>)
      requires Wired() && i < |destinations| == |numbers| && number == numbers[i] && BufferHolds(numbers, i)
      modifies this`softwareMitigationBuffer
      ensures BufferHolds(numbers, i + 1)
    {
      hide MitigationWords.Written;
      var expand := MitigationWords.ExpandClass(number);
      var mask := db.destinationMasks[i];
      MitigationWords.WriteOne(0, db.destinationMasks, numbers, i, softwareMitigationBuffer[0], expand);
      MitigationWords.WriteOne(1, db.destinationMasks, numbers, i, softwareMitigationBuffer[1], expand);
      softwareMitigationBuffer := [
        Or(softwareMitigationBuffer[0], And(MitigationWords.BufferMask(0, mask), expand)),
        Or(softwareMitigationBuffer[1], And(MitigationWords.BufferMask(1, mask), expand))];
    }

    method SetAllowedBeamClass(ghost snap: Snapshot) returns (ghost numbers: seq<nat>)
      requires Wired() && Fits(db, snap) && LimitsSoFar(snap, |db.faults|, 0, 0) && PermitsAgree(snap)
      requires softwareMitigationBuffer == [ZERO, ZERO]
      modifies destinations`tentativeBeamClass, destinations`allowedBeamClass, this`softwareMitigationBuffer
      ensures |numbers| == |destinations| && BufferHolds(numbers, |destinations|)
      ensures forall i | 0 <= i < |destinations| ::
        destinations[i].allowedBeamClass.number == numbers[i] && LeastLimit(db, snap, i, numbers[i])
    {
      hide LeastSoFar, LeastLimit, MitigationWords.Raises;
      numbers := seq(|destinations|, _ => 0);
      for n := 0 to |destinations|
        invariant |numbers| == |destinations| && BufferHolds(numbers, n)
        invariant forall i | 0 <= i < n ::
          destinations[i].allowedBeamClass.number == numbers[i] && LeastLimit(db, snap, i, numbers[i])
        invariant forall i | n <= i < |destinations| ::
          destinations[i].tentativeBeamClass == old(destinations[i].tentativeBeamClass)
      {
        ChooseAllowed(destinations[n], n, snap);
        ghost var next := numbers[n := destinations[n].allowedBeamClass.number];
        MitigationWords.WrittenSoFar(0, db.destinationMasks, numbers, next, n, softwareMitigationBuffer[0]);
        MitigationWords.WrittenSoFar(1, db.destinationMasks, numbers, next, n, softwareMitigationBuffer[1]);
        numbers := next;
        WriteAllowed(n, destinations[n].allowedBeamClass.number, numbers);
      }
    }

    // ---- The cycle ----

    ghost predicate Agrees(snap: Snapshot)
      reads digitalDevices, analogDevices, set v | v in analogDevices :: v.bypassMask
      reads destinations`forceBeamClass, destinations`maxPermit, destinations`softPermit
      reads (set d, k | 0 <= d < |digitalDevices| && 0 <= k < |digitalDevices[d].inputDevices| ::
               digitalDevices[d].inputDevices[k])`latchedValue
      reads set d, k | 0 <= d < |digitalDevices| && 0 <= k < |digitalDevices[d].inputDevices| ::
              digitalDevices[d].inputDevices[k].bypass
      requires Wired() && Fits(db, snap)
    {
      && ModesAgree(snap) && ThresholdsAgree(snap) && PermitsAgree(snap)
      && (forall d | 0 <= d < |digitalDevices| :: InputsAgree(d, snap) && DigitalHeld(d, snap))
      && (forall a | 0 <= a < |analogDevices| :: AnalogHeld(a, snap))
    }

    ghost predicate FaultsEvaluated(snap: Snapshot)
      reads faults`value, faults`faulted, faults`faultedDisplay
      requires Wired() && Fits(db, snap)
    {
      forall f | 0 <= f < |faults| ::
        && faults[f].value == FaultValue(db, snap, f) && faults[f].faulted == AnyMatch(db, snap, f)
        && faults[f].faultedDisplay == RestrictionAmong(db, snap, f, |db.faults[f].states|)
    }

    lemma StatesAtStart(snap: Snapshot)
      requires Wired() && Fits(db, snap) && forall f | 0 <= f < |faults| :: FaultEvaluated(f, snap)
      ensures FaultsEvaluated(snap) && StatesFaulted(snap) && StatesSoFar(Conditions(db, snap), 0, 0)
    {
      hide FaultValue, AnyMatch, RestrictionAmong, StateFaulted, ConditionMet, IgnoredSoFar, NamedSoFar;
      NothingNamed(db, Conditions(db, snap));
      forall f | 0 <= f < |faults|
        ensures faults[f].value == FaultValue(db, snap, f) && faults[f].faulted == AnyMatch(db, snap, f)
        ensures faults[f].faultedDisplay == RestrictionAmong(db, snap, f, |db.faults[f].states|)
      {
        assert FaultEvaluated(f, snap);
      }
      forall r | db.HasState(r) ensures State(r).faulted == StateFaulted(db, snap, r) && !State(r).ignored {
        assert FaultEvaluated(r.fault, snap);
      }
    }

    lemma DevicesAtStart(snap: Snapshot)
      requires Wired() && Fits(db, snap) && forall d | 0 <= d < |digitalDevices| :: DigitalUpdated(d, snap)
      requires forall a | 0 <= a < |analogDevices| :: analogDevices[a].ignored == IgnoredAtStart(db, snap, AnalogAt(a))
      ensures DevicesSoFar(Conditions(db, snap), 0, 0, snap) && DigitalValuesAgree(snap)
    {
      hide DigitalValue, IgnoredAtStart, ConditionMet, IgnoredSoFar, NamedSoFar;
      NothingNamed(db, Conditions(db, snap));
      forall d | 0 <= d < |digitalDevices|
        ensures digitalDevices[d].ignored == IgnoredAtStart(db, snap, DigitalAt(d))
        ensures digitalDevices[d].value == DigitalValue(db, snap, d)
      {
        assert DigitalUpdated(d, snap);
      }
    }

    // evaluateFaults and breakAnalogIgnore leave the ignore pass at its start.
    method EvaluateInputs(ghost snap: Snapshot)
      requires Wired() && Fits(db, snap) && Agrees(snap)
      modifies digitalDevices`value, digitalDevices`ignored, analogDevices`ignored
      modifies faults`value, faults`oldValue, faults`sendUpdate, faults`faulted, faults`faultedDisplay
      modifies states`faulted, states`ignored
      ensures FaultsEvaluated(snap) && StatesFaulted(snap)
      ensures forall f | 0 <= f < |faults| :: faults[f].oldValue == old(faults[f].value)
      ensures StatesSoFar(Conditions(db, snap), 0, 0) && DevicesSoFar(Conditions(db, snap), 0, 0, snap)
      ensures DigitalValuesAgree(snap)
    {
      hide FaultEvaluated, DigitalUpdated, IgnoredAtStart, Conditions, FaultsEvaluated, StatesFaulted, StatesSoFar;
      hide DevicesSoFar;
      EvaluateFaults(snap);
      StatesAtStart(snap);
      BreakAnalogIgnore(snap);
      assert forall d | 0 <= d < |digitalDevices| :: DigitalUpdated(d, snap);
      DevicesAtStart(snap);
    }

    // The ignore pass from its start to its end
    method IgnorePass(ghost snap: Snapshot, ghost flags: seq<seq<bool>>) returns (reload: bool)
      requires Wired() && Fits(db, snap) && StatesFaulted(snap)
      requires StatesSoFar(Conditions(db, snap), 0, 0) && DevicesSoFar(Conditions(db, snap), 0, 0, snap)
      requires FlagsAre(flags)
      modifies conditions`state, states`ignored, digitalDevices`ignored, analogDevices`ignored
      modifies analogDevices`ignoredIntegrator
      ensures forall c | 0 <= c < |conditions| :: conditions[c].state == ConditionMet(db, snap, c)
      ensures reload == exists c :: 0 <= c < |conditions| && conditions[c].state != old(conditions[c].state)
      ensures StatesDecided(snap) && DevicesDecided(snap)
      ensures FlagsSoFar(Conditions(db, snap), |conditions|, 0, flags)
    {
      hide IgnoredAtStart, StateFaulted, ConditionMet, IgnoredSoFar, NamedSoFar, StateIgnored, DeviceNamed;
      assert FlagsSoFar(Conditions(db, snap), 0, 0, flags);
      reload := EvaluateIgnoreConditions(snap, flags);
      LastCondition(db, Conditions(db, snap));
    }

    // In terms of rows: one without fault state ignores its device, and one with a fault state
    // beside it a digital device only.
    method DecideIgnores(ghost snap: Snapshot, ghost flags: seq<seq<bool>>) returns (reload: bool)
      requires Wired() && Fits(db, snap) && StatesFaulted(snap)
      requires StatesSoFar(Conditions(db, snap), 0, 0) && DevicesSoFar(Conditions(db, snap), 0, 0, snap)
      requires FlagsAre(flags)
      modifies conditions`state, states`ignored, digitalDevices`ignored, analogDevices`ignored
      modifies analogDevices`ignoredIntegrator
      ensures forall c | 0 <= c < |conditions| :: conditions[c].state == ConditionMet(db, snap, c)
      ensures reload == exists c :: 0 <= c < |conditions| && conditions[c].state != old(conditions[c].state)
      ensures StatesDecided(snap) && DevicesDecided(snap)
      ensures FlagsSoFar(Conditions(db, snap), |conditions|, 0, flags)
      ensures forall a | 0 <= a < |analogDevices| ::
        analogDevices[a].ignored <==> old(analogDevices[a].ignored) || exists c, i ::
          && 0 <= c < |conditions| && conditions[c].state && 0 <= i < |db.conditions[c].ignoreConditions|
          && db.conditions[c].ignoreConditions[i] == IgnoreRow(None, Some(AnalogAt(a)))
      ensures forall d | 0 <= d < |digitalDevices| ::
        digitalDevices[d].ignored <==> old(digitalDevices[d].ignored) || exists c, i ::
          && 0 <= c < |conditions| && conditions[c].state && 0 <= i < |db.conditions[c].ignoreConditions|
          && db.conditions[c].ignoreConditions[i].device == Some(DigitalAt(d))
    {
      hide IgnoredAtStart, StateFaulted, ConditionMet, IgnoredSoFar, NamedSoFar, StateIgnored, DeviceNamed;
      hide StatesSoFar, StatesDecided, FlagsSoFar, StatesFaulted, FlagsAre;
      NothingNamed(db, Conditions(db, snap));
      reload := IgnorePass(snap, flags);
      forall v: Device {
        NamedByRow(db, Conditions(db, snap), v);
      }
    }

    // What a finished cycle leaves for the firmware: every destination is allowed
    // the least of its limits, and the buffer holds these classes.
    ghost predicate Limited(snap: Snapshot, numbers: seq<nat>)
      reads destinations`allowedBeamClass, this`softwareMitigationBuffer
      requires Wired() && Fits(db, snap)
    {
      && |numbers| == |destinations| && BufferHolds(numbers, |destinations|)
      && forall i | 0 <= i < |destinations| ::
           destinations[i].allowedBeamClass.number == numbers[i] && LeastLimit(db, snap, i, numbers[i])
    }

    ghost predicate ConditionsDecided(snap: Snapshot)
      reads conditions`state
      requires Wired() && Fits(db, snap)
    {
      forall c | 0 <= c < |conditions| :: conditions[c].state == ConditionMet(db, snap, c)
    }

    // What the passes before setFaultIgnore decide, from inputs to ignore flags
    ghost predicate InputsDecided(snap: Snapshot, flags: seq<seq<bool>>)
      reads faults`value, faults`faulted, faults`faultedDisplay, states`faulted, states`ignored
      reads digitalDevices`value, digitalDevices`ignored, analogDevices`ignored, analogDevices`ignoredIntegrator
      reads conditions`state
      requires Wired() && Fits(db, snap)
    {
      && DigitalValuesAgree(snap) && FaultsEvaluated(snap) && StatesDecided(snap) && DevicesDecided(snap)
      && ConditionsDecided(snap) && FlagsSoFar(Conditions(db, snap), |conditions|, 0, flags)
    }

    // setFaultIgnore, mitigate and setAllowedBeamClass
    method DecideClasses(ghost snap: Snapshot, ghost starts: seq<int>, ghost flags: seq<seq<bool>>,
                         ghost olds: seq<int>, ghost news: seq<Worst>)
      returns (ghost numbers: seq<nat>)
      requires Wired() && Fits(db, snap) && ModesAgree(snap) && PermitsAgree(snap) && HistoryAgrees(starts)
      requires ReportsAre(olds, news, snap)
      requires InputsDecided(snap, flags) && softwareMitigationBuffer == [ZERO, ZERO]
      requires forall i | 0 <= i < |destinations| :: destinations[i].tentativeBeamClass == db.highestBeamClass
      modifies faults`ignored, faults`faultedOffline, faults`faultActive, faults`sendUpdate, faults`displayState
      modifies faults`worstState
      modifies destinations`tentativeBeamClass, destinations`allowedBeamClass
      modifies this`history, this`softwareMitigationBuffer
      ensures Limited(snap, numbers) && HistoryAgrees(starts) && old(history) <= history
      ensures ChangesLogged(old(history), olds, news)
      ensures forall f | 0 <= f < |faults| :: FaultDecided(f, snap)
      ensures forall f | 0 <= f < |faults| ::
        && faults[f].worstState == faults[f].displayState == Reported(db, snap, f, old(faults[f].displayState)).state
        && faults[f].sendUpdate == (faults[f].worstState != old(faults[f].worstState))
    {
      hide DeviceIgnored, StatesDecided, LeastSoFar, LeastLimit, AnyMatch, FaultValue, RestrictionAmong;
      hide FaultIgnored, FaultOffline, Reported, Changes, DeltaChain, LastValue, MitigationWords.Written;
      SetFaultIgnore(snap);
      forall i | 0 <= i < |destinations| {
        NothingDone(db, snap, i);
      }
      Mitigate(snap, starts, olds, news);
      numbers := SetAllowedBeamClass(snap);
    }

    // evaluateFaults and the ignore passes
    method DecideInputs(ghost snap: Snapshot, ghost flags: seq<seq<bool>>) returns (reload: bool)
      requires Wired() && Fits(db, snap) && Agrees(snap) && FlagsAre(flags)
      modifies conditions`state
      modifies digitalDevices`value, digitalDevices`ignored, analogDevices`ignored, analogDevices`ignoredIntegrator
      modifies faults`value, faults`oldValue, faults`sendUpdate, faults`faulted, faults`faultedDisplay
      modifies states`faulted, states`ignored
      ensures InputsDecided(snap, flags)
      ensures forall f | 0 <= f < |faults| :: faults[f].oldValue == old(faults[f].value)
      ensures reload == exists c :: 0 <= c < |conditions| && conditions[c].state != old(conditions[c].state)
    {
      hide StatesDecided, DevicesDecided, FaultsEvaluated, StatesFaulted, StatesSoFar, DevicesSoFar;
      hide FlagsAre, FlagsSoFar, ConditionMet;
      hide DigitalHeld, AnalogHeld, InputsAgree, ThresholdsAgree, ModesAgree, PermitsAgree, Wired, Fits;
      EvaluateInputs(snap);
      reload := DecideIgnores(snap, flags);
    }

    // The passes after setTentativeBeamClass, on a cleared buffer
    method EvaluatePasses(ghost snap: Snapshot, ghost starts: seq<int>, ghost flags: seq<seq<bool>>,
                          ghost olds: seq<int>, ghost news: seq<Worst>)
      returns (reload: bool, ghost numbers: seq<nat>)
      requires Wired() && Fits(db, snap) && Agrees(snap) && FlagsAre(flags) && HistoryAgrees(starts)
      requires ReportsAre(olds, news, snap)
      requires softwareMitigationBuffer == [ZERO, ZERO]
      requires forall i | 0 <= i < |destinations| :: destinations[i].tentativeBeamClass == db.highestBeamClass
      modifies this`softwareMitigationBuffer, this`history, conditions`state
      modifies destinations`tentativeBeamClass, destinations`allowedBeamClass
      modifies digitalDevices`value, digitalDevices`ignored, analogDevices`ignored, analogDevices`ignoredIntegrator
      modifies faults`value, faults`oldValue, faults`sendUpdate, faults`faulted, faults`faultedDisplay, faults`ignored
      modifies faults`faultedOffline, faults`faultActive, faults`displayState, faults`worstState
      modifies states`faulted, states`ignored
      ensures Limited(snap, numbers)
      ensures InputsDecided(snap, flags)
      ensures forall f | 0 <= f < |faults| :: faults[f].oldValue == old(faults[f].value)
      ensures HistoryAgrees(starts) && old(history) <= history
      ensures ChangesLogged(old(history), olds, news)
      ensures forall f | 0 <= f < |faults| :: FaultDecided(f, snap)
      ensures forall f | 0 <= f < |faults| ::
        && faults[f].worstState == faults[f].displayState == Reported(db, snap, f, old(faults[f].displayState)).state
        && faults[f].sendUpdate == (faults[f].worstState != old(faults[f].worstState))
      ensures reload == exists c :: 0 <= c < |conditions| && conditions[c].state != old(conditions[c].state)
    {
      hide InputsDecided, FlagsAre, Limited;
      hide DigitalHeld, AnalogHeld, InputsAgree, ThresholdsAgree, ModesAgree, PermitsAgree;
      hide FaultDecided, Reported, HistoryAgrees, ReportsAre, ChangesLogged;
      reload := DecideInputs(snap, flags);
      numbers := DecideClasses(snap, starts, flags, olds, news);
    }

    // The mitigation buffer is cleared, and every destination starts at the highest class.
    method StartCycle(ghost snap: Snapshot, ghost starts: seq<int>, ghost flags: seq<seq<bool>>)
      requires Wired() && Fits(db, snap) && Agrees(snap) && FlagsAre(flags) && HistoryAgrees(starts)
      modifies this`softwareMitigationBuffer
      modifies destinations`tentativeBeamClass, destinations`previousAllowedBeamClass, destinations`allowedBeamClass
      ensures Agrees(snap) && FlagsAre(flags) && HistoryAgrees(starts) && softwareMitigationBuffer == [ZERO, ZERO]
      ensures forall i | 0 <= i < |destinations| ::
        && destinations[i].tentativeBeamClass == db.highestBeamClass
        && destinations[i].previousAllowedBeamClass == old(destinations[i].allowedBeamClass)
    {
      hide FlagsAre, Wired, Fits, HistoryAgrees, Agrees;
      softwareMitigationBuffer := [ZERO, ZERO];
      SetTentativeBeamClass();
    }

    method CheckFaults(ghost snap: Snapshot, ghost starts: seq<int>, ghost flags: seq<seq<bool>>)
      returns (result: nat, ghost numbers: seq<nat>)
      requires Wired() && Fits(db, snap) && Agrees(snap) && FlagsAre(flags) && HistoryAgrees(starts)
      modifies this`softwareMitigationBuffer, this`history, this`reloadInactive, conditions`state
      modifies destinations`tentativeBeamClass, destinations`previousAllowedBeamClass, destinations`allowedBeamClass
      modifies digitalDevices`value, digitalDevices`ignored, analogDevices`ignored, analogDevices`ignoredIntegrator
      modifies faults`value, faults`oldValue, faults`sendUpdate, faults`faulted, faults`faultedDisplay, faults`ignored
      modifies faults`faultedOffline, faults`faultActive, faults`displayState, faults`worstState
      modifies states`faulted, states`ignored
      ensures Limited(snap, numbers)
      ensures forall i | 0 <= i < |destinations| ::
        destinations[i].previousAllowedBeamClass == old(destinations[i].allowedBeamClass)
      ensures InputsDecided(snap, flags)
      ensures forall f | 0 <= f < |faults| :: faults[f].oldValue == old(faults[f].value)
      ensures HistoryAgrees(starts) && old(history) <= history
      ensures forall olds, news | old(ReportsAre(olds, news, snap)) :: ChangesLogged(old(history), olds, news)
      ensures forall f | 0 <= f < |faults| :: FaultDecided(f, snap)
      ensures forall f | 0 <= f < |faults| ::
        && faults[f].worstState == faults[f].displayState == Reported(db, snap, f, old(faults[f].displayState)).state
        && faults[f].sendUpdate == (faults[f].worstState != old(faults[f].worstState))
      ensures result == 0 || result == 1
      ensures result == 1 <==>
        old(reloadInactive) || exists c :: 0 <= c < |conditions| && conditions[c].state != old(conditions[c].state)
      ensures !reloadInactive
    {
      hide InputsDecided, FlagsAre, Limited, Wired, Fits;
      hide DigitalHeld, AnalogHeld, InputsAgree, ThresholdsAgree, ModesAgree, PermitsAgree;
      hide FaultDecided, Reported, HistoryAgrees, Agrees, ReportsAre, ChangesLogged;
      ghost var olds, news := Reports(snap);
      StartCycle(snap, starts, flags);
      var reload;
      reload, numbers := EvaluatePasses(snap, starts, flags, olds, news);
      result := if reload || reloadInactive then 1 else 0;
      reloadInactive := false;
    }
  }
}
