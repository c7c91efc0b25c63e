// What follows from the cycle as a whole: it keeps no memory, the firmware reads back
// the classes it decided, and a cycle that asks for no reload changed no ignore flag.
module CycleProperties {
  import opened Words
  import opened Bypass
  import opened Tables
  import opened Devices
  import opened CycleRules
  import opened EvaluationCycle
  import opened IntegratorRules
  import MitigationWords

  // ---- The snapshot an engine is about to evaluate ----

  function SnapOf(input: DeviceInput): InputSnap
    reads input, input.bypass
  {
    InputSnap(input.latchedValue, if input.bypass.status == BypassValid then Some(input.bypass.value) else None)
  }

  function PermitsOf(destination: BeamDestination): PermitSnap
    reads destination
  {
    PermitSnap(destination.forceBeamClass, destination.maxPermit, destination.softPermit)
  }

  lemma SnapInputs(device: DigitalDevice, n: nat) returns (inputs: seq<InputSnap>)
    requires n <= |device.inputDevices|
    ensures |inputs| == n
    ensures forall k | 0 <= k < n :: inputs[k] == SnapOf(device.inputDevices[k])
  {
    inputs := [];
    for k := 0 to n
      invariant |inputs| == k
      invariant forall j | 0 <= j < k :: inputs[j] == SnapOf(device.inputDevices[j])
    {
      inputs := inputs + [SnapOf(device.inputDevices[k])];
    }
  }

  // Every wired engine has one, so a cycle can be run from any state.
  lemma SnapshotExists(e: Engine) returns (snap: Snapshot)
    requires e.Wired()
    ensures Fits(e.db, snap) && e.Agrees(snap)
  {
    var digital: seq<DigitalSnap>, analog: seq<AnalogSnap>, permits: seq<PermitSnap> := [], [], [];
    for d := 0 to |e.digitalDevices|
      invariant |digital| == d
      invariant forall i | 0 <= i < d :: DigitalSnapOf(e.digitalDevices[i], digital[i])
    {
      var v := e.digitalDevices[d];
      var inputs := SnapInputs(v, |v.inputDevices|);
      digital := digital + [DigitalSnap(inputs, v.modeActive, v.faultedOffline, v.value, v.ignored)];
    }
    for a := 0 to |e.analogDevices|
      invariant |analog| == a
      invariant forall i | 0 <= i < a ::
        var v := e.analogDevices[i];
        analog[i] == AnalogSnap(v.latchedValue, v.bypassMask.bits, v.modeActive, v.faultedOffline, v.ignored)
    {
      var v := e.analogDevices[a];
      analog := analog + [AnalogSnap(v.latchedValue, v.bypassMask.bits, v.modeActive, v.faultedOffline, v.ignored)];
    }
    for i := 0 to |e.destinations|
      invariant |permits| == i
      invariant forall k | 0 <= k < i :: permits[k] == PermitsOf(e.destinations[k])
    {
      permits := permits + [PermitsOf(e.destinations[i])];
    }
    snap := Snapshot(digital, analog, permits);
    SnapshotFits(e, snap);
  }

  ghost predicate DigitalSnapOf(device: DigitalDevice, s: DigitalSnap)
    reads device, device.inputDevices, set k | k in device.inputDevices :: k.bypass
  {
    && |s.inputs| == |device.inputDevices|
    && s.active == device.modeActive && s.offline == device.faultedOffline
    && s.heldValue == device.value && s.heldIgnored == device.ignored
    && forall k | 0 <= k < |s.inputs| :: s.inputs[k] == SnapOf(device.inputDevices[k])
  }

  lemma SnapshotFits(e: Engine, snap: Snapshot)
    requires e.Wired() && |snap.digital| == |e.digitalDevices| && |snap.analog| == |e.analogDevices|
    requires |snap.permits| == |e.destinations|
    requires forall d | 0 <= d < |snap.digital| :: DigitalSnapOf(e.digitalDevices[d], snap.digital[d])
    requires forall a | 0 <= a < |snap.analog| ::
      var v := e.analogDevices[a];
      snap.analog[a] == AnalogSnap(v.latchedValue, v.bypassMask.bits, v.modeActive, v.faultedOffline, v.ignored)
    requires forall i | 0 <= i < |snap.permits| :: snap.permits[i] == PermitsOf(e.destinations[i])
    ensures Fits(e.db, snap) && e.Agrees(snap)
  {
    forall d | 0 <= d < |snap.digital|
      ensures |snap.digital[d].inputs| == |e.db.digitalDevices[d].inputBits|
    {
      assert DigitalSnapOf(e.digitalDevices[d], snap.digital[d]);
    }
    forall d | 0 <= d < |e.digitalDevices|
      ensures e.InputsAgree(d, snap) && e.DigitalHeld(d, snap)
      ensures e.digitalDevices[d].modeActive == snap.digital[d].active
      ensures e.digitalDevices[d].faultedOffline == snap.digital[d].offline
    {
      assert DigitalSnapOf(e.digitalDevices[d], snap.digital[d]);
    }
    assert e.PermitsAgree(snap) && e.ThresholdsAgree(snap);
  }

  // ---- The cycle keeps no memory ----

  // The words a set of class numbers leaves in the buffer are determined by it.
  lemma SameWord(word: nat, masks: seq<set<nat>>, numbers: seq<nat>, v: Word, w: Word)
    requires |masks| == |numbers|
    requires MitigationWords.Written(word, masks, numbers, |masks|, v)
    requires MitigationWords.Written(word, masks, numbers, |masks|, w)
    ensures v == w
  {
    hide MitigationWords.RaisedBy;
    forall b: nat | b < 32 ensures b in v <==> b in w {
    }
    assert forall b | b in v || b in w :: b < 32;
  }

  // Two engines that see the same configuration and inputs finish a cycle with the
  // same classes and the same words, whatever flags they carried into it.
  lemma Memoryless(e: Engine, e': Engine, snap: Snapshot, numbers: seq<nat>, numbers': seq<nat>)
    requires e.Wired() && e'.Wired() && e.db == e'.db && Fits(e.db, snap)
    requires e.Limited(snap, numbers) && e'.Limited(snap, numbers')
    ensures e.softwareMitigationBuffer == e'.softwareMitigationBuffer
    ensures forall i | 0 <= i < |e.destinations| ::
      e.destinations[i].allowedBeamClass.number == e'.destinations[i].allowedBeamClass.number
  {
    hide LeastLimit, MitigationWords.Written;
    forall i | 0 <= i < |numbers| ensures numbers[i] == numbers'[i] {
      LeastLimitUnique(e.db, snap, i, numbers[i], numbers'[i]);
    }
    assert numbers == numbers';
    SameWord(0, e.db.destinationMasks, numbers, e.softwareMitigationBuffer[0], e'.softwareMitigationBuffer[0]);
    SameWord(1, e.db.destinationMasks, numbers, e.softwareMitigationBuffer[1], e'.softwareMitigationBuffer[1]);
  }

  // The objects a cycle writes are different ones.
  ghost predicate Apart(e: Engine, e': Engine) {
    && e != e' && e.states !! e'.states
    && (forall i, k | 0 <= i < |e.conditions| && 0 <= k < |e'.conditions| :: e.conditions[i] != e'.conditions[k])
    && (forall i, k | 0 <= i < |e.destinations| && 0 <= k < |e'.destinations| ::
          e.destinations[i] != e'.destinations[k])
    && (forall i, k | 0 <= i < |e.faults| && 0 <= k < |e'.faults| :: e.faults[i] != e'.faults[k])
    && (forall i, k | 0 <= i < |e.digitalDevices| && 0 <= k < |e'.digitalDevices| ::
          e.digitalDevices[i] != e'.digitalDevices[k])
    && (forall i, k | 0 <= i < |e.analogDevices| && 0 <= k < |e'.analogDevices| ::
          e.analogDevices[i] != e'.analogDevices[k])
  }

  // What a cycle reads or writes of an engine is as it was.
  twostate predicate Undisturbed(e: Engine)
    reads e, e.faults, e.states, e.digitalDevices, e.analogDevices, e.destinations
    reads set v | v in e.analogDevices :: v.bypassMask
    reads set d, k | 0 <= d < |e.digitalDevices| && 0 <= k < |e.digitalDevices[d].inputDevices| ::
            e.digitalDevices[d].inputDevices[k]
    reads set d, k | 0 <= d < |e.digitalDevices| && 0 <= k < |e.digitalDevices[d].inputDevices| ::
            e.digitalDevices[d].inputDevices[k].bypass
  {
    && unchanged(e) && unchanged(e.faults) && unchanged(e.states) && unchanged(e.destinations)
    && unchanged(e.digitalDevices) && unchanged(e.analogDevices)
    && (forall v | v in e.analogDevices :: unchanged(v.bypassMask))
    && forall d, k | 0 <= d < |e.digitalDevices| && 0 <= k < |e.digitalDevices[d].inputDevices| ::
         unchanged(e.digitalDevices[d].inputDevices[k]) && unchanged(e.digitalDevices[d].inputDevices[k].bypass)
  }

  // A cycle of one engine leaves the other one as it was.
  method RunBeside(e: Engine, other: Engine, ghost snap: Snapshot, ghost starts: seq<int>, ghost flags: seq<seq<bool>>)
    returns (ghost numbers: seq<nat>)
    requires e.Wired() && Apart(e, other) && Fits(e.db, snap)
    requires e.Agrees(snap) && e.FlagsAre(flags) && e.HistoryAgrees(starts)
    modifies e, e.conditions, e.destinations, e.faults, e.states
    modifies e.digitalDevices`value, e.digitalDevices`ignored, e.analogDevices`ignored
    modifies e.analogDevices`ignoredIntegrator
    ensures e.Limited(snap, numbers) && Undisturbed(other)
  {
    hide Engine.Wired, Engine.Agrees, Engine.FlagsAre, Engine.HistoryAgrees, Engine.Limited, Engine.InputsDecided, Fits;
    var result;
    result, numbers := e.CheckFaults(snap, starts, flags);
  }

  // So two engines with the same inputs, run from any flags and histories of their own, end
  // with the same classes and the same mitigation words.
  method RunBoth(e: Engine, e': Engine, ghost snap: Snapshot, ghost starts: seq<int>, ghost starts': seq<int>,
                 ghost flags: seq<seq<bool>>, ghost flags': seq<seq<bool>>)
    requires e.Wired() && e'.Wired() && Apart(e, e') && e.db == e'.db && Fits(e.db, snap)
    requires e.Agrees(snap) && e.FlagsAre(flags) && e.HistoryAgrees(starts)
    requires e'.Agrees(snap) && e'.FlagsAre(flags') && e'.HistoryAgrees(starts')
    modifies e, e.conditions, e.destinations, e.faults, e.states, e.digitalDevices, e.analogDevices
    modifies e', e'.conditions, e'.destinations, e'.faults, e'.states, e'.digitalDevices, e'.analogDevices
    ensures e.softwareMitigationBuffer == e'.softwareMitigationBuffer
    ensures forall i | 0 <= i < |e.destinations| ::
      e.destinations[i].allowedBeamClass.number == e'.destinations[i].allowedBeamClass.number
  {
    hide Engine.Wired, Engine.Agrees, Engine.FlagsAre, Engine.HistoryAgrees, Engine.Limited, Engine.InputsDecided, Fits;
    ghost var numbers := RunBeside(e, e', snap, starts, flags);
    ghost var numbers' := RunBeside(e', e, snap, starts', flags');
    Memoryless(e, e', snap, numbers, numbers');
  }

  // What extractMitigation reads at destination bit k: bits 0..7 from buffer word 1
  function DecodedClass(e: Engine, k: nat): nat
    requires k < 16 && |e.softwareMitigationBuffer| == 2
    reads e`softwareMitigationBuffer
  {
    if k < 8 then MitigationWords.Nibble(e.softwareMitigationBuffer[1], k)
    else MitigationWords.Nibble(e.softwareMitigationBuffer[0], k - 8)
  }

  // The firmware reads, at every bit a single destination owns, the least limit of
  // that destination, and zero at a bit of none.
  lemma FirmwareReadsLeastLimit(e: Engine, snap: Snapshot, numbers: seq<nat>, k: nat)
    requires e.Wired() && Fits(e.db, snap) && e.Limited(snap, numbers) && k < 16
    ensures forall o: nat, n: nat |
      MitigationWords.Owns(e.db.destinationMasks, o, k) && LeastLimit(e.db, snap, o, n) :: DecodedClass(e, k) == n % 16
    ensures (forall o | 0 <= o < |e.db.destinationMasks| :: k !in e.db.destinationMasks[o]) ==> DecodedClass(e, k) == 0
  {
    hide LeastLimit, MitigationWords.Written, MitigationWords.Nibble;
    var masks := e.db.destinationMasks;
    if k < 8 {
      MitigationWords.MitigationRoundTrip(masks, numbers, 1, e.softwareMitigationBuffer[1], k);
    } else {
      MitigationWords.MitigationRoundTrip(masks, numbers, 0, e.softwareMitigationBuffer[0], k - 8);
    }
    forall o: nat, n: nat | MitigationWords.Owns(masks, o, k) && LeastLimit(e.db, snap, o, n)
      ensures DecodedClass(e, k) == n % 16
    {
      LeastLimitUnique(e.db, snap, o, n, numbers[o]);
    }
  }

  // ---- Reload completeness ----

  // With the same conditions met, a device keeps its ignored flag if its card stays in
  // the same mode; a device the engine leaves alone holds the flag it had.
  lemma SameIgnored(db: Database, before: Snapshot, snap: Snapshot, a: nat)
    requires Fits(db, before) && Fits(db, snap) && a < |db.analogDevices|
    requires Conditions(db, before) == Conditions(db, snap)
    requires if db.analogDevices[a].Evaluated() then before.analog[a].active == snap.analog[a].active
             else snap.analog[a].heldIgnored == DeviceIgnored(db, before, AnalogAt(a))
    ensures DeviceIgnored(db, before, AnalogAt(a)) == DeviceIgnored(db, snap, AnalogAt(a))
  {
    hide DeviceNamed, Conditions;
  }

  // The integrator flags of a device after a cycle that started from `flag`
  lemma SameIntegratorFlags(db: Database, met: seq<bool>, a: nat, start: seq<bool>, first: seq<bool>, second: seq<bool>)
    requires db.WellFormed() && |met| == |db.conditions| && |start| == |first| == |second| == 4
    requires forall g | 0 <= g < 4 :: first[g] == IntegratorFlag(db, met, |met|, 0, a, g, start[g])
    requires forall g | 0 <= g < 4 :: second[g] == IntegratorFlag(db, met, |met|, 0, a, g, first[g])
    ensures first == second
  {
    hide IntegratorFlag;
    forall g | 0 <= g < 4 ensures first[g] == second[g] {
      IntegratorFlagSettled(db, met, |met|, 0, a, g, start[g]);
    }
  }

  lemma SameConditions(e: Engine, before: Snapshot, snap: Snapshot, met: seq<bool>)
    requires e.Wired() && Fits(e.db, before) && Fits(e.db, snap) && |met| == |e.conditions| && e.ConditionsDecided(snap)
    requires forall c | 0 <= c < |met| :: met[c] == ConditionMet(e.db, before, c) && met[c] == e.conditions[c].state
    ensures Conditions(e.db, before) == Conditions(e.db, snap) == met
  {
    hide ConditionMet;
  }

  // A cycle that finds every condition as the previous one left it, with the cards in
  // the same mode, leaves every flag the firmware image depends on as it was.
  twostate lemma NoReloadNoChange(e: Engine, new before: Snapshot, new snap: Snapshot,
                                 new flags0: seq<seq<bool>>, new flags: seq<seq<bool>>)
    requires e.Wired() && Fits(e.db, before) && Fits(e.db, snap)
    requires old(e.InputsDecided(before, flags0)) && old(e.FlagsAre(flags)) && e.InputsDecided(snap, flags)
    requires forall a | 0 <= a < |e.analogDevices| :: old(e.AnalogHeld(a, snap))
    requires forall a | 0 <= a < |e.analogDevices| && e.db.analogDevices[a].Evaluated() ::
      before.analog[a].active == snap.analog[a].active
    requires forall c | 0 <= c < |e.conditions| :: e.conditions[c].state == old(e.conditions[c].state)
    ensures forall a | 0 <= a < |e.analogDevices| ::
      && e.analogDevices[a].ignored == old(e.analogDevices[a].ignored)
      && e.analogDevices[a].ignoredIntegrator == old(e.analogDevices[a].ignoredIntegrator)
  {
    hide DeviceIgnored, ConditionMet, IntegratorFlag, StateFaulted, StateIgnored, AnyMatch, FaultValue;
    hide RestrictionAmong;
    var met := seq(|e.conditions|, c requires 0 <= c < |e.conditions| => ConditionMet(e.db, before, c));
    SameConditions(e, before, snap, met);
    forall a | 0 <= a < |e.analogDevices|
      ensures e.analogDevices[a].ignored == old(e.analogDevices[a].ignored)
      ensures e.analogDevices[a].ignoredIntegrator == old(e.analogDevices[a].ignoredIntegrator)
    {
      assert old(e.AnalogHeld(a, snap));
      SameIgnored(e.db, before, snap, a);
      SameIntegratorFlags(e.db, met, a, flags0[a], flags[a], e.analogDevices[a].ignoredIntegrator);
    }
  }

  // The integrator flags a cycle leaves, from those it started with; in a well-placed
  // configuration they say which integrators met conditions name, and nothing else.
  lemma IntegratorFlagsAfterCycle(e: Engine, snap: Snapshot, flags: seq<seq<bool>>, a: nat, g: nat)
    requires e.Wired() && Fits(e.db, snap) && e.InputsDecided(snap, flags) && a < |e.analogDevices| && g < 4
    ensures |flags| == |e.analogDevices| && |flags[a]| == 4 == |e.analogDevices[a].ignoredIntegrator|
    ensures e.analogDevices[a].ignoredIntegrator[g] == FlagAfter(e.db, Conditions(e.db, snap), a, g, flags[a][g])
    ensures WellPlaced(e.db, a, g) ==>
      e.analogDevices[a].ignoredIntegrator[g] == FlagMeant(e.db, Conditions(e.db, snap), a, g)
  {
    hide Conditions, IntegratorFlag, WellPlaced, FlagMeant, Engine.FaultsEvaluated, Engine.StatesDecided;
    hide Engine.DevicesDecided, Engine.ConditionsDecided, Engine.DigitalValuesAgree;
    if WellPlaced(e.db, a, g) {
      WellPlacedSuffices(e.db, Conditions(e.db, snap), a, g, flags[a][g]);
    }
  }
}
