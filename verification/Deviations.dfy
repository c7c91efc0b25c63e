// Where the cycle does not do what its comments say: the exact condition under which
// it does, and an input on which it does not.
module Deviations {
  import opened Words
  import opened Tables
  import opened CycleRules
  import opened IntegratorRules
  import opened ThresholdConditions

  // The default state of a fault is meant to be on when no state of the fault matches.
  predicate DefaultMeant(db: Database, snap: Snapshot, f: nat)
    requires Fits(db, snap) && f < |db.faults| && db.faults[f].defaultState.Some?
  {
    Matches(db, snap, f, db.faults[f].defaultState.value) || !AnyMatch(db, snap, f)
  }

  // It is, exactly when the fault has a match of its own or no earlier fault has one.
  lemma DefaultStateAsMeant(db: Database, snap: Snapshot, f: nat)
    requires Fits(db, snap) && f < |db.faults| && db.faults[f].defaultState.Some?
    ensures (StateFaulted(db, snap, StateRef(f, db.faults[f].defaultState.value)) <==> DefaultMeant(db, snap, f))
      <==> (AnyMatch(db, snap, f) || !AnyMatchBefore(db, snap, f))
  {
    hide FaultValue;
    var d := db.faults[f].defaultState.value;
    OneMoreFault(db, snap, f);
    assert Matches(db, snap, f, d) ==> AnyMatch(db, snap, f);
  }

  // Fault states of one threshold bit b, read from analog device 0
  function ThresholdFault(b: nat, defaultState: Option<nat>): FaultRow
    requires b < 32
  {
    var state := FaultStateRow(b, DeviceState({b}, {b}), []);
    FaultRow(SlowEvaluation, [FaultInputRow(0, AnalogAt(0))], [state], defaultState)
  }

  function TwoFaults(): Database {
    Database(BeamClass(1, 5), BeamClass(0, 0), [], [DeviceRow(1, SlowEvaluation, [])],
             [ThresholdFault(0, None), ThresholdFault(1, Some(0))], [], [])
  }

  // Threshold 0 alone is latched.
  function FirstThreshold(): Snapshot {
    Snapshot([], [AnalogSnap({0}, ALL_ONES, true, false, false)], [])
  }

  // No state of the second fault matches, and yet its default state stays off.
  lemma DefaultStateMissed()
    ensures Fits(TwoFaults(), FirstThreshold())
    ensures DefaultMeant(TwoFaults(), FirstThreshold(), 1)
    ensures !StateFaulted(TwoFaults(), FirstThreshold(), StateRef(1, 0))
  {
    hide Matches;
    var db, snap := TwoFaults(), FirstThreshold();
    assert Fits(db, snap);
    ThresholdFaultMatches(db, snap, 0, 0, None);
    ThresholdFaultMatches(db, snap, 1, 1, Some(0));
    assert DeviceValue(db, snap, AnalogAt(0)) == {0};
    assert AnyMatch(db, snap, 0);
  }

  lemma ThresholdFaultMatches(db: Database, snap: Snapshot, f: nat, b: nat, defaultState: Option<nat>)
    requires Fits(db, snap) && f < |db.faults| && |db.analogDevices| > 0
    requires b < 32 && db.faults[f] == ThresholdFault(b, defaultState)
    ensures Matches(db, snap, f, 0) <==> b in DeviceValue(db, snap, AnalogAt(0))
  {
    hide DeviceValue;
    var w := DeviceValue(db, snap, AnalogAt(0));
    assert Combine(db, snap, f, 0) == ZERO;
    assert FaultValue(db, snap, f) == Or(ZERO, Shift(w, 0)) == w;
    assert b in {b} && (b in And(w, {b}) <==> b in w);
  }

  // ---- Offline faults ----

  // A fault is meant to count as offline when one of its inputs is.
  ghost predicate OfflineMeant(db: Database, snap: Snapshot, f: nat)
    requires Fits(db, snap) && f < |db.faults|
  {
    exists k :: 0 <= k < |db.faults[f].inputs| && Offline(db, snap, db.faults[f].inputs[k].device)
  }

  function CardOf(db: Database, v: Device): nat
    requires db.HasDevice(v)
  {
    match v
    case DigitalAt(d) => db.digitalDevices[d].cardId
    case AnalogAt(a) => db.analogDevices[a].cardId
  }

  // An update gives all devices of a card one offline flag; a device without card is alone.
  predicate OneCard(db: Database, v: Device, w: Device)
    requires db.HasDevice(v) && db.HasDevice(w)
  {
    v == w || CardOf(db, v) == CardOf(db, w) != NO_CARD_ID
  }

  ghost predicate OfflineByCard(db: Database, snap: Snapshot)
    requires Fits(db, snap)
  {
    forall v, w | db.HasDevice(v) && db.HasDevice(w) && OneCard(db, v, w) ::
      Offline(db, snap, v) == Offline(db, snap, w)
  }

  // The card of device v is offline, and no other.
  ghost function CardOffline(db: Database, v: Device): (snap: Snapshot)
    requires db.WellFormed() && db.HasDevice(v)
    ensures Fits(db, snap) && OfflineByCard(db, snap)
    ensures forall w | db.HasDevice(w) :: Offline(db, snap, w) <==> OneCard(db, w, v)
  {
    Snapshot(
      seq(|db.digitalDevices|, d requires 0 <= d < |db.digitalDevices| =>
        DigitalSnap(seq(|db.digitalDevices[d].inputBits|, _ => InputSnap(ZERO, None)),
                    true, OneCard(db, DigitalAt(d), v), ZERO, false)),
      seq(|db.analogDevices|, a requires 0 <= a < |db.analogDevices| =>
        AnalogSnap(ZERO, ALL_ONES, true, OneCard(db, AnalogAt(a), v), false)),
      seq(|db.destinationMasks|, _ => PermitSnap(None, None, None)))
  }

  // All inputs of the fault are on the card its last input is on.
  predicate InputsOnOneCard(db: Database, f: nat)
    requires db.WellFormed() && f < |db.faults|
  {
    var inputs := db.faults[f].inputs;
    forall k | 0 <= k < |inputs| :: OneCard(db, inputs[k].device, inputs[|inputs| - 1].device)
  }

  // It does so whatever cards are offline, exactly when its inputs are on one card.
  lemma OfflineAsMeant(db: Database, f: nat)
    requires db.WellFormed() && f < |db.faults|
    ensures InputsOnOneCard(db, f) <==>
      forall snap | Fits(db, snap) && OfflineByCard(db, snap) ::
        FaultOffline(db, snap, f) <==> OfflineMeant(db, snap, f)
  {
    var inputs := db.faults[f].inputs;
    hide CardOf;
    if InputsOnOneCard(db, f) {
      forall snap | Fits(db, snap) && OfflineByCard(db, snap)
        ensures FaultOffline(db, snap, f) <==> OfflineMeant(db, snap, f)
      {
        assert forall k | 0 <= k < |inputs| ::
          Offline(db, snap, inputs[k].device) == Offline(db, snap, inputs[|inputs| - 1].device);
      }
    } else {
      var k :| 0 <= k < |inputs| && !OneCard(db, inputs[k].device, inputs[|inputs| - 1].device);
      var snap := CardOffline(db, inputs[k].device);
      assert OneCard(db, inputs[k].device, inputs[k].device);
      assert OfflineMeant(db, snap, f) && !FaultOffline(db, snap, f);
    }
  }

  // On one snapshot it does exactly when the inputs before the last are online, or the
  // last is offline anyway.
  lemma OfflineOnSnapshot(db: Database, snap: Snapshot, f: nat)
    requires Fits(db, snap) && f < |db.faults| && |db.faults[f].inputs| > 0
    ensures
      var inputs := db.faults[f].inputs;
      var last := |inputs| - 1;
      (FaultOffline(db, snap, f) <==> OfflineMeant(db, snap, f)) <==>
        (Offline(db, snap, inputs[last].device) || forall k | 0 <= k < last :: !Offline(db, snap, inputs[k].device))
  {
  }

  // A fault of two devices on different cards, the first of them offline
  function TwoInputs(): Database {
    Database(BeamClass(1, 5), BeamClass(0, 0), [], [DeviceRow(1, SlowEvaluation, []), DeviceRow(2, SlowEvaluation, [])],
             [FaultRow(SlowEvaluation, [FaultInputRow(0, AnalogAt(0)), FaultInputRow(1, AnalogAt(1))], [], None)],
             [], [])
  }

  lemma OfflineMissed()
    ensures TwoInputs().WellFormed()
    ensures
      var snap := CardOffline(TwoInputs(), AnalogAt(0));
      && OfflineByCard(TwoInputs(), snap)
      && OfflineMeant(TwoInputs(), snap, 0) && !FaultOffline(TwoInputs(), snap, 0)
  {
    var db := TwoInputs();
    var snap := CardOffline(db, AnalogAt(0));
    assert db.faults[0].inputs[0].device == AnalogAt(0);
    assert Offline(db, snap, db.faults[0].inputs[0].device);
  }

  // ---- Integrator flags: leftovers and order ----

  function TwoStates(evaluation: Evaluation, a: nat): FaultRow {
    var states := [FaultStateRow(0, DeviceState({0}, {0}), []), FaultStateRow(1, DeviceState({1}, {1}), [])];
    FaultRow(evaluation, [FaultInputRow(0, AnalogAt(a))], states, None)
  }

  // A condition that is met when threshold k of analog device 1 is faulted
  function WhenThreshold(k: nat, row: IgnoreRow): ConditionRow {
    ConditionRow({0}, [ConditionInputRow(0, StateRef(1, k))], [row])
  }

  // Two analog devices, each with a fault of two states, for thresholds 0 and 1 of its first
  // integrator, and two conditions
  function TwoConditions(first: ConditionRow, second: ConditionRow): Database {
    Database(BeamClass(1, 5), BeamClass(0, 0), [], [DeviceRow(1, FastEvaluation, []), DeviceRow(2, SlowEvaluation, [])],
             [TwoStates(FastEvaluation, 0), TwoStates(SlowEvaluation, 1)], [first, second], [])
  }

  // Thresholds w of device 1 are latched, and nothing else.
  function Latched(w: Word): Snapshot {
    Snapshot([], [AnalogSnap(ZERO, ALL_ONES, true, false, false), AnalogSnap(w, ALL_ONES, true, false, false)], [])
  }

  // Ignore rows for states of device 0: its first state alone, and each beside the device
  const STATE_ALONE := IgnoreRow(Some(StateRef(0, 0)), None)
  const FIRST_STATE := IgnoreRow(Some(StateRef(0, 0)), Some(AnalogAt(0)))
  const SECOND_STATE := IgnoreRow(Some(StateRef(0, 1)), Some(AnalogAt(0)))

  predicate Ignores(row: IgnoreRow) {
    row == STATE_ALONE || row == FIRST_STATE || row == SECOND_STATE
  }

  lemma ReadsThreshold(db: Database, c: nat, k: nat, row: IgnoreRow)
    requires k < 2 && c < |db.conditions| && db.conditions[c] == WhenThreshold(k, row)
    requires |db.analogDevices| == |db.faults| == 2 && db.faults[1] == TwoStates(SlowEvaluation, 1)
    ensures ThresholdCondition(db, c, 1, k)
  {
  }

  lemma RowsExist(first: ConditionRow, second: ConditionRow)
    requires forall c | c == first || c == second ::
      |c.inputs| == |c.ignoreConditions| == 1 && Ignores(c.ignoreConditions[0])
      && c.inputs[0].faultState.fault == 1 && c.inputs[0].faultState.state < 2
    ensures TwoConditions(first, second).WellFormed()
  {
  }

  lemma ConditionsThen(i: nat, row: IgnoreRow, j: nat, row': IgnoreRow, w: Word)
    requires i < 2 && j < 2 && Ignores(row) && Ignores(row')
    ensures
      var db := TwoConditions(WhenThreshold(i, row), WhenThreshold(j, row'));
      && db.WellFormed() && Fits(db, Latched(w)) && Conditions(db, Latched(w)) == [i in w, j in w]
  {
    hide ConditionMet, ThresholdCondition, Database.WellFormed;
    var db := TwoConditions(WhenThreshold(i, row), WhenThreshold(j, row'));
    RowsExist(WhenThreshold(i, row), WhenThreshold(j, row'));
    ReadsThreshold(db, 0, i, row);
    ReadsThreshold(db, 1, j, row');
    ThresholdMet(db, Latched(w), 0, 1, i);
    ThresholdMet(db, Latched(w), 1, 1, j);
  }

  function StaleRows(): Database {
    TwoConditions(WhenThreshold(0, STATE_ALONE), WhenThreshold(1, FIRST_STATE))
  }

  // The first condition, met, ignores the state; the second, not met, would clear the
  // flag beside it, and is skipped: what an earlier cycle left stays.
  lemma StaleFlag(flag: bool)
    ensures StaleRows().WellFormed() && Fits(StaleRows(), Latched({0}))
    ensures
      var met := Conditions(StaleRows(), Latched({0}));
      FlagAfter(StaleRows(), met, 0, 0, flag) == flag && !FlagMeant(StaleRows(), met, 0, 0)
  {
    hide IntegratorFlag, ConditionMet;
    ConditionsThen(0, STATE_ALONE, 1, FIRST_STATE, {0});
    var db := StaleRows();
    var met := [true, false];
    var r := StateRef(0, 0);
    assert NamesState(db.conditions[0].ignoreConditions, 1, r) by {
      assert db.conditions[0].ignoreConditions[0].faultState == Some(r);
    }
    assert met[..1][0];
    assert IgnoredSoFar(db, met, 1, 0, r);
    forall d: nat, i: nat ensures !Writer(db, met, d, i, 0, 0) {
    }
    NoWriterKeeps(db, met, 2, 0, 0, 0, flag);
  }

  // So it is in a run of two cycles: threshold 1 is latched alone, and after an unlatch
  // threshold 0 alone.
  lemma StaleFlagReached()
    ensures StaleRows().WellFormed() && Run(StaleRows(), [Latched({1}), Latched({0})])
    ensures FlagRun(StaleRows(), [Latched({1}), Latched({0})], 0, 0)
    ensures !FlagMeant(StaleRows(), Conditions(StaleRows(), Latched({0})), 0, 0)
  {
    hide IntegratorFlag, ConditionMet;
    var db := StaleRows();
    StaleFlag(true);
    ConditionsThen(0, STATE_ALONE, 1, FIRST_STATE, {1});
    var met := [false, true];
    assert db.conditions[1].ignoreConditions[0] == FIRST_STATE;
    assert NamesIntegrator(db, 1, 0, 0, 0);
    assert Writer(db, met, 1, 0, 0, 0) && Before(1, 0, 2, 0);
    LastWriterDecides(db, met, 2, 0, 0, 0, false, 1, 0);
    RunOfOne(db, Latched({1}), 0, 0);
    RunOfTwo(db, Latched({1}), Latched({0}), 0, 0);
  }

  // No row before the second condition names state r.
  lemma NothingListed(db: Database, met: seq<bool>, r: StateRef)
    requires |met| == |db.conditions| == 2 && |db.conditions[0].ignoreConditions| == 1
    requires db.conditions[0].ignoreConditions[0].faultState != Some(r)
    ensures !IgnoredSoFar(db, met, 1, 0, r)
  {
  }

  // Of two conditions on the two states of one integrator the later one decides.
  lemma LaterConditionDecides(i: nat, row: IgnoreRow, j: nat, row': IgnoreRow, w: Word, flag: bool)
    requires i < 2 && j < 2
    requires (row == FIRST_STATE && row' == SECOND_STATE) || (row == SECOND_STATE && row' == FIRST_STATE)
    ensures
      var db := TwoConditions(WhenThreshold(i, row), WhenThreshold(j, row'));
      && db.WellFormed() && Fits(db, Latched(w))
      && FlagAfter(db, Conditions(db, Latched(w)), 0, 0, flag) == (j in w)
  {
    hide IntegratorFlag, NamesState, ConditionMet;
    ConditionsThen(i, row, j, row', w);
    var db := TwoConditions(WhenThreshold(i, row), WhenThreshold(j, row'));
    var met := [i in w, j in w];
    NothingListed(db, met, row'.faultState.value);
    assert db.conditions[1].ignoreConditions[0] == row';
    assert NamesIntegrator(db, 1, 0, 0, 0);
    assert Writer(db, met, 1, 0, 0, 0) && Before(1, 0, 2, 0);
    LastWriterDecides(db, met, 2, 0, 0, 0, flag, 1, 0);
  }

  // With the same inputs, two conditions in one order clear the flag and in the other set it.
  lemma OrderFlipsFlag(flag: bool)
    ensures
      var first, second := WhenThreshold(0, FIRST_STATE), WhenThreshold(1, SECOND_STATE);
      var db, swapped := TwoConditions(first, second), TwoConditions(second, first);
      && Fits(db, Latched({0})) && Fits(swapped, Latched({0}))
      && !FlagAfter(db, Conditions(db, Latched({0})), 0, 0, flag)
      && FlagAfter(swapped, Conditions(swapped, Latched({0})), 0, 0, flag)
  {
    LaterConditionDecides(0, FIRST_STATE, 1, SECOND_STATE, {0}, flag);
    LaterConditionDecides(1, SECOND_STATE, 0, FIRST_STATE, {0}, flag);
  }
}
