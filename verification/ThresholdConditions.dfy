// Conditions that each read one threshold of their own: all states of such conditions
// occur, so for them the placing of the ignore rows alone tells whether the integrator
// flags of Engine::evaluateIgnoreConditions (src/central_node_engine.cc) can be trusted.
module ThresholdConditions {
  import opened Words
  import opened Tables
  import opened CycleRules
  import opened IntegratorRules

  // Fault f reads analog device a alone, and state r of it compares threshold bit b.
  predicate ThresholdState(db: Database, r: StateRef, a: nat, b: nat) {
    && db.HasState(r) && b < 32 && a < |db.analogDevices|
    && db.faults[r.fault].inputs == [FaultInputRow(0, AnalogAt(a))]
    && db.faults[r.fault].states[r.state].deviceState == DeviceState({b}, {b})
    && db.faults[r.fault].defaultState != Some(r.state)
  }

  lemma ThresholdFaulted(db: Database, snap: Snapshot, r: StateRef, a: nat, b: nat)
    requires Fits(db, snap) && ThresholdState(db, r, a, b)
    ensures StateFaulted(db, snap, r) <==> b in DeviceValue(db, snap, AnalogAt(a))
  {
    hide DeviceValue;
    var w := DeviceValue(db, snap, AnalogAt(a));
    assert Combine(db, snap, r.fault, 0) == ZERO;
    assert FaultValue(db, snap, r.fault) == Or(ZERO, Shift(w, 0)) == w;
    assert b in {b} && (b in And(w, {b}) <==> b in w);
  }

  // Condition c is met exactly when threshold b of analog device a is faulted.
  predicate ThresholdCondition(db: Database, c: nat, a: nat, b: nat) {
    && c < |db.conditions| && |db.conditions[c].inputs| == 1
    && var input := db.conditions[c].inputs[0];
       && input.bitPosition < 32 && db.conditions[c].mask == {input.bitPosition}
       && ThresholdState(db, input.faultState, a, b)
  }

  lemma ThresholdMet(db: Database, snap: Snapshot, c: nat, a: nat, b: nat)
    requires Fits(db, snap) && ThresholdCondition(db, c, a, b)
    ensures ConditionMet(db, snap, c) <==> b in snap.analog[a].latched && b in snap.analog[a].bypassMask
  {
    hide StateFaulted;
    var input := db.conditions[c].inputs[0];
    ThresholdFaulted(db, snap, input.faultState, a, b);
    ConditionBit(db, snap, c, 1, input.bitPosition);
    var v := ConditionValue(db, snap, c, 1);
    if StateFaulted(db, snap, input.faultState) {
      forall p: nat ensures p in v <==> p == input.bitPosition {
        ConditionBit(db, snap, c, 1, p);
      }
      assert v == {input.bitPosition};
    } else {
      assert input.bitPosition !in v;
    }
  }

  // Condition c reads threshold keys[c], and no two read the same.
  ghost predicate Independent(db: Database, keys: seq<(nat, nat)>) {
    && |keys| == |db.conditions|
    && (forall c | 0 <= c < |keys| :: ThresholdCondition(db, c, keys[c].0, keys[c].1))
    && (forall c, d | 0 <= c < d < |keys| :: keys[c] != keys[d])
  }

  // The thresholds of device a whose conditions are to be met
  ghost function Thresholds(keys: seq<(nat, nat)>, met: seq<bool>, a: nat): (w: Word)
    requires |keys| == |met|
    ensures forall b :: b in w <==> b < 32 && exists c :: 0 <= c < |met| && met[c] && keys[c] == (a, b)
  {
    set b: nat | b < 32 && exists c :: 0 <= c < |met| && met[c] && keys[c] == (a, b)
  }

  ghost function Latching(db: Database, keys: seq<(nat, nat)>, met: seq<bool>): (snap: Snapshot)
    requires db.WellFormed() && |keys| == |met|
    ensures Fits(db, snap)
    ensures forall a | 0 <= a < |snap.analog| ::
      snap.analog[a] == AnalogSnap(Thresholds(keys, met, a), ALL_ONES, true, false, false)
  {
    Blank(db).(analog := seq(|db.analogDevices|, a requires 0 <= a =>
      AnalogSnap(Thresholds(keys, met, a), ALL_ONES, true, false, false)))
  }

  // All states of independent conditions occur.
  lemma AllAttained(db: Database, keys: seq<(nat, nat)>, met: seq<bool>)
    requires db.WellFormed() && Independent(db, keys) && |met| == |db.conditions|
    ensures Attainable(db, met)
  {
    hide ConditionMet;
    var snap := Latching(db, keys, met);
    forall c | 0 <= c < |met| ensures ConditionMet(db, snap, c) == met[c] {
      ThresholdMet(db, snap, c, keys[c].0, keys[c].1);
    }
    assert Conditions(db, snap) == met;
  }

  // So for them the flag is as meant after every run exactly when it has no row or its rows
  // are well placed, and whatever was left in it exactly when they are.
  lemma FlagAsMeantByPlace(db: Database, keys: seq<(nat, nat)>, a: nat, g: nat)
    requires db.WellFormed() && Independent(db, keys)
    ensures (forall snaps | Run(db, snaps) && snaps != [] :: RunAsMeant(db, snaps, a, g)) <==>
      WellPlaced(db, a, g) || forall d: nat :: !Naming(db, d, a, g)
    ensures (forall snap, flag | Fits(db, snap) :: AsMeant(db, Conditions(db, snap), a, g, flag)) <==>
      WellPlaced(db, a, g)
  {
    hide WellPlaced, Sound, RunAsMeant, AsMeant, Conditions, Attainable;
    NamingInRange(db, a, g);
    forall d: nat | Naming(db, d, a, g)
      ensures d < |db.conditions| && Attainable(db, MetUpTo(db, d, a, g)) && Attainable(db, OnlyMet(db, d))
    {
      AllAttained(db, keys, MetUpTo(db, d, a, g));
      AllAttained(db, keys, OnlyMet(db, d));
    }
    SoundWhenWellPlaced(db, a, g);
    FlagAsMeantFromStart(db, a, g);
    FlagAsMeantAlways(db, a, g);
  }
}
