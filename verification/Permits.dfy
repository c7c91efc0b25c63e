// The operators' limits on destinations: MpsDb::forceBeamDestination,
// softPermitDestination and setMaxPermit (src/central_node_database.cc), and what
// they do to the class a cycle allows.
module Permits {
  import opened Words
  import opened Tables
  import opened CycleRules

  const CLEAR_BEAM_CLASS := 99

  // The class an operator names; an unknown one and CLEAR_BEAM_CLASS clear the limit.
  function Selected(beamClasses: map<nat, BeamClass>, beamClassId: nat): (selected: Option<BeamClass>)
    ensures selected.Some? <==> beamClassId != 99 && beamClassId in beamClasses
    ensures selected.Some? ==> selected.value == beamClasses[beamClassId]
  {
    if beamClassId != CLEAR_BEAM_CLASS && beamClassId in beamClasses then Some(beamClasses[beamClassId]) else None
  }

  ghost predicate InOrder(destinations: seq<BeamDestination>) {
    forall i | 0 <= i < |destinations| :: destinations[i].id == i
  }

  method ForceBeamDestination(destinations: seq<BeamDestination>, beamClasses: map<nat, BeamClass>,
                              beamDestinationId: nat, beamClassId: nat)
    requires InOrder(destinations)
    modifies destinations`forceBeamClass
    ensures forall i | 0 <= i < |destinations| ::
      destinations[i].forceBeamClass ==
        if i == beamDestinationId then Selected(beamClasses, beamClassId) else old(destinations[i].forceBeamClass)
  {
    if beamDestinationId < |destinations| {
      destinations[beamDestinationId].forceBeamClass := Selected(beamClasses, beamClassId);
    }
  }

  method SoftPermitDestination(destinations: seq<BeamDestination>, beamClasses: map<nat, BeamClass>,
                               beamDestinationId: nat, beamClassId: nat)
    requires InOrder(destinations)
    modifies destinations`softPermit
    ensures forall i | 0 <= i < |destinations| ::
      destinations[i].softPermit ==
        if i == beamDestinationId then Selected(beamClasses, beamClassId) else old(destinations[i].softPermit)
  {
    if beamDestinationId < |destinations| {
      destinations[beamDestinationId].softPermit := Selected(beamClasses, beamClassId);
    }
  }

  // The LASER destination is left out.
  method SetMaxPermit(destinations: seq<BeamDestination>, beamClasses: map<nat, BeamClass>, beamClassId: nat)
    requires InOrder(destinations)
    modifies destinations`maxPermit
    ensures forall i | 0 <= i < |destinations| ::
      destinations[i].maxPermit ==
        if destinations[i].name != "LASER" then Selected(beamClasses, beamClassId) else old(destinations[i].maxPermit)
  {
    for n := 0 to |destinations|
      invariant forall i | 0 <= i < |destinations| ::
        destinations[i].maxPermit ==
          if i < n && destinations[i].name != "LASER" then Selected(beamClasses, beamClassId)
          else old(destinations[i].maxPermit)
    {
      if destinations[n].name != "LASER" {
        destinations[n].maxPermit := Selected(beamClasses, beamClassId);
      }
    }
  }

  // A limit is in force in every cycle: no class above it is allowed.
  lemma PermitCaps(db: Database, snap: Snapshot, dest: nat, n: nat, limit: nat)
    requires Fits(db, snap) && dest < |db.destinationMasks| && LeastLimit(db, snap, dest, n)
    requires PermitLimit(snap.permits[dest], limit)
    ensures n <= limit
  {
    hide RuleLimit;
    assert Limit(db, snap, dest, limit);
  }

  // Each of the three permits caps the class allowed, which is one of them, the highest
  // class, or the class of a rule that applies.
  lemma EachPermitCaps(db: Database, snap: Snapshot, dest: nat, n: nat)
    requires Fits(db, snap) && dest < |db.destinationMasks| && LeastLimit(db, snap, dest, n)
    ensures snap.permits[dest].force.Some? ==> n <= snap.permits[dest].force.value.number
    ensures snap.permits[dest].max.Some? ==> n <= snap.permits[dest].max.value.number
    ensures snap.permits[dest].soft.Some? ==> n <= snap.permits[dest].soft.value.number
    ensures n <= db.highestBeamClass.number
    ensures
      || n == db.highestBeamClass.number
      || (snap.permits[dest].force.Some? && n == snap.permits[dest].force.value.number)
      || (snap.permits[dest].max.Some? && n == snap.permits[dest].max.value.number)
      || (snap.permits[dest].soft.Some? && n == snap.permits[dest].soft.value.number)
      || exists rule :: HasRule(db, rule) && RuleApplies(db, snap, rule)
           && Rule(db, rule).destination == dest && Rule(db, rule).beamClass.number == n
  {
    hide RuleApplies;
    var p := snap.permits[dest];
    assert p.force.Some? ==> Limit(db, snap, dest, p.force.value.number);
    assert p.max.Some? ==> Limit(db, snap, dest, p.max.value.number);
    assert p.soft.Some? ==> Limit(db, snap, dest, p.soft.value.number);
    assert Limit(db, snap, dest, db.highestBeamClass.number);
  }

  // Adding limits never raises the class allowed to any destination, and lifting a
  // limit that is above the class allowed changes nothing.
  lemma MoreLimitsNeverRaise(db: Database, snap: Snapshot, tighter: seq<PermitSnap>, dest: nat, n: nat, n': nat)
    requires Fits(db, snap) && dest < |db.destinationMasks| && |tighter| == |snap.permits|
    requires forall k: nat :: PermitLimit(snap.permits[dest], k) ==> PermitLimit(tighter[dest], k)
    requires LeastLimit(db, snap, dest, n) && LeastLimit(db, snap.(permits := tighter), dest, n')
    ensures n' <= n
    ensures n' == n || PermitLimit(tighter[dest], n')
  {
    var snap' := snap.(permits := tighter);
    SameRules(db, snap, tighter);
    forall k: nat ensures RuleLimit(db, snap, dest, k) <==> RuleLimit(db, snap', dest, k) {
      assert forall rule | HasRule(db, rule) :: RuleApplies(db, snap, rule) == RuleApplies(db, snap', rule);
    }
    hide RuleLimit, PermitLimit;
    assert Limit(db, snap', dest, n);
    if !PermitLimit(tighter[dest], n') {
      assert Limit(db, snap, dest, n');
    }
  }

  // ---- Permits play no part in what the rules of the configuration ask ----

  lemma SameDeviceValue(db: Database, snap: Snapshot, permits: seq<PermitSnap>, v: Device)
    requires Fits(db, snap) && |permits| == |snap.permits| && db.HasDevice(v)
    ensures DeviceValue(db, snap, v) == DeviceValue(db, snap.(permits := permits), v)
  {
  }

  lemma {:induction false} SameCombine(db: Database, snap: Snapshot, permits: seq<PermitSnap>, f: nat, n: nat)
    requires Fits(db, snap) && |permits| == |snap.permits| && f < |db.faults| && n <= |db.faults[f].inputs|
    ensures Combine(db, snap, f, n) == Combine(db, snap.(permits := permits), f, n)
  {
    hide DeviceValue;
    if n > 0 {
      SameDeviceValue(db, snap, permits, db.faults[f].inputs[n - 1].device);
      SameCombine(db, snap, permits, f, n - 1);
    }
  }

  lemma SameFaulted(db: Database, snap: Snapshot, permits: seq<PermitSnap>)
    requires Fits(db, snap) && |permits| == |snap.permits|
    ensures forall r | db.HasState(r) :: StateFaulted(db, snap, r) == StateFaulted(db, snap.(permits := permits), r)
  {
    hide Combine;
    var snap' := snap.(permits := permits);
    forall f: nat, s: nat | db.HasState(StateRef(f, s)) ensures Matches(db, snap, f, s) == Matches(db, snap', f, s) {
      SameCombine(db, snap, permits, f, |db.faults[f].inputs|);
    }
    assert forall f | 0 <= f < |db.faults| :: AnyMatch(db, snap, f) == AnyMatch(db, snap', f) by {
      forall f | 0 <= f < |db.faults| ensures AnyMatch(db, snap, f) == AnyMatch(db, snap', f) {
        assert forall s | 0 <= s < |db.faults[f].states| :: db.HasState(StateRef(f, s));
      }
    }
  }

  lemma {:induction false} SameCondition(db: Database, snap: Snapshot, permits: seq<PermitSnap>, c: nat, n: nat)
    requires Fits(db, snap) && |permits| == |snap.permits| && c < |db.conditions| && n <= |db.conditions[c].inputs|
    requires forall r | db.HasState(r) :: StateFaulted(db, snap, r) == StateFaulted(db, snap.(permits := permits), r)
    ensures ConditionValue(db, snap, c, n) == ConditionValue(db, snap.(permits := permits), c, n)
  {
    hide StateFaulted;
    if n > 0 {
      SameCondition(db, snap, permits, c, n - 1);
    }
  }

  lemma SameConditions(db: Database, snap: Snapshot, permits: seq<PermitSnap>)
    requires Fits(db, snap) && |permits| == |snap.permits|
    requires forall r | db.HasState(r) :: StateFaulted(db, snap, r) == StateFaulted(db, snap.(permits := permits), r)
    ensures Conditions(db, snap) == Conditions(db, snap.(permits := permits))
  {
    hide StateFaulted, ConditionValue;
    forall c | 0 <= c < |db.conditions|
      ensures ConditionMet(db, snap, c) == ConditionMet(db, snap.(permits := permits), c)
    {
      SameCondition(db, snap, permits, c, |db.conditions[c].inputs|);
    }
  }

  lemma SameRules(db: Database, snap: Snapshot, permits: seq<PermitSnap>)
    requires Fits(db, snap) && |permits| == |snap.permits|
    ensures forall rule | HasRule(db, rule) ::
      RuleApplies(db, snap, rule) == RuleApplies(db, snap.(permits := permits), rule)
  {
    hide StateFaulted, Conditions, StateIgnored, DeviceNamed;
    var snap' := snap.(permits := permits);
    SameFaulted(db, snap, permits);
    SameConditions(db, snap, permits);
    forall f | 0 <= f < |db.faults| ensures FaultCounts(db, snap, f) == FaultCounts(db, snap', f) {
      assert forall k | 0 <= k < |db.faults[f].inputs| ::
        OutOfPlay(db, snap, db.faults[f].inputs[k].device) == OutOfPlay(db, snap', db.faults[f].inputs[k].device);
    }
  }
}
