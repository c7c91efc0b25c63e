// The loop of Engine::mitigate place by place: the class limits met so far, and the
// state reported for a fault.
module MitigationRules {
  import opened Words
  import opened Tables
  import opened CycleRules

  // Faults before f, states of f before s and allowed classes of s before a are done.
  predicate Here(db: Database, f: nat, s: nat, a: nat) {
    && f <= |db.faults|
    && s <= (if f < |db.faults| then |db.faults[f].states| else 0)
    && a <= if f < |db.faults| && s < |db.faults[f].states| then |db.faults[f].states[s].allowedClasses| else 0
  }

  predicate Done(rule: RuleRef, f: nat, s: nat, a: nat) {
    || rule.at.fault < f
    || (rule.at.fault == f && (rule.at.state < s || (rule.at.state == s && rule.allowed < a)))
  }

  ghost predicate RuleLimitSoFar(db: Database, snap: Snapshot, dest: nat, n: nat, f: nat, s: nat, a: nat)
    requires Fits(db, snap)
  {
    exists rule :: HasRule(db, rule) && Done(rule, f, s, a) && RuleApplies(db, snap, rule)
      && Rule(db, rule).destination == dest && Rule(db, rule).beamClass.number == n
  }

  // n is the least of the highest class and the applying rules done so far.
  ghost predicate LeastSoFar(db: Database, snap: Snapshot, dest: nat, n: nat, f: nat, s: nat, a: nat)
    requires Fits(db, snap)
  {
    && (n == db.highestBeamClass.number || RuleLimitSoFar(db, snap, dest, n, f, s, a))
    && n <= db.highestBeamClass.number
    && forall m :: RuleLimitSoFar(db, snap, dest, m, f, s, a) ==> n <= m
  }

  lemma NothingDone(db: Database, snap: Snapshot, dest: nat)
    requires Fits(db, snap)
    ensures LeastSoFar(db, snap, dest, db.highestBeamClass.number, 0, 0, 0)
  {
  }

  // One more rule is done: it is a limit of its destination if it applies.
  lemma RuleLimitStep(db: Database, snap: Snapshot, rule: RuleRef, dest: nat, m: nat)
    requires Fits(db, snap) && HasRule(db, rule)
    ensures RuleLimitSoFar(db, snap, dest, m, rule.at.fault, rule.at.state, rule.allowed + 1) <==>
      || RuleLimitSoFar(db, snap, dest, m, rule.at.fault, rule.at.state, rule.allowed)
      || (RuleApplies(db, snap, rule) && Rule(db, rule).destination == dest && Rule(db, rule).beamClass.number == m)
  {
    hide RuleApplies;
    var f, s, a := rule.at.fault, rule.at.state, rule.allowed;
    assert forall r :: Done(r, f, s, a + 1) <==> Done(r, f, s, a) || (r.at == rule.at && r.allowed == a);
    if RuleLimitSoFar(db, snap, dest, m, f, s, a + 1) {
      var r :| HasRule(db, r) && Done(r, f, s, a + 1) && RuleApplies(db, snap, r)
        && Rule(db, r).destination == dest && Rule(db, r).beamClass.number == m;
      assert Done(r, f, s, a) || r == rule;
    }
  }

  // What one allowed class does to the limit of a destination.
  lemma OneRule(db: Database, snap: Snapshot, rule: RuleRef, dest: nat, n: nat)
    requires Fits(db, snap) && HasRule(db, rule)
    requires LeastSoFar(db, snap, dest, n, rule.at.fault, rule.at.state, rule.allowed)
    ensures
      var k := Rule(db, rule).beamClass.number;
      var next := if RuleApplies(db, snap, rule) && Rule(db, rule).destination == dest && k <= n then k else n;
      LeastSoFar(db, snap, dest, next, rule.at.fault, rule.at.state, rule.allowed + 1)
  {
    hide RuleApplies, RuleLimitSoFar, Done;
    var f, s, after := rule.at.fault, rule.at.state, rule.allowed + 1;
    var k := Rule(db, rule).beamClass.number;
    var next := if RuleApplies(db, snap, rule) && Rule(db, rule).destination == dest && k <= n then k else n;
    RuleLimitStep(db, snap, rule, dest, next);
    forall m: nat | RuleLimitSoFar(db, snap, dest, m, f, s, after) ensures next <= m {
      RuleLimitStep(db, snap, rule, dest, m);
    }
  }

  // Two places with the same applying rules behind them have the same limits.
  lemma SameRulesDone(db: Database, snap: Snapshot, dest: nat, n: nat, f: nat, s: nat, a: nat, f': nat, s': nat,
                      a': nat)
    requires Fits(db, snap) && LeastSoFar(db, snap, dest, n, f, s, a)
    requires forall r :: HasRule(db, r) && RuleApplies(db, snap, r) ==> (Done(r, f, s, a) <==> Done(r, f', s', a'))
    ensures LeastSoFar(db, snap, dest, n, f', s', a')
  {
    hide RuleApplies, HasRule, Done;
    forall m ensures RuleLimitSoFar(db, snap, dest, m, f, s, a) <==> RuleLimitSoFar(db, snap, dest, m, f', s', a') {
    }
  }

  lemma StateDone(db: Database, snap: Snapshot, dest: nat, n: nat, f: nat, s: nat, a: nat)
    requires Fits(db, snap) && db.HasState(StateRef(f, s)) && LeastSoFar(db, snap, dest, n, f, s, a)
    requires a == |db.faults[f].states[s].allowedClasses| || !StateCounts(db, snap, StateRef(f, s))
    ensures LeastSoFar(db, snap, dest, n, f, s + 1, 0)
  {
    hide StateCounts, FaultCounts;
    SameRulesDone(db, snap, dest, n, f, s, a, f, s + 1, 0);
  }

  lemma FaultDone(db: Database, snap: Snapshot, dest: nat, n: nat, f: nat, s: nat)
    requires Fits(db, snap) && f < |db.faults| && LeastSoFar(db, snap, dest, n, f, s, 0)
    requires s == |db.faults[f].states| || !FaultCounts(db, snap, f)
    ensures LeastSoFar(db, snap, dest, n, f + 1, 0, 0)
  {
    hide StateCounts, FaultCounts;
    SameRulesDone(db, snap, dest, n, f, s, 0, f + 1, 0, 0);
  }

  // With every fault done, the least so far and the permits give the least limit.
  lemma AllDone(db: Database, snap: Snapshot, dest: nat, n: nat, allowed: nat)
    requires Fits(db, snap) && dest < |db.destinationMasks| && LeastSoFar(db, snap, dest, n, |db.faults|, 0, 0)
    requires allowed == n || PermitLimit(snap.permits[dest], allowed)
    requires allowed <= n && forall m :: PermitLimit(snap.permits[dest], m) ==> allowed <= m
    ensures LeastLimit(db, snap, dest, allowed)
  {
    hide RuleApplies;
    forall m ensures RuleLimitSoFar(db, snap, dest, m, |db.faults|, 0, 0) <==> RuleLimit(db, snap, dest, m) {
      assert forall r :: HasRule(db, r) ==> Done(r, |db.faults|, 0, 0);
    }
  }

  // ---- The state reported for a fault ----

  // maximumClass, currState and sendAllowClass of the loop
  datatype Worst = Worst(maximumClass: nat, state: int, allowedId: nat)

  const NO_CLASS := 100

  // Their values at a place within fault f, when currState was `start`
  function WorstSoFar(db: Database, snap: Snapshot, f: nat, s: nat, a: nat, start: int): Worst
    requires Fits(db, snap) && f < |db.faults| && Here(db, f, s, a)
    decreases s, a
  {
    if a > 0 then
      var prev := WorstSoFar(db, snap, f, s, a - 1, start);
      var allowed := db.faults[f].states[s].allowedClasses[a - 1];
      if allowed.beamClass.number < prev.maximumClass
      then Worst(allowed.beamClass.number, db.faults[f].states[s].id, allowed.id)
      else prev
    else if s == 0 then Worst(NO_CLASS, start, 0)
    else
      var rules := |db.faults[f].states[s - 1].allowedClasses|;
      WorstSoFar(db, snap, f, s - 1, if StateCounts(db, snap, StateRef(f, s - 1)) then rules else 0, start)
  }

  // What mitigate settles on for fault f, given the state displayed before
  function Reported(db: Database, snap: Snapshot, f: nat, displayState: int): Worst
    requires Fits(db, snap) && f < |db.faults|
  {
    if FaultOffline(db, snap, f) then Worst(NO_CLASS, -1, 0)
    else WorstSoFar(db, snap, f, |db.faults[f].states|, 0, if AnyMatch(db, snap, f) then displayState else 0)
  }

  // A rule of fault f that counts for the report: here SLOW or ignored play no part.
  predicate Counted(db: Database, snap: Snapshot, f: nat, s: nat, a: nat)
    requires Fits(db, snap)
  {
    HasRule(db, RuleRef(StateRef(f, s), a)) && StateCounts(db, snap, StateRef(f, s))
  }

  function ClassAt(db: Database, f: nat, s: nat, a: nat): nat
    requires HasRule(db, RuleRef(StateRef(f, s), a))
  {
    db.faults[f].states[s].allowedClasses[a].beamClass.number
  }

  predicate Earlier(s: nat, a: nat, s': nat, a': nat) {
    s < s' || (s == s' && a < a')
  }

  // (s0, a0) is the first counted rule before (s, a) with the least class.
  ghost predicate FirstLeast(db: Database, snap: Snapshot, f: nat, s0: nat, a0: nat, s: nat, a: nat)
    requires Fits(db, snap)
  {
    && Counted(db, snap, f, s0, a0) && Earlier(s0, a0, s, a)
    && forall t: nat, b: nat | Counted(db, snap, f, t, b) && Earlier(t, b, s, a) ::
         if Earlier(t, b, s0, a0) then ClassAt(db, f, s0, a0) < ClassAt(db, f, t, b)
         else ClassAt(db, f, s0, a0) <= ClassAt(db, f, t, b)
  }

  ghost predicate DescribesWorst(db: Database, snap: Snapshot, f: nat, s: nat, a: nat, start: int, w: Worst)
    requires Fits(db, snap)
  {
    if w.maximumClass == NO_CLASS then
      && w == Worst(NO_CLASS, start, 0)
      && forall t: nat, b: nat | Counted(db, snap, f, t, b) && Earlier(t, b, s, a) :: NO_CLASS <= ClassAt(db, f, t, b)
    else
      && w.maximumClass < NO_CLASS
      && exists s0: nat, a0: nat :: FirstLeast(db, snap, f, s0, a0, s, a)
           && w == Worst(ClassAt(db, f, s0, a0), db.faults[f].states[s0].id,
                         db.faults[f].states[s0].allowedClasses[a0].id)
  }

  lemma {:induction false} WorstIsFirstLeast(db: Database, snap: Snapshot, f: nat, s: nat, a: nat, start: int)
    requires Fits(db, snap) && f < |db.faults| && Here(db, f, s, a)
    requires a == 0 || StateCounts(db, snap, StateRef(f, s))
    ensures DescribesWorst(db, snap, f, s, a, start, WorstSoFar(db, snap, f, s, a, start))
    decreases s, a
  {
    hide StateCounts;
    if a > 0 {
      WorstIsFirstLeast(db, snap, f, s, a - 1, start);
      WorstStep(db, snap, f, s, a - 1, start);
    } else if s > 0 {
      var b := if StateCounts(db, snap, StateRef(f, s - 1)) then |db.faults[f].states[s - 1].allowedClasses| else 0;
      WorstIsFirstLeast(db, snap, f, s - 1, b, start);
      assert forall t: nat, c: nat | Counted(db, snap, f, t, c) :: Earlier(t, c, s - 1, b) <==> Earlier(t, c, s, 0);
    }
  }

  lemma WorstStep(db: Database, snap: Snapshot, f: nat, s: nat, a: nat, start: int)
    requires Fits(db, snap) && HasRule(db, RuleRef(StateRef(f, s), a)) && StateCounts(db, snap, StateRef(f, s))
    requires DescribesWorst(db, snap, f, s, a, start, WorstSoFar(db, snap, f, s, a, start))
    ensures DescribesWorst(db, snap, f, s, a + 1, start, WorstSoFar(db, snap, f, s, a + 1, start))
  {
    hide StateCounts;
    var w := WorstSoFar(db, snap, f, s, a, start);
    var c := ClassAt(db, f, s, a);
    assert Counted(db, snap, f, s, a);
    assert forall t: nat, b: nat :: Earlier(t, b, s, a + 1) <==> Earlier(t, b, s, a) || (t == s && b == a);
    if c < w.maximumClass {
      assert forall t: nat, b: nat | Counted(db, snap, f, t, b) && Earlier(t, b, s, a) ::
        w.maximumClass <= ClassAt(db, f, t, b);
      assert FirstLeast(db, snap, f, s, a, s, a + 1);
    } else if w.maximumClass < NO_CLASS {
      var s0: nat, a0: nat :| FirstLeast(db, snap, f, s0, a0, s, a)
        && w == Worst(ClassAt(db, f, s0, a0), db.faults[f].states[s0].id,
                      db.faults[f].states[s0].allowedClasses[a0].id);
      assert FirstLeast(db, snap, f, s0, a0, s, a + 1);
    }
  }

  // What an operator is shown for an online fault with an active rule below class
  // 100: the first state that attains the least class.
  lemma ReportedState(db: Database, snap: Snapshot, f: nat, s: nat, a: nat, displayState: int)
    requires Fits(db, snap) && f < |db.faults| && !FaultOffline(db, snap, f)
    requires Counted(db, snap, f, s, a) && ClassAt(db, f, s, a) < NO_CLASS
    ensures exists s0: nat, a0: nat ::
      && FirstLeast(db, snap, f, s0, a0, |db.faults[f].states|, 0)
      && Reported(db, snap, f, displayState).state == db.faults[f].states[s0].id
  {
    hide FaultOffline, AnyMatch, StateCounts;
    WorstIsFirstLeast(db, snap, f, |db.faults[f].states|, 0, if AnyMatch(db, snap, f) then displayState else 0);
    assert Earlier(s, a, |db.faults[f].states|, 0);
  }
}
