// What one evaluation cycle means, without order or mutation: functions of the
// configuration and of a snapshot of the latched inputs, bypasses, card modes and
// permits.
module CycleRules {
  import opened Words
  import opened Tables

  datatype InputSnap = InputSnap(latched: Word, bypassed: Option<Word>)

  // heldValue and heldIgnored matter only for a device the engine leaves alone.
  datatype DigitalSnap = DigitalSnap(inputs: seq<InputSnap>, active: bool, offline: bool,
                                     heldValue: Word, heldIgnored: bool)

  datatype AnalogSnap = AnalogSnap(latched: Word, bypassMask: Word, active: bool, offline: bool, heldIgnored: bool)

  datatype PermitSnap = PermitSnap(force: Option<BeamClass>, max: Option<BeamClass>, soft: Option<BeamClass>)

  datatype Snapshot = Snapshot(digital: seq<DigitalSnap>, analog: seq<AnalogSnap>, permits: seq<PermitSnap>)

  // The snapshot has the shape of the configuration.
  ghost predicate Fits(db: Database, snap: Snapshot) {
    && db.WellFormed()
    && |snap.digital| == |db.digitalDevices|
    && |snap.analog| == |db.analogDevices|
    && |snap.permits| == |db.destinationMasks|
    && forall d | 0 <= d < |snap.digital| :: |snap.digital[d].inputs| == |db.digitalDevices[d].inputBits|
  }

  // ---- Values of devices and faults ----

  function InputValue(i: InputSnap): Word {
    if i.bypassed.Some? then i.bypassed.value else i.latched
  }

  // The first n inputs of a device, each moved to its bit position
  function Gather(inputs: seq<InputSnap>, bits: seq<nat>, n: nat): Word
    requires n <= |inputs| == |bits|
  {
    if n == 0 then ZERO else Or(Gather(inputs, bits, n - 1), Shift(InputValue(inputs[n - 1]), bits[n - 1]))
  }

  // Some of the first n inputs has bit b at its place.
  predicate InputHasBit(inputs: seq<InputSnap>, bits: seq<nat>, n: nat, b: nat)
    requires n <= |inputs| == |bits|
  {
    exists k :: 0 <= k < n && bits[k] <= b && b - bits[k] in InputValue(inputs[k])
  }

  lemma {:induction false} GatherBit(inputs: seq<InputSnap>, bits: seq<nat>, n: nat, b: nat)
    requires n <= |inputs| == |bits|
    ensures b in Gather(inputs, bits, n) <==> b < 32 && InputHasBit(inputs, bits, n, b)
  {
    if n > 0 {
      GatherBit(inputs, bits, n - 1, b);
      assert InputHasBit(inputs, bits, n, b) <==>
        InputHasBit(inputs, bits, n - 1, b) || (bits[n - 1] <= b && b - bits[n - 1] in InputValue(inputs[n - 1]));
    }
  }

  function DigitalValue(db: Database, snap: Snapshot, d: nat): Word
    requires Fits(db, snap) && d < |db.digitalDevices|
  {
    if db.digitalDevices[d].Evaluated() then
      Gather(snap.digital[d].inputs, db.digitalDevices[d].inputBits, |snap.digital[d].inputs|)
    else
      snap.digital[d].heldValue
  }

  function DeviceValue(db: Database, snap: Snapshot, v: Device): Word
    requires Fits(db, snap) && db.HasDevice(v)
  {
    match v
    case DigitalAt(d) => DigitalValue(db, snap, d)
    case AnalogAt(a) => And(snap.analog[a].latched, snap.analog[a].bypassMask)
  }

  // The first n inputs of fault f
  function Combine(db: Database, snap: Snapshot, f: nat, n: nat): Word
    requires Fits(db, snap) && f < |db.faults| && n <= |db.faults[f].inputs|
  {
    if n == 0 then ZERO
    else
      var input := db.faults[f].inputs[n - 1];
      Or(Combine(db, snap, f, n - 1), Shift(DeviceValue(db, snap, input.device), input.bitPosition))
  }

  predicate DeviceHasBit(db: Database, snap: Snapshot, f: nat, n: nat, b: nat)
    requires Fits(db, snap) && f < |db.faults| && n <= |db.faults[f].inputs|
  {
    exists k :: 0 <= k < n && HasBitFrom(db, snap, f, k, b)
  }

  // Input k of fault f contributes bit b to its value.
  predicate HasBitFrom(db: Database, snap: Snapshot, f: nat, k: nat, b: nat)
    requires Fits(db, snap) && f < |db.faults| && k < |db.faults[f].inputs|
  {
    var input := db.faults[f].inputs[k];
    input.bitPosition <= b && b - input.bitPosition in DeviceValue(db, snap, input.device)
  }

  lemma {:induction false} CombineBit(db: Database, snap: Snapshot, f: nat, n: nat, b: nat)
    requires Fits(db, snap) && f < |db.faults| && n <= |db.faults[f].inputs|
    ensures b in Combine(db, snap, f, n) <==> b < 32 && DeviceHasBit(db, snap, f, n, b)
  {
    hide DeviceValue;
    if n > 0 {
      CombineBit(db, snap, f, n - 1, b);
      assert DeviceHasBit(db, snap, f, n, b) <==>
        DeviceHasBit(db, snap, f, n - 1, b) || HasBitFrom(db, snap, f, n - 1, b);
    }
  }

  function FaultValue(db: Database, snap: Snapshot, f: nat): Word
    requires Fits(db, snap) && f < |db.faults|
  {
    Combine(db, snap, f, |db.faults[f].inputs|)
  }

  // ---- Fault states ----

  predicate Matches(db: Database, snap: Snapshot, f: nat, s: nat)
    requires Fits(db, snap) && db.HasState(StateRef(f, s))
  {
    var state := db.faults[f].states[s].deviceState;
    state.value == And(FaultValue(db, snap, f), state.mask)
  }

  // One of the first n states of the fault matches ...
  predicate MatchAmong(db: Database, snap: Snapshot, f: nat, n: nat)
    requires Fits(db, snap) && f < |db.faults| && n <= |db.faults[f].states|
  {
    exists s :: 0 <= s < n && Matches(db, snap, f, s)
  }

  // ... and restricts the beam.
  predicate RestrictionAmong(db: Database, snap: Snapshot, f: nat, n: nat)
    requires Fits(db, snap) && f < |db.faults| && n <= |db.faults[f].states|
  {
    exists s :: 0 <= s < n && Matches(db, snap, f, s) && Restricts(db, f, s)
  }

  predicate AnyMatch(db: Database, snap: Snapshot, f: nat)
    requires Fits(db, snap) && f < |db.faults|
  {
    MatchAmong(db, snap, f, |db.faults[f].states|)
  }

  predicate Restricts(db: Database, f: nat, s: nat)
    requires db.HasState(StateRef(f, s))
  {
    exists allowed | allowed in db.faults[f].states[s].allowedClasses ::
      allowed.beamClass.number < db.highestBeamClass.number
  }

  // The flag that is set once per cycle and never cleared between faults
  predicate AnyMatchBefore(db: Database, snap: Snapshot, n: nat)
    requires Fits(db, snap) && n <= |db.faults|
  {
    exists f :: 0 <= f < n && AnyMatch(db, snap, f)
  }

  lemma OneMoreFault(db: Database, snap: Snapshot, n: nat)
    requires Fits(db, snap) && n < |db.faults|
    ensures AnyMatchBefore(db, snap, n + 1) == (AnyMatchBefore(db, snap, n) || AnyMatch(db, snap, n))
  {
  }

  predicate StateFaulted(db: Database, snap: Snapshot, r: StateRef)
    requires Fits(db, snap) && db.HasState(r)
  {
    || Matches(db, snap, r.fault, r.state)
    || (db.faults[r.fault].defaultState == Some(r.state) && !AnyMatchBefore(db, snap, r.fault + 1))
  }

  // ---- Conditions and what they ignore ----

  // The first n inputs of condition c
  function ConditionValue(db: Database, snap: Snapshot, c: nat, n: nat): Word
    requires Fits(db, snap) && c < |db.conditions| && n <= |db.conditions[c].inputs|
  {
    if n == 0 then ZERO
    else
      var input := db.conditions[c].inputs[n - 1];
      var inputValue := if StateFaulted(db, snap, input.faultState) then ONE else ZERO;
      Or(ConditionValue(db, snap, c, n - 1), Shift(inputValue, input.bitPosition))
  }

  // Some of the first n inputs of the condition sits at bit b and is faulted.
  predicate ConditionHasBit(db: Database, snap: Snapshot, c: nat, n: nat, b: nat)
    requires Fits(db, snap) && c < |db.conditions| && n <= |db.conditions[c].inputs|
  {
    exists k :: 0 <= k < n && db.conditions[c].inputs[k].bitPosition == b
      && StateFaulted(db, snap, db.conditions[c].inputs[k].faultState)
  }

  lemma {:induction false} ConditionBit(db: Database, snap: Snapshot, c: nat, n: nat, b: nat)
    requires Fits(db, snap) && c < |db.conditions| && n <= |db.conditions[c].inputs|
    ensures b in ConditionValue(db, snap, c, n) <==> b < 32 && ConditionHasBit(db, snap, c, n, b)
  {
    hide StateFaulted;
    if n > 0 {
      ConditionBit(db, snap, c, n - 1, b);
      var input := db.conditions[c].inputs[n - 1];
      assert ConditionHasBit(db, snap, c, n, b) <==>
        ConditionHasBit(db, snap, c, n - 1, b) || (input.bitPosition == b && StateFaulted(db, snap, input.faultState));
    }
  }

  // A condition is met when exactly the bits of its mask have a faulted input.
  lemma ConditionMetWhen(db: Database, snap: Snapshot, c: nat)
    requires Fits(db, snap) && c < |db.conditions|
    ensures ConditionMet(db, snap, c) <==> forall b: nat ::
      b in db.conditions[c].mask <==> b < 32 && ConditionHasBit(db, snap, c, |db.conditions[c].inputs|, b)
  {
    hide StateFaulted, ConditionHasBit;
    var v := ConditionValue(db, snap, c, |db.conditions[c].inputs|);
    forall b: nat ensures b in v <==> b < 32 && ConditionHasBit(db, snap, c, |db.conditions[c].inputs|, b) {
      ConditionBit(db, snap, c, |db.conditions[c].inputs|, b);
    }
    if forall b: nat :: b in db.conditions[c].mask <==> b in v {
      assert db.conditions[c].mask == v;
    }
  }

  predicate ConditionMet(db: Database, snap: Snapshot, c: nat)
    requires Fits(db, snap) && c < |db.conditions|
  {
    db.conditions[c].mask == ConditionValue(db, snap, c, |db.conditions[c].inputs|)
  }

  function Conditions(db: Database, snap: Snapshot): (met: seq<bool>)
    requires Fits(db, snap)
    ensures |met| == |db.conditions|
    ensures forall c | 0 <= c < |met| :: met[c] == ConditionMet(db, snap, c)
  {
    seq(|db.conditions|, c requires 0 <= c < |db.conditions| => ConditionMet(db, snap, c))
  }

  // Some of the first n ignore conditions names the fault state.
  predicate NamesState(rows: seq<IgnoreRow>, n: nat, r: StateRef)
    requires n <= |rows|
  {
    exists i :: 0 <= i < n && rows[i].faultState == Some(r)
  }

  // Some of the first n names the device; an analog device counts only in an
  // ignore condition without fault state.
  predicate NamesDevice(rows: seq<IgnoreRow>, n: nat, v: Device)
    requires n <= |rows|
  {
    exists i :: 0 <= i < n && rows[i].device == Some(v) && (v.DigitalAt? || rows[i].faultState.None?)
  }

  predicate StateIgnored(db: Database, met: seq<bool>, r: StateRef)
    requires |met| <= |db.conditions|
  {
    exists c :: 0 <= c < |met| && met[c]
      && NamesState(db.conditions[c].ignoreConditions, |db.conditions[c].ignoreConditions|, r)
  }

  predicate DeviceNamed(db: Database, met: seq<bool>, v: Device)
    requires |met| <= |db.conditions|
  {
    exists c :: 0 <= c < |met| && met[c]
      && NamesDevice(db.conditions[c].ignoreConditions, |db.conditions[c].ignoreConditions|, v)
  }

  // The rows of met conditions that name a device; one that has a fault state as well does
  // not name an analog device.
  lemma NamedByRow(db: Database, met: seq<bool>, v: Device)
    requires |met| <= |db.conditions|
    ensures DeviceNamed(db, met, v) <==> exists c, i ::
      && 0 <= c < |met| && met[c] && 0 <= i < |db.conditions[c].ignoreConditions|
      && db.conditions[c].ignoreConditions[i].device == Some(v)
      && (v.AnalogAt? ==> db.conditions[c].ignoreConditions[i].faultState == None)
  {
  }

  // Every condition met in one pass is met, with the same ignore rows, in the other.
  ghost predicate MetAlso(db: Database, met: seq<bool>, db': Database, met': seq<bool>)
    requires |met| <= |db.conditions| && |met'| <= |db'.conditions|
  {
    forall c | 0 <= c < |met| && met[c] ::
      exists c' ::
        0 <= c' < |met'| && met'[c'] && db'.conditions[c'].ignoreConditions == db.conditions[c].ignoreConditions
  }

  // What is ignored does not depend on the order, or the repetition, of conditions.
  lemma IgnoredInAnyOrder(db: Database, met: seq<bool>, db': Database, met': seq<bool>)
    requires |met| <= |db.conditions| && |met'| <= |db'.conditions|
    requires MetAlso(db, met, db', met') && MetAlso(db', met', db, met)
    ensures forall r :: StateIgnored(db, met, r) == StateIgnored(db', met', r)
    ensures forall v :: DeviceNamed(db, met, v) == DeviceNamed(db', met', v)
  {
    hide NamesState, NamesDevice;
  }

  // The ignored flag a device starts the ignore pass with
  predicate IgnoredAtStart(db: Database, snap: Snapshot, v: Device)
    requires Fits(db, snap) && db.HasDevice(v)
  {
    match v
    case DigitalAt(d) =>
      if db.digitalDevices[d].Evaluated() then !snap.digital[d].active else snap.digital[d].heldIgnored
    case AnalogAt(a) =>
      if db.analogDevices[a].Evaluated() then !snap.analog[a].active else snap.analog[a].heldIgnored
  }

  predicate DeviceIgnored(db: Database, snap: Snapshot, v: Device)
    requires Fits(db, snap) && db.HasDevice(v)
  {
    IgnoredAtStart(db, snap, v) || DeviceNamed(db, Conditions(db, snap), v)
  }

  predicate Active(db: Database, snap: Snapshot, v: Device)
    requires Fits(db, snap) && db.HasDevice(v)
  {
    match v
    case DigitalAt(d) => snap.digital[d].active
    case AnalogAt(a) => snap.analog[a].active
  }

  predicate Offline(db: Database, snap: Snapshot, v: Device)
    requires Fits(db, snap) && db.HasDevice(v)
  {
    match v
    case DigitalAt(d) => snap.digital[d].offline
    case AnalogAt(a) => snap.analog[a].offline
  }

  // A device that takes its faults out of the game
  predicate OutOfPlay(db: Database, snap: Snapshot, v: Device)
    requires Fits(db, snap) && db.HasDevice(v)
  {
    DeviceIgnored(db, snap, v) || !Active(db, snap, v)
  }

  predicate IgnoredAmong(db: Database, snap: Snapshot, f: nat, n: nat)
    requires Fits(db, snap) && f < |db.faults| && n <= |db.faults[f].inputs|
  {
    exists k :: 0 <= k < n && OutOfPlay(db, snap, db.faults[f].inputs[k].device)
  }

  predicate FaultIgnored(db: Database, snap: Snapshot, f: nat)
    requires Fits(db, snap) && f < |db.faults|
  {
    IgnoredAmong(db, snap, f, |db.faults[f].inputs|)
  }

  // The last fault input alone decides.
  predicate FaultOffline(db: Database, snap: Snapshot, f: nat)
    requires Fits(db, snap) && f < |db.faults|
  {
    var inputs := db.faults[f].inputs;
    |inputs| > 0 && Offline(db, snap, inputs[|inputs| - 1].device)
  }

  predicate FaultActive(db: Database, snap: Snapshot, f: nat)
    requires Fits(db, snap) && f < |db.faults|
  {
    var inputs := db.faults[f].inputs;
    |inputs| > 0 ==> Active(db, snap, inputs[|inputs| - 1].device)
  }

  // ---- Limits on a destination ----

  // A state whose allowed classes are looked at by mitigate
  predicate StateCounts(db: Database, snap: Snapshot, r: StateRef)
    requires Fits(db, snap) && db.HasState(r)
  {
    StateFaulted(db, snap, r) && !StateIgnored(db, Conditions(db, snap), r)
  }

  // The fault is one whose rules the software enforces this cycle.
  predicate FaultCounts(db: Database, snap: Snapshot, f: nat)
    requires Fits(db, snap) && f < |db.faults|
  {
    !FaultOffline(db, snap, f) && !FaultIgnored(db, snap, f) && db.faults[f].evaluation == SlowEvaluation
  }

  datatype RuleRef = RuleRef(at: StateRef, allowed: nat)

  predicate HasRule(db: Database, rule: RuleRef) {
    db.HasState(rule.at) && rule.allowed < |db.faults[rule.at.fault].states[rule.at.state].allowedClasses|
  }

  function Rule(db: Database, rule: RuleRef): AllowedClass
    requires HasRule(db, rule)
  {
    db.faults[rule.at.fault].states[rule.at.state].allowedClasses[rule.allowed]
  }

  // An AllowedClass in a faulted, non-ignored state of an online, non-ignored
  // slow fault
  predicate RuleApplies(db: Database, snap: Snapshot, rule: RuleRef)
    requires Fits(db, snap) && HasRule(db, rule)
  {
    FaultCounts(db, snap, rule.at.fault) && StateCounts(db, snap, rule.at)
  }

  ghost predicate PermitLimit(p: PermitSnap, n: nat) {
    || (p.force.Some? && p.force.value.number == n)
    || (p.max.Some? && p.max.value.number == n)
    || (p.soft.Some? && p.soft.value.number == n)
  }

  ghost predicate RuleLimit(db: Database, snap: Snapshot, dest: nat, n: nat)
    requires Fits(db, snap)
  {
    exists rule :: HasRule(db, rule) && RuleApplies(db, snap, rule)
      && Rule(db, rule).destination == dest && Rule(db, rule).beamClass.number == n
  }

  // Every class number that bounds destination dest in this cycle
  ghost predicate Limit(db: Database, snap: Snapshot, dest: nat, n: nat)
    requires Fits(db, snap) && dest < |db.destinationMasks|
  {
    || n == db.highestBeamClass.number
    || RuleLimit(db, snap, dest, n)
    || PermitLimit(snap.permits[dest], n)
  }

  ghost predicate LeastLimit(db: Database, snap: Snapshot, dest: nat, n: nat)
    requires Fits(db, snap) && dest < |db.destinationMasks|
  {
    Limit(db, snap, dest, n) && forall m :: Limit(db, snap, dest, m) ==> n <= m
  }

  lemma LeastLimitUnique(db: Database, snap: Snapshot, dest: nat, m: nat, n: nat)
    requires Fits(db, snap) && dest < |db.destinationMasks|
    requires LeastLimit(db, snap, dest, m) && LeastLimit(db, snap, dest, n)
    ensures m == n
  {
  }

  // ---- The integrator flags of an analog device ----

  // ignoredIntegrator is written in passing, while the fault state named beside the
  // device is not ignored yet, and it is never cleared at the start of a cycle.
  // This is flag g of device a after conditions before c and n ignore rows of c.
  function IntegratorFlag(db: Database, met: seq<bool>, c: nat, n: nat, a: nat, g: nat, flag: bool): bool
    requires db.WellFormed() && Place(db, met, c, n)
    decreases c, n
  {
    if n == 0 then
      if c == 0 then flag
      else IntegratorFlag(db, met, c - 1, |db.conditions[c - 1].ignoreConditions|, a, g, flag)
    else if WritesIntegrator(db, met, c, n - 1, a, g) then met[c]
    else IntegratorFlag(db, met, c, n - 1, a, g, flag)
  }

  // Ignore row i of condition c writes flag g of analog device a.
  predicate WritesIntegrator(db: Database, met: seq<bool>, c: nat, i: nat, a: nat, g: nat)
    requires db.WellFormed() && c < |met| == |db.conditions| && i < |db.conditions[c].ignoreConditions|
  {
    var row := db.conditions[c].ignoreConditions[i];
    && row.faultState.Some? && row.device == Some(AnalogAt(a))
    && db.faults[row.faultState.value.fault].states[row.faultState.value.state].deviceState.GetIntegrator() == g
    && !IgnoredSoFar(db, met, c, i, row.faultState.value)
  }

  // A place in the pass: conditions before c are done, and n rows of condition c
  predicate Place(db: Database, met: seq<bool>, c: nat, n: nat) {
    && |met| == |db.conditions| && c <= |met|
    && n <= if c < |met| then |db.conditions[c].ignoreConditions| else 0
  }

  // The fault state has been ignored when the pass reaches this place.
  predicate IgnoredSoFar(db: Database, met: seq<bool>, c: nat, n: nat, r: StateRef)
    requires Place(db, met, c, n)
  {
    StateIgnored(db, met[..c], r) || (c < |met| && met[c] && NamesState(db.conditions[c].ignoreConditions, n, r))
  }

  predicate NamedSoFar(db: Database, met: seq<bool>, c: nat, n: nat, v: Device)
    requires Place(db, met, c, n)
  {
    DeviceNamed(db, met[..c], v) || (c < |met| && met[c] && NamesDevice(db.conditions[c].ignoreConditions, n, v))
  }

  // At the start of the pass.
  lemma NothingNamed(db: Database, met: seq<bool>)
    requires |met| == |db.conditions|
    ensures forall r :: !IgnoredSoFar(db, met, 0, 0, r)
    ensures forall v :: !NamedSoFar(db, met, 0, 0, v)
  {
  }

  // At the end of the pass.
  lemma LastCondition(db: Database, met: seq<bool>)
    requires |met| == |db.conditions|
    ensures forall r :: IgnoredSoFar(db, met, |met|, 0, r) == StateIgnored(db, met, r)
    ensures forall v :: NamedSoFar(db, met, |met|, 0, v) == DeviceNamed(db, met, v)
  {
    assert met[..|met|] == met;
  }

  // Finishing the rows of a condition is starting at the next condition.
  lemma NextCondition(db: Database, met: seq<bool>, c: nat)
    requires db.WellFormed() && |met| == |db.conditions| && c < |met|
    ensures forall r ::
      IgnoredSoFar(db, met, c, |db.conditions[c].ignoreConditions|, r) == IgnoredSoFar(db, met, c + 1, 0, r)
    ensures forall v ::
      NamedSoFar(db, met, c, |db.conditions[c].ignoreConditions|, v) == NamedSoFar(db, met, c + 1, 0, v)
    ensures forall a, g, flag ::
      IntegratorFlag(db, met, c, |db.conditions[c].ignoreConditions|, a, g, flag)
        == IntegratorFlag(db, met, c + 1, 0, a, g, flag)
  {
    assert met[..c + 1] == met[..c] + [met[c]];
  }

  // With the same conditions met, a second pass leaves the flags as the first did.
  lemma {:induction false} IntegratorFlagSettled(db: Database, met: seq<bool>, c: nat, n: nat, a: nat, g: nat,
                                                 flag: bool)
    requires db.WellFormed() && Place(db, met, c, n)
    ensures IntegratorFlag(db, met, c, n, a, g, IntegratorFlag(db, met, c, n, a, g, flag))
      == IntegratorFlag(db, met, c, n, a, g, flag)
    decreases c, n
  {
    IntegratorFlagWritten(db, met, c, n, a, g, flag, IntegratorFlag(db, met, c, n, a, g, flag));
  }

  // Either the conditions alone fix the flag, or it is passed through.
  lemma {:induction false} IntegratorFlagWritten(db: Database, met: seq<bool>, c: nat, n: nat, a: nat, g: nat,
                                                 x: bool, y: bool)
    requires db.WellFormed() && Place(db, met, c, n)
    ensures
      || IntegratorFlag(db, met, c, n, a, g, x) == IntegratorFlag(db, met, c, n, a, g, y)
      || (IntegratorFlag(db, met, c, n, a, g, x) == x && IntegratorFlag(db, met, c, n, a, g, y) == y)
    decreases c, n
  {
    if n == 0 {
      if c > 0 {
        IntegratorFlagWritten(db, met, c - 1, |db.conditions[c - 1].ignoreConditions|, a, g, x, y);
      }
    } else if !WritesIntegrator(db, met, c, n - 1, a, g) {
      IntegratorFlagWritten(db, met, c, n - 1, a, g, x, y);
    }
  }
}
