// Who enforces a rule: a fault with a slow input is left to the cycle, any other one to the
// firmware (MpsDb::configureFaultInputs, src/central_node_database.cc), and each does so.
module Enforcement {
  import opened Words
  import opened Bypass
  import opened Layout
  import opened Tables
  import opened Devices
  import opened CycleRules
  import opened Compile
  import opened Cards
  import opened Reload
  import FirmwareRules

  function EvaluationOf(db: Database, v: Device): Evaluation
    requires db.HasDevice(v)
  {
    match v
    case DigitalAt(d) => db.digitalDevices[d].evaluation
    case AnalogAt(a) => db.analogDevices[a].evaluation
  }

  predicate SlowAmong(db: Database, f: nat, n: nat)
    requires db.WellFormed() && f < |db.faults| && n <= |db.faults[f].inputs|
  {
    exists k :: 0 <= k < n && EvaluationOf(db, db.faults[f].inputs[k].device) == SlowEvaluation
  }

  // What the evaluation of a fault is to be
  function Derived(db: Database, f: nat): Evaluation
    requires db.WellFormed() && f < |db.faults|
  {
    if SlowAmong(db, f, |db.faults[f].inputs|) then SlowEvaluation else FastEvaluation
  }

  // The last loop of configureFaultInputs; None stands for the exception raised for a fault
  // without inputs.
  method AssignEvaluations(db: Database) returns (evaluations: Option<seq<Evaluation>>)
    requires db.WellFormed()
    ensures evaluations.None? <==> exists f :: 0 <= f < |db.faults| && db.faults[f].inputs == []
    ensures evaluations.Some? ==>
      && |evaluations.value| == |db.faults|
      && (forall f | 0 <= f < |db.faults| :: evaluations.value[f] == Derived(db, f))
      && forall f | 0 <= f < |db.faults| :: evaluations.value[f] ==
           if exists k :: 0 <= k < |db.faults[f].inputs| &&
                match db.faults[f].inputs[k].device
                case DigitalAt(d) => db.digitalDevices[d].evaluation == SlowEvaluation
                case AnalogAt(a) => db.analogDevices[a].evaluation == SlowEvaluation
           then SlowEvaluation else FastEvaluation
  {
    var derived: seq<Evaluation> := [];
    for f := 0 to |db.faults|
      invariant |derived| == f
      invariant forall e | 0 <= e < f :: db.faults[e].inputs != [] && derived[e] == Derived(db, e)
    {
      var inputs := db.faults[f].inputs;
      if inputs == [] {
        return None;
      }
      var slowEvaluation := false;
      for k := 0 to |inputs|
        invariant slowEvaluation == SlowAmong(db, f, k)
      {
        if EvaluationOf(db, inputs[k].device) == SlowEvaluation {
          slowEvaluation := true;
        }
      }
      derived := derived + [if slowEvaluation then SlowEvaluation else FastEvaluation];
    }
    evaluations := Some(derived);
  }

  // ---- A loaded configuration ----

  // Evaluations are as derived, and fault inputs are listed once with their fault.
  ghost predicate Evaluations(config: Configuration) {
    && config.Wired()
    && (forall f | 0 <= f < |config.db.faults| :: config.db.faults[f].evaluation == Derived(config.db, f))
    && (forall f, k | 0 <= f < |config.db.faults| && 0 <= k < |config.db.faults[f].inputs| ::
          FaultInput(f, config.db.faults[f].inputs[k].device) in config.inputs)
    && (forall a | 0 <= a < |config.analogDevices| ::
          config.analogDevices[a].evaluation == config.db.analogDevices[a].evaluation)
    && (forall d | 0 <= d < |config.digitalDevices| ::
          config.digitalDevices[d].evaluation == config.db.digitalDevices[d].evaluation)
  }

  // Device i of analog card c, and of digital card c
  ghost predicate OnAnalogCard(node: CentralNode, v: AnalogDevice, c: nat, i: nat) {
    && c < |node.cards| && !node.cards[c].isDigital && node.cards[c].isAnalog
    && i < |node.cards[c].analogDevices| && node.cards[c].analogDevices[i] == v
  }

  ghost predicate OnDigitalCard(node: CentralNode, v: DigitalDevice, c: nat, i: nat) {
    && c < |node.cards| && node.cards[c].isDigital
    && i < |node.cards[c].digitalDevices| && node.cards[c].digitalDevices[i] == v && HasRecord(v)
  }

  // Every FAST device is on a card.
  ghost predicate FastOnCards(node: CentralNode, config: Configuration) {
    && (forall v | v in config.analogDevices && v.evaluation == FastEvaluation ::
          exists c: nat, i: nat :: OnAnalogCard(node, v, c, i))
    && (forall v | v in config.digitalDevices && v.evaluation == FastEvaluation ::
          exists c: nat, i: nat :: OnDigitalCard(node, v, c, i))
  }

  // ---- Enforcement ----

  // The image of a card limits these destinations to the class, at threshold t and integrator
  // g of its device i, unless the integrator is bypassed or ignored.
  ghost predicate AnalogLimit(card: ApplicationCard, i: nat, t: nat, g: nat, mask: set<nat>, number: nat)
    requires i < |card.analogDevices|
    reads card.applicationConfigBuffer, card.analogDevices
    reads (set a, k | 0 <= a < |card.analogDevices| && 0 <= k < |card.analogDevices[a].bypass| ::
             card.analogDevices[a].bypass[k])`status
  {
    var v := card.analogDevices[i];
    && v.channel.Slot(t / 8) < 24 && v.channel.Slot(g) < 24 && card.applicationConfigBuffer.Length == CONFIG_BITS
    && g < 4 && |v.bypass| == |v.ignoredIntegrator| == 4
    && ReadNibble(card.applicationConfigBuffer[..], 32 * v.channel.Slot(t / 8) + 4 * (t % 8)) <= number
    && (v.bypass[g].status == BypassValid || v.ignoredIntegrator[g] || v.ignored
        || mask <= ReadMask(card.applicationConfigBuffer[..], MASK_BASE + 16 * v.channel.Slot(g)))
  }

  ghost predicate DigitalLimit(card: ApplicationCard, i: nat, mask: set<nat>, number: nat)
    requires i < |card.digitalDevices| && HasRecord(card.digitalDevices[i])
    reads card.applicationConfigBuffer
    reads (set d, k | 0 <= d < |card.digitalDevices| && 0 <= k < |card.digitalDevices[d].inputDevices| ::
             card.digitalDevices[d].inputDevices[k].bypass)`status
  {
    var input := card.digitalDevices[i].inputDevices[0];
    var at := DIGITAL_RECORD * input.channel;
    && at + DIGITAL_RECORD <= CONFIG_BITS == card.applicationConfigBuffer.Length
    && ReadNibble(card.applicationConfigBuffer[..], at) <= number
    && (input.bypass.status == BypassValid || mask <= ReadMask(card.applicationConfigBuffer[..], at + DIGITAL_MASK))
  }

  // The class fits four bits and the destinations sixteen, as the firmware takes them.
  ghost predicate FitsFirmware(config: Configuration, rule: RuleRef)
    requires config.Wired() && HasRule(config.db, rule)
  {
    Rule(config.db, rule).beamClass.number < 16 && forall b | b in MaskOf(config, rule) :: b < 16
  }

  ghost function MaskOf(config: Configuration, rule: RuleRef): set<nat>
    requires config.Wired() && HasRule(config.db, rule)
  {
    config.db.destinationMasks[Rule(config.db, rule).destination]
  }

  function StateOf(db: Database, rule: RuleRef): DeviceState
    requires HasRule(db, rule)
  {
    db.faults[rule.at.fault].states[rule.at.state].deviceState
  }

  // The device has the threshold and the integrator the state is compiled for.
  ghost predicate Reaches(channel: AnalogChannel, state: DeviceState) {
    && state.value != ZERO && LowestBit(state.value) < 8 * channel.numIntegrators
    && state.GetIntegrator() < channel.numIntegrators
  }

  // The firmware enforces the rule for input device v of its fault.
  ghost predicate Enforced(node: CentralNode, config: Configuration, rule: RuleRef, v: Device)
    requires config.Wired() && HasRule(config.db, rule) && config.db.HasDevice(v)
    reads *
  {
    var mask, number := MaskOf(config, rule), Rule(config.db, rule).beamClass.number;
    match v
    case AnalogAt(a) =>
      var state := StateOf(config.db, rule);
      Reaches(config.analogDevices[a].channel, state) ==>
        exists c: nat, i: nat :: OnAnalogCard(node, config.analogDevices[a], c, i)
          && AnalogLimit(node.cards[c], i, LowestBit(state.value), state.GetIntegrator(), mask, number)
    case DigitalAt(d) =>
      config.FaultFor(|config.inputs|, d) == Some(rule.at.fault) ==>
        exists c: nat, i: nat :: OnDigitalCard(node, config.digitalDevices[d], c, i)
          && DigitalLimit(node.cards[c], i, mask, number)
  }

  // A rule of a fault with a slow input is a limit of every cycle in which it applies.
  lemma CycleEnforces(config: Configuration, snap: Snapshot, rule: RuleRef, n: nat)
    requires config.Wired() && HasRule(config.db, rule) && Fits(config.db, snap) && RuleApplies(config.db, snap, rule)
    requires LeastLimit(config.db, snap, Rule(config.db, rule).destination, n)
    ensures n <= Rule(config.db, rule).beamClass.number
  {
    hide RuleApplies;
    var number := Rule(config.db, rule).beamClass.number;
    assert RuleLimit(config.db, snap, Rule(config.db, rule).destination, number);
    assert Limit(config.db, snap, Rule(config.db, rule).destination, number);
  }

  // Fault input m lists input device v of the fault of the rule.
  ghost predicate Feeding(config: Configuration, rule: RuleRef, v: Device, m: nat)
    requires config.Wired() && HasRule(config.db, rule)
  {
    m < |config.inputs| && config.inputs[m] == FaultInput(rule.at.fault, v)
  }

  lemma RuleFed(config: Configuration, rule: RuleRef, v: Device, m: nat)
    requires config.Wired() && HasRule(config.db, rule) && Feeding(config, rule, v, m)
    ensures FirmwareRules.HasRule(config, m, rule.at.state, rule.allowed)
    ensures FirmwareRules.Row(config, m, rule.at.state).deviceState == StateOf(config.db, rule)
    ensures
      var r := FirmwareRules.RuleOf(config, m, rule.at.state, rule.allowed);
      && r.mask == MaskOf(config, rule) && r.number == Rule(config.db, rule).beamClass.number
      && r.threshold == LowestBit(StateOf(config.db, rule).value)
      && r.integrator == StateOf(config.db, rule).GetIntegrator()
  {
  }

  lemma AnalogEnforces(node: CentralNode, config: Configuration, rule: RuleRef, a: nat, m: nat, c: nat, i: nat)
    requires config.Wired() && config.AllDone(|config.inputs|) && HasRule(config.db, rule) && FitsFirmware(config, rule)
    requires a < |config.analogDevices| && config.analogDevices[a].evaluation == FastEvaluation
    requires Feeding(config, rule, AnalogAt(a), m) && OnAnalogCard(node, config.analogDevices[a], c, i)
    requires Reaches(config.analogDevices[a].channel, StateOf(config.db, rule))
    requires node.CardWired(c) && node.CardImage(node.cards[c])
    ensures
      var state := StateOf(config.db, rule);
      AnalogLimit(node.cards[c], i, LowestBit(state.value), state.GetIntegrator(), MaskOf(config, rule),
                  Rule(config.db, rule).beamClass.number)
  {
    hide AnalogImageBit, ReadNibble, Configuration.Wired, Configuration.AllDone, FirmwareRules.RuleOf;
    hide FirmwareRules.Row, FirmwareRules.HasRule, StateOf;
    RuleFed(config, rule, AnalogAt(a), m);
    var devices := node.cards[c].analogDevices;
    FirmwareRules.ImageEnforcesAnyRule(config, a, m, rule.at.state, rule.allowed, devices, i,
                                       node.cards[c].applicationConfigBuffer[..]);
  }

  lemma DigitalEnforces(node: CentralNode, config: Configuration, rule: RuleRef, d: nat, c: nat, i: nat)
    requires config.Wired() && config.AllDone(|config.inputs|) && HasRule(config.db, rule) && FitsFirmware(config, rule)
    requires d < |config.digitalDevices| && config.digitalDevices[d].evaluation == FastEvaluation
    requires config.FaultFor(|config.inputs|, d) == Some(rule.at.fault)
    requires OnDigitalCard(node, config.digitalDevices[d], c, i) && node.CardWired(c) && node.CardImage(node.cards[c])
    ensures DigitalLimit(node.cards[c], i, MaskOf(config, rule), Rule(config.db, rule).beamClass.number)
  {
    hide DigitalImageBit, ReadNibble, Configuration.Wired, DigitalCompiledFrom;
    assert config.DigitalDone(|config.inputs|, d);
    assert FirmwareRules.DigitalFed(config, d) && rule.at.state == 0;
    assert FirmwareRules.DigitalRow(config, d).allowedClasses[rule.allowed] == Rule(config.db, rule);
    assert forall b | b in MaskOf(config, rule) :: b < 16;
    var devices := node.cards[c].digitalDevices;
    FirmwareRules.DigitalImageEnforcesRule(config, d, rule.allowed, devices, i,
                                           node.cards[c].applicationConfigBuffer[..]);
  }

  // Every rule is enforced.  If its fault has a slow input, it is a limit of every cycle in
  // which it applies; if not, every input device of the fault that is evaluated at all has it
  // in the image of its card, a digital one if the fault is the last it is an input of.
  lemma EveryRuleEnforced(node: CentralNode, config: Configuration, rule: RuleRef)
    requires Evaluations(config) && config.AllDone(|config.inputs|) && HasRule(config.db, rule)
    requires FitsFirmware(config, rule) && FastOnCards(node, config) && node.Wired()
    requires forall c | 0 <= c < |node.cards| :: node.CardImage(node.cards[c])
    ensures SlowAmong(config.db, rule.at.fault, |config.db.faults[rule.at.fault].inputs|) ==>
      forall snap: Snapshot, n: nat |
        && Fits(config.db, snap) && !FaultOffline(config.db, snap, rule.at.fault)
        && !FaultIgnored(config.db, snap, rule.at.fault) && StateCounts(config.db, snap, rule.at)
        && LeastLimit(config.db, snap, Rule(config.db, rule).destination, n) ::
        n <= Rule(config.db, rule).beamClass.number
    ensures !SlowAmong(config.db, rule.at.fault, |config.db.faults[rule.at.fault].inputs|) ==>
      forall k | 0 <= k < |config.db.faults[rule.at.fault].inputs| ::
        var v := config.db.faults[rule.at.fault].inputs[k].device;
        EvaluationOf(config.db, v) == NoEvaluation || Enforced(node, config, rule, v)
  {
    var db, f := config.db, rule.at.fault;
    if SlowAmong(db, f, |db.faults[f].inputs|) {
      forall snap: Snapshot, n: nat |
        && Fits(db, snap) && !FaultOffline(db, snap, f) && !FaultIgnored(db, snap, f) && StateCounts(db, snap, rule.at)
        && LeastLimit(db, snap, Rule(db, rule).destination, n)
        ensures n <= Rule(db, rule).beamClass.number
      {
        hide LeastLimit, FaultOffline, FaultIgnored, StateCounts;
        CycleEnforces(config, snap, rule, n);
      }
    } else {
      forall k | 0 <= k < |db.faults[f].inputs| && EvaluationOf(db, db.faults[f].inputs[k].device) != NoEvaluation
        ensures Enforced(node, config, rule, db.faults[f].inputs[k].device)
      {
        InputEnforces(node, config, rule, k);
      }
    }
  }

  lemma InputEnforces(node: CentralNode, config: Configuration, rule: RuleRef, k: nat)
    requires Evaluations(config) && config.AllDone(|config.inputs|) && HasRule(config.db, rule)
    requires FitsFirmware(config, rule) && FastOnCards(node, config) && node.Wired()
    requires forall c | 0 <= c < |node.cards| :: node.CardImage(node.cards[c])
    requires k < |config.db.faults[rule.at.fault].inputs|
    requires EvaluationOf(config.db, config.db.faults[rule.at.fault].inputs[k].device) == FastEvaluation
    ensures Enforced(node, config, rule, config.db.faults[rule.at.fault].inputs[k].device)
  {
    hide AnalogLimit, DigitalLimit, MaskOf, Rule, FitsFirmware, CentralNode.CardImage, CentralNode.CardWired;
    hide StateOf, LowestBit, Configuration.AllDone, FastOnCards, SlowAmong, Derived;
    var v := config.db.faults[rule.at.fault].inputs[k].device;
    var m :| 0 <= m < |config.inputs| && config.inputs[m] == FaultInput(rule.at.fault, v);
    match v
    case AnalogAt(a) =>
      var c, i := AnalogPlace(node, config, a);
      if Reaches(config.analogDevices[a].channel, StateOf(config.db, rule)) {
        AnalogEnforces(node, config, rule, a, m, c, i);
      }
    case DigitalAt(d) =>
      var c, i := DigitalPlace(node, config, d);
      if config.FaultFor(|config.inputs|, d) == Some(rule.at.fault) {
        DigitalEnforces(node, config, rule, d, c, i);
      }
  }

  lemma AnalogPlace(node: CentralNode, config: Configuration, a: nat) returns (c: nat, i: nat)
    requires FastOnCards(node, config) && a < |config.analogDevices|
    requires config.analogDevices[a].evaluation == FastEvaluation
    ensures OnAnalogCard(node, config.analogDevices[a], c, i)
  {
    var v := config.analogDevices[a];
    assert v in config.analogDevices;
    c, i :| OnAnalogCard(node, v, c, i);
  }

  lemma DigitalPlace(node: CentralNode, config: Configuration, d: nat) returns (c: nat, i: nat)
    requires FastOnCards(node, config) && d < |config.digitalDevices|
    requires config.digitalDevices[d].evaluation == FastEvaluation
    ensures OnDigitalCard(node, config.digitalDevices[d], c, i)
  {
    var v := config.digitalDevices[d];
    assert v in config.digitalDevices;
    c, i :| OnDigitalCard(node, v, c, i);
  }
}
