// What a valid bypass does to the evaluation cycle: the mask word the engine reads is the
// one the bypass manager keeps (src/central_node_bypass.cc, src/central_node_engine.cc).
module BypassEffects {
  import opened Words
  import opened Bypass
  import opened Tables
  import opened Devices
  import opened CycleRules
  import opened EvaluationCycle
  import opened Reload

  // Whatever happened to the bypasses before, a cycle sees of an integrator the latched
  // thresholds, or nothing exactly while its bypass is valid.
  lemma IntegratorSeen(node: CentralNode, snap: Snapshot, a: nat, i: nat)
    requires node.BypassesAssigned() && node.manager.Valid() && node.engine.Wired() && Fits(node.engine.db, snap)
    requires node.engine.ThresholdsAgree(snap) && a < |node.engine.analogDevices| && i < 4
    ensures |node.engine.analogDevices[a].bypass| == 4
    ensures Byte(DeviceValue(node.engine.db, snap, AnalogAt(a)), i) ==
      if node.engine.analogDevices[a].bypass[i].status == BypassValid then ZERO else Byte(snap.analog[a].latched, i)
  {
    hide BypassManager.QueueAgrees;
    var v := node.engine.analogDevices[a];
    node.OwnMask(v, i);
    assert v.bypass[i].MaskAgrees();
    var latched := snap.analog[a].latched;
    assert Byte(And(latched, v.bypassMask.bits), i) == latched * Byte(v.bypassMask.bits, i);
  }

  // Input k of fault f is the source of bit b: a digital device with that bit, or a latched
  // threshold of an integrator that is not bypassed.
  ghost predicate Source(node: CentralNode, snap: Snapshot, f: nat, k: nat, b: nat)
    requires node.engine.Wired() && Fits(node.engine.db, snap) && f < |node.engine.db.faults|
    requires k < |node.engine.db.faults[f].inputs|
    reads (set a, i | 0 <= a < |node.engine.analogDevices| && 0 <= i < |node.engine.analogDevices[a].bypass| ::
             node.engine.analogDevices[a].bypass[i])`status
  {
    var input := node.engine.db.faults[f].inputs[k];
    && input.bitPosition <= b < 32
    && match input.device
       case DigitalAt(d) => b - input.bitPosition in DigitalValue(node.engine.db, snap, d)
       case AnalogAt(a) =>
         && b - input.bitPosition in snap.analog[a].latched
         && var bypass := node.engine.analogDevices[a].bypass;
            var i := (b - input.bitPosition) / 8;
            i < |bypass| && bypass[i].status != BypassValid
  }

  // The value of a fault has a bit exactly when one of its inputs is a source of it: a
  // threshold of a validly bypassed integrator contributes to no fault.
  lemma FaultBitSources(node: CentralNode, snap: Snapshot, f: nat, b: nat)
    requires node.BypassesAssigned() && node.manager.Valid() && node.engine.Wired() && Fits(node.engine.db, snap)
    requires node.engine.ThresholdsAgree(snap) && f < |node.engine.db.faults|
    ensures b in FaultValue(node.engine.db, snap, f) <==>
      exists k :: 0 <= k < |node.engine.db.faults[f].inputs| && Source(node, snap, f, k, b)
  {
    hide DeviceValue, DigitalValue, BypassManager.Valid, CentralNode.BypassesAssigned, Engine.ThresholdsAgree;
    var db := node.engine.db;
    var inputs := db.faults[f].inputs;
    CombineBit(db, snap, f, |inputs|, b);
    forall k | 0 <= k < |inputs| ensures (b < 32 && HasBitFrom(db, snap, f, k, b)) <==> Source(node, snap, f, k, b) {
      OneSource(node, snap, f, k, b);
    }
  }

  lemma OneSource(node: CentralNode, snap: Snapshot, f: nat, k: nat, b: nat)
    requires node.BypassesAssigned() && node.manager.Valid() && node.engine.Wired() && Fits(node.engine.db, snap)
    requires node.engine.ThresholdsAgree(snap) && f < |node.engine.db.faults| && k < |node.engine.db.faults[f].inputs|
    ensures (b < 32 && HasBitFrom(node.engine.db, snap, f, k, b)) <==> Source(node, snap, f, k, b)
  {
    hide BypassManager.Valid, CentralNode.BypassesAssigned, Engine.ThresholdsAgree, DigitalValue;
    var input := node.engine.db.faults[f].inputs[k];
    if input.device.AnalogAt? && input.bitPosition <= b < 32 {
      var a, t := input.device.a, b - input.bitPosition;
      var i := t / 8;
      IntegratorSeen(node, snap, a, i);
      var seen := DeviceValue(node.engine.db, snap, AnalogAt(a));
      assert t in Byte(seen, i) <==> t in seen;
      assert t in Byte(snap.analog[a].latched, i) <==> t in snap.analog[a].latched;
    }
  }
}
