// The record types of src/central_node_database_tables.h.  The columns loaded from
// the configuration are rows of a Database value, with foreign keys resolved to
// positions in id order; the fields the engine updates are in the classes below.
module Tables {
  import opened Words

  const NO_CARD_ID := 1000

  datatype Evaluation = SlowEvaluation | FastEvaluation | NoEvaluation

  datatype BeamClass = BeamClass(id: nat, number: nat)

  datatype DeviceState = DeviceState(value: Word, mask: Word)
  {
    // DbDeviceState::getIntegrator, where v < 0x100 says that no bit of v is above 7
    function GetIntegrator(): (g: nat)
      ensures g < 4 && (value == ZERO ==> g == 0)
      ensures value != ZERO ==> (exists b :: b in value && b / 8 == g) && forall b | b in value :: b / 8 <= g
    {
      if forall b | b in value :: b < 8 then 0
      else if forall b | b in value :: b < 16 then 1
      else if forall b | b in value :: b < 24 then 2
      else 3
    }
  }

  datatype AllowedClass = AllowedClass(id: nat, beamClass: BeamClass, destination: nat)

  datatype FaultStateRow = FaultStateRow(id: nat, deviceState: DeviceState, allowedClasses: seq<AllowedClass>)

  // A fault input or ignore condition names a digital or an analog device.
  datatype Device = DigitalAt(d: nat) | AnalogAt(a: nat)

  datatype FaultInputRow = FaultInputRow(bitPosition: nat, device: Device)

  datatype FaultRow = FaultRow(evaluation: Evaluation, inputs: seq<FaultInputRow>,
                               states: seq<FaultStateRow>, defaultState: Option<nat>)

  datatype StateRef = StateRef(fault: nat, state: nat)

  datatype ConditionInputRow = ConditionInputRow(bitPosition: nat, faultState: StateRef)

  datatype IgnoreRow = IgnoreRow(faultState: Option<StateRef>, device: Option<Device>)

  datatype ConditionRow = ConditionRow(mask: Word, inputs: seq<ConditionInputRow>, ignoreConditions: seq<IgnoreRow>)

  datatype DeviceRow = DeviceRow(cardId: nat, evaluation: Evaluation, inputBits: seq<nat>)
  {
    // A device without card or without evaluation is left alone by the engine.
    predicate Evaluated() {
      cardId != NO_CARD_ID && evaluation != NoEvaluation
    }
  }

  datatype Database = Database(
    highestBeamClass: BeamClass,
    lowestBeamClass: BeamClass,
    digitalDevices: seq<DeviceRow>,
    analogDevices: seq<DeviceRow>,
    faults: seq<FaultRow>,
    conditions: seq<ConditionRow>,
    destinationMasks: seq<set<nat>>)
  {
    predicate HasDevice(v: Device) {
      match v
      case DigitalAt(d) => d < |digitalDevices|
      case AnalogAt(a) => a < |analogDevices|
    }

    predicate HasState(r: StateRef) {
      r.fault < |faults| && r.state < |faults[r.fault].states|
    }

    // Foreign keys name rows that exist, as the configure methods make sure.
    ghost predicate WellFormed() {
      && (forall f, k | 0 <= f < |faults| && 0 <= k < |faults[f].inputs| :: HasDevice(faults[f].inputs[k].device))
      && (forall f, s, a |
            0 <= f < |faults| && 0 <= s < |faults[f].states| && 0 <= a < |faults[f].states[s].allowedClasses| ::
            faults[f].states[s].allowedClasses[a].destination < |destinationMasks|)
      && (forall f | 0 <= f < |faults| && faults[f].defaultState.Some? ::
            faults[f].defaultState.value < |faults[f].states|)
      && (forall c, i | 0 <= c < |conditions| && 0 <= i < |conditions[c].inputs| ::
            HasState(conditions[c].inputs[i].faultState))
      && (forall c, i | 0 <= c < |conditions| && 0 <= i < |conditions[c].ignoreConditions| ::
            var row := conditions[c].ignoreConditions[i];
            && (row.faultState.Some? ==> HasState(row.faultState.value))
            && (row.device.Some? ==> HasDevice(row.device.value)))
    }
  }

  class FaultState {
    const at: StateRef
    var faulted: bool
    var ignored: bool

    constructor (at: StateRef)
      ensures this.at == at
    {
      this.at := at;
    }
  }

  class Fault {
    const id: nat
    const faultStates: seq<FaultState>
    var faulted: bool
    var faultedDisplay: bool
    var ignored: bool
    var sendUpdate: bool
    var faultedOffline: bool
    var faultActive: bool
    var value: Word
    var oldValue: Word
    var worstState: int
    var displayState: int

    constructor (id: nat, faultStates: seq<FaultState>)
      ensures this.id == id && this.faultStates == faultStates
      ensures worstState == displayState == 0
    {
      this.id, this.faultStates := id, faultStates;
      worstState, displayState := 0, 0;
    }
  }

  class Condition {
    const id: nat
    var state: bool

    constructor (id: nat)
      ensures this.id == id
    {
      this.id := id;
    }
  }

  class BeamDestination {
    const id: nat
    const name: string
    var previousAllowedBeamClass: BeamClass
    var allowedBeamClass: BeamClass
    var tentativeBeamClass: BeamClass
    var forceBeamClass: Option<BeamClass>
    var softPermit: Option<BeamClass>
    var maxPermit: Option<BeamClass>

    constructor (id: nat, name: string, lowest: BeamClass)
      ensures this.id == id && this.name == name
      ensures allowedBeamClass == previousAllowedBeamClass == tentativeBeamClass == lowest
      ensures forceBeamClass == softPermit == maxPermit == None
    {
      this.id, this.name := id, name;
      allowedBeamClass, previousAllowedBeamClass, tentativeBeamClass := lowest, lowest, lowest;
      forceBeamClass, softPermit, maxPermit := None, None, None;
    }
  }
}
