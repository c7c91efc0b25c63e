// Digital inputs, digital devices and analog devices: record types of
// src/central_node_database_tables.h with their methods in
// src/central_node_inputs.cc and src/central_node_database_tables.cc.
module Devices {
  import opened Words
  import opened Bypass
  import opened Latching
  import opened Layout
  import opened Tables

  // The status bits of one card in an update message: 192 was-low bits, then 192
  // was-high bits
  datatype CardStatus = CardStatus(wasLow: seq<bool>, wasHigh: seq<bool>)
  {
    predicate Sized() {
      |wasLow| == |wasHigh| == STATUS_BITS
    }

    function At(o: nat): Reading
      requires Sized() && o < STATUS_BITS
    {
      Reading(wasLow[o], wasHigh[o])
    }
  }

  class DeviceInput {
    const channel: nat
    const bypass: InputBypass
    const faultValue: Word
    const autoReset: bool
    var value: Word
    var previousValue: Word
    var latchedValue: Word

    constructor (channel: nat, bypass: InputBypass, faultValue: Word, autoReset: bool)
      ensures this.channel == channel && this.bypass == bypass
      ensures this.faultValue == faultValue && this.autoReset == autoReset
      ensures value == previousValue == latchedValue == ZERO
    {
      this.channel, this.bypass, this.faultValue, this.autoReset := channel, bypass, faultValue, autoReset;
      value, previousValue, latchedValue := ZERO, ZERO, ZERO;
    }

    function State(): Latch
      reads this`value, this`latchedValue
    {
      Latch(value, latchedValue)
    }

    // The value is 0 when the signal was only low, 1 when it was only high, and otherwise
    // the fault value.
    ghost predicate Reads(status: CardStatus)
      requires status.Sized() && channel < STATUS_BITS
      reads this`value
    {
      value ==
        if status.wasLow[channel] && !status.wasHigh[channel] then {}
        else if status.wasHigh[channel] && !status.wasLow[channel] then {0}
        else faultValue
    }

    method Update(status: CardStatus)
      requires status.Sized() && channel < STATUS_BITS
      modifies this
      ensures State() == InputStep(old(State()), faultValue, autoReset, InputUpdate(status.At(channel)))
      ensures Reads(status)
      ensures latchedValue == if autoReset || value == faultValue then value else old(latchedValue)
      ensures previousValue == old(value)
    {
      previousValue := value;
      var wasLow, wasHigh := status.wasLow[channel], status.wasHigh[channel];
      var newValue;
      if !wasLow && !wasHigh {
        newValue := faultValue;
      } else if wasLow && wasHigh {
        newValue := faultValue;
      } else if wasLow {
        newValue := ZERO;
      } else {
        newValue := ONE;
      }
      value := newValue;
      if newValue == faultValue {
        latchedValue := faultValue;
      }
      if autoReset {
        latchedValue := value;
      }
    }

    method Unlatch()
      modifies this
      ensures State() == InputStep(old(State()), faultValue, autoReset, InputUnlatch)
      ensures latchedValue == value == old(value) && previousValue == old(previousValue)
    {
      latchedValue := value;
    }
  }

  class DigitalDevice {
    const id: nat
    const evaluation: Evaluation
    const inputDevices: seq<DeviceInput>
    var value: Word
    var ignored: bool
    var faultedOffline: bool
    var modeActive: bool
    // The rule compiled for the firmware
    var fastDestinationMask: set<nat>
    var fastPowerClass: nat
    var fastExpectedState: bool

    constructor (id: nat, evaluation: Evaluation, inputDevices: seq<DeviceInput>)
      ensures this.id == id && this.evaluation == evaluation && this.inputDevices == inputDevices
    {
      this.id, this.evaluation, this.inputDevices := id, evaluation, inputDevices;
    }
  }

  class AnalogDevice {
    const id: nat
    const evaluation: Evaluation
    const channel: AnalogChannel
    const bypass: seq<InputBypass>
    const bypassMask: BypassMask
    var value: Word
    var previousValue: Word
    var latchedValue: Word
    var ignored: bool
    var faultedOffline: bool
    var modeActive: bool
    var ignoredIntegrator: seq<bool>
    // The rules compiled for the firmware: a mask per integrator and a class per
    // threshold, with a flag that says that no class was compiled yet
    var fastDestinationMask: seq<set<nat>>
    var fastPowerClass: seq<nat>
    var fastPowerClassInit: seq<bool>

    constructor (id: nat, evaluation: Evaluation, channel: AnalogChannel, bypass: seq<InputBypass>,
                 bypassMask: BypassMask)
      ensures this.id == id && this.evaluation == evaluation && this.channel == channel
      ensures this.bypass == bypass && this.bypassMask == bypassMask
      ensures value == ZERO && !ignored && ignoredIntegrator == [false, false, false, false] && Compiled()
      ensures forall g | 0 <= g < 4 :: fastDestinationMask[g] == {}
      ensures forall t | 0 <= t < 32 :: fastPowerClass[t] == 0 && fastPowerClassInit[t]
    {
      this.id, this.evaluation, this.channel := id, evaluation, channel;
      this.bypass, this.bypassMask := bypass, bypassMask;
      value, previousValue, ignored, ignoredIntegrator := ZERO, ZERO, false, [false, false, false, false];
      fastDestinationMask := seq(4, _ => {});
      fastPowerClass, fastPowerClassInit := seq(32, _ => 0), seq(32, _ => true);
    }

    predicate Compiled()
      reads this`fastDestinationMask, this`fastPowerClass, this`fastPowerClassInit
    {
      |fastDestinationMask| == 4 && |fastPowerClass| == |fastPowerClassInit| == 32
    }

    function State(): Latch
      reads this`value, this`latchedValue
    {
      Latch(value, latchedValue)
    }

    // The thresholds exceeded, by the layout of the status bits
    function Thresholds(status: CardStatus): (r: Word)
      requires status.Sized() && channel.Fits()
    {
      set b | b in ALL_ONES && b < 8 * channel.numIntegrators && Exceeded(status.At(StatusBit(channel, b / 8, b % 8)))
    }

    lemma ThresholdsAt(status: CardStatus, i: nat, j: nat)
      requires status.Sized() && channel.Fits() && i < channel.numIntegrators && j < 8
      ensures 8 * i + j in Thresholds(status) <==> Exceeded(status.At(StatusBit(channel, i, j)))
    {
      hide StatusBit, Exceeded;
      assert (8 * i + j) / 8 == i && (8 * i + j) % 8 == j;
    }

    // The bits of the value are the thresholds whose status bits say high, or not low.
    ghost predicate Exceeding(status: CardStatus)
      requires status.Sized() && channel.Fits()
      reads this`value
    {
      && (forall i: nat, j: nat | i < channel.numIntegrators && j < 8 ::
            var o := StatusBit(channel, i, j);
            8 * i + j in value <==> status.wasHigh[o] || !status.wasLow[o])
      && forall b | b in value :: b < 8 * channel.numIntegrators
    }

    method Update(status: CardStatus)
      requires status.Sized() && channel.Fits()
      modifies this`value, this`previousValue, this`latchedValue
      ensures State() == AnalogStep(old(State()), AnalogUpdate(Thresholds(status)))
      ensures Exceeding(status)
      ensures latchedValue == old(latchedValue) + value && previousValue == old(value)
    {
      hide StatusBit, Exceeded, ThresholdsBefore, Thresholds, Or, Shift;
      previousValue := value;
      value := ZERO;
      var newValue := ZERO;
      NextIntegrator(status, 0);
      OrOr(latchedValue, ZERO, ZERO);
      for i := 0 to channel.numIntegrators
        invariant previousValue == old(value)
        invariant newValue == ThresholdsBefore(status, i, 0) && latchedValue == Or(old(latchedValue), newValue)
      {
        var integratorOffset := channel.numChannelsCard * THRESHOLDS * i + channel.number * THRESHOLDS;
        for j := 0 to THRESHOLDS
          invariant previousValue == old(value)
          invariant newValue == ThresholdsBefore(status, i, j) && latchedValue == Or(old(latchedValue), newValue)
        {
          var bit := Shift(ONE, j + i * THRESHOLDS);
          OneThreshold(status, i, j, integratorOffset);
          if Exceeded(status.At(integratorOffset + j)) {
            OrOr(old(latchedValue), newValue, bit);
            newValue := Or(newValue, bit);
            latchedValue := Or(latchedValue, bit);
          } else {
            newValue := newValue - bit;
          }
        }
        NextIntegrator(status, i);
      }
      AllThresholds(status);
      value := newValue;
      ThresholdBits(status);
    }

    lemma ThresholdBits(status: CardStatus)
      requires status.Sized() && channel.Fits()
      ensures forall i: nat, j: nat | i < channel.numIntegrators && j < 8 ::
        var o := StatusBit(channel, i, j);
        8 * i + j in Thresholds(status) <==> status.wasHigh[o] || !status.wasLow[o]
      ensures forall b | b in Thresholds(status) :: b < 8 * channel.numIntegrators
      ensures forall w: Word :: Or(w, Thresholds(status)) == w + Thresholds(status)
    {
      hide StatusBit, Thresholds;
      forall i: nat, j: nat | i < channel.numIntegrators && j < 8
        ensures
          var o := StatusBit(channel, i, j);
          8 * i + j in Thresholds(status) <==> status.wasHigh[o] || !status.wasLow[o]
      {
        ThresholdsAt(status, i, j);
      }
      assert forall b | b in Thresholds(status) :: b < 8 * channel.numIntegrators by { ThresholdsShort(status); }
    }

    lemma ThresholdsShort(status: CardStatus)
      requires status.Sized() && channel.Fits()
      ensures forall b | b in Thresholds(status) :: b < 8 * channel.numIntegrators
    {
    }

    // The thresholds of integrators before i and thresholds before j of integrator i
    ghost function ThresholdsBefore(status: CardStatus, i: nat, j: nat): (r: Word)
      requires status.Sized() && channel.Fits()
    {
      set b | b in Thresholds(status) && b < 8 * i + j
    }

    lemma NextIntegrator(status: CardStatus, i: nat)
      requires status.Sized() && channel.Fits()
      ensures ThresholdsBefore(status, i, THRESHOLDS) == ThresholdsBefore(status, i + 1, 0)
      ensures ThresholdsBefore(status, 0, 0) == ZERO
    {
    }

    lemma AllThresholds(status: CardStatus)
      requires status.Sized() && channel.Fits()
      ensures ThresholdsBefore(status, channel.numIntegrators, 0) == Thresholds(status)
    {
    }

    lemma OneThreshold(status: CardStatus, i: nat, j: nat, integratorOffset: nat)
      requires status.Sized() && channel.Fits() && i < channel.numIntegrators && j < 8
      requires integratorOffset == channel.numChannelsCard * THRESHOLDS * i + channel.number * THRESHOLDS
      ensures integratorOffset + j == StatusBit(channel, i, j)
      ensures
        var bit := Shift(ONE, j + i * THRESHOLDS);
        ThresholdsBefore(status, i, j + 1) ==
          if Exceeded(status.At(StatusBit(channel, i, j))) then Or(ThresholdsBefore(status, i, j), bit)
          else ThresholdsBefore(status, i, j) - bit
      ensures !Exceeded(status.At(StatusBit(channel, i, j))) ==>
        ThresholdsBefore(status, i, j + 1) == ThresholdsBefore(status, i, j)
    {
      hide StatusBit, Exceeded, Thresholds;
      StatusOffset(channel, i, j);
      ThresholdsAt(status, i, j);
      var bit := Shift(ONE, j + i * THRESHOLDS);
      assert forall b: nat :: b in bit <==> b == 8 * i + j;
      forall b: nat ensures b in ThresholdsBefore(status, i, j + 1) <==>
          if b == 8 * i + j then Exceeded(status.At(StatusBit(channel, i, j)))
          else b in ThresholdsBefore(status, i, j) {
      }
    }

    method Unlatch()
      modifies this`latchedValue
      ensures State() == AnalogStep(old(State()), AnalogUnlatch) && latchedValue == value
    {
      latchedValue := value;
    }
  }

  // MpsDb::unlatchAll
  method UnlatchAll(analogDevices: seq<AnalogDevice>, deviceInputs: seq<DeviceInput>)
    requires forall a, b | 0 <= a < b < |analogDevices| :: analogDevices[a] != analogDevices[b]
    requires forall k, l | 0 <= k < l < |deviceInputs| :: deviceInputs[k] != deviceInputs[l]
    modifies analogDevices`latchedValue, deviceInputs
    ensures forall v | v in analogDevices :: v.State() == AnalogStep(old(v.State()), AnalogUnlatch)
    ensures forall x | x in deviceInputs ::
      x.State() == InputStep(old(x.State()), x.faultValue, x.autoReset, InputUnlatch)
    ensures forall v | v in analogDevices :: v.latchedValue == v.value == old(v.value)
    ensures forall x | x in deviceInputs :: x.latchedValue == x.value == old(x.value)
  {
    for n := 0 to |analogDevices|
      invariant forall a | 0 <= a < n ::
        analogDevices[a].State() == AnalogStep(old(analogDevices[a].State()), AnalogUnlatch)
      invariant forall a | n <= a < |analogDevices| :: analogDevices[a].State() == old(analogDevices[a].State())
      invariant forall k | 0 <= k < |deviceInputs| :: deviceInputs[k].State() == old(deviceInputs[k].State())
    {
      analogDevices[n].Unlatch();
    }
    for n := 0 to |deviceInputs|
      invariant forall a | 0 <= a < |analogDevices| ::
        analogDevices[a].State() == AnalogStep(old(analogDevices[a].State()), AnalogUnlatch)
      invariant forall k | 0 <= k < n ::
        deviceInputs[k].State() ==
          InputStep(old(deviceInputs[k].State()), deviceInputs[k].faultValue, deviceInputs[k].autoReset, InputUnlatch)
      invariant forall k | n <= k < |deviceInputs| :: deviceInputs[k].State() == old(deviceInputs[k].State())
    {
      deviceInputs[n].Unlatch();
    }
  }

  // Threshold j of integrator i in the status bits of the card
  function StatusBit(c: AnalogChannel, i: nat, j: nat): (o: nat)
    requires c.Fits() && i < c.numIntegrators && j < 8
    ensures o < STATUS_BITS
  {
    SlotOwned(c, i);
    8 * c.Slot(i) + j
  }

  lemma StatusOffset(c: AnalogChannel, i: nat, j: nat)
    requires c.Fits() && i < c.numIntegrators && j < 8
    ensures c.numChannelsCard * 8 * i + c.number * 8 + j == StatusBit(c, i, j)
  {
    assert c.numChannelsCard * 8 * i == 8 * (i * c.numChannelsCard);
  }

  // No two thresholds of a card share a status bit.
  lemma StatusBitsApart(c: AnalogChannel, c': AnalogChannel, i: nat, i': nat, j: nat, j': nat)
    requires c.Fits() && c'.Fits() && c.numChannelsCard == c'.numChannelsCard
    requires i < c.numIntegrators && i' < c'.numIntegrators && j < 8 && j' < 8
    requires StatusBit(c, i, j) == StatusBit(c', i', j')
    ensures c.number == c'.number && i == i' && j == j'
  {
    SlotsApart(c, c', i, i');
  }
}
