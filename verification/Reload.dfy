// When the firmware image is written: MpsDb::updateInputs and
// MpsDb::writeFirmwareConfiguration (src/central_node_database.cc), the body of
// Engine::engineThread and the reloads (src/central_node_engine.cc), and the body of
// BypassManager::bypassThread (src/central_node_bypass.cc), each taken as one step.
module Reload {
  import opened Words
  import opened Bypass
  import opened Latching
  import opened Layout
  import opened Tables
  import opened Devices
  import opened CycleRules
  import opened EvaluationCycle
  import opened CycleProperties
  import opened Cards
  import opened FirmwareMask
  import Permits

  class CentralNode {
    const manager: BypassManager
    const engine: Engine
    const cards: seq<ApplicationCard>
    const deviceInputs: seq<DeviceInput>
    const beamClasses: map<nat, BeamClass>
    const firmware: Firmware

    constructor (manager: BypassManager, engine: Engine, cards: seq<ApplicationCard>,
                 deviceInputs: seq<DeviceInput>, beamClasses: map<nat, BeamClass>, firmware: Firmware)
      ensures this.manager == manager && this.engine == engine && this.cards == cards
      ensures this.deviceInputs == deviceInputs && this.beamClasses == beamClasses && this.firmware == firmware
    {
      this.manager, this.engine, this.cards := manager, engine, cards;
      this.deviceInputs, this.beamClasses, this.firmware := deviceInputs, beamClasses, firmware;
    }

    ghost predicate CardWired(c: nat)
      requires c < |cards|
    {
      var card := cards[c];
      && card.applicationConfigBuffer.Length == CONFIG_BITS && card.Apart() && card.ChannelsFit()
      && SharedCard(card.analogDevices) && SeparateRecords(card.digitalDevices)
      && (forall d | 0 <= d < |card.digitalDevices| ::
            card.digitalDevices[d].evaluation == FastEvaluation ==> |card.digitalDevices[d].inputDevices| == 1)
      && (forall a | 0 <= a < |card.analogDevices| :: card.analogDevices[a] in engine.analogDevices)
      && (forall d | d in card.digitalDevices :: d in engine.digitalDevices)
      && (forall x | x in card.Inputs() :: x in deviceInputs)
      && card.globalId < FW_NUM_APPLICATION_MASKS && !(card.isDigital && card.isAnalog)
      && (card.digitalDevices != [] ==> card.isDigital) && (card.analogDevices != [] ==> card.isAnalog)
    }

    // Cards have buffers of their own.
    ghost predicate Wired() {
      && (forall c | 0 <= c < |cards| :: CardWired(c))
      && (forall c, e | 0 <= c < e < |cards| :: cards[c].applicationConfigBuffer != cards[e].applicationConfigBuffer)
      && (forall c, e, v | 0 <= c < e < |cards| && v in cards[c].analogDevices :: v !in cards[e].analogDevices)
      && (forall c, e, d | 0 <= c < e < |cards| && d in cards[c].digitalDevices :: d !in cards[e].digitalDevices)
      && (forall c, e, x | 0 <= c < e < |cards| && x in cards[c].Inputs() :: x !in cards[e].Inputs())
    }

    // createBypassMap and assignBypass: the bypasses of FAST devices ask for a refresh, and
    // the manager writes the mask words the engine reads.
    ghost predicate BypassesAssigned() {
      && (forall c, a, b |
            0 <= c < |cards| && 0 <= a < |cards[c].analogDevices| && b in cards[c].analogDevices[a].bypass ::
            cards[c].analogDevices[a].evaluation == FastEvaluation ==> b in manager.bypasses && b.configUpdate)
      && (forall c, d |
            0 <= c < |cards| && 0 <= d < |cards[c].digitalDevices| && HasRecord(cards[c].digitalDevices[d]) ::
            var b := cards[c].digitalDevices[d].inputDevices[0].bypass;
            b in manager.bypasses && b.configUpdate)
      && (forall v | v in engine.analogDevices :: OwnBypasses(v))
    }

    // The four bypasses of an analog device own the bytes of its mask word.
    ghost predicate OwnBypasses(v: AnalogDevice) {
      |v.bypass| == 4 && forall i | 0 <= i < 4 ::
        v.bypass[i] in manager.bypasses && v.bypass[i].mask == v.bypassMask && v.bypass[i].index == i
    }

    lemma OwnMask(v: AnalogDevice, i: nat)
      requires BypassesAssigned() && v in engine.analogDevices && i < 4
      ensures |v.bypass| == 4 && v.bypass[i] in manager.bypasses && v.bypass[i].mask == v.bypassMask
      ensures v.bypass[i].index == i
    {
    }

    ghost predicate CardImage(card: ApplicationCard)
      reads card.applicationConfigBuffer
      reads card.digitalDevices`fastDestinationMask, card.digitalDevices`fastPowerClass
      reads card.digitalDevices`fastExpectedState
      reads (set d, k | 0 <= d < |card.digitalDevices| && 0 <= k < |card.digitalDevices[d].inputDevices| ::
               card.digitalDevices[d].inputDevices[k].bypass)`status
      reads card.analogDevices`fastDestinationMask, card.analogDevices`fastPowerClass
      reads card.analogDevices`fastPowerClassInit
      reads card.analogDevices`ignoredIntegrator, card.analogDevices`ignored
      reads (set a, i | 0 <= a < |card.analogDevices| && 0 <= i < |card.analogDevices[a].bypass| ::
               card.analogDevices[a].bypass[i])`status
    {
      if card.isDigital then DigitalImage(card.applicationConfigBuffer[..], card.digitalDevices)
      else if card.isAnalog then AnalogImage(card.applicationConfigBuffer[..], card.analogDevices)
      else true
    }

    // writeConfiguration: with enableTimeout a card with devices is enabled, too.
    method WriteConfiguration(c: nat, enableTimeout: bool)
      requires c < |cards| && CardWired(c) && AllReady(cards[c].analogDevices)
      modifies cards[c].applicationConfigBuffer, if enableTimeout then {firmware} else {}
      ensures CardImage(cards[c])
      ensures enableTimeout ==> forall id: nat :: id in firmware.applicationTimeoutMask <==>
        (HasDevices(cards[c]) && id == cards[c].globalId) || id in old(firmware.applicationTimeoutMask)
    {
      if cards[c].isDigital {
        var ok := cards[c].WriteDigitalConfiguration();
      } else if cards[c].isAnalog {
        cards[c].WriteAnalogConfiguration();
      } else {
        return;
      }
      if enableTimeout {
        firmware.SetAppTimeoutEnable(cards[c].globalId, true);
      }
    }

    predicate HasDevices(card: ApplicationCard) {
      card.isDigital || card.isAnalog
    }

    // Some of the first n cards has this id, and devices.
    predicate Equipped(n: nat, id: nat)
      requires n <= |cards|
    {
      exists c :: 0 <= c < n && HasDevices(cards[c]) && cards[c].globalId == id
    }

    ghost function Buffers(): set<array<bool>> {
      set c | 0 <= c < |cards| :: cards[c].applicationConfigBuffer
    }

    method WriteFirmwareConfiguration(enableTimeout: bool)
      requires Wired() && forall c | 0 <= c < |cards| :: AllReady(cards[c].analogDevices)
      modifies Buffers(), if enableTimeout then {firmware} else {}
      ensures forall c | 0 <= c < |cards| :: CardImage(cards[c])
      ensures enableTimeout ==> forall id: nat :: id in firmware.applicationTimeoutMask <==>
        Equipped(|cards|, id) || id in old(firmware.applicationTimeoutMask)
      ensures enableTimeout ==> forall id: nat :: id in firmware.applicationTimeoutMask <==>
        || id in old(firmware.applicationTimeoutMask)
        || exists c :: 0 <= c < |cards| && (cards[c].isDigital || cards[c].isAnalog) && cards[c].globalId == id
    {
      hide AllReady;
      for n := 0 to |cards|
        invariant forall c | 0 <= c < n :: CardImage(cards[c])
        invariant enableTimeout ==> forall id: nat :: id in firmware.applicationTimeoutMask <==>
          Equipped(n, id) || id in old(firmware.applicationTimeoutMask)
      {
        label Before:
        WriteConfiguration(n, enableTimeout);
        forall c | 0 <= c < n ensures CardImage(cards[c]) {
          assert old@Before(CardImage(cards[c]));
        }
      }
    }

    // What the image of a card reads is as it was.
    twostate predicate CardKept(card: ApplicationCard)
      reads card.digitalDevices`fastDestinationMask, card.digitalDevices`fastPowerClass
      reads card.digitalDevices`fastExpectedState
      reads (set d, k | 0 <= d < |card.digitalDevices| && 0 <= k < |card.digitalDevices[d].inputDevices| ::
               card.digitalDevices[d].inputDevices[k].bypass)`status
      reads card.analogDevices`fastDestinationMask, card.analogDevices`fastPowerClass
      reads card.analogDevices`fastPowerClassInit
      reads card.analogDevices`ignoredIntegrator, card.analogDevices`ignored
      reads (set a, i | 0 <= a < |card.analogDevices| && 0 <= i < |card.analogDevices[a].bypass| ::
               card.analogDevices[a].bypass[i])`status
    {
      && (forall a | 0 <= a < |card.analogDevices| && card.analogDevices[a].evaluation == FastEvaluation ::
            SameForImage(card.analogDevices[a]))
      && (forall d | 0 <= d < |card.digitalDevices| ::
            && card.digitalDevices[d].fastDestinationMask == old(card.digitalDevices[d].fastDestinationMask)
            && card.digitalDevices[d].fastPowerClass == old(card.digitalDevices[d].fastPowerClass)
            && card.digitalDevices[d].fastExpectedState == old(card.digitalDevices[d].fastExpectedState))
      && (forall d | 0 <= d < |card.digitalDevices| && HasRecord(card.digitalDevices[d]) ::
            var b := card.digitalDevices[d].inputDevices[0].bypass;
            b.status == old(b.status))
    }

    twostate lemma CardImageKept(card: ApplicationCard)
      requires old(CardImage(card)) && AllReady(card.analogDevices) && CardKept(card)
      requires card.applicationConfigBuffer[..] == old(card.applicationConfigBuffer[..])
      ensures CardImage(card)
    {
      hide DigitalImage, AnalogImage, AllReady, SameForImage;
      if card.isDigital {
        DigitalImageKept(card.applicationConfigBuffer[..], card.digitalDevices);
      } else if card.isAnalog {
        AnalogImageKept(card.applicationConfigBuffer[..], card.analogDevices);
      }
    }

    // A call on the manager that leaves no refresh pending leaves every image as exact
    // as it was: no bypass of a FAST device changed its status.
    twostate lemma ImagesKept()
      requires Wired() && BypassesAssigned()
      requires forall c | 0 <= c < |cards| :: old(CardImage(cards[c])) && AllReady(cards[c].analogDevices)
      requires forall c | 0 <= c < |cards| ::
        && cards[c].applicationConfigBuffer[..] == old(cards[c].applicationConfigBuffer[..])
        && unchanged(cards[c].digitalDevices) && unchanged(cards[c].analogDevices)
      requires forall b | b in manager.bypasses && b.configUpdate :: b.status == old(b.status)
      ensures forall c | 0 <= c < |cards| :: CardImage(cards[c])
    {
      hide CardImage, AllReady;
      forall c | 0 <= c < |cards| ensures CardImage(cards[c]) {
        assert CardKept(cards[c]);
        CardImageKept(cards[c]);
      }
    }

    // ---- Bypass requests and the bypass thread ----
    //
    // The claim kept by every step below: either a refresh is pending, or the buffers
    // hold the image of the current state.

    method RequestBypass(kind: BypassType, deviceId: nat, value: Word, bypassUntil: int, intIndex: int, clock: int,
                         test: bool)
      returns (target: Option<InputBypass>)
      requires Wired() && BypassesAssigned() && forall c | 0 <= c < |cards| :: AllReady(cards[c].analogDevices)
      requires manager.Valid() && manager.Directory() && (kind == BypassAnalog ==> 0 <= intIndex < 4)
      requires manager.refreshFirmwareConfiguration || forall c | 0 <= c < |cards| :: CardImage(cards[c])
      modifies manager`queue, manager`refreshFirmwareConfiguration, manager.masks`bits
      modifies manager.bypasses`status, manager.bypasses`until, manager.bypasses`value
      ensures manager.Valid() <==> target.None? || 0 <= bypassUntil || (!test && bypassUntil <= clock)
      ensures target.Some? ==>
        target.value in manager.bypasses && target.value.kind == kind && target.value.deviceId == deviceId
      ensures target.Some? && bypassUntil != 0 && (test || clock < bypassUntil) ==>
        && target.value.status == BypassValid && target.value.until == bypassUntil && target.value.value == value
      ensures forall b | b in manager.bypasses && target != Some(b) ::
        b.status == old(b.status) && b.until == old(b.until) && b.value == old(b.value)
      ensures manager.refreshFirmwareConfiguration || forall c | 0 <= c < |cards| :: CardImage(cards[c])
    {
      hide CardImage, AllReady, Wired, BypassesAssigned, BypassManager.Valid, BypassManager.Directory;
      target := manager.SetThresholdBypass(kind, deviceId, value, bypassUntil, intIndex, clock, test);
      if !manager.refreshFirmwareConfiguration {
        ImagesKept();
      }
    }

    // One round of the bypass thread leaves no refresh pending, and exact images.
    method BypassRound(clock: int)
      requires Wired() && BypassesAssigned() && forall c | 0 <= c < |cards| :: AllReady(cards[c].analogDevices)
      requires manager.Valid()
      requires manager.refreshFirmwareConfiguration || forall c | 0 <= c < |cards| :: CardImage(cards[c])
      modifies manager`queue, manager`refreshFirmwareConfiguration, manager.masks`bits, manager.bypasses`status
      modifies Buffers()
      ensures manager.Valid() && !manager.refreshFirmwareConfiguration
      ensures forall c | 0 <= c < |cards| :: CardImage(cards[c])
    {
      hide CardImage, AllReady, Wired, BypassesAssigned, BypassManager.Valid;
      var now := manager.CheckBypassQueue(0, clock);
      if manager.refreshFirmwareConfiguration {
        WriteFirmwareConfiguration(false);
        manager.refreshFirmwareConfiguration := false;
      } else {
        ImagesKept();
      }
    }

    // ---- The update and the engine thread ----

    ghost predicate CardMode(card: ApplicationCard)
      reads card`active, card.analogDevices`modeActive
    {
      !card.isDigital && card.isAnalog ==> forall v | v in card.analogDevices :: v.modeActive == card.active
    }

    ghost function DigitalDevices(): set<DigitalDevice> {
      set c, d | 0 <= c < |cards| && d in cards[c].digitalDevices :: d
    }

    ghost function AnalogDevices(): set<AnalogDevice> {
      set c, v | 0 <= c < |cards| && v in cards[c].analogDevices :: v
    }

    ghost function Inputs(): set<DeviceInput> {
      set c, x | 0 <= c < |cards| && x in cards[c].Inputs() :: x
    }

    lemma CardParts(c: nat)
      requires Wired() && c < |cards|
      ensures CardWired(c) && cards[c].Inputs() <= Inputs() && cards[c].globalId < FW_NUM_APPLICATION_MASKS
      ensures forall d | d in cards[c].digitalDevices :: d in DigitalDevices()
      ensures forall v | v in cards[c].analogDevices :: v in engine.analogDevices && v in AnalogDevices()
    {
    }

    lemma CardsApart(c: nat, e: nat)
      requires Wired() && c < |cards| && e < |cards| && e != c
      ensures cards[e] != cards[c] && cards[e].Inputs() !! cards[c].Inputs()
      ensures forall v | v in cards[e].analogDevices :: v !in cards[c].analogDevices
      ensures forall d | d in cards[e].digitalDevices :: d !in cards[c].digitalDevices
    {
    }

    // A card no update has reached yet holds what the samples say it held ...
    ghost predicate NotSampled(card: ApplicationCard, was: Samples)
      reads card.Inputs(), card.analogDevices`value, card.analogDevices`latchedValue
    {
      && (forall x | x in card.Inputs() :: x in was.inputs && x.State() == was.inputs[x])
      && (forall v | v in card.analogDevices :: v in was.devices && v.State() == was.devices[v])
    }

    // ... and a card it has reached took a sample of every input, or of every analog device.
    ghost predicate CardSampled(card: ApplicationCard, was: Samples, status: CardStatus)
      requires status.Sized()
      reads card.Inputs(), card.analogDevices`value, card.analogDevices`latchedValue
    {
      && card.ChannelsFit()
      && (forall x | x in card.Inputs() :: x in was.inputs && x.State() ==
            if card.isDigital then
              InputStep(was.inputs[x], x.faultValue, x.autoReset, InputUpdate(status.At(x.channel)))
            else was.inputs[x])
      && (forall v | v in card.analogDevices :: v in was.devices && v.State() ==
            if !card.isDigital && card.isAnalog then
              AnalogStep(was.devices[v], AnalogUpdate(v.Thresholds(status)))
            else was.devices[v])
    }

    // In terms of the status bits of the card
    lemma CardSampledTells(card: ApplicationCard, was: Samples, status: CardStatus)
      requires status.Sized() && CardSampled(card, was, status)
      ensures card.isDigital ==> forall x | x in card.Inputs() ::
        && x.Reads(status) && x in was.inputs
        && x.latchedValue == if x.autoReset || x.value == x.faultValue then x.value else was.inputs[x].latched
      ensures !card.isDigital && card.isAnalog ==> forall v | v in card.analogDevices ::
        v.Exceeding(status) && v in was.devices && v.latchedValue == was.devices[v].latched + v.value
    {
      hide StatusBit, AnalogDevice.Thresholds;
      forall v | v in card.analogDevices && !card.isDigital && card.isAnalog
        ensures v.Exceeding(status) && v.latchedValue == was.devices[v].latched + v.value
      {
        v.ThresholdBits(status);
      }
    }

    // Its devices have the flags the firmware reported for the card.
    ghost predicate Flagged(card: ApplicationCard, timeoutStatus: bool, timeoutEnable: bool)
      reads card`online, card`active, card.digitalDevices`faultedOffline, card.digitalDevices`modeActive
      reads card.analogDevices`faultedOffline, card.analogDevices`modeActive
    {
      && card.online == !timeoutStatus && card.active == timeoutEnable
      && (card.isDigital ==> forall d | d in card.digitalDevices ::
            d.faultedOffline == timeoutStatus && d.modeActive == timeoutEnable)
      && (!card.isDigital && card.isAnalog ==> forall v | v in card.analogDevices ::
            v.faultedOffline == timeoutStatus && v.modeActive == timeoutEnable)
    }

    method UpdateCard(card: ApplicationCard, ghost was: Samples, status: CardStatus, timeoutStatus: bool,
                      timeoutEnable: bool)
      returns (reload: bool)
      requires card.Apart() && card.ChannelsFit() && status.Sized() && NotSampled(card, was)
      modifies card`online, card`active, card.digitalDevices`faultedOffline, card.digitalDevices`modeActive
      modifies card.Inputs()
      modifies card.analogDevices`value, card.analogDevices`previousValue, card.analogDevices`latchedValue
      modifies card.analogDevices`faultedOffline, card.analogDevices`modeActive
      ensures Flagged(card, timeoutStatus, timeoutEnable) && CardMode(card) && card.active == timeoutEnable
      ensures reload == (card.active != old(card.active)) && CardSampled(card, was, status)
      ensures !reload && old(CardMode(card)) ==> forall v | v in card.analogDevices :: v.modeActive == old(v.modeActive)
    {
      hide InputStep, AnalogStep;
      reload := card.UpdateInputs(status, timeoutStatus, timeoutEnable);
    }

    lemma TakeSamples() returns (was: Samples)
      requires Wired()
      ensures forall c | 0 <= c < |cards| :: NotSampled(cards[c], was)
    {
      was := Samples(map x | x in Inputs() :: x.State(), map v | v in engine.analogDevices :: v.State());
      forall c | 0 <= c < |cards| ensures NotSampled(cards[c], was) {
        CardParts(c);
      }
    }

    // The bit of card c in the mask
    predicate Enabled(c: nat)
      requires c < |cards|
      reads firmware
    {
      cards[c].globalId in firmware.applicationTimeoutMask
    }

    // MpsDb::updateInputs: a change of mode on any card asks for a reload, and afterwards
    // all analog devices are in the mode of their cards, even at the first update.
    method UpdateInputs(statuses: seq<CardStatus>, timeoutStatus: seq<bool>, ghost was: Samples)
      requires |statuses| == |timeoutStatus| == |cards| && forall s | s in statuses :: s.Sized()
      requires Wired() && forall c | 0 <= c < |cards| :: NotSampled(cards[c], was)
      modifies engine`reloadInactive, cards`online, cards`active
      modifies DigitalDevices()`faultedOffline, DigitalDevices()`modeActive, Inputs()
      modifies AnalogDevices()`value, AnalogDevices()`previousValue, AnalogDevices()`latchedValue
      modifies AnalogDevices()`faultedOffline, AnalogDevices()`modeActive
      ensures forall c | 0 <= c < |cards| :: CardSampled(cards[c], was, statuses[c]) && CardMode(cards[c])
      ensures forall c | 0 <= c < |cards| ::
        Flagged(cards[c], timeoutStatus[c], Enabled(c)) && cards[c].active == Enabled(c)
      ensures engine.reloadInactive <==>
        old(engine.reloadInactive) || exists c :: 0 <= c < |cards| && cards[c].active != old(cards[c].active)
      ensures !engine.reloadInactive && (forall c | 0 <= c < |cards| :: old(CardMode(cards[c]))) ==>
        forall v | v in engine.analogDevices :: v.modeActive == old(v.modeActive)
    {
      hide CardMode, CardWired, Wired, NotSampled, CardSampled, Flagged, Untouched, CardUpdated;
      var mask := firmware.applicationTimeoutMask;
      ghost var settled := forall c | 0 <= c < |cards| :: CardMode(cards[c]);
      for n := 0 to |cards|
        invariant forall c | 0 <= c < n :: CardUpdated(c, was, statuses[c], timeoutStatus[c], cards[c].globalId in mask)
        invariant forall c | n <= c < |cards| :: cards[c].active == old(cards[c].active)
        invariant forall c | n <= c < |cards| :: NotSampled(cards[c], was) && (settled ==> CardMode(cards[c]))
        invariant engine.reloadInactive <==>
          old(engine.reloadInactive) || exists c :: 0 <= c < n && (cards[c].globalId in mask) != old(cards[c].active)
        invariant settled && !engine.reloadInactive ==>
          forall v | v in engine.analogDevices :: v.modeActive == old(v.modeActive)
      {
        CardParts(n);
        label Before:
        var enabled := firmware.GetAppTimeoutEnable(cards[n].globalId);
        UpdateNext(cards[n], n, was, statuses[n], timeoutStatus[n], enabled);
        forall c | 0 <= c < |cards| && c != n
          ensures cards[c].active == old@Before(cards[c].active)
          ensures c < n ==> CardUpdated(c, was, statuses[c], timeoutStatus[c], cards[c].globalId in mask)
          ensures n < c ==> NotSampled(cards[c], was) && (settled ==> CardMode(cards[c]))
        {
          UntouchedKeeps@Before(c, was, statuses[c], timeoutStatus[c], cards[c].globalId in mask);
        }
      }
      forall c | 0 <= c < |cards| {
        UpdatedParts(c, was, statuses[c], timeoutStatus[c], cards[c].globalId in mask);
      }
    }

    lemma UpdatedParts(c: nat, was: Samples, status: CardStatus, timeoutStatus: bool, timeoutEnable: bool)
      requires Wired() && c < |cards| && status.Sized() && CardUpdated(c, was, status, timeoutStatus, timeoutEnable)
      ensures Flagged(cards[c], timeoutStatus, timeoutEnable) && cards[c].active == timeoutEnable
      ensures CardMode(cards[c]) && CardSampled(cards[c], was, status)
    {
    }

    ghost predicate CardUpdated(c: nat, was: Samples, status: CardStatus, timeoutStatus: bool, timeoutEnable: bool)
      requires Wired() && c < |cards| && status.Sized()
      reads cards[c], cards[c].Inputs(), cards[c].analogDevices, cards[c].digitalDevices
    {
      && Flagged(cards[c], timeoutStatus, timeoutEnable) && cards[c].active == timeoutEnable
      && CardMode(cards[c]) && CardSampled(cards[c], was, status)
    }

    // Nothing an update writes changed on this card.
    twostate predicate Untouched(card: ApplicationCard)
      reads card`online, card`active, card.Inputs(), card.analogDevices, card.digitalDevices
    {
      && card.online == old(card.online) && card.active == old(card.active)
      && (forall d: DigitalDevice | d in card.digitalDevices ::
            d.faultedOffline == old(d.faultedOffline) && d.modeActive == old(d.modeActive))
      && (forall x: DeviceInput | x in card.Inputs() :: x.State() == old(x.State()))
      && (forall v: AnalogDevice | v in card.analogDevices :: v.State() == old(v.State())
            && v.modeActive == old(v.modeActive) && v.faultedOffline == old(v.faultedOffline))
    }

    twostate lemma UntouchedKeeps(new c: nat, was: Samples, new status: CardStatus,
                                  new timeoutStatus: bool, new timeoutEnable: bool)
      requires Wired() && c < |cards| && status.Sized() && Untouched(cards[c])
      ensures cards[c].active == old(cards[c].active) && (old(CardMode(cards[c])) ==> CardMode(cards[c]))
      ensures old(NotSampled(cards[c], was)) ==> NotSampled(cards[c], was)
      ensures old(CardUpdated(c, was, status, timeoutStatus, timeoutEnable)) ==>
        CardUpdated(c, was, status, timeoutStatus, timeoutEnable)
    {
      hide Wired, InputStep, AnalogStep;
    }

    // Updating one card leaves all others as they are ...
    method UpdateApart(card: ApplicationCard, n: nat, ghost was: Samples, status: CardStatus,
                       timeoutStatus: bool, timeoutEnable: bool)
      returns (reload: bool)
      requires Wired() && n < |cards| && card == cards[n] && status.Sized() && NotSampled(card, was)
      modifies card`online, card`active
      modifies card.digitalDevices`faultedOffline, card.digitalDevices`modeActive, card.Inputs()
      modifies card.analogDevices`value, card.analogDevices`previousValue, card.analogDevices`latchedValue
      modifies card.analogDevices`faultedOffline, card.analogDevices`modeActive
      ensures CardUpdated(n, was, status, timeoutStatus, timeoutEnable)
      ensures forall c | 0 <= c < |cards| && c != n :: Untouched(cards[c])
      ensures reload == (timeoutEnable != old(card.active))
      ensures !reload && old(CardMode(card)) ==>
        forall v | v in card.analogDevices :: v.modeActive == old(v.modeActive)
    {
      hide CardMode, CardWired, Wired, NotSampled, CardSampled, Flagged;
      CardParts(n);
      reload := UpdateCard(card, was, status, timeoutStatus, timeoutEnable);
      forall c | 0 <= c < |cards| && c != n ensures Untouched(cards[c]) {
        CardsApart(n, c);
      }
    }

    // ... and asks for a reload when its mode changed.
    method UpdateNext(card: ApplicationCard, n: nat, ghost was: Samples, status: CardStatus,
                      timeoutStatus: bool, timeoutEnable: bool)
      requires Wired() && n < |cards| && card == cards[n] && status.Sized() && NotSampled(card, was)
      modifies engine`reloadInactive, card`online, card`active
      modifies card.digitalDevices`faultedOffline, card.digitalDevices`modeActive, card.Inputs()
      modifies card.analogDevices`value, card.analogDevices`previousValue, card.analogDevices`latchedValue
      modifies card.analogDevices`faultedOffline, card.analogDevices`modeActive
      ensures CardUpdated(n, was, status, timeoutStatus, timeoutEnable)
      ensures forall c | 0 <= c < |cards| && c != n :: Untouched(cards[c])
      ensures engine.reloadInactive <==> old(engine.reloadInactive) || timeoutEnable != old(card.active)
      ensures timeoutEnable == old(card.active) && old(CardMode(card)) ==>
        forall v | v in engine.analogDevices :: v.modeActive == old(v.modeActive)
    {
      hide CardMode, CardWired, Wired, NotSampled, CardSampled, Flagged;
      CardParts(n);
      var reload := UpdateApart(card, n, was, status, timeoutStatus, timeoutEnable);
      if reload {
        engine.reloadInactive := true;
      }
    }

    // The evaluated analog devices are in the mode the cycle on `before` saw.
    ghost predicate ModesAre(before: Snapshot)
      reads engine.analogDevices`modeActive
      requires engine.Wired() && Fits(engine.db, before)
    {
      forall a | 0 <= a < |engine.analogDevices| && engine.db.analogDevices[a].Evaluated() ::
        engine.analogDevices[a].modeActive == before.analog[a].active
    }

    // The cycle writes no field of the fast rules and no bypass.
    twostate predicate FastRulesKept()
      reads engine.analogDevices, DigitalDevices()
      reads (set c, d, k | 0 <= c < |cards| && d in cards[c].digitalDevices && k in d.inputDevices :: k.bypass)`status
      reads (set v, b | v in engine.analogDevices && b in v.bypass :: b)`status
    {
      && (forall v | v in engine.analogDevices ::
            && v.fastDestinationMask == old(v.fastDestinationMask) && v.fastPowerClass == old(v.fastPowerClass)
            && v.fastPowerClassInit == old(v.fastPowerClassInit)
            && forall b | b in v.bypass :: b.status == old(b.status))
      && (forall d | d in DigitalDevices() ::
            && d.fastDestinationMask == old(d.fastDestinationMask) && d.fastPowerClass == old(d.fastPowerClass)
            && d.fastExpectedState == old(d.fastExpectedState)
            && forall k | k in d.inputDevices :: k.bypass.status == old(k.bypass.status))
    }

    twostate lemma StillReady()
      requires Wired() && engine.FourFlags() && FastRulesKept()
      requires forall c | 0 <= c < |cards| :: old(AllReady(cards[c].analogDevices))
      ensures forall c | 0 <= c < |cards| :: AllReady(cards[c].analogDevices)
    {
      forall c | 0 <= c < |cards| ensures AllReady(cards[c].analogDevices) {
        CardParts(c);
        assert old(AllReady(cards[c].analogDevices));
      }
    }

    // With the ignore flags unchanged too, every image is kept.
    twostate lemma ImagesKeptByCycle()
      requires Wired() && FastRulesKept()
      requires forall c | 0 <= c < |cards| :: old(CardImage(cards[c])) && AllReady(cards[c].analogDevices)
      requires forall c | 0 <= c < |cards| ::
        cards[c].applicationConfigBuffer[..] == old(cards[c].applicationConfigBuffer[..])
      requires forall v | v in engine.analogDevices ::
        v.ignored == old(v.ignored) && v.ignoredIntegrator == old(v.ignoredIntegrator)
      ensures forall c | 0 <= c < |cards| :: CardImage(cards[c])
    {
      hide CardImage, AllReady;
      forall c | 0 <= c < |cards| ensures CardImage(cards[c]) {
        CardParts(c);
        assert CardKept(cards[c]);
        CardImageKept(cards[c]);
      }
    }

    lemma AgreedModes(snap: Snapshot)
      requires engine.Wired() && Fits(engine.db, snap) && engine.Agrees(snap)
      ensures ModesAre(snap) && forall a | 0 <= a < |engine.analogDevices| :: engine.AnalogHeld(a, snap)
    {
      hide Engine.InputsAgree, Engine.DigitalHeld, Engine.ThresholdsAgree, Engine.PermitsAgree;
    }

    lemma DecidedFlags(snap: Snapshot, flags: seq<seq<bool>>)
      requires engine.Wired() && Fits(engine.db, snap) && engine.InputsDecided(snap, flags)
      ensures engine.FourFlags()
    {
      hide Engine.FaultsEvaluated, Engine.StatesDecided, Engine.DevicesDecided, Engine.ConditionsDecided;
    }

    lemma SameModes(before: Snapshot, snap: Snapshot)
      requires engine.Wired() && Fits(engine.db, before) && Fits(engine.db, snap) && ModesAre(before) && ModesAre(snap)
      ensures forall a | 0 <= a < |engine.analogDevices| && engine.db.analogDevices[a].Evaluated() ::
        before.analog[a].active == snap.analog[a].active
    {
    }

    // The passes of a round: what they change is told by the value they return.
    method EvaluateRound(ghost before: Snapshot, ghost flags0: seq<seq<bool>>, ghost snap: Snapshot,
                         ghost starts: seq<int>, ghost flags: seq<seq<bool>>)
      returns (result: nat, ghost numbers: seq<nat>)
      requires Wired() && forall c | 0 <= c < |cards| :: AllReady(cards[c].analogDevices)
      requires engine.Wired() && Fits(engine.db, before) && Fits(engine.db, snap)
      requires engine.Agrees(snap) && engine.FlagsAre(flags) && engine.HistoryAgrees(starts)
      requires engine.InputsDecided(before, flags0) && (!engine.reloadInactive ==> ModesAre(before))
      modifies engine, engine.conditions, engine.faults, engine.states
      modifies engine.destinations`tentativeBeamClass, engine.destinations`previousAllowedBeamClass
      modifies engine.destinations`allowedBeamClass
      modifies engine.digitalDevices`value, engine.digitalDevices`ignored
      modifies engine.analogDevices`ignored, engine.analogDevices`ignoredIntegrator
      ensures engine.Limited(snap, numbers) && engine.InputsDecided(snap, flags) && ModesAre(snap)
      ensures engine.HistoryAgrees(starts) && old(engine.history) <= engine.history && !engine.reloadInactive
      ensures result == 0 ==> forall v | v in engine.analogDevices ::
        v.ignored == old(v.ignored) && v.ignoredIntegrator == old(v.ignoredIntegrator)
    {
      hide AllReady, Wired, ModesAre, Engine.Limited, Engine.HistoryAgrees, Engine.FlagsAre, Engine.InputsDecided;
      hide Engine.Agrees, Engine.Wired, Fits, Engine.AnalogHeld, FaultIgnored, FaultOffline;
      AgreedModes(snap);
      if !engine.reloadInactive {
        SameModes(before, snap);
      }
      result, numbers := engine.CheckFaults(snap, starts, flags);
      if result == 0 {
        NoReloadNoChange(engine, before, snap, flags0, flags);
      }
    }

    // ... and the rules the firmware was given are not among it.
    method EvaluateRoundOnly(ghost before: Snapshot, ghost flags0: seq<seq<bool>>, ghost snap: Snapshot,
                             ghost starts: seq<int>, ghost flags: seq<seq<bool>>)
      returns (result: nat, ghost numbers: seq<nat>)
      requires Wired() && forall c | 0 <= c < |cards| :: AllReady(cards[c].analogDevices)
      requires engine.Wired() && Fits(engine.db, before) && Fits(engine.db, snap)
      requires engine.Agrees(snap) && engine.FlagsAre(flags) && engine.HistoryAgrees(starts)
      requires engine.InputsDecided(before, flags0) && (!engine.reloadInactive ==> ModesAre(before))
      modifies engine, engine.conditions, engine.faults, engine.states
      modifies engine.destinations`tentativeBeamClass, engine.destinations`previousAllowedBeamClass
      modifies engine.destinations`allowedBeamClass
      modifies engine.digitalDevices`value, engine.digitalDevices`ignored
      modifies engine.analogDevices`ignored, engine.analogDevices`ignoredIntegrator
      ensures engine.Limited(snap, numbers) && engine.InputsDecided(snap, flags) && ModesAre(snap)
      ensures engine.HistoryAgrees(starts) && old(engine.history) <= engine.history && !engine.reloadInactive
      ensures FastRulesKept()
      ensures result == 0 ==> forall v | v in engine.analogDevices ::
        v.ignored == old(v.ignored) && v.ignoredIntegrator == old(v.ignoredIntegrator)
    {
      hide AllReady, Wired, ModesAre, Engine.Limited, Engine.HistoryAgrees, Engine.FlagsAre, Engine.InputsDecided;
      hide Engine.Agrees, Engine.Wired, Fits, Engine.AnalogHeld, FaultIgnored, FaultOffline;
      result, numbers := EvaluateRound(before, flags0, snap, starts, flags);
    }

    // One round of the engine thread, from a state that an earlier cycle, on the
    // snapshot `before`, left: it writes the images, or leaves all they depend on.
    method EngineRound(ghost before: Snapshot, ghost flags0: seq<seq<bool>>, ghost snap: Snapshot,
                       ghost starts: seq<int>, ghost flags: seq<seq<bool>>)
      returns (reload: bool, ghost numbers: seq<nat>)
      requires Wired() && forall c | 0 <= c < |cards| :: AllReady(cards[c].analogDevices)
      requires engine.Wired() && Fits(engine.db, before) && Fits(engine.db, snap)
      requires engine.Agrees(snap) && engine.FlagsAre(flags) && engine.HistoryAgrees(starts)
      requires engine.InputsDecided(before, flags0) && (!engine.reloadInactive ==> ModesAre(before))
      requires manager.refreshFirmwareConfiguration || forall c | 0 <= c < |cards| :: CardImage(cards[c])
      modifies engine, engine.conditions, engine.faults, engine.states
      modifies engine.destinations`tentativeBeamClass, engine.destinations`previousAllowedBeamClass
      modifies engine.destinations`allowedBeamClass
      modifies engine.digitalDevices`value, engine.digitalDevices`ignored
      modifies engine.analogDevices`ignored, engine.analogDevices`ignoredIntegrator, Buffers()
      ensures engine.Limited(snap, numbers) && engine.InputsDecided(snap, flags) && ModesAre(snap)
      ensures engine.HistoryAgrees(starts) && old(engine.history) <= engine.history && !engine.reloadInactive
      ensures forall c | 0 <= c < |cards| :: AllReady(cards[c].analogDevices)
      ensures manager.refreshFirmwareConfiguration || forall c | 0 <= c < |cards| :: CardImage(cards[c])
      ensures reload ==> forall c | 0 <= c < |cards| :: CardImage(cards[c])
      ensures !reload ==> forall v | v in engine.analogDevices ::
        v.ignored == old(v.ignored) && v.ignoredIntegrator == old(v.ignoredIntegrator)
    {
      hide AllReady, Wired, CardImage, ModesAre, Engine.Limited, Engine.HistoryAgrees, Engine.FlagsAre;
      hide Engine.InputsDecided;
      hide Engine.Agrees, Engine.Wired, Fits, FastRulesKept;
      var result;
      result, numbers := EvaluateRoundOnly(before, flags0, snap, starts, flags);
      DecidedFlags(snap, flags);
      StillReady();
      reload := result > 0;
      if reload {
        WriteFirmwareConfiguration(false);
      } else if !manager.refreshFirmwareConfiguration {
        ImagesKeptByCycle();
      }
    }

    // ---- Any sequence of rounds and requests ----

    // What holds between two steps: the configuration is in place, an earlier cycle has
    // decided the flags, and either a refresh is pending or the images are exact.
    ghost predicate Configured() {
      && Wired() && BypassesAssigned() && engine.Wired() && manager.Directory()
      && forall k, l | 0 <= k < l < |deviceInputs| :: deviceInputs[k] != deviceInputs[l]
    }

    ghost predicate FlagsSettled(before: Snapshot, flags0: seq<seq<bool>>)
      reads engine`reloadInactive, engine.faults`value, engine.faults`faulted, engine.faults`faultedDisplay
      reads engine.states`faulted, engine.states`ignored, engine.conditions`state
      reads engine.digitalDevices`value, engine.digitalDevices`ignored
      reads engine.analogDevices`ignored, engine.analogDevices`ignoredIntegrator, engine.analogDevices`modeActive
    {
      && engine.Wired() && Fits(engine.db, before) && engine.InputsDecided(before, flags0)
      && (!engine.reloadInactive ==> ModesAre(before))
    }

    lemma FlagsExist(before: Snapshot, flags0: seq<seq<bool>>) returns (flags: seq<seq<bool>>)
      requires FlagsSettled(before, flags0)
      ensures engine.FlagsAre(flags)
    {
      DecidedFlags(before, flags0);
      flags := [];
      for a := 0 to |engine.analogDevices|
        invariant |flags| == a
        invariant forall i | 0 <= i < a :: flags[i] == engine.analogDevices[i].ignoredIntegrator
      {
        flags := flags + [engine.analogDevices[a].ignoredIntegrator];
      }
    }

    ghost predicate Possible(step: Step) {
      match step
      case RequestStep(kind, _, _, until, intIndex, clock) =>
        (kind == BypassAnalog ==> 0 <= intIndex < 4) && (until < 0 ==> until <= clock)
      case UpdateStep(statuses, timeoutStatus) =>
        |statuses| == |timeoutStatus| == |cards| && forall s | s in statuses :: s.Sized()
      case _ => true
    }

    ghost predicate Settled(before: Snapshot, flags0: seq<seq<bool>>, starts: seq<int>)
      reads *
      requires Configured()
    {
      && manager.Valid() && FlagsSettled(before, flags0) && engine.HistoryAgrees(starts)
      && (forall c | 0 <= c < |cards| :: AllReady(cards[c].analogDevices) && CardMode(cards[c]))
      && (manager.refreshFirmwareConfiguration || forall c | 0 <= c < |cards| :: CardImage(cards[c]))
    }

    method SettleRequest(step: Step, ghost before: Snapshot, ghost flags0: seq<seq<bool>>, ghost starts: seq<int>)
      requires Configured() && Settled(before, flags0, starts) && step.RequestStep? && Possible(step)
      modifies manager, manager.masks, manager.bypasses, Buffers()
      ensures Settled(before, flags0, starts)
    {
      hide AllReady, CardMode, CardImage, Wired, BypassesAssigned, Engine.Wired, BypassManager.Directory;
      hide BypassManager.Valid;
      hide Engine.HistoryAgrees, Engine.FlagsAre, Engine.Agrees, Engine.InputsDecided, ModesAre, Fits;
      var target := RequestBypass(step.kind, step.deviceId, step.value, step.until, step.intIndex, step.clock, false);
    }

    method SettleBypasses(clock: int, ghost before: Snapshot, ghost flags0: seq<seq<bool>>, ghost starts: seq<int>)
      requires Configured() && Settled(before, flags0, starts)
      modifies manager, manager.masks, manager.bypasses, Buffers()
      ensures Settled(before, flags0, starts)
      ensures !manager.refreshFirmwareConfiguration
    {
      hide AllReady, CardMode, CardImage, Wired, BypassesAssigned, Engine.Wired, BypassManager.Directory;
      hide BypassManager.Valid;
      hide Engine.HistoryAgrees, Engine.FlagsAre, Engine.Agrees, Engine.InputsDecided, ModesAre, Fits;
      BypassRound(clock);
    }

    // As long as no reload is asked for, an update keeps the modes the last cycle saw.
    method UpdateModes(step: Step, ghost before: Snapshot)
      requires Wired() && engine.Wired() && Fits(engine.db, before) && step.UpdateStep? && Possible(step)
      requires forall c | 0 <= c < |cards| :: CardMode(cards[c])
      modifies engine`reloadInactive, cards`online, cards`active
      modifies DigitalDevices()`faultedOffline, DigitalDevices()`modeActive, Inputs()
      modifies AnalogDevices()`value, AnalogDevices()`previousValue, AnalogDevices()`latchedValue
      modifies AnalogDevices()`faultedOffline, AnalogDevices()`modeActive
      ensures forall c | 0 <= c < |cards| :: CardMode(cards[c])
      ensures !engine.reloadInactive ==> !old(engine.reloadInactive) && (old(ModesAre(before)) ==> ModesAre(before))
    {
      hide CardMode, NotSampled, CardSampled, Flagged, Wired, Engine.Wired, Fits;
      ghost var was := TakeSamples();
      UpdateInputs(step.statuses, step.timeoutStatus, was);
    }

    method SettleInputs(step: Step, ghost before: Snapshot, ghost flags0: seq<seq<bool>>, ghost starts: seq<int>)
      requires Configured() && Settled(before, flags0, starts) && step.UpdateStep? && Possible(step)
      modifies engine`reloadInactive, AnalogDevices(), cards, DigitalDevices(), Inputs()
      ensures Settled(before, flags0, starts)
    {
      hide AllReady, CardMode, CardImage, Wired, BypassesAssigned, Engine.Wired, BypassManager.Directory;
      hide BypassManager.Valid;
      hide Engine.HistoryAgrees, Engine.FlagsAre, Engine.Agrees, Engine.InputsDecided, ModesAre, Fits;
      UpdateModes(step, before);
    }

    // Every destination is allowed its least limit.
    ghost predicate ClassesLimited(snap: Snapshot)
      reads engine`softwareMitigationBuffer, engine.destinations`allowedBeamClass
    {
      engine.Wired() && Fits(engine.db, snap) && exists numbers :: engine.Limited(snap, numbers)
    }

    // What the last cycle read is still so: the inputs, modes, thresholds and permits.
    ghost predicate Current(snap: Snapshot)
      reads engine.digitalDevices`modeActive, engine.digitalDevices`faultedOffline
      reads engine.analogDevices`modeActive, engine.analogDevices`faultedOffline
      reads engine.analogDevices`latchedValue, set v | v in engine.analogDevices :: v.bypassMask
      reads engine.destinations`forceBeamClass, engine.destinations`maxPermit, engine.destinations`softPermit
      reads (set d, k | 0 <= d < |engine.digitalDevices| && 0 <= k < |engine.digitalDevices[d].inputDevices| ::
               engine.digitalDevices[d].inputDevices[k])`latchedValue
      reads set d, k | 0 <= d < |engine.digitalDevices| && 0 <= k < |engine.digitalDevices[d].inputDevices| ::
              engine.digitalDevices[d].inputDevices[k].bypass
    {
      && engine.Wired() && Fits(engine.db, snap)
      && engine.ModesAgree(snap) && engine.ThresholdsAgree(snap) && engine.PermitsAgree(snap)
      && forall d | 0 <= d < |engine.digitalDevices| :: engine.InputsAgree(d, snap)
    }

    lemma AgreedIsCurrent(snap: Snapshot)
      requires engine.Wired() && Fits(engine.db, snap) && engine.Agrees(snap)
      ensures Current(snap)
    {
      hide Engine.ModesAgree, Engine.ThresholdsAgree, Engine.PermitsAgree, Engine.InputsAgree;
    }

    method SettleCycle(ghost before: Snapshot, ghost flags0: seq<seq<bool>>, ghost starts: seq<int>)
      returns (reload: bool, ghost after: Snapshot, ghost flags: seq<seq<bool>>)
      requires Configured() && Settled(before, flags0, starts)
      modifies engine, engine.conditions, engine.faults, engine.states
      modifies engine.destinations`tentativeBeamClass, engine.destinations`previousAllowedBeamClass
      modifies engine.destinations`allowedBeamClass
      modifies engine.digitalDevices, engine.analogDevices, Buffers()
      ensures Settled(after, flags, starts) && old(engine.history) <= engine.history
      ensures ClassesLimited(after) && Current(after)
    {
      hide AllReady, CardMode, CardImage, Wired, BypassesAssigned, Engine.Wired, BypassManager.Directory;
      hide BypassManager.Valid;
      hide Engine.HistoryAgrees, Engine.FlagsAre, Engine.Agrees, Engine.InputsDecided, ModesAre, Fits;
      hide Current;
      after := SnapshotExists(engine);
      AgreedIsCurrent(after);
      flags := FlagsExist(before, flags0);
      ghost var numbers;
      reload, numbers := EngineRound(before, flags0, after, starts, flags);
    }

    // Enabling or disabling a card shows at the next update only.
    method SettleEnable(appId: nat, enable: bool,
                        ghost before: Snapshot, ghost flags0: seq<seq<bool>>, ghost starts: seq<int>)
      requires Configured() && Settled(before, flags0, starts)
      modifies firmware
      ensures Settled(before, flags0, starts)
    {
      hide AllReady, CardMode, CardImage, Wired, BypassesAssigned, BypassManager.Directory, BypassManager.Valid;
      hide Engine.HistoryAgrees, Engine.FlagsAre, Engine.Agrees, Engine.InputsDecided, ModesAre, Fits;
      firmware.SetAppTimeoutEnable(appId, enable);
    }

    // unlatchAll: the flags a cycle decides are those of the last cycle until the next one.
    method SettleUnlatch(ghost before: Snapshot, ghost flags0: seq<seq<bool>>, ghost starts: seq<int>)
      requires Configured() && Settled(before, flags0, starts)
      modifies engine.analogDevices`latchedValue, deviceInputs
      ensures Settled(before, flags0, starts)
      ensures forall v | v in engine.analogDevices :: v.State() == AnalogStep(old(v.State()), AnalogUnlatch)
      ensures forall x | x in deviceInputs ::
        x.State() == InputStep(old(x.State()), x.faultValue, x.autoReset, InputUnlatch)
      ensures forall v | v in engine.analogDevices :: v.latchedValue == v.value == old(v.value)
      ensures forall x | x in deviceInputs :: x.latchedValue == x.value == old(x.value)
    {
      hide AllReady, CardMode, CardImage, Wired, BypassesAssigned, BypassManager.Directory, BypassManager.Valid;
      hide Engine.HistoryAgrees, Engine.FlagsAre, Engine.Agrees, Engine.InputsDecided, ModesAre, Fits;
      UnlatchAll(engine.analogDevices, deviceInputs);
    }

    method SettlePermit(permit: Permit, destinationId: nat, classId: nat,
                        ghost before: Snapshot, ghost flags0: seq<seq<bool>>, ghost starts: seq<int>)
      requires Configured() && Settled(before, flags0, starts)
      modifies engine.destinations`forceBeamClass, engine.destinations`softPermit, engine.destinations`maxPermit
      ensures Settled(before, flags0, starts)
      ensures forall d | d in engine.destinations ::
        && d.forceBeamClass == (if permit == Force && d.id == destinationId then Permits.Selected(beamClasses, classId)
                                else old(d.forceBeamClass))
        && d.softPermit == (if permit == Soft && d.id == destinationId then Permits.Selected(beamClasses, classId)
                            else old(d.softPermit))
        && d.maxPermit == (if permit == Max && d.name != "LASER" then Permits.Selected(beamClasses, classId)
                           else old(d.maxPermit))
    {
      hide AllReady, CardMode, CardImage, Wired, BypassesAssigned, BypassManager.Directory, BypassManager.Valid;
      hide Engine.HistoryAgrees, Engine.FlagsAre, Engine.Agrees, Engine.InputsDecided, ModesAre, Fits;
      match permit
      case Force => Permits.ForceBeamDestination(engine.destinations, beamClasses, destinationId, classId);
      case Soft => Permits.SoftPermitDestination(engine.destinations, beamClasses, destinationId, classId);
      case Max => Permits.SetMaxPermit(engine.destinations, beamClasses, classId);
    }

    // While the permits stay as the last cycle read them, no class is above one of them.
    lemma PermitsInForce(snap: Snapshot, d: BeamDestination)
      requires engine.Wired() && ClassesLimited(snap) && Current(snap) && d in engine.destinations
      ensures d.forceBeamClass.Some? ==> d.allowedBeamClass.number <= d.forceBeamClass.value.number
      ensures d.softPermit.Some? ==> d.allowedBeamClass.number <= d.softPermit.value.number
      ensures d.maxPermit.Some? ==> d.allowedBeamClass.number <= d.maxPermit.value.number
    {
      hide Engine.ModesAgree, Engine.ThresholdsAgree, Engine.InputsAgree, LeastLimit;
      var numbers :| engine.Limited(snap, numbers);
      var i :| 0 <= i < |engine.destinations| && engine.destinations[i] == d;
      assert LeastLimit(engine.db, snap, i, numbers[i]);
      Permits.EachPermitCaps(engine.db, snap, i, numbers[i]);
    }

    // A known class that is forced, permitted or set as the maximum caps the classes of the
    // next cycle: of one destination, or of all but the laser.
    method PermitRound(permit: Permit, destinationId: nat, classId: nat,
                       ghost before: Snapshot, ghost flags0: seq<seq<bool>>, ghost starts: seq<int>)
      returns (reload: bool, ghost after: Snapshot, ghost flags: seq<seq<bool>>)
      requires Configured() && Settled(before, flags0, starts)
      modifies engine, engine.conditions, engine.destinations, engine.faults, engine.states
      modifies engine.digitalDevices, engine.analogDevices, Buffers()
      ensures Settled(after, flags, starts)
      ensures classId != 99 && classId in beamClasses ==> forall d | d in engine.destinations ::
        (if permit == Max then d.name != "LASER" else d.id == destinationId) ==>
          d.allowedBeamClass.number <= beamClasses[classId].number
    {
      hide Settled, ClassesLimited, Current, Wired, BypassesAssigned, BypassManager.Directory, LeastLimit;
      SettlePermit(permit, destinationId, classId, before, flags0, starts);
      reload, after, flags := SettleCycle(before, flags0, starts);
      forall d | d in engine.destinations {
        PermitsInForce(after, d);
      }
    }

    method TakeStep(step: Step, ghost before: Snapshot, ghost flags0: seq<seq<bool>>, ghost starts: seq<int>)
      returns (ghost after: Snapshot, ghost flags: seq<seq<bool>>)
      requires Configured() && Settled(before, flags0, starts) && Possible(step)
      modifies manager, manager.masks, manager.bypasses, engine, engine.conditions, engine.destinations, engine.faults
      modifies engine.states, engine.digitalDevices, engine.analogDevices, Buffers(), cards, DigitalDevices(), Inputs()
      modifies deviceInputs, firmware, AnalogDevices()
      ensures Settled(after, flags, starts) && old(engine.history) <= engine.history
      ensures step.BypassStep? ==> !manager.refreshFirmwareConfiguration
      ensures step.EngineStep? ==> ClassesLimited(after) && Current(after)
      ensures old(ClassesLimited(before)) ==> ClassesLimited(after)
    {
      hide Configured, Settled, ClassesLimited, Current;
      after, flags := before, flags0;
      match step
      case RequestStep(_, _, _, _, _, _) => SettleRequest(step, before, flags0, starts);
      case BypassStep(clock) => SettleBypasses(clock, before, flags0, starts);
      case UpdateStep(_, _) => SettleInputs(step, before, flags0, starts);
      case EnableStep(appId, enable) => SettleEnable(appId, enable, before, flags0, starts);
      case UnlatchStep => SettleUnlatch(before, flags0, starts);
      case PermitStep(permit, destinationId, classId) =>
        SettlePermit(permit, destinationId, classId, before, flags0, starts);
      case EngineStep =>
        var reload;
        reload, after, flags := SettleCycle(before, flags0, starts);
    }

    // Whatever the order of requests, expiry rounds, updates, unlatches, permits, enabled
    // cards and cycles, a refresh is pending or every card's buffer is the exact image of the
    // current state; after a round of the bypass thread it is.  The classes allowed are the
    // least limits of the last cycle, and right after it those of the current inputs.
    method TakeSteps(steps: seq<Step>, ghost before: Snapshot, ghost flags0: seq<seq<bool>>, ghost starts: seq<int>)
      returns (ghost after: Snapshot, ghost flags: seq<seq<bool>>)
      requires Configured() && Settled(before, flags0, starts) && forall step | step in steps :: Possible(step)
      modifies manager, manager.masks, manager.bypasses, engine, engine.conditions, engine.destinations, engine.faults
      modifies engine.states, engine.digitalDevices, engine.analogDevices, Buffers(), cards, DigitalDevices(), Inputs()
      modifies deviceInputs, firmware, AnalogDevices()
      ensures Settled(after, flags, starts) && old(engine.history) <= engine.history
      ensures steps != [] && steps[|steps| - 1].BypassStep? ==> forall c | 0 <= c < |cards| :: CardImage(cards[c])
      ensures old(ClassesLimited(before)) || (exists step :: step in steps && step.EngineStep?) ==>
        ClassesLimited(after)
      ensures steps != [] && steps[|steps| - 1].EngineStep? ==> Current(after)
    {
      hide Configured, Settled, CardImage, ClassesLimited, Current;
      after, flags := before, flags0;
      for n := 0 to |steps|
        invariant Settled(after, flags, starts) && old(engine.history) <= engine.history
        invariant n > 0 && steps[n - 1].BypassStep? ==> !manager.refreshFirmwareConfiguration
        invariant old(ClassesLimited(before)) || (exists m :: 0 <= m < n && steps[m].EngineStep?) ==>
          ClassesLimited(after)
        invariant n > 0 && steps[n - 1].EngineStep? ==> Current(after)
      {
        after, flags := TakeStep(steps[n], after, flags, starts);
      }
      ImagesExact(after, flags, starts);
    }

    lemma ImagesExact(before: Snapshot, flags0: seq<seq<bool>>, starts: seq<int>)
      requires Configured() && Settled(before, flags0, starts)
      ensures manager.refreshFirmwareConfiguration || forall c | 0 <= c < |cards| :: CardImage(cards[c])
    {
    }
  }

  // The latches before an update
  datatype Samples = Samples(inputs: map<DeviceInput, Latch>, devices: map<AnalogDevice, Latch>)

  datatype Step =
    | RequestStep(kind: BypassType, deviceId: nat, value: Word, until: int, intIndex: int, clock: int)
    | BypassStep(clock: int)
    | UpdateStep(statuses: seq<CardStatus>, timeoutStatus: seq<bool>)
    | EnableStep(appId: nat, enable: bool)
    | UnlatchStep
    | PermitStep(permit: Permit, destinationId: nat, classId: nat)
    | EngineStep

  datatype Permit = Force | Soft | Max
}
