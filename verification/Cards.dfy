// DbApplicationCard of src/central_node_inputs.cc: the inputs of a card, and the
// configuration the card's part of the firmware is given.
module Cards {
  import opened Words
  import opened Bypass
  import opened Latching
  import opened Layout
  import opened Tables
  import opened Devices

  // ---- What the configuration buffer is to hold, bit by bit ----

  // Bit j of the destination mask of an integrator: none while the bypass is valid, or
  // the integrator or the device is ignored
  predicate MaskBit(device: AnalogDevice, i: nat, j: nat)
    requires device.Compiled() && |device.bypass| == 4 == |device.ignoredIntegrator| && i < 4
    reads device`fastDestinationMask, device`fastPowerClass, device`fastPowerClassInit
    reads device`ignoredIntegrator, device`ignored
    reads device.bypass`status
  {
    && j in device.fastDestinationMask[i]
    && device.bypass[i].status != BypassValid && !device.ignoredIntegrator[i] && !device.ignored
  }

  ghost predicate Ready(device: AnalogDevice)
    reads device`fastDestinationMask, device`fastPowerClass, device`fastPowerClassInit, device`ignoredIntegrator
  {
    device.Compiled() && |device.bypass| == 4 == |device.ignoredIntegrator| && device.channel.Fits()
  }

  // Bit p lies among the class numbers, or the destination masks, of the device.
  predicate OwnsClassBit(c: AnalogChannel, p: nat) {
    p < MASK_BASE && c.Owns(p / 32)
  }

  predicate OwnsMaskBit(c: AnalogChannel, p: nat) {
    MASK_BASE <= p < 1152 && c.Owns((p - MASK_BASE) / 16)
  }

  predicate ClassBit(device: AnalogDevice, i: nat, p: nat)
    requires device.Compiled() && i < 4
    reads device`fastDestinationMask, device`fastPowerClass, device`fastPowerClassInit
  {
    NibbleBit(device.fastPowerClass[8 * i + p % 32 / 4], p % 4)
  }

  predicate AnalogBit(device: AnalogDevice, p: nat)
    requires Ready(device)
    reads device`fastDestinationMask, device`fastPowerClass, device`fastPowerClassInit
    reads device`ignoredIntegrator, device`ignored
    reads device.bypass`status
  {
    if OwnsClassBit(device.channel, p) then
      ClassBit(device, device.channel.Integrator(p / 32), p)
    else if OwnsMaskBit(device.channel, p) then
      MaskBit(device, device.channel.Integrator((p - MASK_BASE) / 16), (p - MASK_BASE) % 16)
    else false
  }

  predicate OwnsBit(c: AnalogChannel, p: nat) {
    OwnsClassBit(c, p) || OwnsMaskBit(c, p)
  }

  // What the buffer holds when the first n devices have been written
  ghost predicate AllReady(devices: seq<AnalogDevice>)
    reads devices`fastDestinationMask, devices`fastPowerClass, devices`fastPowerClassInit, devices`ignoredIntegrator
  {
    forall a | 0 <= a < |devices| :: Ready(devices[a])
  }

  predicate AnalogImageBit(devices: seq<AnalogDevice>, n: nat, p: nat)
    requires n <= |devices| && AllReady(devices)
    reads devices`fastDestinationMask, devices`fastPowerClass, devices`fastPowerClassInit
    reads devices`ignoredIntegrator, devices`ignored
    reads (set a, i | 0 <= a < |devices| && 0 <= i < |devices[a].bypass| :: devices[a].bypass[i])`status
  {
    exists a :: 0 <= a < n && devices[a].evaluation == FastEvaluation && AnalogBit(devices[a], p)
  }

  // Devices of one card: same number of channels, each channel used once
  ghost predicate SharedCard(devices: seq<AnalogDevice>) {
    && (forall a, b | 0 <= a < |devices| && 0 <= b < |devices| ::
          devices[a].channel.numChannelsCard == devices[b].channel.numChannelsCard)
    && (forall a, b | 0 <= a < b < |devices| :: devices[a].channel.number != devices[b].channel.number)
  }

  // A bit of one device is no bit of another.
  lemma OwnersApart(devices: seq<AnalogDevice>, a: nat, b: nat, p: nat)
    requires SharedCard(devices) && a < |devices| && b < |devices| && a != b
    ensures !(OwnsBit(devices[a].channel, p) && OwnsBit(devices[b].channel, p))
  {
    assert devices[a].channel.number != devices[b].channel.number;
  }

  // Where integrator i has its bits
  lemma ClassBitsAt(c: AnalogChannel, i: nat, p: nat)
    requires c.Fits() && i < c.numIntegrators
    ensures c.Slot(i) < 24
    ensures 32 * c.Slot(i) <= p < 32 * c.Slot(i) + 32 <==> OwnsClassBit(c, p) && c.Integrator(p / 32) == i
  {
    SlotOwned(c, i);
    if OwnsClassBit(c, p) && c.Integrator(p / 32) == i {
      OwnedSlot(c, p / 32);
    }
  }

  lemma MaskBitsAt(c: AnalogChannel, i: nat, p: nat)
    requires c.Fits() && i < c.numIntegrators && MASK_BASE <= p
    ensures c.Slot(i) < 24
    ensures 16 * c.Slot(i) <= p - MASK_BASE < 16 * c.Slot(i) + 16 <==>
      OwnsMaskBit(c, p) && c.Integrator((p - MASK_BASE) / 16) == i
    ensures 16 * c.Slot(i) <= p - MASK_BASE < 16 * c.Slot(i) + 16 ==>
      (p - MASK_BASE) % 16 == p - MASK_BASE - 16 * c.Slot(i)
  {
    SlotOwned(c, i);
    if OwnsMaskBit(c, p) && c.Integrator((p - MASK_BASE) / 16) == i {
      OwnedSlot(c, (p - MASK_BASE) / 16);
    }
  }

  // The offsets as the loops compute them
  lemma WriteOffsets(c: AnalogChannel, i: nat)
    ensures c.number * THRESHOLDS * CLASS_BITS + i * c.numChannelsCard * THRESHOLDS * CLASS_BITS == 32 * c.Slot(i)
    ensures MASK_BASE + c.number * MASK_BITS + i * c.numChannelsCard * MASK_BITS == MASK_BASE + 16 * c.Slot(i)
  {
  }

  // The buffer holds the image of the FAST devices.
  ghost predicate AnalogImage(buffer: seq<bool>, devices: seq<AnalogDevice>)
    reads devices`fastDestinationMask, devices`fastPowerClass, devices`fastPowerClassInit
    reads devices`ignoredIntegrator, devices`ignored
    reads (set a, i | 0 <= a < |devices| && 0 <= i < |devices[a].bypass| :: devices[a].bypass[i])`status
  {
    && |buffer| == CONFIG_BITS && AllReady(devices)
    && forall p | 0 <= p < CONFIG_BITS :: buffer[p] == AnalogImageBit(devices, |devices|, p)
  }

  // Everything the image reads of a device
  twostate predicate SameForImage(device: AnalogDevice)
    reads device`fastDestinationMask, device`fastPowerClass, device`fastPowerClassInit
    reads device`ignoredIntegrator, device`ignored
    reads device.bypass`status
  {
    && device.fastDestinationMask == old(device.fastDestinationMask)
    && device.fastPowerClass == old(device.fastPowerClass)
    && device.fastPowerClassInit == old(device.fastPowerClassInit)
    && device.ignored == old(device.ignored) && device.ignoredIntegrator == old(device.ignoredIntegrator)
    && forall b | b in device.bypass :: b.status == old(b.status)
  }

  // While that stays the same for the FAST devices, the buffer keeps holding the image.
  twostate lemma AnalogImageKept(new buffer: seq<bool>, devices: seq<AnalogDevice>)
    requires old(AnalogImage(buffer, devices))
    requires AllReady(devices)
    requires forall a | 0 <= a < |devices| && devices[a].evaluation == FastEvaluation :: SameForImage(devices[a])
    ensures AnalogImage(buffer, devices)
  {
    BitsKept(devices);
  }

  twostate lemma BitsKept(devices: seq<AnalogDevice>)
    requires old(AllReady(devices)) && AllReady(devices)
    requires forall a | 0 <= a < |devices| && devices[a].evaluation == FastEvaluation :: SameForImage(devices[a])
    ensures forall p: nat :: AnalogImageBit(devices, |devices|, p) == old(AnalogImageBit(devices, |devices|, p))
  {
    forall a | 0 <= a < |devices| && devices[a].evaluation == FastEvaluation
      ensures forall p: nat :: AnalogBit(devices[a], p) == old(AnalogBit(devices[a], p))
    {
      BitKept(devices[a]);
    }
  }

  twostate lemma BitKept(device: AnalogDevice)
    requires Ready(device) && old(Ready(device)) && SameForImage(device)
    ensures forall p: nat :: AnalogBit(device, p) == old(AnalogBit(device, p))
  {
    hide NibbleBit;
  }

  // The bit of a FAST device is its own in the image of all of them.
  lemma ImageOfOwner(devices: seq<AnalogDevice>, n: nat, a: nat, p: nat)
    requires AllReady(devices) && SharedCard(devices)
    requires a < n <= |devices| && devices[a].evaluation == FastEvaluation && OwnsBit(devices[a].channel, p)
    ensures AnalogImageBit(devices, n, p) == AnalogBit(devices[a], p)
  {
    hide OwnsClassBit, OwnsMaskBit, ClassBit, MaskBit;
    forall b: nat | b < n && AnalogBit(devices[b], p) ensures b == a {
      if b != a {
        OwnersApart(devices, a, b, p);
      }
    }
  }

  // The destination mask an integrator is to have in the firmware
  ghost function MaskInForce(device: AnalogDevice, i: nat): set<nat>
    requires Ready(device) && i < 4
    reads device`fastDestinationMask, device`fastPowerClass, device`fastPowerClassInit
    reads device`ignoredIntegrator, device`ignored
    reads device.bypass`status
  {
    if device.bypass[i].status == BypassValid || device.ignoredIntegrator[i] || device.ignored then {}
    else device.fastDestinationMask[i] * Sixteen()
  }

  // Decoding the image by the layout gives back, for every FAST device of the card,
  // the class of each threshold ...
  lemma AnalogClassRoundTrip(buffer: seq<bool>, devices: seq<AnalogDevice>, a: nat, i: nat, j: nat)
    requires AnalogImage(buffer, devices) && SharedCard(devices) && a < |devices|
    requires devices[a].evaluation == FastEvaluation && i < devices[a].channel.numIntegrators && j < 8
    ensures devices[a].channel.Slot(i) < 24
    ensures ReadNibble(buffer, 32 * devices[a].channel.Slot(i) + 4 * j) == devices[a].fastPowerClass[8 * i + j] % 16
  {
    hide NibbleBit, FromBits, AnalogImageBit, OwnsClassBit, Layout.AnalogChannel.Slot, Layout.AnalogChannel.Integrator;
    ClassBitsAt(devices[a].channel, i, 0);
    ClassBitRead(buffer, devices, a, i, j, 0);
    ClassBitRead(buffer, devices, a, i, j, 1);
    ClassBitRead(buffer, devices, a, i, j, 2);
    ClassBitRead(buffer, devices, a, i, j, 3);
    LowNibble(devices[a].fastPowerClass[8 * i + j]);
  }

  lemma ClassBitRead(buffer: seq<bool>, devices: seq<AnalogDevice>, a: nat, i: nat, j: nat, k: nat)
    requires AnalogImage(buffer, devices) && SharedCard(devices) && a < |devices|
    requires devices[a].evaluation == FastEvaluation
    requires i < devices[a].channel.numIntegrators && j < 8 && k < 4 && devices[a].channel.Slot(i) < 24
    ensures buffer[32 * devices[a].channel.Slot(i) + 4 * j + k] == NibbleBit(devices[a].fastPowerClass[8 * i + j], k)
  {
    hide ClassBit, NibbleBit, OwnsClassBit, AnalogImageBit;
    var c := devices[a].channel;
    var p := 32 * c.Slot(i) + 4 * j + k;
    ClassBitsAt(c, i, p);
    ImageOfOwner(devices, |devices|, a, p);
    ClassBitPlace(devices[a], i, c.Slot(i), j, p);
    assert p % 4 == k;
  }

  // ... and the destination mask of each integrator, zero exactly when the integrator
  // is bypassed or ignored.
  lemma AnalogMaskRoundTrip(buffer: seq<bool>, devices: seq<AnalogDevice>, a: nat, i: nat)
    requires AnalogImage(buffer, devices) && SharedCard(devices) && a < |devices|
    requires devices[a].evaluation == FastEvaluation && i < devices[a].channel.numIntegrators
    ensures devices[a].channel.Slot(i) < 24
    ensures ReadMask(buffer, MASK_BASE + 16 * devices[a].channel.Slot(i)) == MaskInForce(devices[a], i)
  {
    MaskBitsAt(devices[a].channel, i, MASK_BASE);
    hide AnalogImage;
    var r := ReadMask(buffer, MASK_BASE + 16 * devices[a].channel.Slot(i));
    forall j: nat ensures j in r <==> j in MaskInForce(devices[a], i) {
      if j < 16 {
        MaskBitRead(buffer, devices, a, i, j);
      }
    }
  }

  lemma MaskBitRead(buffer: seq<bool>, devices: seq<AnalogDevice>, a: nat, i: nat, j: nat)
    requires AnalogImage(buffer, devices) && SharedCard(devices) && a < |devices|
    requires devices[a].evaluation == FastEvaluation
    requires i < devices[a].channel.numIntegrators && j < 16 && devices[a].channel.Slot(i) < 24
    ensures buffer[MASK_BASE + 16 * devices[a].channel.Slot(i) + j] == MaskBit(devices[a], i, j)
  {
    hide OwnsMaskBit, AnalogImageBit, MaskBit;
    var c := devices[a].channel;
    var p := MASK_BASE + 16 * c.Slot(i) + j;
    MaskBitsAt(c, i, p);
    ImageOfOwner(devices, |devices|, a, p);
    assert (p - MASK_BASE) % 16 == j;
  }

  // Every bit that no FAST device owns is zero.
  lemma AnalogRestIsZero(buffer: seq<bool>, devices: seq<AnalogDevice>, p: nat)
    requires AnalogImage(buffer, devices) && p < CONFIG_BITS
    requires forall a | 0 <= a < |devices| && devices[a].evaluation == FastEvaluation :: !OwnsBit(devices[a].channel, p)
    ensures !buffer[p]
  {
  }

  lemma ClassBitPlace(device: AnalogDevice, i: nat, slot: nat, j: nat, p: nat)
    requires device.Compiled() && i < 4 && j < 8 && 32 * slot + 4 * j <= p < 32 * slot + 4 * j + 4
    ensures ClassBit(device, i, p) == NibbleBit(device.fastPowerClass[j + i * THRESHOLDS], p % 4)
  {
    hide NibbleBit;
    assert p % 32 == p - 32 * slot;
    assert p % 32 / 4 == j;
  }

  predicate FastIntegrator(devices: seq<AnalogDevice>, a: int, i: int) {
    && 0 <= a < |devices| && devices[a].evaluation == FastEvaluation
    && 0 <= i < devices[a].channel.numIntegrators
  }

  // With the classes as they were, an image written earlier is still exact if and only if
  // every mask in force is as it was then.
  twostate lemma ImageFollowsMasks(new buffer: seq<bool>, devices: seq<AnalogDevice>)
    requires old(AnalogImage(buffer, devices)) && AllReady(devices) && SharedCard(devices)
    requires forall v | v in devices :: v.fastPowerClass == old(v.fastPowerClass)
    ensures AnalogImage(buffer, devices) <==>
      forall a, i | FastIntegrator(devices, a, i) ::
        MaskInForce(devices[a], i) == old(MaskInForce(devices[a], i))
  {
    hide AnalogBit;
    if AnalogImage(buffer, devices) {
      forall a, i | FastIntegrator(devices, a, i)
        ensures MaskInForce(devices[a], i) == old(MaskInForce(devices[a], i))
      {
        MaskIsAsWritten(buffer, devices, devices[a], a, i);
      }
    }
    if forall a, i | FastIntegrator(devices, a, i) ::
        MaskInForce(devices[a], i) == old(MaskInForce(devices[a], i)) {
      forall a | 0 <= a < |devices| && devices[a].evaluation == FastEvaluation
        ensures forall p: nat :: AnalogBit(devices[a], p) == old(AnalogBit(devices[a], p))
      {
        assert forall i | 0 <= i < devices[a].channel.numIntegrators :: FastIntegrator(devices, a, i);
        BitFollowsMask(devices[a]);
      }
    }
  }

  // A buffer that is the image now and was it then holds one mask for an integrator.
  twostate lemma MaskIsAsWritten(new buffer: seq<bool>, devices: seq<AnalogDevice>, new device: AnalogDevice,
                                 new a: nat, new i: nat)
    requires old(AnalogImage(buffer, devices)) && AnalogImage(buffer, devices) && SharedCard(devices)
    requires a < |devices| && device == devices[a]
    requires device.evaluation == FastEvaluation && i < device.channel.numIntegrators
    ensures MaskInForce(device, i) == old(MaskInForce(devices[a], i))
  {
    hide OwnsMaskBit, AnalogImageBit, MaskBit;
    var c := device.channel;
    forall j: nat | j < 16 ensures MaskBit(device, i, j) == old(MaskBit(devices[a], i, j)) {
      var p := MASK_BASE + 16 * c.Slot(i) + j;
      MaskBitsAt(c, i, p);
      ImageOfOwner(devices, |devices|, a, p);
      ImageWasOfOwner(devices, a, p);
      assert (p - MASK_BASE) % 16 == j;
    }
    SameMask(device, i);
  }

  twostate lemma SameMask(device: AnalogDevice, new i: nat)
    requires Ready(device) && old(Ready(device)) && i < 4
    requires forall j: nat | j < 16 :: MaskBit(device, i, j) == old(MaskBit(device, i, j))
    ensures MaskInForce(device, i) == old(MaskInForce(device, i))
  {
    forall j: nat ensures j in MaskInForce(device, i) <==> j in old(MaskInForce(device, i)) {
      if j < 16 {
        assert MaskBit(device, i, j) == old(MaskBit(device, i, j));
      }
    }
  }

  twostate lemma ImageWasOfOwner(devices: seq<AnalogDevice>, new a: nat, new p: nat)
    requires old(AllReady(devices)) && SharedCard(devices)
    requires a < |devices| && devices[a].evaluation == FastEvaluation && OwnsBit(devices[a].channel, p)
    ensures old(AnalogImageBit(devices, |devices|, p)) == old(AnalogBit(devices[a], p))
  {
    hide OwnsClassBit, OwnsMaskBit, ClassBit, MaskBit;
    forall b: nat | b < |devices| && old(AnalogBit(devices[b], p)) ensures b == a {
      if b != a {
        OwnersApart(devices, a, b, p);
      }
    }
  }

  twostate lemma BitFollowsMask(device: AnalogDevice)
    requires Ready(device) && old(Ready(device)) && device.fastPowerClass == old(device.fastPowerClass)
    requires forall i | 0 <= i < device.channel.numIntegrators :: MaskInForce(device, i) == old(MaskInForce(device, i))
    ensures forall p: nat :: AnalogBit(device, p) == old(AnalogBit(device, p))
  {
    hide NibbleBit;
    forall p: nat | OwnsMaskBit(device.channel, p)
      ensures
        var i, j := device.channel.Integrator((p - MASK_BASE) / 16), (p - MASK_BASE) % 16;
        i < 4 && MaskBit(device, i, j) == old(MaskBit(device, i, j))
    {
      var i, j := device.channel.Integrator((p - MASK_BASE) / 16), (p - MASK_BASE) % 16;
      assert MaskBit(device, i, j) <==> j in MaskInForce(device, i);
      assert old(MaskBit(device, i, j) <==> j in MaskInForce(device, i));
    }
  }

  // ---- Digital cards: one record of 21 bits per channel ----

  // A FAST digital device has one input; its channel is the place of the record.
  predicate HasRecord(device: DigitalDevice) {
    device.evaluation == FastEvaluation && |device.inputDevices| == 1
  }

  predicate DigitalBit(device: DigitalDevice, q: nat)
    requires |device.inputDevices| == 1
    reads device`fastDestinationMask, device`fastPowerClass, device`fastExpectedState
    reads (set k | k in device.inputDevices :: k.bypass)`status
  {
    if q < DIGITAL_MASK then NibbleBit(device.fastPowerClass, q)
    else if q < DIGITAL_STATE then
      q - DIGITAL_MASK in device.fastDestinationMask && device.inputDevices[0].bypass.status != BypassValid
    else device.fastExpectedState
  }

  predicate DigitalImageBit(devices: seq<DigitalDevice>, n: nat, p: nat)
    requires n <= |devices|
    reads devices`fastDestinationMask, devices`fastPowerClass, devices`fastExpectedState
    reads (set d, k | 0 <= d < |devices| && 0 <= k < |devices[d].inputDevices| ::
             devices[d].inputDevices[k].bypass)`status
  {
    exists d :: 0 <= d < n && HasRecord(devices[d]) && p / DIGITAL_RECORD == devices[d].inputDevices[0].channel
      && DigitalBit(devices[d], p % DIGITAL_RECORD)
  }

  // Channels exist on the card, and no two records share one.
  ghost predicate SeparateRecords(devices: seq<DigitalDevice>) {
    && (forall d | 0 <= d < |devices| && HasRecord(devices[d]) :: devices[d].inputDevices[0].channel < DIGITAL_CHANNELS)
    && (forall d, e | 0 <= d < e < |devices| && HasRecord(devices[d]) && HasRecord(devices[e]) ::
          devices[d].inputDevices[0].channel != devices[e].inputDevices[0].channel)
  }

  ghost predicate DigitalImage(buffer: seq<bool>, devices: seq<DigitalDevice>)
    reads devices`fastDestinationMask, devices`fastPowerClass, devices`fastExpectedState
    reads (set d, k | 0 <= d < |devices| && 0 <= k < |devices[d].inputDevices| ::
             devices[d].inputDevices[k].bypass)`status
  {
    |buffer| == CONFIG_BITS && forall p | 0 <= p < CONFIG_BITS :: buffer[p] == DigitalImageBit(devices, |devices|, p)
  }

  twostate lemma DigitalImageKept(new buffer: seq<bool>, devices: seq<DigitalDevice>)
    requires old(DigitalImage(buffer, devices))
    requires forall d | 0 <= d < |devices| ::
      && devices[d].fastDestinationMask == old(devices[d].fastDestinationMask)
      && devices[d].fastPowerClass == old(devices[d].fastPowerClass)
      && devices[d].fastExpectedState == old(devices[d].fastExpectedState)
    requires forall d | 0 <= d < |devices| && HasRecord(devices[d]) ::
      devices[d].inputDevices[0].bypass.status == old(devices[d].inputDevices[0].bypass.status)
    ensures DigitalImage(buffer, devices)
  {
    hide NibbleBit;
    forall d, q | 0 <= d < |devices| && 0 <= q && HasRecord(devices[d])
      ensures DigitalBit(devices[d], q) == old(DigitalBit(devices[d], q))
    {
    }
  }

  lemma RecordBitRead(buffer: seq<bool>, devices: seq<DigitalDevice>, d: nat, q: nat)
    requires DigitalImage(buffer, devices) && SeparateRecords(devices) && d < |devices| && HasRecord(devices[d])
    requires q < DIGITAL_RECORD
    ensures buffer[DIGITAL_RECORD * devices[d].inputDevices[0].channel + q] == DigitalBit(devices[d], q)
  {
    hide DigitalBit;
    var p := DIGITAL_RECORD * devices[d].inputDevices[0].channel + q;
    assert p / DIGITAL_RECORD == devices[d].inputDevices[0].channel && p % DIGITAL_RECORD == q;
  }

  ghost function RecordMask(device: DigitalDevice): set<nat>
    requires |device.inputDevices| == 1
    reads device`fastDestinationMask, device`fastPowerClass, device`fastExpectedState
    reads (set k | k in device.inputDevices :: k.bypass)`status
  {
    if device.inputDevices[0].bypass.status == BypassValid then {} else device.fastDestinationMask * Sixteen()
  }

  // Decoding the records gives back class, mask and expected state of every device.
  lemma DigitalRoundTrip(buffer: seq<bool>, devices: seq<DigitalDevice>, d: nat)
    requires DigitalImage(buffer, devices) && SeparateRecords(devices) && d < |devices| && HasRecord(devices[d])
    ensures
      var at := DIGITAL_RECORD * devices[d].inputDevices[0].channel;
      && ReadNibble(buffer, at) == devices[d].fastPowerClass % 16
      && ReadMask(buffer, at + DIGITAL_MASK) == RecordMask(devices[d])
      && buffer[at + DIGITAL_STATE] == devices[d].fastExpectedState
  {
    hide NibbleBit, FromBits, DigitalImageBit;
    var at := DIGITAL_RECORD * devices[d].inputDevices[0].channel;
    RecordBitRead(buffer, devices, d, 0);
    RecordBitRead(buffer, devices, d, 1);
    RecordBitRead(buffer, devices, d, 2);
    RecordBitRead(buffer, devices, d, 3);
    LowNibble(devices[d].fastPowerClass);
    RecordBitRead(buffer, devices, d, DIGITAL_STATE);
    var r := ReadMask(buffer, at + DIGITAL_MASK);
    forall j: nat ensures j in r <==> j in RecordMask(devices[d]) {
      if j < 16 {
        RecordBitRead(buffer, devices, d, DIGITAL_MASK + j);
      }
    }
  }

  lemma DigitalRestIsZero(buffer: seq<bool>, devices: seq<DigitalDevice>, p: nat)
    requires DigitalImage(buffer, devices) && p < CONFIG_BITS
    requires forall d | 0 <= d < |devices| && HasRecord(devices[d]) ::
      p / DIGITAL_RECORD != devices[d].inputDevices[0].channel
    ensures !buffer[p]
  {
  }

  // What one update does to an input and to an analog device
  twostate predicate Sampled(input: DeviceInput, status: CardStatus)
    requires status.Sized() && input.channel < STATUS_BITS
    reads input
  {
    && input.State() ==
         InputStep(old(input.State()), input.faultValue, input.autoReset, InputUpdate(status.At(input.channel)))
    && input.previousValue == old(input.value)
  }

  twostate predicate Measured(device: AnalogDevice, status: CardStatus)
    requires status.Sized() && device.channel.Fits()
    reads device
  {
    && device.State() == AnalogStep(old(device.State()), AnalogUpdate(device.Thresholds(status)))
    && device.previousValue == old(device.value)
  }

  // What that is in terms of the status bits
  twostate lemma SampledTells(input: DeviceInput, status: CardStatus)
    requires status.Sized() && input.channel < STATUS_BITS && Sampled(input, status)
    ensures input.Reads(status) && input.previousValue == old(input.value)
    ensures input.latchedValue ==
      if input.autoReset || input.value == input.faultValue then input.value else old(input.latchedValue)
  {
  }

  twostate lemma MeasuredTells(device: AnalogDevice, status: CardStatus)
    requires status.Sized() && device.channel.Fits() && Measured(device, status)
    ensures device.Exceeding(status) && device.latchedValue == old(device.latchedValue) + device.value
  {
    hide StatusBit, AnalogDevice.Thresholds;
    device.ThresholdBits(status);
  }

  ghost predicate NoTwice(inputs: seq<DeviceInput>) {
    forall k, l | 0 <= k < l < |inputs| :: inputs[k] != inputs[l]
  }

  // A card that sent nothing: all its 384 status bits are zero.
  ghost predicate Silent(status: CardStatus) {
    status.Sized() && forall o | 0 <= o < STATUS_BITS :: status.At(o) == SILENT
  }

  // It drives every input on it to its fault value, and latches that, ...
  twostate lemma SilentCardFaultsInput(input: DeviceInput, status: CardStatus)
    requires Silent(status) && input.channel < STATUS_BITS && Sampled(input, status)
    ensures input.value == input.latchedValue == input.faultValue
  {
    SilentInput(old(input.State()), input.faultValue, input.autoReset);
  }

  // ... and every threshold of an analog device to exceeded, and latches it.
  twostate lemma SilentCardFaultsAnalog(device: AnalogDevice, status: CardStatus, b: nat)
    requires Silent(status) && device.channel.Fits() && Measured(device, status)
    ensures b in device.value <==> b < 8 * device.channel.numIntegrators
    ensures b < 8 * device.channel.numIntegrators ==> b in device.latchedValue
  {
    if b < 8 * device.channel.numIntegrators {
      device.ThresholdsAt(status, b / 8, b % 8);
    }
  }

  class ApplicationCard {
    const globalId: nat
    const digitalDevices: seq<DigitalDevice>
    const analogDevices: seq<AnalogDevice>
    const isDigital: bool
    const isAnalog: bool
    const applicationConfigBuffer: array<bool>
    var online: bool
    var active: bool

    // Whether the card is online and active is left open until the first update.
    constructor (globalId: nat, digitalDevices: seq<DigitalDevice>, analogDevices: seq<AnalogDevice>,
                 isDigital: bool, isAnalog: bool, applicationConfigBuffer: array<bool>)
      ensures this.globalId == globalId
      ensures this.digitalDevices == digitalDevices && this.analogDevices == analogDevices
      ensures this.isDigital == isDigital && this.isAnalog == isAnalog
      ensures this.applicationConfigBuffer == applicationConfigBuffer
    {
      this.globalId, this.digitalDevices, this.analogDevices := globalId, digitalDevices, analogDevices;
      this.isDigital, this.isAnalog, this.applicationConfigBuffer := isDigital, isAnalog, applicationConfigBuffer;
    }

    // ---- updateInputs ----

    // Every input belongs to one digital device, every device is listed once.
    ghost predicate Apart() {
      && (forall d | 0 <= d < |digitalDevices| :: NoTwice(digitalDevices[d].inputDevices))
      && (forall d, e | 0 <= d < e < |digitalDevices| ::
            forall x | x in digitalDevices[d].inputDevices :: x !in digitalDevices[e].inputDevices)
      && (forall a, b | 0 <= a < b < |analogDevices| :: analogDevices[a] != analogDevices[b])
    }

    ghost predicate ChannelsFit() {
      && (forall x | x in Inputs() :: x.channel < STATUS_BITS)
      && (forall a | 0 <= a < |analogDevices| :: analogDevices[a].channel.Fits())
    }

    // The inputs of the first n digital devices
    ghost function InputsOf(n: nat): set<DeviceInput>
      requires n <= |digitalDevices|
    {
      set d, x | 0 <= d < n && x in digitalDevices[d].inputDevices :: x
    }

    ghost function Inputs(): set<DeviceInput> {
      InputsOf(|digitalDevices|)
    }

    method UpdateDigitalDevice(device: DigitalDevice, status: CardStatus)
      requires status.Sized() && NoTwice(device.inputDevices)
      requires forall x | x in device.inputDevices :: x.channel < STATUS_BITS
      modifies device`faultedOffline, device`modeActive, device.inputDevices
      ensures device.faultedOffline == !online && device.modeActive == active
      ensures forall x | x in device.inputDevices :: Sampled(x, status)
    {
      hide InputStep;
      device.faultedOffline := !online;
      device.modeActive := active;
      for n := 0 to |device.inputDevices|
        invariant device.faultedOffline == !online && device.modeActive == active
        invariant forall k | 0 <= k < n :: Sampled(device.inputDevices[k], status)
        invariant forall k | n <= k < |device.inputDevices| ::
          device.inputDevices[k].State() == old(device.inputDevices[k].State())
      {
        device.inputDevices[n].Update(status);
      }
    }

    // The inputs of one more device are new ones.
    lemma MoreInputs(n: nat)
      requires Apart() && n < |digitalDevices|
      ensures NoTwice(digitalDevices[n].inputDevices)
      ensures forall x | x in digitalDevices[n].inputDevices :: x in Inputs() && x !in InputsOf(n)
      ensures forall x :: x in InputsOf(n + 1) <==> x in InputsOf(n) || x in digitalDevices[n].inputDevices
      ensures forall x | x in InputsOf(n) :: x in Inputs()
    {
    }

    method UpdateDigitalDevices(status: CardStatus)
      requires status.Sized() && Apart() && ChannelsFit()
      modifies digitalDevices`faultedOffline, digitalDevices`modeActive, Inputs()
      ensures forall d | 0 <= d < |digitalDevices| ::
        digitalDevices[d].faultedOffline == !online && digitalDevices[d].modeActive == active
      ensures forall x | x in Inputs() :: Sampled(x, status)
    {
      hide InputStep, NoTwice, Apart;
      for n := 0 to |digitalDevices|
        invariant forall d | 0 <= d < n ::
          digitalDevices[d].faultedOffline == !online && digitalDevices[d].modeActive == active
        invariant forall x | x in InputsOf(n) :: Sampled(x, status)
        invariant forall x | x in Inputs() && x !in InputsOf(n) :: x.State() == old(x.State())
      {
        MoreInputs(n);
        UpdateDigitalDevice(digitalDevices[n], status);
      }
    }

    method UpdateAnalogDevices(status: CardStatus)
      requires status.Sized() && Apart() && ChannelsFit()
      modifies analogDevices`value, analogDevices`previousValue, analogDevices`latchedValue
      modifies analogDevices`faultedOffline, analogDevices`modeActive
      ensures forall a | 0 <= a < |analogDevices| ::
        && analogDevices[a].faultedOffline == !online && analogDevices[a].modeActive == active
        && Measured(analogDevices[a], status)
    {
      hide AnalogStep;
      for n := 0 to |analogDevices|
        invariant forall a | 0 <= a < n ::
          && analogDevices[a].faultedOffline == !online && analogDevices[a].modeActive == active
          && Measured(analogDevices[a], status)
        invariant forall a | n <= a < |analogDevices| :: analogDevices[a].State() == old(analogDevices[a].State())
      {
        analogDevices[n].Update(status);
        analogDevices[n].faultedOffline := !online;
        analogDevices[n].modeActive := active;
      }
    }

    // The two flags are the timeout status and enable bits of the card's firmware.
    method UpdateInputs(status: CardStatus, timeoutStatus: bool, timeoutEnable: bool) returns (reload: bool)
      requires status.Sized() && Apart() && ChannelsFit()
      modifies this`online, this`active, digitalDevices`faultedOffline, digitalDevices`modeActive, Inputs()
      modifies analogDevices`value, analogDevices`previousValue, analogDevices`latchedValue
      modifies analogDevices`faultedOffline, analogDevices`modeActive
      ensures online == !timeoutStatus && active == timeoutEnable && reload == (active != old(active))
      ensures isDigital ==> forall d | 0 <= d < |digitalDevices| ::
        digitalDevices[d].faultedOffline == timeoutStatus && digitalDevices[d].modeActive == timeoutEnable
      ensures isDigital ==> forall x | x in Inputs() :: Sampled(x, status)
      ensures !isDigital ==> unchanged(digitalDevices) && unchanged(Inputs())
      ensures !isDigital && isAnalog ==> forall a | 0 <= a < |analogDevices| ::
        && analogDevices[a].faultedOffline == timeoutStatus && analogDevices[a].modeActive == timeoutEnable
        && Measured(analogDevices[a], status)
      ensures isDigital || !isAnalog ==> unchanged(analogDevices)
    {
      online := !timeoutStatus;
      reload := active != timeoutEnable;
      active := timeoutEnable;
      if isDigital {
        UpdateDigitalDevices(status);
      } else if isAnalog {
        UpdateAnalogDevices(status);
      }
    }

    // ---- writeAnalogConfiguration ----

    method WriteNibble(offset: nat, number: nat)
      requires offset + 4 <= applicationConfigBuffer.Length == CONFIG_BITS && offset % 4 == 0
      modifies applicationConfigBuffer
      ensures forall p | 0 <= p < CONFIG_BITS ::
        applicationConfigBuffer[p] ==
          if offset <= p < offset + 4 then NibbleBit(number, p % 4) else old(applicationConfigBuffer[p])
    {
      for k := 0 to CLASS_BITS
        invariant forall p | 0 <= p < CONFIG_BITS ::
          applicationConfigBuffer[p] ==
            if offset <= p < offset + k then NibbleBit(number, p % 4) else old(applicationConfigBuffer[p])
      {
        applicationConfigBuffer[offset + k] := NibbleBit(number, k);
      }
    }

    method WriteIntegratorClasses(device: AnalogDevice, i: nat)
      requires applicationConfigBuffer.Length == CONFIG_BITS && Ready(device) && i < device.channel.numIntegrators
      requires device.channel.Slot(i) < 24
      modifies applicationConfigBuffer
      ensures forall p | 0 <= p < CONFIG_BITS ::
        applicationConfigBuffer[p] ==
          if 32 * device.channel.Slot(i) <= p < 32 * device.channel.Slot(i) + 32 then ClassBit(device, i, p)
          else old(applicationConfigBuffer[p])
    {
      hide NibbleBit, ClassBit;
      var c := device.channel;
      var powerClassOffset := c.number * THRESHOLDS * CLASS_BITS + i * c.numChannelsCard * THRESHOLDS * CLASS_BITS;
      WriteOffsets(c, i);
      ghost var slot := c.Slot(i);
      for j := 0 to THRESHOLDS
        invariant powerClassOffset == 32 * slot + 4 * j
        invariant forall p | 0 <= p < CONFIG_BITS ::
          applicationConfigBuffer[p] ==
            if 32 * slot <= p < 32 * slot + 4 * j then ClassBit(device, i, p) else old(applicationConfigBuffer[p])
      {
        WriteNibble(powerClassOffset, device.fastPowerClass[j + i * THRESHOLDS]);
        forall p | powerClassOffset <= p < powerClassOffset + 4
          ensures ClassBit(device, i, p) == NibbleBit(device.fastPowerClass[j + i * THRESHOLDS], p % 4)
        {
          ClassBitPlace(device, i, slot, j, p);
        }
        powerClassOffset := powerClassOffset + CLASS_BITS;
      }
    }

    method WriteIntegratorMask(device: AnalogDevice, i: nat)
      requires applicationConfigBuffer.Length == CONFIG_BITS && Ready(device) && i < device.channel.numIntegrators
      requires device.channel.Slot(i) < 24
      modifies applicationConfigBuffer
      ensures forall p | 0 <= p < CONFIG_BITS ::
        applicationConfigBuffer[p] ==
          if 16 * device.channel.Slot(i) <= p - MASK_BASE < 16 * device.channel.Slot(i) + 16
          then MaskBit(device, i, p - MASK_BASE - 16 * device.channel.Slot(i)) else old(applicationConfigBuffer[p])
    {
      var c := device.channel;
      var maskOffset := MASK_BASE + c.number * MASK_BITS + i * c.numChannelsCard * MASK_BITS;
      WriteOffsets(c, i);
      ghost var slot := c.Slot(i);
      for j := 0 to MASK_BITS
        invariant forall p | 0 <= p < CONFIG_BITS ::
          applicationConfigBuffer[p] ==
            if 16 * slot <= p - MASK_BASE < 16 * slot + j then MaskBit(device, i, p - MASK_BASE - 16 * slot)
            else old(applicationConfigBuffer[p])
      {
        var bitValue := false;
        if j in device.fastDestinationMask[i] {
          bitValue := true;
        }
        if device.bypass[i].status == BypassValid || device.ignoredIntegrator[i] || device.ignored {
          bitValue := false;
        }
        applicationConfigBuffer[maskOffset + j] := bitValue;
      }
    }

    // Everything one device has in the buffer, and nothing else
    method WriteAnalogDevice(device: AnalogDevice)
      requires applicationConfigBuffer.Length == CONFIG_BITS && Ready(device)
      modifies applicationConfigBuffer
      ensures forall p | 0 <= p < CONFIG_BITS ::
        applicationConfigBuffer[p] ==
          if OwnsBit(device.channel, p) then AnalogBit(device, p) else old(applicationConfigBuffer[p])
    {
      hide NibbleBit, ClassBit, MaskBit;
      var c := device.channel;
      for i := 0 to c.numIntegrators
        invariant forall p | 0 <= p < CONFIG_BITS ::
          applicationConfigBuffer[p] ==
            if OwnsClassBit(c, p) && c.Integrator(p / 32) < i then AnalogBit(device, p)
            else old(applicationConfigBuffer[p])
      {
        ClassBitsAt(c, i, 0);
        WriteIntegratorClasses(device, i);
        forall p | 0 <= p < CONFIG_BITS
          ensures 32 * c.Slot(i) <= p < 32 * c.Slot(i) + 32 <==> OwnsClassBit(c, p) && c.Integrator(p / 32) == i
        {
          ClassBitsAt(c, i, p);
        }
      }
      WriteMasks(device);
    }

    method WriteMasks(device: AnalogDevice)
      requires applicationConfigBuffer.Length == CONFIG_BITS && Ready(device)
      modifies applicationConfigBuffer
      ensures forall p | 0 <= p < CONFIG_BITS ::
        applicationConfigBuffer[p] ==
          if OwnsMaskBit(device.channel, p) then AnalogBit(device, p) else old(applicationConfigBuffer[p])
    {
      hide NibbleBit, ClassBit, MaskBit;
      var c := device.channel;
      for i := 0 to c.numIntegrators
        invariant forall p | 0 <= p < CONFIG_BITS ::
          applicationConfigBuffer[p] ==
            if OwnsMaskBit(c, p) && c.Integrator((p - MASK_BASE) / 16) < i then AnalogBit(device, p)
            else old(applicationConfigBuffer[p])
      {
        MaskBitsAt(c, i, MASK_BASE);
        WriteIntegratorMask(device, i);
        forall p | MASK_BASE <= p < CONFIG_BITS
          ensures 16 * c.Slot(i) <= p - MASK_BASE < 16 * c.Slot(i) + 16 <==>
            OwnsMaskBit(c, p) && c.Integrator((p - MASK_BASE) / 16) == i
          ensures 16 * c.Slot(i) <= p - MASK_BASE < 16 * c.Slot(i) + 16 ==>
            (p - MASK_BASE) % 16 == p - MASK_BASE - 16 * c.Slot(i)
        {
          MaskBitsAt(c, i, p);
        }
      }
    }

    method ClearConfiguration()
      requires applicationConfigBuffer.Length == CONFIG_BITS
      modifies applicationConfigBuffer
      ensures forall p | 0 <= p < CONFIG_BITS :: !applicationConfigBuffer[p]
    {
      for p := 0 to CONFIG_BITS
        invariant forall q | 0 <= q < p :: !applicationConfigBuffer[q]
      {
        applicationConfigBuffer[p] := false;
      }
    }

    method WriteAnalogConfiguration()
      requires applicationConfigBuffer.Length == CONFIG_BITS && SharedCard(analogDevices)
      requires AllReady(analogDevices)
      modifies applicationConfigBuffer
      ensures AnalogImage(applicationConfigBuffer[..], analogDevices)
    {
      hide OwnsBit, AnalogBit;
      ClearConfiguration();
      for n := 0 to |analogDevices|
        invariant forall p | 0 <= p < CONFIG_BITS :: applicationConfigBuffer[p] == AnalogImageBit(analogDevices, n, p)
      {
        if analogDevices[n].evaluation == FastEvaluation {
          WriteAnalogDevice(analogDevices[n]);
          forall p | 0 <= p < CONFIG_BITS && OwnsBit(analogDevices[n].channel, p)
            ensures AnalogImageBit(analogDevices, n + 1, p) == AnalogBit(analogDevices[n], p)
          {
            ImageOfOwner(analogDevices, n + 1, n, p);
          }
          forall p | 0 <= p < CONFIG_BITS && !OwnsBit(analogDevices[n].channel, p)
            ensures !AnalogBit(analogDevices[n], p)
          {
            NotOwned(analogDevices[n], p);
          }
        }
      }
    }

    // ---- writeDigitalConfiguration ----

    method WriteRecord(device: DigitalDevice)
      requires applicationConfigBuffer.Length == CONFIG_BITS
      requires |device.inputDevices| == 1 && device.inputDevices[0].channel < DIGITAL_CHANNELS
      requires forall p | 0 <= p < CONFIG_BITS && p / DIGITAL_RECORD == device.inputDevices[0].channel ::
        !applicationConfigBuffer[p]
      modifies applicationConfigBuffer
      ensures forall p | 0 <= p < CONFIG_BITS ::
        applicationConfigBuffer[p] ==
          if p / DIGITAL_RECORD == device.inputDevices[0].channel then DigitalBit(device, p % DIGITAL_RECORD)
          else old(applicationConfigBuffer[p])
    {
      var input := device.inputDevices[0];
      var at := input.channel * DIGITAL_RECORD;
      applicationConfigBuffer[at + DIGITAL_STATE] := device.fastExpectedState;
      if input.bypass.status != BypassValid {
        for i := 0 to MASK_BITS
          invariant forall p | 0 <= p < CONFIG_BITS ::
            applicationConfigBuffer[p] ==
              if p == at + DIGITAL_STATE then device.fastExpectedState
              else if at + DIGITAL_MASK <= p < at + DIGITAL_MASK + i then
                p - at - DIGITAL_MASK in device.fastDestinationMask
              else old(applicationConfigBuffer[p])
        {
          applicationConfigBuffer[at + DIGITAL_MASK + i] := i in device.fastDestinationMask;
        }
      }
      label Masked:
      for i := 0 to CLASS_BITS
        invariant forall p | 0 <= p < CONFIG_BITS ::
          applicationConfigBuffer[p] ==
            if at <= p < at + i then NibbleBit(device.fastPowerClass, p - at)
            else old@Masked(applicationConfigBuffer[p])
      {
        applicationConfigBuffer[at + i] := NibbleBit(device.fastPowerClass, i);
      }
      forall p | 0 <= p < CONFIG_BITS
        ensures p / DIGITAL_RECORD == input.channel <==> at <= p < at + DIGITAL_RECORD
        ensures p / DIGITAL_RECORD == input.channel ==> p % DIGITAL_RECORD == p - at
      {
      }
    }

    // False stands for the exception raised for a FAST device without exactly one input.
    method WriteDigitalConfiguration() returns (ok: bool)
      requires applicationConfigBuffer.Length == CONFIG_BITS && SeparateRecords(digitalDevices)
      modifies applicationConfigBuffer
      ensures ok == forall d | 0 <= d < |digitalDevices| ::
        digitalDevices[d].evaluation == FastEvaluation ==> |digitalDevices[d].inputDevices| == 1
      ensures ok ==> DigitalImage(applicationConfigBuffer[..], digitalDevices)
    {
      hide DigitalBit;
      ClearConfiguration();
      for n := 0 to |digitalDevices|
        invariant forall d | 0 <= d < n ::
          digitalDevices[d].evaluation == FastEvaluation ==> |digitalDevices[d].inputDevices| == 1
        invariant forall p | 0 <= p < CONFIG_BITS :: applicationConfigBuffer[p] == DigitalImageBit(digitalDevices, n, p)
      {
        if digitalDevices[n].evaluation == FastEvaluation {
          if |digitalDevices[n].inputDevices| != 1 {
            return false;
          }
          WriteRecord(digitalDevices[n]);
        }
      }
      ok := true;
    }
  }

  lemma NotOwned(device: AnalogDevice, p: nat)
    requires Ready(device) && !OwnsBit(device.channel, p)
    ensures !AnalogBit(device, p)
  {
  }
}
