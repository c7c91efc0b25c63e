// Where the bits of a channel stand in the status and configuration buffers of an
// application card: src/central_node_database_defs.h.  Integrators are not
// contiguous: first come the first integrators of all channels, then the second ones.
module Layout {
  import opened Words

  const THRESHOLDS := 8
  const CLASS_BITS := 4
  const MASK_BITS := 16
  const STATUS_BITS := 192
  const MASK_BASE := 768
  const CONFIG_BITS := 2048
  const DIGITAL_RECORD := 21
  const DIGITAL_MASK := 4
  const DIGITAL_STATE := 20
  const DIGITAL_CHANNELS := 64

  // An analog channel, with the number of channels of its card
  datatype AnalogChannel = AnalogChannel(number: nat, numChannelsCard: nat, numIntegrators: nat)
  {
    predicate Fits() {
      number < numChannelsCard <= 6 && numIntegrators <= 4
    }

    // The place of integrator i among all integrators of the card
    function Slot(i: nat): nat {
      i * numChannelsCard + number
    }

    // Slot s belongs to this channel.
    predicate Owns(s: nat) {
      numChannelsCard > 0 && s % numChannelsCard == number && s / numChannelsCard < numIntegrators
    }

    function Integrator(s: nat): nat
      requires numChannelsCard > 0
    {
      s / numChannelsCard
    }
  }

  lemma DivMod(i: nat, n: nat, c: nat)
    requires c < n <= 6
    ensures (i * n + c) / n == i && (i * n + c) % n == c
  {
    if i == 0 {
      assert c / n == 0;
    } else {
      DivMod(i - 1, n, c);
      OneMore((i - 1) * n + c, n);
      assert i * n == (i - 1) * n + n;
    }
  }

  lemma OneMore(x: nat, n: nat)
    requires 0 < n <= 6
    ensures (x + n) / n == x / n + 1 && (x + n) % n == x % n
  {
    if n == 1 {
    } else if n == 2 {
    } else if n == 3 {
    } else if n == 4 {
    } else if n == 5 {
    }
  }

  // The slots of a channel are exactly those it owns, and they fit.
  lemma SlotOwned(c: AnalogChannel, i: nat)
    requires c.Fits() && i < c.numIntegrators
    ensures c.Owns(c.Slot(i)) && c.Integrator(c.Slot(i)) == i && c.Slot(i) < 24
  {
    DivMod(i, c.numChannelsCard, c.number);
    assert i * c.numChannelsCard <= 3 * c.numChannelsCard;
  }

  lemma OwnedSlot(c: AnalogChannel, s: nat)
    requires c.Fits() && c.Owns(s)
    ensures c.Integrator(s) < c.numIntegrators && s == c.Slot(c.Integrator(s))
  {
    assert s == s / c.numChannelsCard * c.numChannelsCard + s % c.numChannelsCard;
  }

  // Two channels of a card never meet: a slot tells the channel and the integrator.
  lemma SlotsApart(c: AnalogChannel, c': AnalogChannel, i: nat, i': nat)
    requires c.Fits() && c'.Fits() && c.numChannelsCard == c'.numChannelsCard
    requires i < c.numIntegrators && i' < c'.numIntegrators && c.Slot(i) == c'.Slot(i')
    ensures c.number == c'.number && i == i'
  {
    SlotOwned(c, i);
    SlotOwned(c', i');
  }

  // ---- Reading a configuration buffer back by the documented layout ----

  // The four-bit number at a place
  function ReadNibble(buffer: seq<bool>, at: nat): nat
    requires at + 4 <= |buffer|
  {
    FromBits(buffer[at], buffer[at + 1], buffer[at + 2], buffer[at + 3])
  }

  function Sixteen(): (r: set<nat>)
    ensures forall b: nat :: b in r <==> b < 16
  {
    set b | b in ALL_ONES && b < 16
  }

  // The sixteen-bit mask at a place
  function ReadMask(buffer: seq<bool>, at: nat): (r: set<nat>)
    requires at + 16 <= |buffer|
    ensures forall b: nat :: b in r <==> b < 16 && buffer[at + b]
  {
    set b | b in Sixteen() && buffer[at + b]
  }
}
