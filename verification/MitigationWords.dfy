// The two mitigation words: the nibble masks of a destination (decoding of
// BeamDestination in src/central_node_yaml.h), how DbBeamDestination writes its
// class into them (src/central_node_database_tables.h), and how they are read back
// (Firmware::extractMitigation).
module MitigationWords {
  import opened Words

  function NibbleMask(i: nat): (r: Word)
    requires i < 8
    ensures forall b: nat :: b in r <==> 4 * i <= b < 4 * i + 4
  {
    set b | b in ALL_ONES && 4 * i <= b < 4 * i + 4
  }

  // One test per destination bit: the nibbles of the first n bits of a mask byte
  function SpreadByte(mask: set<nat>, n: nat): (r: Word)
    requires n <= 8
    ensures forall b: nat :: b in r <==> b < 4 * n && b / 4 in mask
  {
    if n == 0 then ZERO
    else if n - 1 in mask then Or(SpreadByte(mask, n - 1), NibbleMask(n - 1))
    else SpreadByte(mask, n - 1)
  }

  // Destination bits 8..15 go to buffer word 0 and bits 0..7 to buffer word 1.
  function Buffer0Mask(mask: set<nat>): (r: Word)
    ensures forall b: nat | b < 32 :: b in r <==> 8 + b / 4 in mask
  {
    SpreadByte(ShiftRight(mask, 8), 8)
  }

  function Buffer1Mask(mask: set<nat>): (r: Word)
    ensures forall b: nat | b < 32 :: b in r <==> b / 4 in mask
  {
    SpreadByte(mask, 8)
  }

  predicate IsMask16(mask: set<nat>) {
    forall b | b in mask :: b < 16
  }

  // The bitShift loop over one byte of the mask: four times the lowest bit
  method BitShift(byte: set<nat>) returns (bitShift: nat)
    requires forall b | b in byte :: b < 8
    ensures bitShift % 4 == 0 && Lowest(byte, bitShift / 4)
  {
    bitShift := 0;
    var mask := byte;
    for i := 0 to 8
      invariant bitShift % 4 == 0 && (mask == {} ==> Lowest(byte, bitShift / 4))
      invariant mask != {} ==> bitShift == 4 * i && mask == ShiftRight(byte, i) && forall b | b in byte :: i <= b
    {
      if 0 in mask {
        mask := {};
      } else if mask != {} {
        ShiftOnce(byte, i);
        bitShift := bitShift + 4;
        mask := ShiftRight(mask, 1);
        ShiftOnce(byte, i + 1);
      }
    }
  }

  // softwareMitigationBufferIndex and bitShift: the high byte of the mask counts if
  // it has a bit.
  method Position(destinationMask: set<nat>) returns (index: nat, bitShift: nat)
    requires IsMask16(destinationMask)
    ensures index == if exists b | b in destinationMask :: 8 <= b then 0 else 1
    ensures bitShift % 4 == 0
    ensures Lowest(if index == 0 then ShiftRight(destinationMask, 8) else destinationMask, bitShift / 4)
  {
    index := 1;
    var mask := destinationMask;
    if exists b | b in mask :: 8 <= b {
      index := 0;
      mask := ShiftRight(mask, 8);
    }
    bitShift := BitShift(mask);
  }

  // number & 0xF as a word
  function LowBits(number: nat): (r: Word)
    ensures forall b: nat :: b in r <==> b < 4 && NibbleBit(number, b)
  {
    set b | b in ALL_ONES && b < 4 && NibbleBit(number, b)
  }

  // The class number repeated in all eight nibbles
  method ExpandClass(number: nat) returns (allowedClassExpand: Word)
    ensures forall b: nat :: b in allowedClassExpand <==> b < 32 && NibbleBit(number, b % 4)
  {
    allowedClassExpand := ZERO;
    var shift := 0;
    for i := 0 to 8
      invariant shift == 4 * i
      invariant forall b: nat :: b in allowedClassExpand <==> b < shift && NibbleBit(number, b % 4)
    {
      allowedClassExpand := Or(allowedClassExpand, Shift(LowBits(number), shift));
      assert forall b: nat | shift <= b < shift + 4 :: b - shift == b % 4;
      shift := shift + 4;
    }
  }

  // Bit j of the nibble of destination bit k is raised by this mask and class.
  predicate Raises(mask: set<nat>, number: nat, k: nat, j: nat)
    requires j < 4
  {
    k in mask && NibbleBit(number, j)
  }

  ghost predicate RaisedBy(masks: seq<set<nat>>, numbers: seq<nat>, n: nat, k: nat, j: nat)
    requires n <= |masks| == |numbers| && j < 4
  {
    exists i :: 0 <= i < n && Raises(masks[i], numbers[i], k, j)
  }

  // Buffer word 0 holds destination bits 8..15, word 1 bits 0..7.
  function Base(word: nat): nat {
    if word == 0 then 8 else 0
  }

  // Buffer word `word` when the first n destinations have been written
  ghost predicate Written(word: nat, masks: seq<set<nat>>, numbers: seq<nat>, n: nat, w: Word)
    requires n <= |masks| == |numbers|
  {
    forall b: nat | b < 32 :: b in w <==> RaisedBy(masks, numbers, n, Base(word) + b / 4, b % 4)
  }

  // Only the classes of the destinations written so far matter.
  lemma WrittenSoFar(word: nat, masks: seq<set<nat>>, numbers: seq<nat>, numbers': seq<nat>, n: nat, w: Word)
    requires n <= |masks| == |numbers| == |numbers'| && Written(word, masks, numbers, n, w)
    requires forall i | 0 <= i < n :: numbers[i] == numbers'[i]
    ensures Written(word, masks, numbers', n, w)
  {
    hide Base, Raises;
    forall k: nat, j: nat | j < 4 ensures RaisedBy(masks, numbers, n, k, j) == RaisedBy(masks, numbers', n, k, j) {
      assert forall i | 0 <= i < n :: Raises(masks[i], numbers[i], k, j) == Raises(masks[i], numbers'[i], k, j);
    }
  }

  function BufferMask(word: nat, mask: set<nat>): (r: Word)
    ensures forall b: nat | b < 32 :: b in r <==> Base(word) + b / 4 in mask
  {
    if word == 0 then Buffer0Mask(mask) else Buffer1Mask(mask)
  }

  // buffer |= mask & expand
  lemma WriteOne(word: nat, masks: seq<set<nat>>, numbers: seq<nat>, n: nat, w: Word, expand: Word)
    requires n < |masks| == |numbers| && Written(word, masks, numbers, n, w)
    requires forall b: nat :: b in expand <==> b < 32 && NibbleBit(numbers[n], b % 4)
    ensures Written(word, masks, numbers, n + 1, Or(w, And(BufferMask(word, masks[n]), expand)))
  {
    hide RaisedBy, Or, And, BufferMask, NibbleBit, Base;
    var w' := Or(w, And(BufferMask(word, masks[n]), expand));
    forall b: nat | b < 32 ensures b in w' <==> RaisedBy(masks, numbers, n + 1, Base(word) + b / 4, b % 4) {
      WriteBit(word, masks, numbers, n, w, expand, b, Base(word) + b / 4, b % 4);
    }
  }

  lemma WriteBit(word: nat, masks: seq<set<nat>>, numbers: seq<nat>, n: nat, w: Word, expand: Word, b: nat, k: nat,
                 j: nat)
    requires n < |masks| == |numbers| && b < 32 && k == Base(word) + b / 4 && j == b % 4
    requires b in w <==> RaisedBy(masks, numbers, n, k, j)
    requires b in expand <==> NibbleBit(numbers[n], j)
    ensures b in Or(w, And(BufferMask(word, masks[n]), expand)) <==> RaisedBy(masks, numbers, n + 1, k, j)
  {
    hide NibbleBit, Base, RaisedBy;
    OneMoreRaises(masks, numbers, n, k, j);
    assert b in BufferMask(word, masks[n]) <==> k in masks[n];
  }

  lemma OneMoreRaises(masks: seq<set<nat>>, numbers: seq<nat>, n: nat, k: nat, j: nat)
    requires n < |masks| == |numbers| && j < 4
    ensures RaisedBy(masks, numbers, n + 1, k, j) <==>
      RaisedBy(masks, numbers, n, k, j) || Raises(masks[n], numbers[n], k, j)
  {
    hide Raises;
  }

  // Nibble i of a word, (w >> 4 * i) & 0xF
  function Nibble(w: Word, i: nat): nat
    requires i < 8
  {
    FromBits(4 * i in w, 4 * i + 1 in w, 4 * i + 2 in w, 4 * i + 3 in w)
  }

  lemma NibbleIsFourBits(w: Word)
    ensures forall k | 0 <= k < 8 ::
      Nibble(w, k) ==
      (if 4 * k in w then 1 else 0) + (if 4 * k + 1 in w then 2 else 0)
      + (if 4 * k + 2 in w then 4 else 0) + if 4 * k + 3 in w then 8 else 0
  {
  }

  method ExtractMitigation(compressed0: Word, compressed1: Word, expanded: array<nat>)
    requires expanded.Length == 16
    modifies expanded
    ensures forall k | 0 <= k < 8 :: expanded[k] == Nibble(compressed0, k)
    ensures forall k | 8 <= k < 16 :: expanded[k] == Nibble(compressed1, k - 8)
    ensures forall k | 0 <= k < 8 ::
      expanded[k] ==
      (if 4 * k in compressed0 then 1 else 0) + (if 4 * k + 1 in compressed0 then 2 else 0)
      + (if 4 * k + 2 in compressed0 then 4 else 0) + if 4 * k + 3 in compressed0 then 8 else 0
    ensures forall k | 0 <= k < 8 ::
      expanded[8 + k] ==
      (if 4 * k in compressed1 then 1 else 0) + (if 4 * k + 1 in compressed1 then 2 else 0)
      + (if 4 * k + 2 in compressed1 then 4 else 0) + if 4 * k + 3 in compressed1 then 8 else 0
  {
    hide Nibble;
    for i := 0 to 8
      invariant forall k | 0 <= k < i :: expanded[k] == Nibble(compressed0, k)
    {
      expanded[i] := Nibble(compressed0, i);
    }
    for i := 0 to 8
      invariant forall k | 0 <= k < 8 :: expanded[k] == Nibble(compressed0, k)
      invariant forall k | 8 <= k < i + 8 :: expanded[k] == Nibble(compressed1, k - 8)
    {
      expanded[i + 8] := Nibble(compressed1, i);
    }
    NibbleIsFourBits(compressed0);
    NibbleIsFourBits(compressed1);
  }

  // Destination o alone has bit k.
  ghost predicate Owns(masks: seq<set<nat>>, o: nat, k: nat) {
    o < |masks| && k in masks[o] && forall i | 0 <= i < |masks| && i != o :: k !in masks[i]
  }

  // Reading a word back gives, at the position of every destination bit, the class
  // of the destination that owns the bit, and zero where there is none.  Firmware
  // lists word 1 first.
  lemma MitigationRoundTrip(masks: seq<set<nat>>, numbers: seq<nat>, word: nat, w: Word, i: nat)
    requires |masks| == |numbers| && i < 8 && Written(word, masks, numbers, |masks|, w)
    ensures forall o: nat | Owns(masks, o, Base(word) + i) :: Nibble(w, i) == numbers[o] % 16
    ensures (forall o | 0 <= o < |masks| :: Base(word) + i !in masks[o]) ==> Nibble(w, i) == 0
  {
    var k := Base(word) + i;
    NibbleRaised(masks, numbers, word, w, i);
    forall o: nat | Owns(masks, o, k) ensures Nibble(w, i) == numbers[o] % 16 {
      LowNibble(numbers[o]);
      OwnerRaises(masks, numbers, o, k, 0);
      OwnerRaises(masks, numbers, o, k, 1);
      OwnerRaises(masks, numbers, o, k, 2);
      OwnerRaises(masks, numbers, o, k, 3);
    }
  }

  lemma NibbleRaised(masks: seq<set<nat>>, numbers: seq<nat>, word: nat, w: Word, i: nat)
    requires |masks| == |numbers| && i < 8 && Written(word, masks, numbers, |masks|, w)
    ensures 4 * i in w <==> RaisedBy(masks, numbers, |masks|, Base(word) + i, 0)
    ensures 4 * i + 1 in w <==> RaisedBy(masks, numbers, |masks|, Base(word) + i, 1)
    ensures 4 * i + 2 in w <==> RaisedBy(masks, numbers, |masks|, Base(word) + i, 2)
    ensures 4 * i + 3 in w <==> RaisedBy(masks, numbers, |masks|, Base(word) + i, 3)
  {
    hide RaisedBy;
  }

  lemma OwnerRaises(masks: seq<set<nat>>, numbers: seq<nat>, o: nat, k: nat, j: nat)
    requires |masks| == |numbers| && Owns(masks, o, k) && j < 4
    ensures RaisedBy(masks, numbers, |masks|, k, j) <==> NibbleBit(numbers[o], j)
  {
    hide NibbleBit;
    if NibbleBit(numbers[o], j) {
      assert Raises(masks[o], numbers[o], k, j);
    }
  }

  // For a mask of one bit the nibble mask is the bits bitShift .. bitShift + 3 of the
  // word Position names, that is 0xF << bitShift, and nothing in the other word.
  lemma SingleBitPosition(k: nat, low: nat, b: nat)
    requires k < 16 && b < 32
    requires Lowest(if 8 <= k then ShiftRight({k}, 8) else {k}, low)
    ensures low < 8
    ensures b in Buffer0Mask({k}) <==> 8 <= k && 4 * low <= b < 4 * low + 4
    ensures b in Buffer1Mask({k}) <==> k < 8 && 4 * low <= b < 4 * low + 4
  {
    if 8 <= k {
      assert k - 8 in ShiftRight({k}, 8);
    }
    assert low == if 8 <= k then k - 8 else k;
  }
}
