// Machine words.  A uint32_t that the source takes apart with shifts and masks
// is represented by the set of positions of its one bits: | is union, & is
// intersection, ~m is the complement in 0..31, and the bits a left shift pushes
// past position 31 are lost.
module Words {

  datatype Option<+T> = None | Some(value: T)

  type Word = w: set<nat> | forall b | b in w :: b < 32

  const ZERO: Word := {}
  const ONE: Word := {0}
  const ALL_ONES: Word := set b: nat | b < 32

  function Or(v: Word, w: Word): Word {
    v + w
  }

  function And(v: Word, w: Word): Word {
    v * w
  }

  lemma OrOr(u: Word, v: Word, w: Word)
    ensures Or(Or(u, v), w) == Or(u, Or(v, w)) && Or(u, ZERO) == u
  {
  }

  function Shift(w: Word, n: nat): (r: Word)
    ensures forall b: nat :: b in r <==> b < 32 && n <= b && b - n in w
  {
    set b | b in w && b + n < 32 :: b + n
  }

  // mask >> n, for a word of any width
  function ShiftRight(mask: set<nat>, n: nat): (r: set<nat>)
    ensures forall b: nat :: b in r <==> b + n in mask
  {
    set b | b in mask && n <= b :: b - n
  }

  lemma ShiftOnce(half: set<nat>, i: nat)
    requires forall b | b in half :: i <= b
    ensures ShiftRight(half, i) == {} <==> half == {}
    ensures 0 in ShiftRight(half, i) <==> i in half
    ensures ShiftRight(ShiftRight(half, i), 1) == ShiftRight(half, i + 1)
  {
    if half != {} {
      var b :| b in half;
      assert b - i in ShiftRight(half, i);
    }
  }

  // The position of the lowest one bit; zero has it at 0.
  ghost predicate Lowest(half: set<nat>, low: nat) {
    if half == {} then low == 0 else low in half && forall b | b in half :: low <= b
  }

  // 0xFF << 8 * i, the bits of integrator i
  function ByteMask(i: nat): (r: Word)
    requires i < 4
    ensures forall b: nat :: b in r <==> 8 * i <= b < 8 * i + 8
  {
    set b | b in ALL_ONES && 8 * i <= b < 8 * i + 8
  }

  function Byte(w: Word, i: nat): Word
    requires i < 4
  {
    w * ByteMask(i)
  }

  // Bit k of a number, (n >> k) & 1, for the four low bits
  predicate NibbleBit(n: nat, k: nat)
    requires k < 4
  {
    (if k == 0 then n else if k == 1 then n / 2 else if k == 2 then n / 4 else n / 8) % 2 == 1
  }

  function Weight(b: bool, w: nat): nat {
    if b then w else 0
  }

  // The number held in four bits, lowest first
  function FromBits(b0: bool, b1: bool, b2: bool, b3: bool): nat {
    Weight(b0, 1) + Weight(b1, 2) + Weight(b2, 4) + Weight(b3, 8)
  }

  // The four low bits are the binary digits of the number.
  lemma NibbleBits(n: nat)
    ensures n % 16 == (if NibbleBit(n, 0) then 1 else 0) + (if NibbleBit(n, 1) then 2 else 0)
      + (if NibbleBit(n, 2) then 4 else 0) + if NibbleBit(n, 3) then 8 else 0
  {
    LowNibble(n);
  }

  // Writing the four low bits of a number and reading them back keeps n & 0xF.
  lemma LowNibble(n: nat)
    ensures FromBits(NibbleBit(n, 0), NibbleBit(n, 1), NibbleBit(n, 2), NibbleBit(n, 3)) == n % 16
  {
    hide NibbleBit, Weight;
    LowOne(n);
    LowTwo(n);
    LowThree(n);
    LowFour(n);
  }

  lemma LowOne(n: nat)
    ensures n % 2 == Weight(NibbleBit(n, 0), 1)
  {
  }

  lemma LowTwo(n: nat)
    ensures n % 4 == n % 2 + Weight(NibbleBit(n, 1), 2)
  {
  }

  lemma LowThree(n: nat)
    ensures n % 8 == n % 4 + Weight(NibbleBit(n, 2), 4)
  {
  }

  lemma LowFour(n: nat)
    ensures n % 16 == n % 8 + Weight(NibbleBit(n, 3), 8)
  {
  }
}
