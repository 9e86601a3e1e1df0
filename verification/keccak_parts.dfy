/**
 * The parts of a Keccak-f[25w] state that the parity layer works on, and
 * the bit layout this model fixes for them.
 *
 * The state is a 5 x 5 x w cube of bits A[x, y, z], w being the lane size.
 * A slice is the 25-bit cross-section at one z: bit (x, y) of a slice sits
 * at position x + 5*y, so row y of a slice is the 5-bit field starting at
 * bit 5*y, and bit x of a row is the state bit at that x. A lane is the
 * w-bit column along z at one (x, y); bit z of a lane is the state bit at
 * depth z. A state given as lanes is a vector of 25 lanes indexed x + 5*y.
 *
 * Word types follow the C++ types: a row is an unsigned char (of which only
 * the low 5 bits are meaningful), a slice an unsigned int, a lane a 64-bit
 * unsigned word.
 */
module KeccakParts {
  import opened Bits

  /** A row, or the parity of a slice: an 8-bit unsigned value. */
  type RowValue = r: nat | r < Pow2(8)

  /** A slice: a 32-bit unsigned value of which bits 0 .. 24 are used. */
  type SliceValue = s: nat | s < Pow2(32)

  /** A lane: a 64-bit unsigned value of which bits 0 .. w-1 are used. */
  type LaneValue = v: nat | v < Pow2(64)

  /** Largest lane size: the number of bits in a LaneValue. */
  const MaxLaneSize: nat := 64

  /** Position of lane (x, y) in a state given as a vector of lanes. */
  function LaneIndex(x: nat, y: nat): (i: nat)
    requires x < 5 && y < 5
    ensures i < 25
    ensures i % 5 == x && i / 5 == y
  {
    x + 5 * y
  }

  /** Bit x of a row. */
  predicate RowBit(r: RowValue, x: nat)
  {
    Bit(r, x)
  }

  /** Bit (x, y) of a slice. */
  predicate SliceBit(s: SliceValue, x: nat, y: nat)
  {
    Bit(s, x + 5 * y)
  }

  /** Bit z of a lane. */
  predicate LaneBit(v: LaneValue, z: nat)
  {
    Bit(v, z)
  }

  /** A row value within the 5 bits a row has: 0 to 31. */
  predicate ValidRow(r: RowValue)
  {
    r <= 0x1F
  }

  /** A parity given per slice, every entry a valid row. */
  predicate ValidRows(rows: seq<RowValue>)
  {
    forall z :: 0 <= z < |rows| ==> ValidRow(rows[z])
  }

  /** A valid row has no set bit at position 5 or above. */
  lemma ValidRowBits(r: RowValue)
    ensures ValidRow(r) <==> forall x: nat :: RowBit(r, x) ==> x < 5
  {
    SmallPowersOfTwo();
    if ValidRow(r) {
      forall x: nat | 5 <= x ensures !RowBit(r, x) {
        BitAbove(r, 5, x);
      }
    } else {
      if forall x: nat :: RowBit(r, x) ==> x < 5 {
        forall i: nat | 5 <= i ensures !Bit(r, i) {
          assert RowBit(r, i) ==> i < 5;
        }
        BoundFromBits(r, 5);
        assert false;
      }
    }
  }

  /** Two valid rows with the same five bits are the same row. */
  lemma RowsEqual(r: RowValue, q: RowValue)
    requires ValidRow(r) && ValidRow(q)
    requires forall x: nat :: x < 5 ==> RowBit(r, x) == RowBit(q, x)
    ensures r == q
  {
    SmallPowersOfTwo();
    forall i: nat | i < 5 ensures Bit(r, i) == Bit(q, i) {
      assert RowBit(r, i) == RowBit(q, i);
    }
    BitsEqualBelow(r, q, 5);
  }

  /** Row y of a slice: the 5-bit field at bits 5y .. 5y+4. */
  function RowOfSlice(s: SliceValue, y: nat): (r: RowValue)
    requires y < 5
    ensures ValidRow(r)
    ensures forall x: nat :: RowBit(r, x) == (x < 5 && SliceBit(s, x, y))
  {
    SmallPowersOfTwo();
    Pow2Monotone(5, 8);
    var r := And(ShiftRight(s, 5 * y), 0x1F);
    AndBelow(ShiftRight(s, 5 * y), 0x1F, 5);
    forall x: nat ensures Bit(r, x) == (x < 5 && Bit(s, x + 5 * y)) {
      BitAnd(ShiftRight(s, 5 * y), 0x1F, x);
      BitOnes(5, x);
      BitShiftRight(s, 5 * y, x);
    }
    r
  }
}
