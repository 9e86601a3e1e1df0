/**
 * The column parity of a state, C[x, z] = A[x, 0, z] xor ... xor A[x, 4, z]
 * (section 3.2.1 of FIPS 202), computed slice by slice from a state given
 * as slices, and sheet by sheet from a state given as lanes.
 */
module ParityComputation {
  import opened Bits
  import opened KeccakParts
  import opened ParityPacking

  /** C[x, z] for the slice at z: the xor of the five bits of column x. */
  predicate ColumnParity(slice: SliceValue, x: nat)
  {
    (((SliceBit(slice, x, 0) != SliceBit(slice, x, 1)) != SliceBit(slice, x, 2))
      != SliceBit(slice, x, 3)) != SliceBit(slice, x, 4)
  }

  /** C[x, z] for a state given as 25 lanes: the xor of bit z of the lanes of sheet x. */
  predicate SheetColumnParity(state: seq<LaneValue>, x: nat, z: nat)
    requires |state| == 25 && x < 5
  {
    (((LaneBit(state[LaneIndex(x, 0)], z) != LaneBit(state[LaneIndex(x, 1)], z))
      != LaneBit(state[LaneIndex(x, 2)], z)) != LaneBit(state[LaneIndex(x, 3)], z))
      != LaneBit(state[LaneIndex(x, 4)], z)
  }

  /** The xor of two valid rows, a valid row. */
  function RowXor(a: RowValue, b: RowValue): (r: RowValue)
    requires ValidRow(a) && ValidRow(b)
    ensures ValidRow(r)
  {
    SmallPowersOfTwo();
    Pow2Monotone(5, 8);
    XorBelow(a, b, 5);
    Xor(a, b)
  }

  /** The xor of two lanes, a lane. */
  function LaneXor(a: LaneValue, b: LaneValue): (r: LaneValue)
  {
    XorBelow(a, b, 64);
    Xor(a, b)
  }

  /** The parity of a slice: the xor of its five rows. */
  function SliceParity(slice: SliceValue): (r: RowValue)
    ensures ValidRow(r)
  {
    RowXor(RowXor(RowXor(RowXor(RowOfSlice(slice, 0), RowOfSlice(slice, 1)),
      RowOfSlice(slice, 2)), RowOfSlice(slice, 3)), RowOfSlice(slice, 4))
  }

  /** The parity of a state given as slices, one row per slice. */
  function GetParityOfState(state: seq<SliceValue>): (parity: seq<RowValue>)
    ensures |parity| == |state|
    ensures ValidRows(parity)
  {
    seq(|state|, z requires 0 <= z < |state| => SliceParity(state[z]))
  }

  /** The parity of a state of at most 8 slices, packed into one word. */
  function GetPackedParityOfState(state: seq<SliceValue>): (p: PackedParity)
    requires |state| <= PackedSlices
    ensures p == PackParity(GetParityOfState(state))
  {
    if |state| == 0 then 0
    else
      var n := |state| - 1;
      var rest := GetPackedParityOfState(state[..n]);
      assert GetParityOfState(state)[..n] == GetParityOfState(state[..n]);
      OrBelow(rest, GetPackedParityFromParity(SliceParity(state[n]), n), 64);
      Or(rest, GetPackedParityFromParity(SliceParity(state[n]), n))
  }

  /** The parity of a state given as 25 lanes, one lane per sheet. */
  function GetParityOfLanes(state: seq<LaneValue>): (parity: seq<LaneValue>)
    requires |state| == 25
    ensures |parity| == 5
  {
    seq(5, x requires 0 <= x < 5 =>
      LaneXor(LaneXor(LaneXor(LaneXor(state[LaneIndex(x, 0)], state[LaneIndex(x, 1)]),
        state[LaneIndex(x, 2)]), state[LaneIndex(x, 3)]), state[LaneIndex(x, 4)]))
  }

  // ---------------------------------------------------------------------
  // What the parities mean
  // ---------------------------------------------------------------------

  lemma RowXorBit(a: RowValue, b: RowValue, x: nat)
    requires ValidRow(a) && ValidRow(b)
    ensures RowBit(RowXor(a, b), x) == (RowBit(a, x) != RowBit(b, x))
  {
    BitXor(a, b, x);
  }

  lemma LaneXorBit(a: LaneValue, b: LaneValue, z: nat)
    ensures LaneBit(LaneXor(a, b), z) == (LaneBit(a, z) != LaneBit(b, z))
  {
    BitXor(a, b, z);
  }

  /** Bit x of the parity of a slice is C[x] of that slice; bits 5 to 7 are clear. */
  lemma SliceParityBits(slice: SliceValue)
    ensures forall x: nat :: RowBit(SliceParity(slice), x) == (x < 5 && ColumnParity(slice, x))
  {
    forall x: nat ensures RowBit(SliceParity(slice), x) == (x < 5 && ColumnParity(slice, x)) {
      var r0, r1, r2, r3, r4 := RowOfSlice(slice, 0), RowOfSlice(slice, 1),
        RowOfSlice(slice, 2), RowOfSlice(slice, 3), RowOfSlice(slice, 4);
      RowXorBit(r0, r1, x);
      RowXorBit(RowXor(r0, r1), r2, x);
      RowXorBit(RowXor(RowXor(r0, r1), r2), r3, x);
      RowXorBit(RowXor(RowXor(RowXor(r0, r1), r2), r3), r4, x);
    }
  }

  /** The parity of the all-zero slice is 0. */
  lemma SliceParityOfZero()
    ensures SliceParity(0) == 0
  {
    SliceParityBits(0);
    forall x: nat | x < 5 ensures RowBit(SliceParity(0), x) == RowBit(0, x) {
      BitZero(x);
      BitZero(x + 5);
      BitZero(x + 10);
      BitZero(x + 15);
      BitZero(x + 20);
    }
    RowsEqual(SliceParity(0), 0);
  }

  /**
   * The parity of a slice is linear: the parity of the xor of two slices is
   * the xor of their parities.
   */
  lemma SliceParityLinear(a: SliceValue, b: SliceValue)
    ensures Xor(a, b) < Pow2(32)
    ensures SliceParity(Xor(a, b)) == RowXor(SliceParity(a), SliceParity(b))
  {
    XorBelow(a, b, 32);
    var c: SliceValue := Xor(a, b);
    SliceParityBits(a);
    SliceParityBits(b);
    SliceParityBits(c);
    forall x: nat | x < 5
      ensures RowBit(SliceParity(c), x) == RowBit(RowXor(SliceParity(a), SliceParity(b)), x)
    {
      RowXorBit(SliceParity(a), SliceParity(b), x);
      BitXor(a, b, x);
      BitXor(a, b, x + 5);
      BitXor(a, b, x + 10);
      BitXor(a, b, x + 15);
      BitXor(a, b, x + 20);
    }
    RowsEqual(SliceParity(c), RowXor(SliceParity(a), SliceParity(b)));
  }

  /** Entry z of the parity of a state is the parity of slice z. */
  lemma GetParityOfStateBits(state: seq<SliceValue>)
    ensures forall z: nat, x: nat :: 0 <= z < |state| ==>
      (RowBit(GetParityOfState(state)[z], x) == (x < 5 && ColumnParity(state[z], x)))
  {
    forall z: nat, x: nat | 0 <= z < |state|
      ensures RowBit(GetParityOfState(state)[z], x) == (x < 5 && ColumnParity(state[z], x))
    {
      SliceParityBits(state[z]);
    }
  }

  /** Bit z of lane x of the parity of a state given as lanes is C[x, z]. */
  lemma GetParityOfLanesBits(state: seq<LaneValue>)
    requires |state| == 25
    ensures forall x: nat, z: nat :: x < 5 ==>
      (LaneBit(GetParityOfLanes(state)[x], z) == SheetColumnParity(state, x, z))
  {
    forall x: nat, z: nat | x < 5
      ensures LaneBit(GetParityOfLanes(state)[x], z) == SheetColumnParity(state, x, z)
    {
      var l0, l1, l2, l3, l4 := state[LaneIndex(x, 0)], state[LaneIndex(x, 1)],
        state[LaneIndex(x, 2)], state[LaneIndex(x, 3)], state[LaneIndex(x, 4)];
      LaneXorBit(l0, l1, z);
      LaneXorBit(LaneXor(l0, l1), l2, z);
      LaneXorBit(LaneXor(LaneXor(l0, l1), l2), l3, z);
      LaneXorBit(LaneXor(LaneXor(LaneXor(l0, l1), l2), l3), l4, z);
    }
  }
}
