/**
 * The packed form of a state's parity: up to 8 slice parities of 5 bits
 * each in one 64-bit word, the parity of slice z in bits 5z .. 5z+4 (the
 * bits worth (0-31) * 32^z).
 */
module ParityPacking {
  import opened Bits
  import opened KeccakParts

  /** One 64-bit unsigned word holding up to 8 slice parities. */
  type PackedParity = p: nat | p < Pow2(64)

  /** Number of 5-bit slice parities a PackedParity has room for. */
  const PackedSlices: nat := 8

  /**
   * The PackedParity that holds `parity` at slice z and zero elsewhere:
   * the row widened to 64 bits and shifted up by 5z.
   */
  function GetPackedParityFromParity(parity: RowValue, z: nat): (p: PackedParity)
    requires z < PackedSlices
    ensures p == parity * Pow2(5 * z)
  {
    LowIsBelow(ShiftUp(parity, 5 * z), 64);
    ShiftLeftNoWrap(parity, 5 * z, 8, 64);
    ShiftLeft(parity, 5 * z, 64)
  }

  /**
   * The parity at slice z of a PackedParity: the word shifted down by 5z,
   * masked with 0x1F.
   */
  function GetParityFromPackedParity(parity: PackedParity, z: nat): (r: RowValue)
    requires z < PackedSlices
    ensures ValidRow(r)
  {
    SmallPowersOfTwo();
    Pow2Monotone(5, 8);
    AndBelow(ShiftRight(parity, 5 * z), 0x1F, 5);
    And(ShiftRight(parity, 5 * z), 0x1F)
  }

  /** The PackedParity holding parity[z] at slice z, for each slice of the vector. */
  function PackParity(parity: seq<RowValue>): (p: PackedParity)
    requires |parity| <= PackedSlices
    ensures ValidRows(parity) ==> p < Pow2(5 * |parity|)
  {
    if |parity| == 0 then 0
    else
      var n := |parity| - 1;
      var rest := PackParity(parity[..n]);
      var slot := GetPackedParityFromParity(parity[n], n);
      Pow2Monotone(5 * n, 64);
      Pow2Monotone(5 * |parity|, 64);
      OrBelow(rest, slot, 64);
      if ValidRows(parity) then
        assert ValidRows(parity[..n]) by {
          forall z | 0 <= z < n ensures ValidRow(parity[..n][z]) {
            assert parity[..n][z] == parity[z];
          }
        }
        Pow2Monotone(5 * n, 5 * |parity|);
        PackedParityBelow(parity[n], n);
        OrBelow(rest, slot, 5 * |parity|);
        Or(rest, slot)
      else
        Or(rest, slot)
  }

  /** The vector of the laneSize slice parities held in a PackedParity. */
  function UnpackParity(packedParity: PackedParity, laneSize: nat): (parity: seq<RowValue>)
    requires laneSize <= PackedSlices
    ensures |parity| == laneSize
    ensures ValidRows(parity)
  {
    seq(laneSize, z requires 0 <= z < laneSize => GetParityFromPackedParity(packedParity, z))
  }

  // ---------------------------------------------------------------------
  // Single slots
  // ---------------------------------------------------------------------

  /** Bit i of a packed single parity is bit i - 5z of the row. */
  lemma PackedParityBit(parity: RowValue, z: nat, i: nat)
    requires z < PackedSlices
    ensures Bit(GetPackedParityFromParity(parity, z), i) == (5 * z <= i && RowBit(parity, i - 5 * z))
  {
    BitShiftLeft(parity, 5 * z, 64, i);
    if 5 * z <= i && 64 <= i {
      BitAbove(parity, 8, i - 5 * z);
    }
  }

  /**
   * For a valid row v and z < 8, the packed parity has v in bits
   * 5z .. 5z+4 and every other bit clear.
   */
  lemma PackedParityField(v: RowValue, z: nat)
    requires ValidRow(v) && z < PackedSlices
    ensures forall i: nat ::
      (Bit(GetPackedParityFromParity(v, z), i) == (5 * z <= i < 5 * z + 5 && RowBit(v, i - 5 * z)))
  {
    ValidRowBits(v);
    forall i: nat ensures Bit(GetPackedParityFromParity(v, z), i)
      == (5 * z <= i < 5 * z + 5 && RowBit(v, i - 5 * z))
    {
      PackedParityBit(v, z, i);
    }
  }

  lemma PackedParityBelow(v: RowValue, z: nat)
    requires ValidRow(v) && z < PackedSlices
    ensures GetPackedParityFromParity(v, z) < Pow2(5 * z + 5)
  {
    PackedParityField(v, z);
    BoundFromBits(GetPackedParityFromParity(v, z), 5 * z + 5);
  }

  /** The parity read at slice z is the 5-bit field at bits 5z .. 5z+4. */
  lemma ParityFromPackedField(p: PackedParity, z: nat)
    requires z < PackedSlices
    ensures forall x: nat :: RowBit(GetParityFromPackedParity(p, z), x) == (x < 5 && Bit(p, 5 * z + x))
  {
    SmallPowersOfTwo();
    forall x: nat ensures RowBit(GetParityFromPackedParity(p, z), x) == (x < 5 && Bit(p, 5 * z + x)) {
      BitAnd(ShiftRight(p, 5 * z), 0x1F, x);
      BitOnes(5, x);
      BitShiftRight(p, 5 * z, x);
    }
  }

  /**
   * Writing a valid parity at slice z and reading slice z2 gives the parity
   * back when z2 == z, and 0 for every other slice.
   */
  lemma SlotRoundTrip(v: RowValue, z: nat, z2: nat)
    requires ValidRow(v) && z < PackedSlices && z2 < PackedSlices
    ensures GetParityFromPackedParity(GetPackedParityFromParity(v, z), z2) == if z == z2 then v else 0
  {
    var p := GetPackedParityFromParity(v, z);
    var r := GetParityFromPackedParity(p, z2);
    var expected: RowValue := if z == z2 then v else 0;
    ParityFromPackedField(p, z2);
    PackedParityField(v, z);
    forall x: nat | x < 5 ensures RowBit(r, x) == RowBit(expected, x) {
      assert RowBit(r, x) == Bit(p, 5 * z2 + x);
      if z != z2 {
        BitZero(x);
      }
    }
    RowsEqual(r, expected);
  }

  // ---------------------------------------------------------------------
  // Whole vectors
  // ---------------------------------------------------------------------

  /**
   * Writing slot z is C's multiplication by 2^(5z), wrapped to 64 bits; for
   * z < 8 the product stays below 2^64, so the wrap never takes effect.
   */
  lemma PackedParityArithmetic(v: RowValue, z: nat)
    requires z < PackedSlices
    ensures GetPackedParityFromParity(v, z) == (v * Pow2(5 * z)) % Pow2(64)
    ensures v * Pow2(5 * z) < Pow2(64)
  {
    ShiftUpIsProduct(v, 5 * z);
    LowIsRemainder(ShiftUp(v, 5 * z), 64);
  }

  /** Reading slot z is C's division by 2^(5z), reduced modulo 32. */
  lemma ParityFromPackedArithmetic(p: PackedParity, z: nat)
    requires z < PackedSlices
    ensures GetParityFromPackedParity(p, z) == (p / Pow2(5 * z)) % 32
  {
    SmallPowersOfTwo();
    ShiftRightIsQuotient(p, 5 * z);
    AndOnesIsLow(ShiftRight(p, 5 * z), 5);
    LowIsRemainder(ShiftRight(p, 5 * z), 5);
  }

  /** Bit 5z + x of a packed vector of valid rows is bit x of its entry z. */
  lemma {:induction false} PackParityBit(parity: seq<RowValue>, z: nat, x: nat)
    requires |parity| <= PackedSlices && ValidRows(parity) && x < 5
    ensures Bit(PackParity(parity), 5 * z + x) == (z < |parity| && RowBit(parity[z], x))
  {
    if |parity| == 0 {
      BitZero(5 * z + x);
    } else {
      var n := |parity| - 1;
      assert ValidRows(parity[..n]) by {
        forall k | 0 <= k < n ensures ValidRow(parity[..n][k]) {
          assert parity[..n][k] == parity[k];
        }
      }
      PackParityBit(parity[..n], z, x);
      BitOr(PackParity(parity[..n]), GetPackedParityFromParity(parity[n], n), 5 * z + x);
      PackedParityBit(parity[n], n, 5 * z + x);
      if z < n {
        assert parity[..n][z] == parity[z];
      } else if n < z {
        SmallPowersOfTwo();
        BitAbove(parity[n], 5, 5 * z + x - 5 * n);
      }
    }
  }

  /**
   * Unpacking the packing of a vector of L <= 8 valid rows, at lane size L,
   * gives the vector back.
   */
  lemma UnpackOfPack(parity: seq<RowValue>)
    requires |parity| <= PackedSlices && ValidRows(parity)
    ensures UnpackParity(PackParity(parity), |parity|) == parity
  {
    var p := PackParity(parity);
    var r := UnpackParity(p, |parity|);
    forall z | 0 <= z < |parity| ensures r[z] == parity[z] {
      ParityFromPackedField(p, z);
      forall x: nat | x < 5 ensures RowBit(r[z], x) == RowBit(parity[z], x) {
        PackParityBit(parity, z, x);
      }
      RowsEqual(r[z], parity[z]);
    }
  }

  /**
   * Packing the vector unpacked at lane size L <= 8 gives back the word
   * with every bit from 5L upwards cleared; a word that had none set comes
   * back unchanged.
   */
  lemma PackOfUnpack(p: PackedParity, laneSize: nat)
    requires laneSize <= PackedSlices
    ensures PackParity(UnpackParity(p, laneSize)) == And(p, Ones(5 * laneSize))
    ensures p < Pow2(5 * laneSize) ==> PackParity(UnpackParity(p, laneSize)) == p
  {
    var r := UnpackParity(p, laneSize);
    var q := PackParity(r);
    forall i: nat ensures Bit(q, i) == Bit(And(p, Ones(5 * laneSize)), i) {
      BitAnd(p, Ones(5 * laneSize), i);
      BitOnes(5 * laneSize, i);
      var z, x := i / 5, i % 5;
      assert i == 5 * z + x;
      PackParityBit(r, z, x);
      if z < laneSize {
        ParityFromPackedField(p, z);
      }
    }
    BitsEqual(q, And(p, Ones(5 * laneSize)));
    if p < Pow2(5 * laneSize) {
      forall i: nat ensures Bit(q, i) == Bit(p, i) {
        BitAnd(p, Ones(5 * laneSize), i);
        BitOnes(5 * laneSize, i);
        if 5 * laneSize <= i {
          BitAbove(p, 5 * laneSize, i);
        }
      }
      BitsEqual(q, p);
    }
  }
}
