/**
 * The two layouts of a state's parity and the conversions between them.
 *
 * As slices, the parity is a vector of L rows, bit x of row z being the
 * parity of column (x, z). As sheets, it is a vector of 5 lanes, bit z of
 * lane x being the parity of that same column. Converting between the two
 * transposes the 5 x L matrix of parity bits.
 */
module ParityConversion {
  import opened Bits
  import opened KeccakParts

  /** Lane x of the sheet layout: bit z is bit x of the slice parity at z. */
  function SheetOfSlices(paritySlices: seq<RowValue>, x: nat): (lane: LaneValue)
    requires |paritySlices| <= MaxLaneSize
    ensures lane < Pow2(|paritySlices|)
  {
    var column := seq(|paritySlices|, z requires 0 <= z < |paritySlices| => RowBit(paritySlices[z], x));
    FromBitsBelow(column);
    Pow2Monotone(|column|, 64);
    FromBits(column)
  }

  /** Row z of the slice layout: bit x is bit z of the sheet parity at x. */
  function SliceOfSheets(paritySheets: seq<LaneValue>, z: nat): (row: RowValue)
    requires |paritySheets| == 5
    ensures ValidRow(row)
  {
    var bits := seq(5, x requires 0 <= x < 5 => LaneBit(paritySheets[x], z));
    FromBitsBelow(bits);
    SmallPowersOfTwo();
    Pow2Monotone(5, 8);
    FromBits(bits)
  }

  /** The parity as 5 lanes, one per sheet, from the parity as one row per slice. */
  function FromSlicesToSheetsParity(paritySlices: seq<RowValue>): (paritySheets: seq<LaneValue>)
    requires |paritySlices| <= MaxLaneSize
    ensures |paritySheets| == 5
    ensures forall x :: 0 <= x < 5 ==> paritySheets[x] < Pow2(|paritySlices|)
  {
    seq(5, x requires 0 <= x < 5 => SheetOfSlices(paritySlices, x))
  }

  /**
   * The parity as one row per slice, from the parity as 5 lanes; laneSize
   * is the size the output vector was given beforehand.
   */
  function FromSheetsToSlicesParity(paritySheets: seq<LaneValue>, laneSize: nat): (paritySlices: seq<RowValue>)
    requires |paritySheets| == 5 && laneSize <= MaxLaneSize
    ensures |paritySlices| == laneSize
    ensures ValidRows(paritySlices)
  {
    seq(laneSize, z requires 0 <= z < laneSize => SliceOfSheets(paritySheets, z))
  }

  // ---------------------------------------------------------------------
  // Transposition
  // ---------------------------------------------------------------------

  /** Bit z of sheet x is bit x of slice z, and clear beyond the last slice. */
  lemma SlicesToSheetsBit(paritySlices: seq<RowValue>, x: nat, z: nat)
    requires |paritySlices| <= MaxLaneSize && x < 5
    ensures LaneBit(FromSlicesToSheetsParity(paritySlices)[x], z) == (z < |paritySlices| && RowBit(paritySlices[z], x))
  {
    BitFromBits(seq(|paritySlices|, k requires 0 <= k < |paritySlices| => RowBit(paritySlices[k], x)), z);
  }

  /** Bit x of slice z is bit z of sheet x, for the five x a row has. */
  lemma SheetsToSlicesBit(paritySheets: seq<LaneValue>, laneSize: nat, z: nat, x: nat)
    requires |paritySheets| == 5 && laneSize <= MaxLaneSize && z < laneSize
    ensures RowBit(FromSheetsToSlicesParity(paritySheets, laneSize)[z], x) == (x < 5 && LaneBit(paritySheets[x], z))
  {
    BitFromBits(seq(5, k requires 0 <= k < 5 => LaneBit(paritySheets[k], z)), x);
  }

  /** Converting slice parities to sheets and back gives the slice parities. */
  lemma SheetsOfSlicesRoundTrip(paritySlices: seq<RowValue>)
    requires |paritySlices| <= MaxLaneSize && ValidRows(paritySlices)
    ensures FromSheetsToSlicesParity(FromSlicesToSheetsParity(paritySlices), |paritySlices|) == paritySlices
  {
    var sheets := FromSlicesToSheetsParity(paritySlices);
    var back := FromSheetsToSlicesParity(sheets, |paritySlices|);
    forall z | 0 <= z < |paritySlices| ensures back[z] == paritySlices[z] {
      forall x: nat | x < 5 ensures RowBit(back[z], x) == RowBit(paritySlices[z], x) {
        SheetsToSlicesBit(sheets, |paritySlices|, z, x);
        SlicesToSheetsBit(paritySlices, x, z);
      }
      RowsEqual(back[z], paritySlices[z]);
    }
  }

  /**
   * Converting sheet parities confined to the low L bits to L slices and
   * back gives the sheet parities.
   */
  lemma SlicesOfSheetsRoundTrip(paritySheets: seq<LaneValue>, laneSize: nat)
    requires |paritySheets| == 5 && laneSize <= MaxLaneSize
    requires forall x :: 0 <= x < 5 ==> paritySheets[x] < Pow2(laneSize)
    ensures FromSlicesToSheetsParity(FromSheetsToSlicesParity(paritySheets, laneSize)) == paritySheets
  {
    var slices := FromSheetsToSlicesParity(paritySheets, laneSize);
    var back := FromSlicesToSheetsParity(slices);
    forall x | 0 <= x < 5 ensures back[x] == paritySheets[x] {
      SheetRoundTrip(paritySheets, laneSize, x);
    }
  }

  lemma SheetRoundTrip(paritySheets: seq<LaneValue>, laneSize: nat, x: nat)
    requires |paritySheets| == 5 && laneSize <= MaxLaneSize && x < 5
    requires paritySheets[x] < Pow2(laneSize)
    ensures FromSlicesToSheetsParity(FromSheetsToSlicesParity(paritySheets, laneSize))[x] == paritySheets[x]
  {
    var slices := FromSheetsToSlicesParity(paritySheets, laneSize);
    var lane := FromSlicesToSheetsParity(slices)[x];
    forall z: nat ensures Bit(lane, z) == Bit(paritySheets[x], z) {
      SlicesToSheetsBit(slices, x, z);
      if z < laneSize {
        SheetsToSlicesBit(paritySheets, laneSize, z, x);
      } else {
        BitAbove(paritySheets[x], laneSize, z);
      }
    }
    BitsEqual(lane, paritySheets[x]);
  }
}
