/**
 * The two ways of computing the parity of one state agree: sheet by sheet
 * from its lanes, and slice by slice from its slices followed by the
 * conversion from slices to sheets.
 */
module ParityEquivalence {
  import opened Bits
  import opened KeccakParts
  import opened ParityComputation
  import opened ParityConversion

  /**
   * `slices` and `lanes` are the same state of lane size |slices|: bit
   * (x, y) of slice z is bit z of lane (x, y), and no lane has a bit set at
   * |slices| or above.
   */
  predicate SameState(slices: seq<SliceValue>, lanes: seq<LaneValue>)
  {
    && |lanes| == 25
    && |slices| <= MaxLaneSize
    && (forall i :: 0 <= i < 25 ==> lanes[i] < Pow2(|slices|))
    && (forall z, x, y :: 0 <= z < |slices| && 0 <= x < 5 && 0 <= y < 5 ==>
          SliceBit(slices[z], x, y) == LaneBit(lanes[LaneIndex(x, y)], z))
  }

  /** The column parity read from the lanes is the one read from the slices. */
  lemma ColumnParityAgrees(slices: seq<SliceValue>, lanes: seq<LaneValue>, x: nat, z: nat)
    requires SameState(slices, lanes) && x < 5
    ensures SheetColumnParity(lanes, x, z) == (z < |slices| && ColumnParity(slices[z], x))
  {
    if |slices| <= z {
      BitAbove(lanes[LaneIndex(x, 0)], |slices|, z);
      BitAbove(lanes[LaneIndex(x, 1)], |slices|, z);
      BitAbove(lanes[LaneIndex(x, 2)], |slices|, z);
      BitAbove(lanes[LaneIndex(x, 3)], |slices|, z);
      BitAbove(lanes[LaneIndex(x, 4)], |slices|, z);
    }
  }

  /**
   * For a state given both as slices and as lanes, the parity computed from
   * the lanes equals the parity computed from the slices converted to sheets.
   */
  lemma ParityLayoutsAgree(slices: seq<SliceValue>, lanes: seq<LaneValue>)
    requires SameState(slices, lanes)
    ensures GetParityOfLanes(lanes) == FromSlicesToSheetsParity(GetParityOfState(slices))
  {
    var bySheets := GetParityOfLanes(lanes);
    var parity := GetParityOfState(slices);
    var bySlices := FromSlicesToSheetsParity(parity);
    GetParityOfLanesBits(lanes);
    GetParityOfStateBits(slices);
    forall x | 0 <= x < 5 ensures bySheets[x] == bySlices[x] {
      forall z: nat ensures Bit(bySheets[x], z) == Bit(bySlices[x], z) {
        assert LaneBit(bySheets[x], z) == SheetColumnParity(lanes, x, z);
        SlicesToSheetsBit(parity, x, z);
        ColumnParityAgrees(slices, lanes, x, z);
        if z < |slices| {
          assert RowBit(parity[z], x) == ColumnParity(slices[z], x);
        }
      }
      BitsEqual(bySheets[x], bySlices[x]);
    }
  }
}
