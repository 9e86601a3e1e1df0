# Keccak-f parity layer

A Dafny model of the parity layer of KeccakTools (`Sources/Keccak-fParity.h`).
The θ step of Keccak-f adds to every bit the parity of two neighbouring
columns, C[x, z] = A[x, 0, z] xor ... xor A[x, 4, z] (section 3.2.1 of
FIPS 202). The parity layer computes that column parity and keeps it in three
representations:

- per slice: one 5-bit row per slice z, bit x being C[x, z] (`GetParityOfState`);
- packed: up to 8 such rows in one 64-bit `PackedParity`, the row of slice z in
  bits 5z .. 5z+4 (`GetPackedParityFromParity`, `GetParityFromPackedParity`,
  `PackParity`, `UnpackParity`, `GetPackedParityOfState`);
- per sheet: 5 lanes, bit z of lane x being C[x, z] (`GetParityOfLanes`), with
  the transposition between the slice and sheet forms
  (`FromSlicesToSheetsParity`, `FromSheetsToSlicesParity`).

Machine words are natural numbers below 2^width (module `Bits`). The C
operators `&`, `|`, `^`, `<<` and `>>` are defined digit by digit, and `<<`
on a 64-bit `PackedParity` wraps around explicitly. Lemmas in `Bits` tie these
definitions back to arithmetic: `>>` is division by a power of two, truncation
is the remainder, and masking with 2^n - 1 is truncation. `KeccakParts` fixes
the slice, row and lane layout the header relies on. Those types are declared
in `Keccak-fParts.h`, which is not part of this model. The layout assumed is:
bit (x, y) of a slice at position x + 5y, bit z of a lane at position z, and a
vector of lanes indexed x + 5y.

Modules: `Bits`, `KeccakParts`, `ParityPacking`, `ParityComputation`,
`ParityConversion`, `ParityEquivalence`.

## Model

| member | source | states |
|---|---|---|
| ParityPacking.PackedParityField | Sources/Keccak-fParity.h:17-33 | for a row value 0..31 and z < 8, the packed parity of slice z holds that row in bits 5z .. 5z+4 and has every other bit clear |
| ParityPacking.PackedParityBit | Sources/Keccak-fParity.h:30-33 | bit i of the 64-bit word `parity << 5z` is bit i - 5z of the row when i >= 5z, and clear below 5z |
| ParityPacking.GetPackedParityFromParity | Sources/Keccak-fParity.h:30-33 | for z < 8 the row widened to 64 bits and shifted left by 5z equals parity * 2^(5z): no bit of the 8-bit row is shifted out of the word |
| ParityPacking.PackedParityArithmetic | Sources/Keccak-fParity.h:30-33 | the packed parity of slice z equals v * 2^(5z) modulo 2^64, the value of the widened row shifted left in a 64-bit word, and for z < 8 that product is below 2^64, so the wrap never takes effect |
| ParityPacking.GetParityFromPackedParity | Sources/Keccak-fParity.h:35-43 | the parity read from any packed word at any slice is always a valid row, 0..31 |
| ParityPacking.ParityFromPackedField | Sources/Keccak-fParity.h:35-43 | bit x of the parity read at slice z is bit 5z + x of the packed word for x < 5, and clear for x >= 5 |
| ParityPacking.ParityFromPackedArithmetic | Sources/Keccak-fParity.h:40-43 | the parity read at slice z equals (p / 2^(5z)) mod 32 |
| ParityPacking.SlotRoundTrip | Sources/Keccak-fParity.h:24-43 | reading slice z2 of the word that packs a valid row v at slice z gives v when z2 == z and 0 for every other slice |
| ParityPacking.PackParity | Sources/Keccak-fParity.h:45-50 | packing at most 8 valid rows gives a word below 2^(5L), L being the number of rows |
| ParityPacking.PackParityBit | Sources/Keccak-fParity.h:45-50 | bit 5z + x (x < 5) of the packed vector is bit x of entry z, and clear for z beyond the last entry |
| ParityPacking.UnpackParity | Sources/Keccak-fParity.h:52-58 | unpacking at lane size L <= 8 gives exactly L entries, each a valid row |
| ParityPacking.UnpackOfPack | Sources/Keccak-fParity.h:45-58 | unpacking the packing of L <= 8 valid rows at lane size L gives the same rows back |
| ParityPacking.PackOfUnpack | Sources/Keccak-fParity.h:45-58 | packing the rows unpacked at lane size L gives the word with its bits from 5L upwards cleared, and the word itself when it is below 2^(5L) |
| ParityComputation.SliceParity | Sources/Keccak-fParity.h:60-64 | the parity of any slice is a valid row, 0..31 |
| ParityComputation.SliceParityBits | Sources/Keccak-fParity.h:60-64 | bit x of the parity of a slice is the xor of the five bits of column x (the θ column parity), and clear for x >= 5 |
| ParityComputation.SliceParityOfZero | Sources/Keccak-fParity.h:60-64 | the parity of the all-zero slice is 0 |
| ParityComputation.SliceParityLinear | Sources/Keccak-fParity.h:60-64 | the parity is linear: the parity of the xor of two slices is the xor of their parities |
| ParityComputation.GetPackedParityOfState | Sources/Keccak-fParity.h:66-71 | for a state of at most 8 slices, the packed parity equals the per-slice parity vector packed with `PackParity` |
| ParityComputation.GetParityOfState | Sources/Keccak-fParity.h:73-78 | the per-slice parity of a state has one entry per slice, each a valid row |
| ParityComputation.GetParityOfStateBits | Sources/Keccak-fParity.h:73-78 | bit x of entry z of the per-slice parity is the column parity C[x, z] of slice z, and clear for x >= 5 |
| ParityComputation.GetParityOfLanes | Sources/Keccak-fParity.h:80-85 | the parity of a state of 25 lanes is a vector of 5 lanes |
| ParityComputation.GetParityOfLanesBits | Sources/Keccak-fParity.h:80-85 | bit z of lane x of that parity is the xor of bit z of the five lanes (x, 0) .. (x, 4) |
| ParityConversion.FromSlicesToSheetsParity | Sources/Keccak-fParity.h:87-93 | converting L slice parities gives 5 lanes, each below 2^L |
| ParityConversion.SlicesToSheetsBit | Sources/Keccak-fParity.h:87-93 | bit z of sheet x is bit x of slice parity z, and clear for z >= L |
| ParityConversion.FromSheetsToSlicesParity | Sources/Keccak-fParity.h:95-102 | converting 5 sheet parities into a vector sized to the lane size L gives exactly L valid rows |
| ParityConversion.SheetsToSlicesBit | Sources/Keccak-fParity.h:95-102 | bit x of slice parity z is bit z of sheet x for x < 5, and clear for x >= 5 |
| ParityConversion.SheetsOfSlicesRoundTrip | Sources/Keccak-fParity.h:87-102 | converting valid slice parities to sheets and back gives the slice parities |
| ParityConversion.SlicesOfSheetsRoundTrip | Sources/Keccak-fParity.h:87-102 | converting 5 sheet parities confined to the low L bits to L slices and back gives the sheet parities |
| ParityEquivalence.ParityLayoutsAgree | Sources/Keccak-fParity.h:73-93 | for one state given both as slices and as lanes, the sheet parity computed from the lanes equals the slice parity computed from the slices and converted to sheets |

## Left out

- The layouts and types of rows, slices and lanes are assumed as described above. `Keccak-fParts.h`, where they are defined, is not part of this model.
- Only `getPackedParityFromParity` and `getParityFromPackedParity` have bodies in the header. The other operations are modelled from their documentation and from the definition of the column parity in section 3.2.1 of FIPS 202.
- PackParity: slot z gets `getPackedParityFromParity(parity[z], z)`, and the slots are combined with `|`. Rows above 31 therefore spill into the next slot; the round-trip lemmas require valid rows.
- GetPackedParityFromParity and GetParityFromPackedParity require z < 8, and the packed operations require at most 8 slices. The limit is the capacity the header documents for a `PackedParity` (up to 8 parities, `Sources/Keccak-fParity.h:17`), not the word width. A 64-bit word would hold whole 5-bit slots for z up to 11, bits 60 to 63 hold only part of slot 12, and shifts by 64 bits or more are undefined in C. Calls with z from 8 to 12 are not modelled.
- Lane sizes are at most 64, the width of a lane word.
- The resizing and filling of `std::vector` output arguments is modelled by returning a sequence of the stated length. For `unpackParity` and `fromSheetsToSlicesParity`, the size the caller gave the output vector is the `laneSize` parameter.
- GetParityOfLanes: the 25-lane input is not required to be confined to the lane size; the per-bit lemma holds for all 64 bits.
- The rest of Keccak-f, the sponge construction and all I/O are outside the parity layer and not modelled.
