/** Frozen numbers shared by several components. */
module Constants {
  import opened Words

  /** The BabyBear modulus, 15 * 2^27 + 1. */
  const BABY_BEAR_P := 2_013_265_921
  const MIN_SEGMENT_PO2 := 15
  const MAX_SEGMENT_PO2 := 22

  predicate SupportedPo2(po2: uint32) {
    MIN_SEGMENT_PO2 <= po2 <= MAX_SEGMENT_PO2
  }
}
