/** The sizes that the generator's code and its interleavings share. */
module CsprngSizes {

  const RESEED_LIMIT: nat := 1048576
  const BLOCK: nat := 64
  const WORD: nat := 0x1_0000_0000
  const COUNTER_RANGE: nat := 0x1_0000_0000_0000_0000
}
