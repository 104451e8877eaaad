/** The limits and the reserved parties that several parts of the bank share. */
module Limits {
  /** No clock reading before 2020 is believed. */
  const MIN_CLOCK := 1_577_836_800

  /** The largest number that stays exact in a browser: of a sequence, a time or a balance. */
  const MAX_SEQUENCE := 9_007_199_254_740_991

  /** The most one movement of money may be. */
  const MAX_AMOUNT := 1_000_000_000_000_000

  const MAX_U64 := 0xFFFF_FFFF_FFFF_FFFF

  const MEMBERS := 32
  const ISSUER := 0
  const ESCROW := 255
}
