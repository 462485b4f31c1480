/** The bounds of the two integer ranges the client speaks of. */
module Numbers {
  /** Number.MAX_SAFE_INTEGER. */
  const MAX_SAFE_INTEGER := 9_007_199_254_740_991

  const MAX_SIGNED_INT64 := 9_223_372_036_854_775_807
}
