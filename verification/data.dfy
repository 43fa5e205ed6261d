/** Literal values a token can carry (drgns/src/data.rs). */
module Data {
  /** Largest value plus one of Rust's `u64`. */
  const U64_LIMIT: nat := 0x1_0000_0000_0000_0000

  /**
   * `PrimitiveValue` restricted to what the lexer produces: an unsigned
   * 64-bit integer, or a float whose `f64` value is not modelled.
   */
  datatype PrimitiveValue = Int(n: nat) | Float
}
