/** Cluster timestamps: seconds `t` and an ordinal `i` inside the second, both 32 bits wide. */
module Timestamps {

  type uint32 = n: nat | n < 0x1_0000_0000

  datatype Timestamp = Timestamp(t: uint32, i: uint32)

  const ZeroTS := Timestamp(0, 0)

  /** Strict order of cluster timestamps: seconds first, then the ordinal. */
  predicate Before(a: Timestamp, b: Timestamp) {
    a.t < b.t || (a.t == b.t && a.i < b.i)
  }

  predicate AtMost(a: Timestamp, b: Timestamp) {
    !Before(b, a)
  }
}
