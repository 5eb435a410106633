/** Floating-point inputs: exact values, with NaN and the infinities as one tagged case. */
module Floats {

  datatype Guarded<T> = Finite(r: T) | NonFinite

  type Float = Guarded<real>

  type RVec = int -> real
  type RMat = (int, int) -> real
}
