/** Definitions shared by the modules: optional values (the model's stand-in for
    the NULL pointers the firmware returns), the uint16_t range and Min. */
module Wrappers {

  datatype Option<+T> = None | Some(value: T)

  /** One more than the largest value of a C uint16_t. */
  const U16_RANGE: nat := 0x1_0000

  function Min(a: nat, b: nat): nat { if a <= b then a else b }
}
