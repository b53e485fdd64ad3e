/** Bounds on natural numbers, and the machine's unsigned 64-bit word. */
module Numbers {
  const U64_MAX := 0xFFFF_FFFF_FFFF_FFFF

  function Min(a: nat, b: nat): nat {
    if a <= b then a else b
  }

  function Max(a: nat, b: nat): nat {
    if a < b then b else a
  }
}
