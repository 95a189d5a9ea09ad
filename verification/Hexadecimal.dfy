/** Hexadecimal digits, for writing down words of many bits. */
module Hexadecimal {
  /** A digit, its highest bit first. */
  datatype Hex = Hex(a: bool, b: bool, c: bool, d: bool)

  const H0 := Hex(false, false, false, false)
  const H1 := Hex(false, false, false, true)
  const H2 := Hex(false, false, true, false)
  const H3 := Hex(false, false, true, true)
  const H4 := Hex(false, true, false, false)
  const H5 := Hex(false, true, false, true)
  const H6 := Hex(false, true, true, false)
  const H7 := Hex(false, true, true, true)
  const H8 := Hex(true, false, false, false)
  const H9 := Hex(true, false, false, true)
  const HA := Hex(true, false, true, false)
  const HB := Hex(true, false, true, true)
  const HC := Hex(true, true, false, false)
  const HD := Hex(true, true, false, true)
  const HE := Hex(true, true, true, false)
  const HF := Hex(true, true, true, true)

  function Bit(h: Hex, q: nat): bool
    requires q < 4
  {
    if q == 0 then h.a else if q == 1 then h.b else if q == 2 then h.c else h.d
  }
}
