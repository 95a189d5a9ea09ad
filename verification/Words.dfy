/** Machine words. */
module Words {
  type Byte = v: int | 0 <= v < 256
  type Int16 = v: int | -32768 <= v < 32768

  /** The 16-bit signed word with the low bits of v. */
  function Short(v: int): (r: int)
    ensures -32768 <= r < 32768
    ensures (r - v) % 65536 == 0
  {
    (v + 32768) % 65536 - 32768
  }
}
