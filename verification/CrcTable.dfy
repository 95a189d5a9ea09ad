/** The table-driven CRC-32 of the sender and the receiver. */
module CrcTable {
  import opened Bits
  import opened Crc
  import opened Words

  ghost predicate Ready(table: array<nat>)
    reads table
  {
    table.Length == 256 && forall i :: 0 <= i < 256 ==> table[i] == Entry(i)
  }

  /** crc32_init */
  method Init(table: array<nat>)
    requires table.Length == 256
    modifies table
    ensures Ready(table)
  {
    hide Entry;
    for i := 0 to 256
      invariant forall j :: 0 <= j < i ==> table[j] == Entry(j)
    {
      table[i] := ShiftByte(i);
    }
  }

  /** Its inner loop. */
  method ShiftByte(i: nat) returns (c: nat)
    ensures c == Entry(i)
  {
    hide Xor;
    c := i;
    for k := 0 to 8
      invariant Steps(c, 8 - k) == Steps(i, 8)
    {
      XorZero(c / 2);
      XorCommutes(POLYNOMIAL, c / 2);
      c := if c % 2 == 1 then Xor(POLYNOMIAL, c / 2) else c / 2;
    }
  }

  /** crc32_update, over length bytes from start on. */
  method UpdateCrc(table: array<nat>, crc: nat, buffer: array<Byte>, start: nat, length: nat) returns (r: nat)
    requires Ready(table) && start + length <= buffer.Length
    ensures r == Update(crc, buffer[start..start + length])
  {
    hide Xor, Entry;
    r := crc;
    ghost var bytes := buffer[start..start + length];
    for i := 0 to length
      invariant Update(r, bytes[i..]) == Update(crc, bytes)
    {
      TableStep(r, buffer[start + i]);
      assert bytes[i..][1..] == bytes[i + 1..];
      r := Xor(table[Xor(r, buffer[start + i]) % 256], r / 256);
    }
  }

  /** crc32_calculate: the CRC of the bytes, as a bit-by-bit division gives it. */
  method Calculate(table: array<nat>, buffer: array<Byte>, start: nat, length: nat) returns (r: nat)
    requires Ready(table) && start + length <= buffer.Length
    ensures r == Crc32(buffer[start..start + length])
    ensures r == Xor(Divide(ONES, Wire(buffer[start..start + length])), ONES)
  {
    hide Xor, Update, Divide;
    r := UpdateCrc(table, ONES, buffer, start, length);
    UpdateDivides(ONES, buffer[start..start + length]);
    r := Xor(r, ONES);
  }
}
