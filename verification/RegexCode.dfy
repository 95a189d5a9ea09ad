/** The byte code re_comp writes for a pattern. */
module RegexCode {
  import opened Pattern

  const CBRA: Byte := 1
  const CCHR: Byte := 2
  const CDOT: Byte := 4
  const CCL: Byte := 6
  const NCCL: Byte := 8
  const CDOL: Byte := 10
  const CEOF: Byte := 11
  const CKET: Byte := 12
  const CBACK: Byte := 18
  const CSTAR: Byte := 1     // or-ed into an opcode, all of which it may follow are even

  /** What a char holds of an int. */
  function Wrap(v: int): Byte {
    (v + 128) % 256 - 128
  }

  /** Code of an atom; f is the star flag. */
  function AtomCode(a: Atom, f: Byte): Text
    requires 0 <= f <= 1
  {
    match a
    case Char(c) => [CCHR + f, c]
    case Any => [CDOT + f]
    case Class(elems, neg) => [(if neg then NCCL else CCL) + f, Wrap(|Bytes(elems)| + 1)] + Bytes(elems)
  }

  function ItemCode(item: Item): Text {
    match item
    case One(a) => AtomCode(a, 0)
    case Star(a) => AtomCode(a, CSTAR)
    case Open(k) => [CBRA, Wrap(k)]
    case Close(k) => [CKET, Wrap(k)]
    case Back(k, star) => [if star then CBACK + CSTAR else CBACK, Wrap(k)]
  }

  function Code(items: seq<Item>): Text {
    if items == [] then [] else ItemCode(items[0]) + Code(items[1..])
  }

  function EndCode(dollar: bool): Text {
    (if dollar then [CDOL] else []) + [CEOF]
  }

  /** All that is written; the 0 at its end is never read. */
  function FullCode(re: RegExp): Text {
    Code(re.items) + EndCode(re.dollar) + [0]
  }
}
