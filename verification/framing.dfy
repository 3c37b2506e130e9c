/** The literals that lines of a reply start with, on both sides of the wire. */
module Framing {
  import opened Bytes

  const OK_LINE: seq<Byte> := [79, 75]
  const OK_SPACE: seq<Byte> := [79, 75, 32]
  const ERR_PREFIX: seq<Byte> := [69, 82, 82, 32]
  const EV_PREFIX: seq<Byte> := [69, 86, 32]
}
