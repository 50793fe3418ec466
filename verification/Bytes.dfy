/** Text and wire data as bytes. UTF-8 text is its byte sequence: every delimiter used here is ASCII. */
module Bytes {

  type Byte = b: int | 0 <= b < 256

  type Text = seq<Byte>

  const NUL: Byte := 0
  const LF: Byte := 10
  const CR: Byte := 13

  predicate EndsWith(t: Text, b: Byte) {
    t != [] && t[|t| - 1] == b
  }

  function DropLast(t: Text): Text
    requires t != []
  {
    t[..|t| - 1]
  }

  /** ASCII letters in lower case. */
  function Lower(b: Byte): Byte {
    if 65 <= b <= 90 then b + 32 else b
  }
}
