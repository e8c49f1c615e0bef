/** Bytes, as buffers and sockets carry them. */
module Bytes {
  newtype byte = x: int | 0 <= x < 256

  ghost function Join(chunks: seq<seq<byte>>): seq<byte> {
    if chunks == [] then [] else chunks[0] + Join(chunks[1..])
  }
}
