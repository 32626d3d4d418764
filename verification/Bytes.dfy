/** Byte strings, and lists of them put together. */
module Bytes {
  newtype byte = x: int | 0 <= x < 256

  type bytes = seq<byte>

  function Flat(chunks: seq<bytes>): bytes {
    if chunks == [] then [] else chunks[0] + Flat(chunks[1..])
  }

  lemma {:induction false} FlatSnoc(chunks: seq<bytes>, chunk: bytes)
    ensures Flat(chunks + [chunk]) == Flat(chunks) + chunk
  {
    if chunks == [] {
      assert [chunk][1..] == [];
      assert chunk + [] == chunk && [] + chunk == chunk;
    } else {
      assert (chunks + [chunk])[1..] == chunks[1..] + [chunk];
      FlatSnoc(chunks[1..], chunk);
    }
  }
}
