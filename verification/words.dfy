/**
 The template buffer as a sequence of 16-bit little-endian words: every field
 of the extended menu template is 2-byte aligned, a 16-bit field or a UTF-16
 code unit is one word, and a 32-bit field is two words, low half first.
 */
module Words {

  /** The two words of a 32-bit field, low half first. */
  function U32Words(x: bv32): (r: seq<bv16>)
    ensures |r| == 2
  {
    [(x & 0xFFFF) as bv16, (x >> 16) as bv16]
  }

  /** The 32-bit value stored at word offset `at`. */
  function ReadU32(w: seq<bv16>, at: nat): bv32
    requires at + 2 <= |w|
  {
    w[at] as bv32 | (w[at + 1] as bv32 << 16)
  }

  /** Reading back a stored 32-bit field gives the value stored. */
  lemma ReadU32Words(x: bv32, tail: seq<bv16>)
    ensures ReadU32(U32Words(x) + tail, 0) == x
  {
  }

  /** The same, for a field stored anywhere in the buffer. */
  lemma ReadU32At(w: seq<bv16>, at: nat, x: bv32)
    requires at + 2 <= |w| && w[at..at + 2] == U32Words(x)
    ensures ReadU32(w, at) == x
  {
    assert w[at] == U32Words(x)[0] && w[at + 1] == U32Words(x)[1];
  }
}
