/** Bytes, and 32-bit words as four of them, most significant first. */
module Bytes {

  type byte = b: int | 0 <= b < 256
  type word = w: int | 0 <= w < 0x1_0000_0000

  /** binary.BigEndian.PutUint32. */
  function PutUint32(w: word): (b: seq<byte>)
    ensures |b| == 4
  {
    var hi: int := w / 256 / 256;
    [hi / 256, hi % 256, w / 256 % 256, w % 256]
  }

  /** binary.BigEndian.Uint32. */
  function Uint32(b: seq<byte>): word
    requires |b| == 4
  {
    var hi: int := b[0] as int * 256 + b[1];
    (hi * 256 + b[2]) * 256 + b[3]
  }

  lemma WordBytes(w: word)
    ensures Uint32(PutUint32(w)) == w
  {
    var a := w / 256;
    assert a / 256 * 256 + a % 256 == a && a * 256 + w % 256 == w;
  }

  lemma BytesWord(b: seq<byte>)
    requires |b| == 4
    ensures PutUint32(Uint32(b)) == b
  {
    var hi: int := b[0] as int * 256 + b[1];
    var a := hi * 256 + b[2];
    var w := a * 256 + b[3];
    assert w / 256 == a && w % 256 == b[3];
    assert a / 256 == hi && a % 256 == b[2];
    assert hi / 256 == b[0] && hi % 256 == b[1];
  }
}
