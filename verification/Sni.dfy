/** The server name a client hides in its hello: a checksum and two layers of unpadded URL-safe base64. */
module Sni {
  import opened Base64
  import opened Bytes
  import opened Wrappers

  /** Any checksum of 32 bits; the source uses CRC-32. */
  type Checksum = seq<byte> -> word

  /** The alphabet of section 5 of RFC 4648. */
  function Letter(v: sextet): byte
  {
    if v < 26 then 65 + v
    else if v < 52 then 97 + (v - 26)
    else if v < 62 then 48 + (v - 52)
    else if v == 62 then 45
    else 95
  }

  function Value(c: byte): Option<sextet>
  {
    if 65 <= c <= 90 then Some(c - 65)
    else if 97 <= c <= 122 then Some(c - 97 + 26)
    else if 48 <= c <= 57 then Some(c - 48 + 52)
    else if c == 45 then Some(62)
    else if c == 95 then Some(63)
    else None
  }

  /** base64.RawURLEncoding. */
  function RawUrl(): Encoding { Encoding(Letter, Value) }

  lemma ValueOfLetter(v: sextet)
    ensures Value(Letter(v)) == Some(v)
  {
  }

  lemma LetterOfValue(c: byte)
    requires Value(c).Some?
    ensures Letter(Value(c).value) == c && !LineBreak(c)
  {
  }

  lemma RawUrlValid()
    ensures RawUrl().Valid()
  {
    var e := RawUrl();
    forall v: sextet
      ensures e.value(e.letter(v)) == Some(v)
    {
      ValueOfLetter(v);
    }
    forall c: byte
      ensures e.value(c).Some? ==> e.letter(e.value(c).value) == c && !LineBreak(c)
    {
      if Value(c).Some? {
        LetterOfValue(c);
      }
    }
  }

  function EncodeServerName(crc: Checksum, name: seq<byte>): seq<byte>
  {
    RawUrl().Encode(PutUint32(crc(name)) + RawUrl().Encode(name))
  }

  function DecodeServerName(crc: Checksum, s: seq<byte>): Option<seq<byte>>
  {
    match RawUrl().Decode(s)
    case None => None
    case Some(b) =>
      if |b| < 4 then None
      else
        match RawUrl().Decode(b[4..])
        case None => None
        case Some(v) => if crc(v) == Uint32(b[..4]) then Some(v) else None
  }

  /** Every name comes back, whatever the checksum. */
  lemma DecodeUndoesEncodeName(crc: Checksum, name: seq<byte>)
    ensures DecodeServerName(crc, EncodeServerName(crc, name)) == Some(name)
  {
    RawUrlValid();
    var b := PutUint32(crc(name)) + RawUrl().Encode(name);
    RawUrl().DecodeUndoesEncode(b);
    RawUrl().DecodeUndoesEncode(name);
    WordBytes(crc(name));
    assert b[..4] == PutUint32(crc(name)) && b[4..] == RawUrl().Encode(name);
  }

  /** The text carries the name behind the checksum of the name, and nothing else. */
  ghost predicate Carries(crc: Checksum, s: seq<byte>, name: seq<byte>, inner: seq<byte>)
  {
    RawUrl().Decode(s) == Some(PutUint32(crc(name)) + inner) && RawUrl().Decode(inner) == Some(name)
  }

  /** A text decodes to a name exactly when it carries the name behind the checksum of the name. */
  lemma DecodesExactly(crc: Checksum, s: seq<byte>, name: seq<byte>)
    ensures DecodeServerName(crc, s) == Some(name) <==> exists inner :: Carries(crc, s, name, inner)
  {
    if DecodeServerName(crc, s) == Some(name) {
      var b := RawUrl().Decode(s).value;
      BytesWord(b[..4]);
      assert b == PutUint32(crc(name)) + b[4..];
      assert Carries(crc, s, name, b[4..]);
    }
    if inner :| Carries(crc, s, name, inner) {
      var b := PutUint32(crc(name)) + inner;
      WordBytes(crc(name));
      assert b[..4] == PutUint32(crc(name)) && b[4..] == inner;
    }
  }

  /** Of the texts that decode to a name only one is canonical on both layers: its encoding. */
  lemma OneCanonicalText(crc: Checksum, s: seq<byte>, name: seq<byte>)
    requires DecodeServerName(crc, s) == Some(name)
    ensures s == EncodeServerName(crc, name)
            <==> RawUrl().Canonical(s) && RawUrl().Canonical(RawUrl().Decode(s).value[4..])
  {
    RawUrlValid();
    var e := RawUrl();
    var b := e.Decode(s).value;
    BytesWord(b[..4]);
    assert b == PutUint32(crc(name)) + b[4..];
    e.EncodeUndoesDecodeExactly(s);
    e.EncodeUndoesDecodeExactly(b[4..]);
    if s == EncodeServerName(crc, name) {
      var b' := PutUint32(crc(name)) + e.Encode(name);
      e.DecodeUndoesEncode(b');
      assert b'[4..] == e.Encode(name);
    }
  }
}
