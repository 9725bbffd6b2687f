/** The 6-bit text encoding of file names (gaes/ecryptfs_4.7_kocl/crypto.c). */
module NameCodec {
  import opened Bytes

  /** portable_filename_chars: - . 0-9 A-Z a-z */
  function PortableFilenameChar(d: byte): byte {
    if d == 0 then 0x2D
    else if d == 1 then 0x2E
    else if d < 12 then 0x30 + (d - 2)
    else if d < 38 then 0x41 + (d - 12)
    else 0x61 + (d - 38)
  }

  /** filename_rev_map: the value of a character, 0 for one outside the alphabet */
  function FilenameRevMap(c: byte): byte {
    if c == 0x2E then 1
    else if 0x30 <= c <= 0x39 then c - 0x30 + 2
    else if 0x41 <= c <= 0x5A then c - 0x41 + 12
    else if 0x61 <= c <= 0x7A then c - 0x61 + 38
    else 0
  }

  predicate InAlphabet(c: byte) {
    || c == 0x2D || c == 0x2E
    || 0x30 <= c <= 0x39 || 0x41 <= c <= 0x5A || 0x61 <= c <= 0x7A
  }

  function EncodedSize(n: nat): nat { (n + 2) / 3 * 4 }

  /** Every 4 characters give 3 octets; an incomplete last octet is dropped. */
  function DecodedSize(n: nat): nat { n * 3 / 4 }

  /** ecryptfs_max_decoded_size */
  function MaxDecodedSize(n: nat): nat { (n + 1) * 3 / 4 }

  function ZeroPadded(s: seq<byte>): (p: seq<byte>)
    ensures |p| == (|s| + 2) / 3 * 3 && s <= p
  {
    s + Zeros((3 - |s| % 3) % 3)
  }

  lemma Padding(s: seq<byte>)
    ensures |s| % 3 == 0 ==> ZeroPadded(s) == s
    ensures |s| % 3 == 1 ==> ZeroPadded(s) == s + [0, 0]
    ensures |s| % 3 == 2 ==> ZeroPadded(s) == s + [0]
  {
  }

  /** The k-th 6-bit field of a block of three octets. */
  function Sextet(a: byte, b: byte, c: byte, k: nat): byte {
    if k == 0 then (a >> 2) & 0x3F
    else if k == 1 then ((a << 4) & 0x30) | ((b >> 4) & 0x0F)
    else if k == 2 then ((b << 2) & 0x3C) | ((c >> 6) & 0x03)
    else c & 0x3F
  }

  /** The k-th octet of a block of four 6-bit fields. */
  function Octet(d0: byte, d1: byte, d2: byte, d3: byte, k: nat): byte {
    if k == 0 then (d0 << 2) | (d1 >> 4)
    else if k == 1 then ((d1 & 0xF) << 4) | (d2 >> 2)
    else (d2 << 6) | d3
  }

  function EncodedChar(p: seq<byte>, i: nat): byte
    requires |p| % 3 == 0 && i < |p| / 3 * 4
  {
    var b := i / 4 * 3;
    PortableFilenameChar(Sextet(p[b], p[b + 1], p[b + 2], i % 4))
  }

  function Encode(s: seq<byte>): (t: seq<byte>)
    ensures |t| == EncodedSize(|s|)
  {
    seq(EncodedSize(|s|), i requires 0 <= i < EncodedSize(|s|) => EncodedChar(ZeroPadded(s), i))
  }

  /** The value of a character of the encoded text, and 0 behind its end. */
  function Field(t: seq<byte>, i: nat): byte {
    if i < |t| then FilenameRevMap(t[i]) else 0
  }

  function DecodedOctet(t: seq<byte>, j: nat): byte {
    var b := j / 3 * 4;
    Octet(Field(t, b), Field(t, b + 1), Field(t, b + 2), Field(t, b + 3), j % 3)
  }

  function Decode(t: seq<byte>): (s: seq<byte>)
    ensures |s| == DecodedSize(|t|)
  {
    seq(DecodedSize(|t|), j requires 0 <= j < DecodedSize(|t|) => DecodedOctet(t, j))
  }

  lemma RevMapInverts(d: byte)
    requires d < 64
    ensures FilenameRevMap(PortableFilenameChar(d)) == d && InAlphabet(PortableFilenameChar(d))
  {
  }

  lemma CharInverts(c: byte)
    ensures FilenameRevMap(c) < 64
    ensures PortableFilenameChar(FilenameRevMap(c)) == c <==> InAlphabet(c)
  {
  }

  lemma BlockThere(a: byte, b: byte, c: byte, k: nat)
    requires k < 3
    ensures Octet(Sextet(a, b, c, 0), Sextet(a, b, c, 1), Sextet(a, b, c, 2), Sextet(a, b, c, 3), k) == [a, b, c][k]
    ensures forall m: nat :: m < 4 ==> Sextet(a, b, c, m) < 64
  {
  }

  lemma BlockBack(d0: byte, d1: byte, d2: byte, d3: byte, k: nat)
    requires k < 4 && d0 < 64 && d1 < 64 && d2 < 64 && d3 < 64
    ensures Sextet(Octet(d0, d1, d2, d3, 0), Octet(d0, d1, d2, d3, 1), Octet(d0, d1, d2, d3, 2), k)
            == [d0, d1, d2, d3][k]
  {
  }

  lemma EncodedAt(s: seq<byte>, q: nat, k: nat)
    requires q < (|s| + 2) / 3 && k < 4
    ensures var p := ZeroPadded(s);
            Encode(s)[4 * q + k] == PortableFilenameChar(Sextet(p[3 * q], p[3 * q + 1], p[3 * q + 2], k))
  {
    hide Sextet, PortableFilenameChar;
    assert (4 * q + k) / 4 == q && (4 * q + k) % 4 == k;
  }

  lemma EncodedField(s: seq<byte>, q: nat, k: nat)
    requires q < (|s| + 2) / 3 && k < 4
    ensures var p := ZeroPadded(s);
            Field(Encode(s), 4 * q + k) == Sextet(p[3 * q], p[3 * q + 1], p[3 * q + 2], k)
  {
    hide Sextet, Encode;
    var p := ZeroPadded(s);
    EncodedAt(s, q, k);
    BlockThere(p[3 * q], p[3 * q + 1], p[3 * q + 2], 0);
    RevMapInverts(Sextet(p[3 * q], p[3 * q + 1], p[3 * q + 2], k));
  }

  /** Decoding an encoded string gives it back, padded with zeros to whole blocks. */
  lemma DecodeEncode(s: seq<byte>)
    ensures Decode(Encode(s)) == ZeroPadded(s)
  {
    hide Sextet, Octet, Encode, ZeroPadded, Field;
    var p, t := ZeroPadded(s), Encode(s);
    forall j | 0 <= j < |p| ensures DecodedOctet(t, j) == p[j] {
      var q := j / 3;
      assert j == 3 * q + j % 3;
      EncodedField(s, q, 0);
      EncodedField(s, q, 1);
      EncodedField(s, q, 2);
      EncodedField(s, q, 3);
      BlockThere(p[3 * q], p[3 * q + 1], p[3 * q + 2], j % 3);
    }
  }

  lemma DecodedAt(t: seq<byte>, q: nat, k: nat)
    requires k < 3 && 3 * q + k < DecodedSize(|t|)
    ensures Decode(t)[3 * q + k] ==
            Octet(Field(t, 4 * q), Field(t, 4 * q + 1), Field(t, 4 * q + 2), Field(t, 4 * q + 3), k)
  {
    hide Octet, Field;
    assert (3 * q + k) / 3 == q && (3 * q + k) % 3 == k;
  }

  lemma EncodeDecodeAt(t: seq<byte>, i: nat)
    requires |t| % 4 == 0 && i < |t|
    ensures Encode(Decode(t))[i] == PortableFilenameChar(FilenameRevMap(t[i]))
  {
    hide Sextet, Octet, FilenameRevMap, PortableFilenameChar, Encode, Decode;
    var q, k := i / 4, i % 4;
    var s := Decode(t);
    assert |s| == |t| / 4 * 3 && ZeroPadded(s) == s;
    EncodedAt(s, q, k);
    assert i == 4 * q + k && 4 * q + 3 < |t|;
    DecodedAt(t, q, 0);
    DecodedAt(t, q, 1);
    DecodedAt(t, q, 2);
    CharInverts(t[4 * q]);
    CharInverts(t[4 * q + 1]);
    CharInverts(t[4 * q + 2]);
    CharInverts(t[4 * q + 3]);
    BlockBack(Field(t, 4 * q), Field(t, 4 * q + 1), Field(t, 4 * q + 2), Field(t, 4 * q + 3), k);
  }

  lemma EncodeInAlphabet(s: seq<byte>, i: nat)
    requires i < EncodedSize(|s|)
    ensures InAlphabet(Encode(s)[i])
  {
    var p, b := ZeroPadded(s), i / 4 * 3;
    BlockThere(p[b], p[b + 1], p[b + 2], 0);
    RevMapInverts(Sextet(p[b], p[b + 1], p[b + 2], i % 4));
  }

  /** Encoding a decoded text gives it back exactly when it is whole blocks of the alphabet. */
  lemma EncodeDecode(t: seq<byte>)
    ensures Encode(Decode(t)) == t <==> |t| % 4 == 0 && forall i :: 0 <= i < |t| ==> InAlphabet(t[i])
  {
    if |t| % 4 == 0 {
      forall i | 0 <= i < |t| ensures Encode(Decode(t))[i] == t[i] <==> InAlphabet(t[i]) {
        EncodeDecodeAt(t, i);
        CharInverts(t[i]);
      }
      assert |Encode(Decode(t))| == |t|;
    } else {
      assert |Encode(Decode(t))| % 4 == 0;
    }
  }
}
