/** Octets, and the truncation a C assignment to one performs. */
module Bytes {
  type byte = bv8

  function ValueOf(b: byte): (n: nat)
    ensures n < 256
  {
    b as nat
  }

  function ByteOf(n: nat): (b: byte)
    ensures ValueOf(b) == n % 256
  {
    (n % 256) as byte
  }

  function Zeros(n: nat): seq<byte> { seq(n, _ => 0) }
}

/** The packet length format of gaes/ecryptfs_4.7_kocl/keystore.c (RFC 2440, section 4.2.2). */
module PacketLength {
  import opened Wrappers
  import opened Kernel
  import opened Bytes

  /** The octets the writer stores; it refuses sizes from 65536 on. */
  function Encoded(size: nat): seq<byte>
    requires size < 65536
  {
    if size < 192 then [ByteOf(size)]
    else [ByteOf((size - 192) / 256 + 192), ByteOf((size - 192) % 256)]
  }

  datatype Length = Length(size: nat, octets: nat)

  /** What the parser reads from the octets at the front of data. */
  function Decoded(data: seq<byte>): Option<Length>
    requires |data| >= 2
  {
    var first := ValueOf(data[0]);
    if first < 192 then Some(Length(first, 1))
    else if first < 224 then Some(Length((first - 192) * 256 + ValueOf(data[1]) + 192, 2))
    else None
  }

  /** The parser reads back what the writer wrote exactly for the sizes below 8384: from there
      on the first octet is 224 or more, and from 16576 on it wraps around. */
  lemma LengthRoundTrip(size: nat, rest: seq<byte>)
    requires size < 65536 && |Encoded(size) + rest| >= 2
    ensures Decoded(Encoded(size) + rest) == Some(Length(size, |Encoded(size)|)) <==> size < 8384
  {
    hide ByteOf, ValueOf;
    var data := Encoded(size) + rest;
    if size >= 192 {
      var high, low := (size - 192) / 256, (size - 192) % 256;
      assert size - 192 == high * 256 + low;
      assert ValueOf(data[0]) == (high + 192) % 256 && ValueOf(data[1]) == low;
    }
  }

  /** Concretely: a body of 8384 octets is written with the first octet 224, which the parser
      refuses, and one of 16576 octets reads back as empty. */
  lemma LengthNotReadBack()
    ensures ValueOf(Encoded(8384)[0]) == 224 && Decoded(Encoded(8384)) == None
    ensures ValueOf(Encoded(16576)[0]) == 0 && Decoded(Encoded(16576)) == Some(Length(0, 1))
  {
    hide ByteOf, ValueOf;
  }

  /** And the parser reads nothing else: it refuses exactly a first octet from 224 on, and what it reads are the
      octets that the writer stores for that size. */
  lemma LengthRead(data: seq<byte>)
    requires |data| >= 2
    ensures Decoded(data).None? <==> ValueOf(data[0]) >= 224
    ensures Decoded(data).Some? ==>
              Decoded(data).value.size < 8384 && Encoded(Decoded(data).value.size) == data[..Decoded(data).value.octets]
  {
    hide ByteOf, ValueOf;
    var first := ValueOf(data[0]);
    if first < 192 {
      SameOctet(ByteOf(first), data[0]);
      assert data[..1] == [data[0]];
    } else if first < 224 {
      var high, low := first - 192, ValueOf(data[1]);
      SplitOctets(high, low);
      SameOctet(ByteOf(high + 192), data[0]);
      SameOctet(ByteOf(low), data[1]);
      assert data[..2] == [data[0], data[1]];
    }
  }

  lemma SplitOctets(high: nat, low: nat)
    requires high < 32 && low < 256
    ensures (high * 256 + low) / 256 == high && (high * 256 + low) % 256 == low
  {
  }

  lemma SameOctet(a: byte, b: byte)
    ensures ValueOf(a) == ValueOf(b) ==> a == b
  {
  }

  /** ecryptfs_write_packet_length */
  method EcryptfsWritePacketLength(dest: array<byte>, at: nat, size: nat) returns (rc: int, packetSizeLength: nat)
    requires at + 2 <= dest.Length
    modifies dest
    ensures rc == if size < 65536 then 0 else -EINVAL
    ensures rc == 0 ==>
      && packetSizeLength == |Encoded(size)|
      && dest[..] == old(dest[..at]) + Encoded(size) + old(dest[at + packetSizeLength..])
    ensures rc != 0 ==> packetSizeLength == 0 && dest[..] == old(dest[..])
  {
    rc, packetSizeLength := 0, 0;
    if size < 192 {
      dest[at] := ByteOf(size);
      packetSizeLength := 1;
    } else if size < 65536 {
      dest[at] := ByteOf((size - 192) / 256 + 192);
      dest[at + 1] := ByteOf((size - 192) % 256);
      packetSizeLength := 2;
    } else {
      rc := -EINVAL;
    }
  }

  /** ecryptfs_parse_packet_length */
  method EcryptfsParsePacketLength(data: seq<byte>, at: nat) returns (rc: int, size: nat, lengthSize: nat)
    requires at + 2 <= |data|
    ensures match Decoded(data[at..])
            case Some(l) => rc == 0 && size == l.size && lengthSize == l.octets
            case None => rc == -EINVAL && size == 0 && lengthSize == 0
  {
    rc, size, lengthSize := 0, 0, 0;
    var first := ValueOf(data[at]);
    if first < 192 {
      size := first;
      lengthSize := 1;
    } else if first < 224 {
      size := (first - 192) * 256;
      size := size + ValueOf(data[at + 1]) + 192;
      lengthSize := 2;
    } else {
      rc := -EINVAL;
    }
  }
}
