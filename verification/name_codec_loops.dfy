/** The two loops of the 6-bit encoding, which fill their destinations in place. */
module NameCodecLoops {
  import opened Bytes
  import opened NameCodec

  /** The block the encoder uses last: the last whole one, or the rest padded with zeros. */
  method LastBlock(src: seq<byte>) returns (last: array<byte>)
    requires src != []
    ensures fresh(last) && last.Length == 3
    ensures last[..] == ZeroPadded(src)[|ZeroPadded(src)| - 3..]
  {
    hide ZeroPadded;
    var n := |src|;
    Padding(src);
    last := new byte[3];
    if n % 3 == 0 {
      last[0], last[1], last[2] := src[n - 3], src[n - 2], src[n - 1];
    } else {
      last[2] := 0;
      if n % 3 == 1 {
        last[0] := src[n - 1];
        last[1] := 0;
      } else {
        last[0] := src[n - 2];
        last[1] := src[n - 1];
      }
    }
  }

  /** The 4 characters of a block: the statement sequence in the encoder's loop. */
  method EncodeBlock(a: byte, b: byte, c: byte) returns (d0: byte, d1: byte, d2: byte, d3: byte)
    ensures d0 == PortableFilenameChar(Sextet(a, b, c, 0)) && d1 == PortableFilenameChar(Sextet(a, b, c, 1))
    ensures d2 == PortableFilenameChar(Sextet(a, b, c, 2)) && d3 == PortableFilenameChar(Sextet(a, b, c, 3))
  {
    d0 := PortableFilenameChar((a >> 2) & 0x3F);
    d1 := PortableFilenameChar(((a << 4) & 0x30) | ((b >> 4) & 0x0F));
    d2 := PortableFilenameChar(((b << 2) & 0x3C) | ((c >> 6) & 0x03));
    d3 := PortableFilenameChar(c & 0x3F);
  }

  /** One round of the encoder's loop: a block's characters go to dst from o on. */
  method PutBlock(dst: array<byte>, o: nat, a: byte, b: byte, c: byte)
    requires o + 4 <= dst.Length
    modifies dst
    ensures forall k: nat :: k < 4 ==> dst[o + k] == PortableFilenameChar(Sextet(a, b, c, k))
    ensures forall j :: 0 <= j < o || o + 4 <= j < dst.Length ==> dst[j] == old(dst[j])
  {
    var d0, d1, d2, d3 := EncodeBlock(a, b, c);
    dst[o], dst[o + 1], dst[o + 2], dst[o + 3] := d0, d1, d2, d3;
  }

  method PutBlocks(dst: array<byte>, at: nat, src: seq<byte>, last: array<byte>, numBlocks: nat)
    requires at + 4 * numBlocks <= dst.Length && dst != last
    requires src != [] && |ZeroPadded(src)| == 3 * numBlocks && EncodedSize(|src|) == 4 * numBlocks
    requires last.Length == 3 && last[..] == ZeroPadded(src)[3 * numBlocks - 3..]
    modifies dst
    ensures forall j :: 0 <= j < 4 * numBlocks ==> dst[at + j] == Encode(src)[j]
    ensures forall j :: 0 <= j < at || at + 4 * numBlocks <= j < dst.Length ==> dst[j] == old(dst[j])
  {
    hide Sextet, PortableFilenameChar, EncodedChar, Encode, ZeroPadded, EncodedSize;
    ghost var p := ZeroPadded(src);
    var blockNum := 0;
    while blockNum < numBlocks
      invariant 0 <= blockNum <= numBlocks
      invariant forall j :: 0 <= j < 4 * blockNum ==> dst[at + j] == Encode(src)[j]
      invariant forall j :: 0 <= j < at || at + 4 * blockNum <= j < dst.Length ==> dst[j] == old(dst[j])
    {
      var a, b, c;
      if blockNum == numBlocks - 1 {
        a, b, c := last[0], last[1], last[2];
        assert last[..][0] == p[3 * blockNum] && last[..][1] == p[3 * blockNum + 1];
        assert last[..][2] == p[3 * blockNum + 2];
      } else {
        a, b, c := src[blockNum * 3], src[blockNum * 3 + 1], src[blockNum * 3 + 2];
      }
      assert a == p[3 * blockNum] && b == p[3 * blockNum + 1] && c == p[3 * blockNum + 2];
      EncodedAt(src, blockNum, 0);
      EncodedAt(src, blockNum, 1);
      EncodedAt(src, blockNum, 2);
      EncodedAt(src, blockNum, 3);
      PutBlock(dst, at + 4 * blockNum, a, b, c);
      blockNum := blockNum + 1;
    }
  }

  lemma BlockCount(s: seq<byte>)
    ensures var k := |s| / 3 + if |s| % 3 == 0 then 0 else 1;
            EncodedSize(|s|) == 4 * k && |ZeroPadded(s)| == 3 * k
  {
    assert |s| == 3 * (|s| / 3) + |s| % 3;
  }

  /** ecryptfs_encode_for_filename; without a destination it only reports the size.
      The characters go to dst from `at` on, and nothing else changes. */
  method EncodeForFilename(dst: array?<byte>, at: nat, src: seq<byte>) returns (dstSize: nat)
    requires dst != null ==> at + EncodedSize(|src|) <= dst.Length
    modifies if dst == null then {} else {dst}
    ensures dstSize == EncodedSize(|src|)
    ensures dst != null ==> dst[..] == old(dst[..at]) + Encode(src) + old(dst[at + dstSize..])
  {
    hide Sextet, PortableFilenameChar, EncodedChar, Encode, ZeroPadded, EncodedSize;
    BlockCount(src);
    if src == [] {
      return 0;
    }
    var numBlocks := |src| / 3;
    if |src| % 3 != 0 {
      numBlocks := numBlocks + 1;
    }
    var last := LastBlock(src);
    dstSize := numBlocks * 4;
    if dst == null {
      return;
    }
    PutBlocks(dst, at, src, last, numBlocks);
  }

  /** What the decoder has put into an octet after its first field. */
  function Begun(d: byte, k: nat): byte {
    if k == 0 then d << 2 else if k == 1 then (d & 0xF) << 4 else d << 6
  }

  /** How many bits of the current octet are missing after i characters: 0, 6, 4 or 2. */
  function BitOffset(i: nat): nat { (4 - i % 4) % 4 * 2 }

  lemma OctetFinished(t: seq<byte>, i: nat)
    requires i % 4 != 0 && i < |t|
    ensures var d := FilenameRevMap(t[i]); var k := i % 4 - 1;
            DecodedOctet(t, DecodedSize(i)) == Begun(Field(t, i - 1), k) | Low(d, k)
  {
    hide FilenameRevMap;
    var q := i / 4;
    assert i == 4 * q + i % 4 && DecodedSize(i) == 3 * q + (i % 4 - 1) by {
      SizeAt(q, i % 4);
    }
    assert DecodedSize(i) / 3 == q && DecodedSize(i) % 3 == i % 4 - 1;
  }

  lemma SizeAt(q: nat, r: nat)
    requires r < 4
    ensures DecodedSize(4 * q + r) == 3 * q + if r == 0 then 0 else r - 1
    ensures MaxDecodedSize(4 * q + r) == 3 * q + r
  {
  }

  /** The octet the decoder writes for the next character is inside the buffer. */
  lemma InBuffer(i: nat, n: nat)
    requires i < n
    ensures DecodedSize(i) < MaxDecodedSize(n)
    ensures i % 4 != 0 ==> DecodedSize(i + 1) == DecodedSize(i) + 1
    ensures i % 4 == 0 ==> DecodedSize(i + 1) == DecodedSize(i)
    ensures i % 4 == 1 || i % 4 == 2 ==> DecodedSize(i) + 1 < MaxDecodedSize(n)
  {
    SizeAt(i / 4, i % 4);
    SizeAt(n / 4, n % 4);
    if i % 4 == 3 {
      SizeAt(i / 4 + 1, 0);
    } else {
      SizeAt(i / 4, i % 4 + 1);
    }
  }

  function Low(d: byte, k: nat): byte {
    if k == 0 then d >> 4 else if k == 1 then d >> 2 else d
  }

  /** The switch of the decoder's loop: finish the current octet and begin the next one. */
  method PutField(dst: array<byte>, o: nat, bits: nat, srcByte: byte) returns (o': nat, bits': nat)
    requires bits in {0, 2, 4, 6} && o < dst.Length && (bits in {4, 6} ==> o + 1 < dst.Length)
    modifies dst
    ensures bits == 0 ==> bits' == 6 && o' == o && dst[o] == Begun(srcByte, 0)
    ensures bits == 6 ==> bits' == 4 && o' == o + 1 && dst[o'] == Begun(srcByte, 1)
    ensures bits == 6 ==> dst[o] == old(dst[o]) | Low(srcByte, 0)
    ensures bits == 4 ==> bits' == 2 && o' == o + 1 && dst[o'] == Begun(srcByte, 2)
    ensures bits == 4 ==> dst[o] == old(dst[o]) | Low(srcByte, 1)
    ensures bits == 2 ==> bits' == 0 && o' == o + 1 && dst[o] == old(dst[o]) | Low(srcByte, 2)
    ensures forall j :: 0 <= j < dst.Length && j != o && (j != o' || bits == 2) ==> dst[j] == old(dst[j])
  {
    o' := o;
    if bits == 0 {
      dst[o'] := srcByte << 2;
      bits' := 6;
    } else if bits == 6 {
      dst[o'] := dst[o'] | (srcByte >> 4);
      o' := o' + 1;
      dst[o'] := (srcByte & 0xF) << 4;
      bits' := 4;
    } else if bits == 4 {
      dst[o'] := dst[o'] | (srcByte >> 2);
      o' := o' + 1;
      dst[o'] := srcByte << 6;
      bits' := 2;
    } else {
      dst[o'] := dst[o'] | srcByte;
      o' := o' + 1;
      bits' := 0;
    }
  }

  /** ecryptfs_decode_from_filename; without a destination it reports ecryptfs_max_decoded_size,
      and with one of that size it writes nowhere behind it, whatever the length. */
  method DecodeFromFilename(dst: array?<byte>, src: seq<byte>) returns (dstSize: nat)
    requires dst != null ==> MaxDecodedSize(|src|) <= dst.Length
    modifies if dst == null then {} else {dst}
    ensures dst == null ==> dstSize == MaxDecodedSize(|src|)
    ensures dst != null ==> dstSize == DecodedSize(|src|) <= dst.Length && dst[..dstSize] == Decode(src)
    ensures dst != null ==> dst[MaxDecodedSize(|src|)..] == old(dst[MaxDecodedSize(|src|)..])
  {
    hide FilenameRevMap, DecodedOctet, Low, Begun, MaxDecodedSize, DecodedSize;
    if dst == null {
      return MaxDecodedSize(|src|);
    }
    ghost var max := MaxDecodedSize(|src|);
    SizeAt(0, 0);
    var currentBitOffset := 0;
    var srcByteOffset, dstByteOffset := 0, 0;
    while srcByteOffset < |src|
      invariant 0 <= srcByteOffset <= |src|
      invariant currentBitOffset == BitOffset(srcByteOffset)
      invariant dstByteOffset == DecodedSize(srcByteOffset) <= max
      invariant srcByteOffset % 4 != 0 ==>
        && dstByteOffset < max
        && dst[dstByteOffset] == Begun(Field(src, srcByteOffset - 1), srcByteOffset % 4 - 1)
      invariant forall j :: 0 <= j < dstByteOffset ==> dst[j] == DecodedOctet(src, j)
      invariant forall j :: max <= j < dst.Length ==> dst[j] == old(dst[j])
    {
      var srcByte := FilenameRevMap(src[srcByteOffset]);
      InBuffer(srcByteOffset, |src|);
      if srcByteOffset % 4 != 0 {
        OctetFinished(src, srcByteOffset);
      }
      dstByteOffset, currentBitOffset := PutField(dst, dstByteOffset, currentBitOffset, srcByte);
      srcByteOffset := srcByteOffset + 1;
    }
    dstSize := dstByteOffset;
  }
}
