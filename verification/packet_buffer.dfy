/** A buffer that is filled from its start by a moving cursor, as the packet writers of
    gaes/ecryptfs_4.7_kocl/keystore.c do. */
module PacketBuffer {
  import opened Bytes
  import opened PacketLength

  /** A buffer that held `from` and into which `done` has been written from its start. */
  ghost predicate Written(dest: array<byte>, from: seq<byte>, done: seq<byte>)
    reads dest
  {
    |done| <= |from| && dest[..] == done + from[|done|..]
  }

  lemma BehindUntouched(dest: array<byte>, from: seq<byte>, done: seq<byte>, max: nat)
    requires Written(dest, from, done) && |done| <= max <= dest.Length
    ensures |from| == dest.Length && dest[max..] == from[max..]
  {
  }

  lemma Whole(dest: array<byte>, from: seq<byte>, done: seq<byte>)
    requires Written(dest, from, done)
    ensures |done| <= |from| && dest[..] == done + from[|done|..]
  {
  }

  /** Writing at the cursor appends to what has been written. */
  method Put(dest: array<byte>, i: nat, octets: seq<byte>, ghost from: seq<byte>, ghost done: seq<byte>)
    returns (i': nat)
    requires Written(dest, from, done) && i == |done| && i + |octets| <= dest.Length
    modifies dest
    ensures Written(dest, from, done + octets) && i' == |done + octets|
  {
    forall k | 0 <= k < |octets| {
      dest[i + k] := octets[k];
    }
    i' := i + |octets|;
    assert dest[..] == (done + octets) + from[i'..];
  }

  method PutLength(dest: array<byte>, i: nat, size: nat, ghost from: seq<byte>, ghost done: seq<byte>) returns (i': nat)
    requires size < 65536 && Written(dest, from, done) && i == |done| && i + 2 <= dest.Length
    modifies dest
    ensures Written(dest, from, done + Encoded(size)) && i' == |done + Encoded(size)|
  {
    hide Encoded;
    var rc, packetSizeLen := EcryptfsWritePacketLength(dest, i, size);
    i' := i + packetSizeLen;
    assert dest[..] == (done + Encoded(size)) + from[i'..];
  }
}
