/**
 The writers and parsers of gaes/ecryptfs_4.7_kocl/keystore.c for the packets of a file header, as
 they run: cursors into the header page, a budget that every packet reduces, and a list of tokens
 that grows at its front.
 */
module KeyPacketSet {
  import opened Wrappers
  import opened Kernel
  import opened Bytes
  import opened PacketLength
  import opened CipherCodes
  import opened Tag70
  import opened PacketBuffer
  import opened KeyPackets
  import opened KeySet

  /** A tag and the length of what follows it, at the cursor. */
  method PutHeader(dest: array<byte>, at: nat, tag: byte, n: nat, ghost from: seq<byte>, ghost done: seq<byte>)
    returns (i: nat)
    requires n < 65536 && Written(dest, from, done) && at == |done| && at + 3 <= dest.Length
    modifies dest
    ensures Written(dest, from, done + ([tag] + Encoded(n))) && i == |done| + 1 + |Encoded(n)|
  {
    hide Encoded, Written;
    i := Put(dest, at, [tag], from, done);
    i := PutLength(dest, i, n, from, done + [tag]);
    assert done + [tag] + Encoded(n) == done + ([tag] + Encoded(n));
  }

  lemma Joined(done: seq<byte>, tag: byte, head: seq<byte>, contents: seq<byte>)
    requires |head| + |contents| < 65536
    ensures done + ([tag] + Encoded(|head| + |contents|)) + head + contents == done + Packet(tag, head, contents)
    ensures |Packet(tag, head, contents)| == 1 + |Encoded(|head| + |contents|)| + |head| + |contents|
    ensures 1 <= |Encoded(|head| + |contents|)| <= 2
  {
  }

  /** write_tag_1_packet from encrypted_session_key_set on */
  method WriteTag1Packet(dest: array<byte>, at: nat, remaining: nat, sig: seq<byte>, encKey: seq<byte>,
                         ghost from: seq<byte>, ghost done: seq<byte>)
    returns (rc: int, packetSize: nat, remaining': nat)
    requires |sig| == SIG_SIZE && |encKey| <= MAX_ENCRYPTED_KEY_BYTES
    requires Written(dest, from, done) && at == |done| && at + remaining <= dest.Length
    modifies dest
    ensures Tag1Fits(encKey, remaining) ==>
              && rc == 0 && Written(dest, from, done + Tag1(sig, encKey))
              && packetSize == |Tag1(sig, encKey)| && remaining == remaining' + packetSize
    ensures !Tag1Fits(encKey, remaining) ==>
              rc == -EINVAL && packetSize == 0 && remaining' == remaining && Written(dest, from, done)
  {
    var maxPacketSize := 1 + 3 + 1 + SIG_SIZE + 1 + |encKey|;
    if maxPacketSize > remaining {
      return -EINVAL, 0, remaining;
    }
    var n := maxPacketSize - 4;
    ghost var front := done + ([TAG_1] + Encoded(n));
    Joined(done, TAG_1, Tag1Head(sig), encKey);
    hide Packet, Encoded, Written;
    var i := PutHeader(dest, at, TAG_1, n, from, done);
    i := Put(dest, i, [0x03], from, front);
    i := Put(dest, i, sig, from, front + [0x03]);
    i := Put(dest, i, [CIPHER_RSA], from, front + [0x03] + sig);
    assert front + [0x03] + sig + [CIPHER_RSA] == front + Tag1Head(sig);
    i := Put(dest, i, encKey, from, front + Tag1Head(sig));
    return 0, i - at, remaining - (i - at);
  }

  /** write_tag_11_packet */
  method WriteTag11Packet(dest: array<byte>, at: nat, remaining: nat, contents: seq<byte>,
                          ghost from: seq<byte>, ghost done: seq<byte>)
    returns (rc: int, packetSize: nat, remaining': nat)
    requires |contents| <= MAX_ENCRYPTED_KEY_BYTES
    requires Written(dest, from, done) && at == |done| && at + remaining <= dest.Length
    modifies dest
    ensures Tag11Fits(contents, remaining) ==>
              && rc == 0 && Written(dest, from, done + Tag11(contents))
              && packetSize == |Tag11(contents)| && remaining == remaining' + packetSize
    ensures !Tag11Fits(contents, remaining) ==>
              rc == -EINVAL && packetSize == 0 && remaining' == remaining && Written(dest, from, done)
  {
    var maxPacketSize := 1 + 3 + 1 + 1 + 8 + 4 + |contents|;
    if maxPacketSize > remaining {
      return -EINVAL, 0, remaining;
    }
    var n := maxPacketSize - 4;
    ghost var front := done + ([TAG_11] + Encoded(n));
    Joined(done, TAG_11, Tag11Head(), contents);
    hide Packet, Encoded, Written;
    var i := PutHeader(dest, at, TAG_11, n, from, done);
    i := Put(dest, i, [0x62], from, front);
    i := Put(dest, i, [0x08], from, front + [0x62]);
    i := Put(dest, i, CONSOLE, from, front + [0x62] + [0x08]);
    i := Put(dest, i, [0, 0, 0, 0], from, front + [0x62] + [0x08] + CONSOLE);
    assert front + [0x62] + [0x08] + CONSOLE + [0, 0, 0, 0] == front + Tag11Head();
    i := Put(dest, i, contents, from, front + Tag11Head());
    return 0, i - at, remaining - (i - at);
  }

  /** write_tag_3_packet from encrypted_session_key_set on; an unknown cipher is noticed when the
      packet has been begun. */
  method WriteTag3Packet(dest: array<byte>, at: nat, remaining: nat, cs: CryptStat, salt: seq<byte>, encKey: seq<byte>,
                         ghost from: seq<byte>, ghost done: seq<byte>)
    returns (rc: int, packetSize: nat, remaining': nat)
    requires |salt| == SALT_SIZE && |encKey| <= MAX_ENCRYPTED_KEY_BYTES
    requires Written(dest, from, done) && at == |done| && at + remaining <= dest.Length
    modifies dest
    ensures match WriteTag3(cs, salt, encKey, remaining)
            case Success(packet) =>
              && rc == 0 && Written(dest, from, done + packet)
              && packetSize == |packet| && remaining == remaining' + packetSize
            case Failure(e) =>
              && rc == e && packetSize == 0 && remaining' == remaining
              && |from| == dest.Length && dest[at + remaining..] == from[at + remaining..]
  {
    var maxPacketSize := 1 + 3 + 1 + 1 + 1 + 1 + SALT_SIZE + 1 + |encKey|;
    if maxPacketSize > remaining {
      BehindUntouched(dest, from, done, at + remaining);
      return -EINVAL, 0, remaining;
    }
    var n := maxPacketSize - 4;
    ghost var front := done + ([TAG_3] + Encoded(n));
    ghost var code := CodeFor(cs.cipher, cs.keySize);
    Tag3HeadAt(code, salt, 0);
    Joined(done, TAG_3, Tag3Head(code, salt), encKey);
    hide Packet, Encoded, Written, CodeFor;
    var i := PutHeader(dest, at, TAG_3, n, from, done);
    i := Put(dest, i, [0x04], from, front);
    var cipherCode := EcryptfsCodeForCipherString(cs.cipher, cs.keySize);
    if cipherCode == 0 {
      BehindUntouched(dest, from, front + [0x04], at + remaining);
      return -EINVAL, 0, remaining;
    }
    i := PutTag3Fields(dest, i, cipherCode, salt, from, front);
    i := Put(dest, i, encKey, from, front + Tag3Head(code, salt));
    return 0, i - at, remaining - (i - at);
  }

  method PutTag3Fields(dest: array<byte>, at: nat, code: byte, salt: seq<byte>,
                       ghost from: seq<byte>, ghost front: seq<byte>)
    returns (i: nat)
    requires |salt| == SALT_SIZE && Written(dest, from, front + [0x04]) && at == |front| + 1 && at + 12 <= dest.Length
    modifies dest
    ensures Written(dest, from, front + Tag3Head(code, salt)) && i == |front| + 13
  {
    hide Written;
    i := Put(dest, at, [code], from, front + [0x04]);
    i := Put(dest, i, [0x03], from, front + [0x04] + [code]);
    i := Put(dest, i, [0x01], from, front + [0x04] + [code] + [0x03]);
    i := Put(dest, i, salt, from, front + [0x04] + [code] + [0x03] + [0x01]);
    i := Put(dest, i, [0x60], from, front + [0x04] + [code] + [0x03] + [0x01] + salt);
    assert front + [0x04] + [code] + [0x03] + [0x01] + salt + [0x60] == front + Tag3Head(code, salt);
  }

  /** The records' packets behind what has already been written. */
  function Behind(done: seq<byte>, r: Result<seq<byte>, Errno>): Result<seq<byte>, Errno> {
    match r
    case Success(x) => Success(done + x)
    case Failure(e) => Failure(e)
  }

  lemma GenerateUnfold(cs: CryptStat, records: seq<KeyRecord>, k: nat, max: nat, done: seq<byte>)
    requires k < |records| && AllValid(cs, records)
    ensures match WriteRecord(cs, records[k], max)
            case Failure(e) => Behind(done, Generate(cs, records[k..], max)) == Failure(e)
            case Success(packets) =>
              && |packets| < max
              && Behind(done, Generate(cs, records[k..], max)) ==
                 Behind(done + packets, Generate(cs, records[k + 1..], max - |packets|))
  {
    assert records[k..][1..] == records[k + 1..];
    if WriteRecord(cs, records[k], max).Success? {
      RecordFits(cs, records[k], max);
      var packets := WriteRecord(cs, records[k], max).value;
      var others := Generate(cs, records[k + 1..], max - |packets|);
      hide WriteRecord, ValidRecord;
      if others.Success? {
        assert done + (packets + others.value) == done + packets + others.value;
      }
    }
  }

  /** The part of the generator's loop for one key signature. */
  method WriteOne(dest: array<byte>, len: nat, max: nat, cs: CryptStat, r: KeyRecord,
                  ghost from: seq<byte>, ghost done: seq<byte>)
    returns (rc: int, written: nat, max': nat)
    requires ValidRecord(cs, r)
    requires Written(dest, from, done) && len == |done| && len + max <= dest.Length
    modifies dest
    ensures match WriteRecord(cs, r, max)
            case Success(packets) =>
              && rc == 0 && Written(dest, from, done + packets) && written == |packets| && max == max' + written
            case Failure(e) => rc == e && |from| == dest.Length && dest[len + max..] == from[len + max..]
  {
    hide Tag1, Tag3, Tag11, FromHex, IsSig, Written, CodeFor;
    BehindUntouched(dest, from, done, len + max);
    match r {
      case Missing(e) => return e, 0, max;
      case OtherType => return -EINVAL, 0, max;
      case PrivateKey(sig, encKey) =>
        rc, written, max' := WriteTag1Packet(dest, len, max, FromHex(sig), encKey, from, done);
        if rc != 0 {
          BehindUntouched(dest, from, done, len + max);
        }
      case Password(sig, salt, encKey) =>
        rc, written, max' := WriteTag3Packet(dest, len, max, cs, salt, encKey, from, done);
        if rc == 0 {
          ghost var packet := WriteTag3(cs, salt, encKey, max).value;
          var more;
          rc, more, max' := WriteTag11Packet(dest, len + written, max', FromHex(sig), from, done + packet);
          if rc != 0 {
            BehindUntouched(dest, from, done + packet, len + max);
          } else {
            assert done + packet + Tag11(FromHex(sig)) == done + (packet + Tag11(FromHex(sig)));
            written := written + more;
          }
        }
    }
  }

  /** The loop of ecryptfs_generate_key_packet_set: at every round what is written and what remains
      add up to the budget, and nothing behind the budget is touched. */
  method WriteAll(dest: array<byte>, cs: CryptStat, records: seq<KeyRecord>, max: nat)
    returns (rc: int, len: nat, remaining: nat, ghost done: seq<byte>)
    requires max <= dest.Length && AllValid(cs, records)
    modifies dest
    ensures rc == 0 ==>
              && len + remaining == max && len == |done| && Written(dest, old(dest[..]), done)
              && Generate(cs, records, max) == if remaining > 0 then Success(done) else Failure(-EIO)
    ensures rc != 0 ==> Generate(cs, records, max) == Failure(rc) && dest[max..] == old(dest[max..])
  {
    hide WriteRecord, Generate, ValidRecord, Written, Behind, AllValid;
    ghost var from := dest[..];
    done := [];
    remaining := max;
    var k := 0;
    rc, len := 0, 0;
    Nothing(dest, from);
    assert records[0..] == records;
    BehindNothing(Generate(cs, records, max));
    while k < |records|
      invariant 0 <= k <= |records| && len + remaining == max && rc == 0
      invariant Written(dest, from, done) && len == |done|
      invariant AllValid(cs, records[k..])
      invariant Generate(cs, records, max) == Behind(done, Generate(cs, records[k..], remaining))
    {
      ValidFrom(cs, records, k);
      ValidFrom(cs, records, k + 1);
      GenerateUnfold(cs, records, k, remaining, done);
      var written, remaining';
      rc, written, remaining' := WriteOne(dest, len, remaining, cs, records[k], from, done);
      if rc != 0 {
        return;
      }
      done := done + WriteRecord(cs, records[k], remaining).value;
      len, remaining := len + written, remaining';
      k := k + 1;
    }
    GenerateEnd(cs, records[k..], remaining, done);
  }

  /** ecryptfs_generate_key_packet_set */
  method EcryptfsGenerateKeyPacketSet(dest: array<byte>, cs: CryptStat, records: seq<KeyRecord>, max: nat)
    returns (rc: int, len: nat)
    requires max <= dest.Length && AllValid(cs, records)
    modifies dest
    ensures match Generate(cs, records, max)
            case Success(packets) =>
              && rc == 0 && len == |packets| < max
              && dest[..] == packets + [0] + old(dest[len + 1..])
            case Failure(e) => rc == e && len == 0 && dest[max..] == old(dest[max..])
  {
    hide Generate, AllValid, Written;
    ghost var from := dest[..];
    var remaining;
    ghost var done;
    rc, len, remaining, done := WriteAll(dest, cs, records, max);
    if rc != 0 {
      return rc, 0;
    }
    Whole(dest, from, done);
    BehindUntouched(dest, from, done, max);
    if remaining > 0 {
      dest[len] := 0x00;
      assert dest[..] == done + [0] + from[len + 1..];
    } else {
      rc, len := -EIO, 0;
    }
  }

  lemma Nothing(dest: array<byte>, from: seq<byte>)
    requires dest[..] == from
    ensures Written(dest, from, [])
  {
  }

  lemma BehindNothing(r: Result<seq<byte>, Errno>)
    ensures Behind([], r) == r
  {
    if r.Success? {
      assert [] + r.value == r.value;
    }
  }

  lemma GenerateEnd(cs: CryptStat, records: seq<KeyRecord>, max: nat, done: seq<byte>)
    requires records == []
    ensures Behind(done, Generate(cs, records, max)) == if max > 0 then Success(done) else Failure(-EIO)
  {
    assert done + [] == done;
  }

  /* ----- the parsers ----- */

  /** parse_tag_3_packet on the packet at src[from..] */
  method ParseTag3Packet(src: seq<byte>, start: nat, max: int, init: CryptStat -> int)
    returns (rc: int, parsed: Option<Tag3Parsed>)
    requires start <= |src|
    ensures match ParseTag3(src[start..], max, init)
            case Success(t) => rc == 0 && parsed == Some(t)
            case Failure(e) => rc == e && parsed == None
  {
    hide ParseTag3Body, Decoded;
    if max < SALT_SIZE + 7 {
      return -EINVAL, None;
    }
    if |src| - start < 3 {
      return -EFAULT, None;
    }
    var packetSize := 0;
    if src[start + packetSize] != TAG_3 {
      return -EINVAL, None;
    }
    packetSize := packetSize + 1;
    var bodySize, lengthSize;
    rc, bodySize, lengthSize := EcryptfsParsePacketLength(src, start + packetSize);
    assert src[start + 1..] == src[start..][1..];
    if rc != 0 {
      return rc, None;
    }
    packetSize := packetSize + lengthSize;
    rc, parsed := ParseTag3Fields(src[start..], packetSize, bodySize, max, init);
  }

  method ParseTag3Fields(data: seq<byte>, at: nat, bodySize: nat, max: int, init: CryptStat -> int)
    returns (rc: int, parsed: Option<Tag3Parsed>)
    ensures match ParseTag3Body(data, at, bodySize, max, init)
            case Success(t) => rc == 0 && parsed == Some(t)
            case Failure(e) => rc == e && parsed == None
  {
    hide NameFor, Iterations;
    if bodySize < SALT_SIZE + 5 || at + bodySize > max {
      return -EINVAL, None;
    }
    var encryptedKeySize := bodySize - (SALT_SIZE + 5);
    if encryptedKeySize > MAX_ENCRYPTED_KEY_BYTES {
      return -EINVAL, None;
    }
    if at + bodySize > |data| {
      return -EFAULT, None;
    }
    var packetSize := at;
    if data[packetSize] != 0x04 {
      return -EINVAL, None;
    }
    packetSize := packetSize + 1;
    var cipher := EcryptfsCipherCodeToString(data[packetSize]);
    if cipher == None {
      return -EINVAL, None;
    }
    var crypt := CryptStat(cipher.value, if data[packetSize] == AES_192 then 24 else encryptedKeySize);
    packetSize := packetSize + 1;
    rc := init(crypt);
    if rc != 0 {
      return rc, None;
    }
    if data[packetSize] != 0x03 || data[packetSize + 1] != 0x01 {
      return -ENOSYS, None;
    }
    packetSize := packetSize + 2;
    var salt := data[packetSize..packetSize + SALT_SIZE];
    packetSize := packetSize + SALT_SIZE;
    var iterations := Iterations(data[packetSize]);
    packetSize := packetSize + 1;
    var encKey := data[packetSize..packetSize + encryptedKeySize];
    packetSize := packetSize + encryptedKeySize;
    parsed := Some(Tag3Parsed(salt, iterations, encKey, crypt, packetSize));
  }

  /** parse_tag_11_packet */
  method ParseTag11Packet(src: seq<byte>, start: nat, maxContents: nat, max: int)
    returns (rc: int, parsed: Option<Tag11Parsed>)
    requires start <= |src|
    ensures match ParseTag11(src[start..], maxContents, max)
            case Success(t) => rc == 0 && parsed == Some(t)
            case Failure(e) => rc == e && parsed == None
  {
    hide Decoded;
    if max < 16 {
      return -EINVAL, None;
    }
    if |src| - start < 3 {
      return -EFAULT, None;
    }
    if src[start] != TAG_11 {
      return -EINVAL, None;
    }
    var data := src[start..];
    var bodySize, lengthSize;
    rc, bodySize, lengthSize := EcryptfsParsePacketLength(src, start + 1);
    assert src[start + 1..] == data[1..];
    if rc != 0 {
      return rc, None;
    }
    var at := 1 + lengthSize;
    if bodySize < 14 || at + bodySize + 1 > max || bodySize - 14 > maxContents {
      return -EINVAL, None;
    }
    if at + bodySize > |data| {
      return -EFAULT, None;
    }
    if data[at] != 0x62 || data[at + 1] != 0x08 {
      return -EINVAL, None;
    }
    at := at + 2 + 12;
    parsed := Some(Tag11Parsed(data[at..at + (bodySize - 14)], at + (bodySize - 14)));
  }

  /** parse_tag_1_packet */
  method ParseTag1Packet(src: seq<byte>, start: nat, max: int) returns (rc: int, parsed: Option<Tag1Parsed>)
    requires start <= |src|
    ensures match ParseTag1(src[start..], max)
            case Success(t) => rc == 0 && parsed == Some(t)
            case Failure(e) => rc == e && parsed == None
  {
    hide Decoded, ToHex;
    if max < 12 {
      return -EINVAL, None;
    }
    if |src| - start < 3 {
      return -EFAULT, None;
    }
    if src[start] != TAG_1 {
      return -EINVAL, None;
    }
    var data := src[start..];
    var bodySize, lengthSize;
    rc, bodySize, lengthSize := EcryptfsParsePacketLength(src, start + 1);
    assert src[start + 1..] == data[1..];
    if rc != 0 {
      return rc, None;
    }
    var at := 1 + lengthSize;
    if bodySize < SIG_SIZE + 2 || at + bodySize > max {
      return -EINVAL, None;
    }
    if at + bodySize > |data| {
      return -EFAULT, None;
    }
    if data[at] != 0x03 || bodySize - (SIG_SIZE + 2) > MAX_ENCRYPTED_KEY_BYTES {
      return -EINVAL, None;
    }
    var sig := ToHex(data[at + 1..at + 1 + SIG_SIZE]);
    at := at + 1 + SIG_SIZE + 1;
    var encryptedKeySize := bodySize - (SIG_SIZE + 2);
    parsed := Some(Tag1Parsed(sig, data[at..at + encryptedKeySize], at + encryptedKeySize));
  }

  /** The first loop of ecryptfs_parse_packet_set */
  method ParsePackets(src: seq<byte>, init: CryptStat -> int, crypt: CryptStat) returns (rc: int, parsed: SetParsed)
    requires |src| < SIZE_T_RANGE
    ensures match Parse(src, 0, init, crypt, [])
            case Success(p) => rc == 0 && parsed == p
            case Failure(e) => rc == e
  {
    hide ParseTag1, ParseTag3, ParseTag11, ToHex, Parse;
    rc := 0;
    var i, cs, tokens := 0, crypt, [];
    parsed := SetParsed(tokens, cs, i);
    assert src[0..] == src;
    while true
      invariant 0 <= i <= |src|
      invariant Parse(src, 0, init, crypt, []) == Parse(src[i..], i, init, cs, tokens)
      decreases |src| - i
    {
      ParseRound(src[i..], i, init, cs, tokens);
      if i == |src| {
        return -EIO, parsed;
      }
      var max := Bound(i);
      if src[i] == TAG_3 {
        var t, s;
        rc, t := ParseTag3Packet(src, i, max, init);
        if rc != 0 {
          return -EIO, parsed;
        }
        assert src[i..][t.value.size..] == src[i + t.value.size..];
        rc, s := ParseTag11Packet(src, i + t.value.size, SIG_SIZE, max);
        if rc != 0 || |s.value.contents| != SIG_SIZE {
          return -EIO, parsed;
        }
        assert src[i..][t.value.size + s.value.size..] == src[i + t.value.size + s.value.size..];
        tokens := [PasswordToken(ToHex(s.value.contents), t.value.salt, t.value.iterations, t.value.encKey)] + tokens;
        cs := t.value.crypt;
        i := i + t.value.size + s.value.size;
      } else if src[i] == TAG_1 {
        var t;
        rc, t := ParseTag1Packet(src, i, max);
        if rc != 0 {
          return -EIO, parsed;
        }
        assert src[i..][t.value.size..] == src[i + t.value.size..];
        tokens := [PrivateKeyToken(t.value.sig, t.value.encKey)] + tokens;
        i := i + t.value.size;
      } else if src[i] == TAG_11 {
        return -EIO, parsed;
      } else {
        return 0, SetParsed(tokens, cs, i);
      }
    }
  }
}
