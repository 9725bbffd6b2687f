/**
 The key packets of a file header (gaes/ecryptfs_4.7_kocl/keystore.c): what the writers of tags 1, 3
 and 11 store, and what the parsers make of it, as functions on octets. The methods of
 key_packet_set.dfy are proved to compute these functions with their cursors.

 A writer is taken from the point where the key record holds the encrypted key.
 */
module KeyPackets {
  import opened Wrappers
  import opened Arithmetic
  import opened Kernel
  import opened Bytes
  import opened PacketLength
  import opened CipherCodes
  import opened Tag70

  const SALT_SIZE := 8
  const MAX_ENCRYPTED_KEY_BYTES := 512
  const TAG_1: byte := 0x01
  const TAG_3: byte := 0x8C
  const TAG_11: byte := 0xED
  const CIPHER_RSA: byte := 1
  const CONSOLE: seq<byte> := [0x5F, 0x43, 0x4F, 0x4E, 0x53, 0x4F, 0x4C, 0x45]
  const HASH_ITERATIONS := 65536

  /** The fields of ecryptfs_crypt_stat that the packets carry. */
  datatype CryptStat = CryptStat(cipher: string, keySize: nat)

  /** AES-192 keys are wrapped as 32 octets. */
  function WrappedKeySize(cs: CryptStat): nat {
    if cs.keySize == 24 && cs.cipher == "aes" then 32 else cs.keySize
  }

  /** What the mount has for one of the file's key signatures. */
  datatype KeyRecord =
    | Password(sig: string, salt: seq<byte>, encKey: seq<byte>)
    | PrivateKey(sig: string, encKey: seq<byte>)
    | Missing(rc: Errno)
    | OtherType

  predicate ValidRecord(cs: CryptStat, r: KeyRecord) {
    match r
    case Password(sig, salt, encKey) =>
      IsSig(sig) && |salt| == SALT_SIZE && |encKey| == WrappedKeySize(cs) <= MAX_ENCRYPTED_KEY_BYTES
    case PrivateKey(sig, encKey) => IsSig(sig) && |encKey| <= MAX_ENCRYPTED_KEY_BYTES
    case _ => true
  }

  /* ----- the packets ----- */

  /** A tag, the length of what follows it, and the fields. */
  function Packet(tag: byte, head: seq<byte>, contents: seq<byte>): seq<byte>
    requires |head| + |contents| < 65536
  {
    [tag] + Encoded(|head| + |contents|) + head + contents
  }

  function Tag3Head(code: byte, salt: seq<byte>): seq<byte> { [0x04, code, 0x03, 0x01] + salt + [0x60] }

  function Tag3(code: byte, salt: seq<byte>, encKey: seq<byte>): seq<byte>
    requires |salt| == SALT_SIZE && |encKey| <= MAX_ENCRYPTED_KEY_BYTES
  {
    Packet(TAG_3, Tag3Head(code, salt), encKey)
  }

  function Tag11Head(): (h: seq<byte>)
    ensures |h| == 14 && h[0] == 0x62 && h[1] == 0x08
  {
    [0x62, 0x08] + CONSOLE + [0, 0, 0, 0]
  }

  function Tag11(contents: seq<byte>): seq<byte>
    requires |contents| <= MAX_ENCRYPTED_KEY_BYTES
  {
    Packet(TAG_11, Tag11Head(), contents)
  }

  function Tag1Head(sig: seq<byte>): seq<byte> { [0x03] + sig + [CIPHER_RSA] }

  function Tag1(sig: seq<byte>, encKey: seq<byte>): seq<byte>
    requires |sig| == SIG_SIZE && |encKey| <= MAX_ENCRYPTED_KEY_BYTES
  {
    Packet(TAG_1, Tag1Head(sig), encKey)
  }

  /* ----- the parsers, on the octets from the packet's first one on ----- */

  /** What a parser of the header returns; the model stops with -EFAULT where the code would read
      behind the octets it was given. */
  datatype Tag3Parsed = Tag3Parsed(salt: seq<byte>, iterations: nat, encKey: seq<byte>, crypt: CryptStat, size: nat)
  datatype Tag11Parsed = Tag11Parsed(contents: seq<byte>, size: nat)
  datatype Tag1Parsed = Tag1Parsed(sig: string, encKey: seq<byte>, size: nat)

  /** RFC 2440, section 3.6.1.3 */
  function Iterations(c: byte): nat {
    (16 + ValueOf(c) % 16) * Pow2(ValueOf(c) / 16 + 6)
  }

  function KeySizeFor(code: byte, encKeySize: nat): nat {
    if code == AES_192 then 24 else encKeySize
  }

  /** parse_tag_3_packet; `init` is what ecryptfs_init_crypt_ctx returns. */
  function ParseTag3(data: seq<byte>, max: int, init: CryptStat -> int): (r: Result<Tag3Parsed, Errno>)
    ensures r.Success? ==> 0 < r.value.size <= |data|
  {
    if max < SALT_SIZE + 7 then Failure(-EINVAL)
    else if |data| < 3 then Failure(-EFAULT)
    else if data[0] != TAG_3 then Failure(-EINVAL)
    else
      match Decoded(data[1..])
      case None => Failure(-EINVAL)
      case Some(len) => ParseTag3Body(data, 1 + len.octets, len.size, max, init)
  }

  function ParseTag3Body(data: seq<byte>, at: nat, body: nat, max: int, init: CryptStat -> int)
    : (r: Result<Tag3Parsed, Errno>)
    ensures r.Success? ==> 0 < r.value.size <= |data|
  {
    if body < SALT_SIZE + 5 then Failure(-EINVAL)
    else if at + body > max then Failure(-EINVAL)
    else if body - (SALT_SIZE + 5) > MAX_ENCRYPTED_KEY_BYTES then Failure(-EINVAL)
    else if at + body > |data| then Failure(-EFAULT)
    else if data[at] != 0x04 then Failure(-EINVAL)
    else
      match NameFor(data[at + 1])
      case None => Failure(-EINVAL)
      case Some(cipher) =>
        var n := body - (SALT_SIZE + 5);
        var crypt := CryptStat(cipher, KeySizeFor(data[at + 1], n));
        if init(crypt) != 0 then Failure(init(crypt))
        else if data[at + 2] != 0x03 || data[at + 3] != 0x01 then Failure(-ENOSYS)
        else
          var salt := data[at + 4..at + 4 + SALT_SIZE];
          Success(Tag3Parsed(salt, Iterations(data[at + 12]), data[at + 13..at + 13 + n], crypt, at + body))
  }

  /** parse_tag_11_packet */
  function ParseTag11(data: seq<byte>, maxContents: nat, max: int): (r: Result<Tag11Parsed, Errno>)
    ensures r.Success? ==> 0 < r.value.size <= |data|
  {
    if max < 16 then Failure(-EINVAL)
    else if |data| < 3 then Failure(-EFAULT)
    else if data[0] != TAG_11 then Failure(-EINVAL)
    else
      match Decoded(data[1..])
      case None => Failure(-EINVAL)
      case Some(len) => ParseTag11Body(data, 1 + len.octets, len.size, maxContents, max)
  }

  function ParseTag11Body(data: seq<byte>, at: nat, body: nat, maxContents: nat, max: int)
    : (r: Result<Tag11Parsed, Errno>)
    ensures r.Success? ==> 0 < r.value.size <= |data|
  {
    if body < 14 then Failure(-EINVAL)
    else if at + body + 1 > max then Failure(-EINVAL)
    else if body - 14 > maxContents then Failure(-EINVAL)
    else if at + body > |data| then Failure(-EFAULT)
    else if data[at] != 0x62 || data[at + 1] != 0x08 then Failure(-EINVAL)
    else Success(Tag11Parsed(data[at + 14..at + body], at + body))
  }

  /** parse_tag_1_packet */
  function ParseTag1(data: seq<byte>, max: int): (r: Result<Tag1Parsed, Errno>)
    ensures r.Success? ==> 0 < r.value.size <= |data|
  {
    if max < 12 then Failure(-EINVAL)
    else if |data| < 3 then Failure(-EFAULT)
    else if data[0] != TAG_1 then Failure(-EINVAL)
    else
      match Decoded(data[1..])
      case None => Failure(-EINVAL)
      case Some(len) => ParseTag1Body(data, 1 + len.octets, len.size, max)
  }

  function ParseTag1Body(data: seq<byte>, at: nat, body: nat, max: int): (r: Result<Tag1Parsed, Errno>)
    ensures r.Success? ==> 0 < r.value.size <= |data|
  {
    if body < SIG_SIZE + 2 then Failure(-EINVAL)
    else if at + body > max then Failure(-EINVAL)
    else if at + body > |data| then Failure(-EFAULT)
    else if data[at] != 0x03 then Failure(-EINVAL)
    else if body - (SIG_SIZE + 2) > MAX_ENCRYPTED_KEY_BYTES then Failure(-EINVAL)
    else Success(Tag1Parsed(ToHex(data[at + 1..at + 1 + SIG_SIZE]), data[at + SIG_SIZE + 2..at + body], at + body))
  }

  /* ----- each parser undoes its writer, whatever follows the packet ----- */

  /** A packet's tag, length and fields, found again behind each other. */
  lemma PacketFront(tag: byte, head: seq<byte>, contents: seq<byte>, rest: seq<byte>)
    requires 0 < |head| + |contents| < 8384
    ensures var n := |head| + |contents|;
            var data := Packet(tag, head, contents) + rest;
            var at := 1 + |Encoded(n)|;
            && 2 <= at <= 3 && |Packet(tag, head, contents)| == at + n && |data| == at + n + |rest| && data[0] == tag
            && (|data| >= 3 ==> Decoded(data[1..]) == Some(Length(n, at - 1)))
            && data[at..at + |head|] == head
            && data[at + |head|..at + n] == contents
  {
    var n := |head| + |contents|;
    assert 1 <= |Encoded(n)| <= 2;
    hide Encoded, Decoded;
    var data := [tag] + Encoded(n) + head + contents + rest;
    if |data| >= 3 {
      LengthRoundTrip(n, head + contents + rest);
      assert data[1..] == Encoded(n) + (head + contents + rest);
    }
    Middle([tag] + Encoded(n), head, contents, rest);
  }

  lemma Middle(p: seq<byte>, head: seq<byte>, contents: seq<byte>, rest: seq<byte>)
    ensures var data, k := p + head + contents + rest, |p| + |head|;
            data[|p|..k] == head && data[k..k + |contents|] == contents
  {
  }

  lemma IterationsWritten()
    ensures Iterations(0x60) == HASH_ITERATIONS
  {
    assert ValueOf(0x60) == 0x60;
    assert Pow2(6) == 64;
    assert Pow2(9) == 512;
    assert Pow2(12) == 4096;
  }

  lemma Tag3HeadAt(code: byte, salt: seq<byte>, i: nat)
    requires |salt| == SALT_SIZE
    ensures var h := Tag3Head(code, salt);
            && |h| == 13 && h[0] == 0x04 && h[1] == code && h[2] == 0x03 && h[3] == 0x01
            && h[4..12] == salt && h[12] == 0x60
  {
  }

  lemma Tag3BodyRead(data: seq<byte>, at: nat, cs: CryptStat, salt: seq<byte>, encKey: seq<byte>, max: nat,
                     init: CryptStat -> int)
    requires |salt| == SALT_SIZE && |encKey| == WrappedKeySize(cs) <= MAX_ENCRYPTED_KEY_BYTES
    requires CodeFor(cs.cipher, cs.keySize) != 0 && init(cs) == 0
    requires at + 13 + |encKey| <= |data| && at + 13 + |encKey| <= max
    requires data[at..at + 13] == Tag3Head(CodeFor(cs.cipher, cs.keySize), salt)
    requires data[at + 13..at + 13 + |encKey|] == encKey
    ensures ParseTag3Body(data, at, 13 + |encKey|, max, init) ==
            Success(Tag3Parsed(salt, HASH_ITERATIONS, encKey, cs, at + 13 + |encKey|))
  {
    var code := CodeFor(cs.cipher, cs.keySize);
    var head := Tag3Head(code, salt);
    Tag3HeadAt(code, salt, 0);
    CodeNamesCipher(cs.cipher, cs.keySize);
    IterationsWritten();
    assert KeySizeFor(code, |encKey|) == cs.keySize;
    hide Tag3Head, CodeFor, NameFor, Iterations, KeySizeFor;
    HeadIn(data, at, head);
    assert data[at + 4..at + 12] == data[at..at + 13][4..12];
  }

  /** A tag 3 packet reads back with the cipher and the key size it was written for, AES-192's
      32-octet key included, and with 65536 iterations. */
  lemma Tag3RoundTrip(cs: CryptStat, salt: seq<byte>, encKey: seq<byte>, rest: seq<byte>, max: nat,
                      init: CryptStat -> int)
    requires |salt| == SALT_SIZE && |encKey| == WrappedKeySize(cs) <= MAX_ENCRYPTED_KEY_BYTES
    requires CodeFor(cs.cipher, cs.keySize) != 0 && init(cs) == 0
    requires |Tag3(CodeFor(cs.cipher, cs.keySize), salt, encKey)| <= max
    ensures var packet := Tag3(CodeFor(cs.cipher, cs.keySize), salt, encKey);
            ParseTag3(packet + rest, max, init) == Success(Tag3Parsed(salt, HASH_ITERATIONS, encKey, cs, |packet|))
  {
    var code := CodeFor(cs.cipher, cs.keySize);
    Tag3HeadAt(code, salt, 0);
    hide Packet, Encoded, Decoded, CodeFor, Tag3Head, ParseTag3Body, WrappedKeySize, Iterations, NameFor, KeySizeFor;
    assert Tag3(code, salt, encKey) == Packet(TAG_3, Tag3Head(code, salt), encKey);
    PacketFront(TAG_3, Tag3Head(code, salt), encKey, rest);
    Tag3BodyRead(Tag3(code, salt, encKey) + rest, 1 + |Encoded(13 + |encKey|)|, cs, salt, encKey, max, init);
  }

  function CountOf(n: nat): nat { (16 + n % 16) * Pow2(n / 16 + 6) }

  lemma CountSixteenOn(n: nat)
    ensures CountOf(n + 16) == 2 * CountOf(n)
  {
    SixteenOn(n);
    Factor(16 + n % 16, Pow2(n / 16 + 6));
  }

  lemma CountOneOn(n: nat)
    requires (n + 1) % 16 != 0
    ensures CountOf(n + 1) == CountOf(n) + Pow2(n / 16 + 6)
  {
    OneOn(n);
    Factor(16 + n % 16, Pow2(n / 16 + 6));
  }

  lemma FirstCount()
    ensures CountOf(0) == 1024
  {
    assert Pow2(6) == 64;
  }

  /** The coded counts of RFC 2440, section 3.6.1.3: from 1024 on, sixteenths of the same power of two are added,
      and 16 codes on the count doubles. */
  lemma IterationsAre(c: byte, d: byte)
    ensures Iterations(0) == 1024
    ensures ValueOf(d) == ValueOf(c) + 16 ==> Iterations(d) == 2 * Iterations(c)
    ensures ValueOf(d) == ValueOf(c) + 1 && ValueOf(d) % 16 != 0 ==>
              Iterations(d) == Iterations(c) + Pow2(ValueOf(c) / 16 + 6)
  {
    FirstCount();
    assert Iterations(0) == CountOf(0) && Iterations(c) == CountOf(ValueOf(c)) && Iterations(d) == CountOf(ValueOf(d));
    hide Iterations, CountOf, ValueOf, Pow2;
    if ValueOf(d) == ValueOf(c) + 16 {
      CountSixteenOn(ValueOf(c));
    } else if ValueOf(d) == ValueOf(c) + 1 && ValueOf(d) % 16 != 0 {
      CountOneOn(ValueOf(c));
    }
  }

  lemma SixteenOn(n: nat)
    ensures (n + 16) / 16 == n / 16 + 1 && (n + 16) % 16 == n % 16
  {
  }

  lemma OneOn(n: nat)
    requires (n + 1) % 16 != 0
    ensures (n + 1) / 16 == n / 16 && (n + 1) % 16 == n % 16 + 1
  {
  }

  lemma Factor(a: nat, p: nat)
    ensures a * (2 * p) == 2 * (a * p) && (a + 1) * p == a * p + p
  {
  }

  /** The wrapped key of an AES file fills whole blocks of 16 octets, with less than a block more than the key. */
  lemma WrappedIsWhole(keySize: nat)
    requires CodeFor("aes", keySize) != 0
    ensures var n := WrappedKeySize(CryptStat("aes", keySize)); n % 16 == 0 && keySize <= n < keySize + 16
  {
  }

  /** A tag 1 packet is as RFC 2440, section 5.1, has it for RSA: version 3, the octets of the signature, and 1. */
  lemma Tag1IsRsa(sig: seq<byte>, encKey: seq<byte>)
    requires |sig| == SIG_SIZE && |encKey| <= MAX_ENCRYPTED_KEY_BYTES
    ensures var at, packet := 1 + |Encoded(10 + |encKey|)|, Tag1(sig, encKey);
            && |packet| == at + 10 + |encKey| && packet[at..at + 10] == [3] + sig + [1] && packet[at + 10..] == encKey
  {
    PacketFront(TAG_1, Tag1Head(sig), encKey, []);
    assert Tag1(sig, encKey) + [] == Tag1(sig, encKey);
    hide Encoded, Packet;
  }

  /** The fields of a head are where it is in the data. */
  lemma HeadIn(data: seq<byte>, at: nat, head: seq<byte>)
    requires at + |head| <= |data| && data[at..at + |head|] == head
    ensures forall i: nat :: i < |head| ==> data[at + i] == head[i]
  {
    forall i: nat | i < |head| ensures data[at + i] == head[i] {
      assert data[at..at + |head|][i] == head[i];
    }
  }

  lemma Tag11BodyRead(data: seq<byte>, at: nat, contents: seq<byte>, max: nat)
    requires at + 14 + |contents| <= |data| && at + 14 + |contents| + 1 <= max
    requires data[at..at + 14] == Tag11Head() && data[at + 14..at + 14 + |contents|] == contents
    ensures ParseTag11Body(data, at, 14 + |contents|, |contents|, max) ==
            Success(Tag11Parsed(contents, at + 14 + |contents|))
  {
    hide Tag11Head;
    HeadIn(data, at, Tag11Head());
    assert data[at + 0] == Tag11Head()[0];
  }

  lemma Tag11RoundTrip(contents: seq<byte>, rest: seq<byte>, max: nat)
    requires |contents| <= MAX_ENCRYPTED_KEY_BYTES && |Tag11(contents)| + 1 <= max
    ensures ParseTag11(Tag11(contents) + rest, |contents|, max) == Success(Tag11Parsed(contents, |Tag11(contents)|))
  {
    PacketFront(TAG_11, Tag11Head(), contents, rest);
    hide Packet, Encoded, Decoded, Tag11Head, ParseTag11Body;
    Tag11BodyRead(Tag11(contents) + rest, 1 + |Encoded(14 + |contents|)|, contents, max);
  }

  /** A tag 11 packet begins as literal data of RFC 2440, section 5.9: binary, with the file name "_CONSOLE" and
      no date. */
  lemma Tag11IsLiteral(contents: seq<byte>, i: nat)
    requires |contents| <= MAX_ENCRYPTED_KEY_BYTES && i < 8
    ensures var at, h := 1 + |Encoded(14 + |contents|)|, Tag11Head();
            && |Tag11(contents)| >= at + 14 && Tag11(contents)[at..at + 14] == h
            && ValueOf(h[0]) == 'b' as int && ValueOf(h[1]) == |"_CONSOLE"|
            && ValueOf(h[2 + i]) == "_CONSOLE"[i] as int && h[10..14] == Zeros(4)
  {
    PacketFront(TAG_11, Tag11Head(), contents, []);
    assert Tag11(contents) + [] == Tag11(contents);
    hide Encoded, Packet;
  }

  lemma Tag1BodyRead(data: seq<byte>, at: nat, sig: string, encKey: seq<byte>, max: nat)
    requires IsSig(sig) && |encKey| <= MAX_ENCRYPTED_KEY_BYTES
    requires at + 10 + |encKey| <= |data| && at + 10 + |encKey| <= max
    requires data[at..at + 10] == Tag1Head(FromHex(sig)) && data[at + 10..at + 10 + |encKey|] == encKey
    ensures ParseTag1Body(data, at, 10 + |encKey|, max) == Success(Tag1Parsed(sig, encKey, at + 10 + |encKey|))
  {
    HexRoundTrip(sig);
    hide ToHex, FromHex, IsSig;
    var head := Tag1Head(FromHex(sig));
    HeadIn(data, at, head);
    assert data[at + 0] == head[0];
    assert data[at + 1..at + 9] == data[at..at + 10][1..9] == FromHex(sig);
  }

  /* ----- and accepts nothing else ----- */

  lemma Pieces(data: seq<byte>, at: nat, k: nat, end: nat)
    requires 1 <= at && at + k <= end <= |data|
    ensures data[..end] == [data[0]] + data[1..][..at - 1] + data[at..at + k] + data[at + k..end]
  {
  }

  /** The octets that a parser accepted are a packet: its tag, the length of what follows, and the fields. */
  lemma PacketAccepted(data: seq<byte>, tag: byte, len: Length, k: nat)
    requires |data| >= 3 && data[0] == tag && Decoded(data[1..]) == Some(len) && k <= len.size
    requires 1 + len.octets + len.size <= |data|
    ensures var at, end := 1 + len.octets, 1 + len.octets + len.size;
            len.size < 8384 && data[..end] == Packet(tag, data[at..at + k], data[at + k..end])
  {
    hide Encoded, Decoded;
    LengthRead(data[1..]);
    var at, end := 1 + len.octets, 1 + len.octets + len.size;
    var head, contents := data[at..at + k], data[at + k..end];
    assert |head| + |contents| == len.size;
    assert Packet(tag, head, contents) == [tag] + Encoded(len.size) + head + contents;
    hide Packet;
    Pieces(data, at, k, end);
  }

  /** A tag 1 packet that is accepted has version 3, a signature, some algorithm and the key. */
  lemma Tag1Accepted(data: seq<byte>, max: int)
    requires ParseTag1(data, max).Success?
    ensures var t := ParseTag1(data, max).value;
            && t.size <= max && |t.encKey| <= MAX_ENCRYPTED_KEY_BYTES
            && exists sig: seq<byte>, algorithm: byte :: IsTag1(data[..t.size], sig, algorithm, t)
  {
    var len := Decoded(data[1..]).value;
    var at, t := 1 + len.octets, ParseTag1(data, max).value;
    PacketAccepted(data, TAG_1, len, SIG_SIZE + 2);
    hide Decoded, Packet, ToHex;
    Tag1Fields(data, at);
    assert IsTag1(data[..t.size], data[at + 1..at + 9], data[at + 9], t);
  }

  predicate IsTag1(packet: seq<byte>, sig: seq<byte>, algorithm: byte, t: Tag1Parsed) {
    && |sig| == SIG_SIZE && ToHex(sig) == t.sig && |t.encKey| <= MAX_ENCRYPTED_KEY_BYTES
    && packet == Packet(TAG_1, [0x03] + sig + [algorithm], t.encKey)
  }

  lemma Tag1Fields(data: seq<byte>, at: nat)
    requires at + 10 <= |data|
    ensures data[at..at + 10] == [data[at]] + data[at + 1..at + 9] + [data[at + 9]]
  {
  }

  /** A tag 3 packet that is accepted has version 4, the code of a cipher that can be set up, an MD5 salted and
      iterated key and the octets of the session key. */
  lemma Tag3Accepted(data: seq<byte>, max: int, init: CryptStat -> int)
    requires ParseTag3(data, max, init).Success?
    ensures var t := ParseTag3(data, max, init).value;
            && t.size <= max && init(t.crypt) == 0
            && exists code: byte, count: byte :: IsTag3(data[..t.size], code, count, t)
  {
    var len := Decoded(data[1..]).value;
    var at := 1 + len.octets;
    PacketAccepted(data, TAG_3, len, SALT_SIZE + 5);
    hide Decoded, Packet;
    Tag3BodyAccepted(data, at, len.size, max, init);
  }

  lemma Tag3BodyAccepted(data: seq<byte>, at: nat, body: nat, max: int, init: CryptStat -> int)
    requires ParseTag3Body(data, at, body, max, init).Success?
    requires data[..at + body] == Packet(TAG_3, data[at..at + 13], data[at + 13..at + body])
    ensures var t := ParseTag3Body(data, at, body, max, init).value;
            && t.size == at + body <= max && init(t.crypt) == 0
            && exists code: byte, count: byte :: IsTag3(data[..t.size], code, count, t)
  {
    var t := ParseTag3Body(data, at, body, max, init).value;
    hide Packet, NameFor, Iterations, KeySizeFor;
    Tag3Fields(data, at);
    assert t.salt == data[at + 4..at + 12] && t.encKey == data[at + 13..at + body];
    assert IsTag3(data[..t.size], data[at + 1], data[at + 12], t);
  }

  predicate IsTag3(packet: seq<byte>, code: byte, count: byte, t: Tag3Parsed) {
    && |t.salt| == SALT_SIZE && |t.encKey| <= MAX_ENCRYPTED_KEY_BYTES
    && NameFor(code) == Some(t.crypt.cipher) && t.crypt.keySize == KeySizeFor(code, |t.encKey|)
    && Iterations(count) == t.iterations
    && packet == Packet(TAG_3, [0x04, code, 0x03, 0x01] + t.salt + [count], t.encKey)
  }

  lemma Tag3Fields(data: seq<byte>, at: nat)
    requires at + 13 <= |data|
    ensures data[at..at + 13]
            == [data[at], data[at + 1], data[at + 2], data[at + 3]] + data[at + 4..at + 12] + [data[at + 12]]
  {
  }

  /** A tag 11 packet that is accepted is binary, with a name of 8 octets, some name and date, and the contents. */
  lemma Tag11Accepted(data: seq<byte>, maxContents: nat, max: int)
    requires ParseTag11(data, maxContents, max).Success?
    ensures var t := ParseTag11(data, maxContents, max).value;
            && t.size < max && |t.contents| <= maxContents
            && exists name: seq<byte> :: IsTag11(data[..t.size], name, t)
  {
    var len := Decoded(data[1..]).value;
    var at, t := 1 + len.octets, ParseTag11(data, maxContents, max).value;
    PacketAccepted(data, TAG_11, len, 14);
    hide Decoded, Packet;
    Tag11Fields(data, at);
    assert IsTag11(data[..t.size], data[at + 2..at + 14], t);
  }

  predicate IsTag11(packet: seq<byte>, name: seq<byte>, t: Tag11Parsed) {
    |name| == 12 && 14 + |t.contents| < 65536 && packet == Packet(TAG_11, [0x62, 0x08] + name, t.contents)
  }

  lemma Tag11Fields(data: seq<byte>, at: nat)
    requires at + 14 <= |data|
    ensures data[at..at + 14] == [data[at], data[at + 1]] + data[at + 2..at + 14]
  {
  }

  lemma Tag1RoundTrip(sig: string, encKey: seq<byte>, rest: seq<byte>, max: nat)
    requires IsSig(sig) && |encKey| <= MAX_ENCRYPTED_KEY_BYTES && |Tag1(FromHex(sig), encKey)| <= max
    ensures var packet := Tag1(FromHex(sig), encKey);
            ParseTag1(packet + rest, max) == Success(Tag1Parsed(sig, encKey, |packet|))
  {
    hide Packet, Encoded, Decoded, FromHex, IsSig, ParseTag1Body, ToHex;
    assert Tag1(FromHex(sig), encKey) == Packet(TAG_1, Tag1Head(FromHex(sig)), encKey);
    PacketFront(TAG_1, Tag1Head(FromHex(sig)), encKey, rest);
    Tag1BodyRead(Tag1(FromHex(sig), encKey) + rest, 1 + |Encoded(10 + |encKey|)|, sig, encKey, max);
  }
}
