/**
 The tag 70 writer and parser of gaes/ecryptfs_4.7_kocl/keystore.c as they run: a cursor moves
 through the packet while its fields are written or read.
 */
module Tag70Packet {
  import opened Wrappers
  import opened Kernel
  import opened Bytes
  import opened PacketLength
  import opened CipherCodes
  import opened Tag70
  import opened PacketBuffer

  datatype SgEntry = SgEntry(offset: nat, length: nat)

  function TotalLength(sg: seq<SgEntry>): nat {
    if sg == [] then 0 else TotalLength(sg[..|sg| - 1]) + sg[|sg| - 1].length
  }

  lemma NextPage(address: nat, size: nat)
    requires size > 0
    ensures var rest := PAGE_SIZE - address % PAGE_SIZE;
            PagesOf(address, size) == if size < rest then 1 else 1 + PagesOf(address + rest, size - rest)
    ensures var rest := PAGE_SIZE - address % PAGE_SIZE;
            size >= rest ==> (address + rest) % PAGE_SIZE == 0
  {
  }

  /** virt_to_scatterlist: the entries cover the buffer page by page, or there are too few of them. */
  method VirtToScatterlist(address: nat, size: nat, sgSize: nat) returns (rc: int, sg: seq<SgEntry>)
    ensures PagesOf(address, size) <= sgSize ==> rc == |sg| == PagesOf(address, size) && TotalLength(sg) == size
    ensures PagesOf(address, size) > sgSize ==> rc == -ENOMEM
    ensures forall i :: 0 <= i < |sg| ==> sg[i].offset + sg[i].length <= PAGE_SIZE
    ensures forall i :: 0 < i < |sg| ==> sg[i].offset == 0
  {
    hide PagesOf;
    sg := [];
    var addr: nat, left: nat := address, size;
    while left > 0 && |sg| < sgSize
      invariant |sg| <= sgSize && left <= size
      invariant |sg| + PagesOf(addr, left) == PagesOf(address, size)
      invariant TotalLength(sg) + left == size
      invariant sg != [] && left > 0 ==> addr % PAGE_SIZE == 0
      invariant forall i :: 0 <= i < |sg| ==> sg[i].offset + sg[i].length <= PAGE_SIZE
      invariant forall i :: 0 < i < |sg| ==> sg[i].offset == 0
      decreases left
    {
      NextPage(addr, left);
      var offset := addr % PAGE_SIZE;
      var remainderOfPage := PAGE_SIZE - offset;
      var n := if left >= remainderOfPage then remainderOfPage else left;
      ghost var was := sg;
      sg := sg + [SgEntry(offset, n)];
      assert sg[..|sg| - 1] == was;
      addr := addr + n;
      left := left - n;
      SomePage(addr, left);
    }
    SomePage(addr, left);
    rc := if left > 0 then -ENOMEM else |sg|;
  }

  /** The loop that fills the front of the padded name from the hash chain. */
  method FillRandom(c: Crypto, key: seq<byte>, buf: array<byte>, n: nat)
    requires Sound(c) && n <= buf.Length
    modifies buf
    ensures buf[..n] == Pad(c, key, n) && buf[n..] == old(buf[n..])
  {
    var hash := c.hash(key);
    var j := 0;
    while j < n
      invariant 0 <= j <= n && hash == Chain(c, key, j / DIGEST_SIZE) && |hash| == DIGEST_SIZE
      invariant forall k :: 0 <= k < j ==> buf[k] == PadByte(c, key, k)
      invariant forall k :: n <= k < buf.Length ==> buf[k] == old(buf[k])
    {
      buf[j] := hash[j % DIGEST_SIZE];
      if j % DIGEST_SIZE == DIGEST_SIZE - 1 {
        hash := c.hash(hash);
      }
      if buf[j] == 0 {
        buf[j] := NON_NULL;
      }
      j := j + 1;
    }
  }

  /** The zeroed buffer with the padding in front and the name at its end. */
  method BlockAlignedName(c: Crypto, key: seq<byte>, b: nat, name: seq<byte>) returns (buf: array<byte>)
    requires Sound(c) && b >= 1
    ensures fresh(buf) && buf[..] == PaddedName(c, key, b, name)
  {
    hide Pad, Chain;
    AlignedIsLeast(b, |name|);
    var numRand := NumRandBytes(b, |name|);
    buf := new byte[numRand + |name|](_ => 0);
    FillRandom(c, key, buf, numRand - 1);
    assert buf[numRand - 1] == 0 by {
      assert buf[numRand - 1..][0] == 0;
    }
    forall i | 0 <= i < |name| {
      buf[numRand + i] := name[i];
    }
    assert buf[..] == buf[..numRand - 1] + [0] + name;
  }

  lemma SomePage(address: nat, size: nat)
    ensures PagesOf(address, size) >= 1 <==> size > 0
  {
  }

  /** The end of the writer: pad the name, encrypt it and store it at the cursor. */
  method EncryptInto(c: Crypto, m: Mount, dest: array<byte>, i: nat, name: seq<byte>, place: Place, tok: AuthTok,
                     alignedSize: nat, ghost from: seq<byte>, ghost done: seq<byte>)
    returns (rc: int, i': nat)
    requires Sound(c) && alignedSize == AlignedSize(c.blockSize(m.fnCipherName), |name|)
    requires Written(dest, from, done) && i == |done| && i + alignedSize <= dest.Length
    modifies dest
    ensures Fits(place, alignedSize) ==>
              rc == 0 && Written(dest, from, done + CipherText(c, m, name, tok)) && i' == |done| + alignedSize
    ensures !Fits(place, alignedSize) ==> rc == -ENOMEM && Written(dest, from, done)
  {
    hide PaddedName, AlignedSize, PagesOf, Written;
    i' := i;
    SomePage(place.src, alignedSize);
    SomePage(place.dst, alignedSize);
    AlignedIsLeast(c.blockSize(m.fnCipherName), |name|);
    var buf := BlockAlignedName(c, tok.sessionKeyEncryptionKey, c.blockSize(m.fnCipherName), name);
    var sg;
    rc, sg := VirtToScatterlist(place.src, alignedSize, 2);
    if rc < 1 {
      return;
    }
    rc, sg := VirtToScatterlist(place.dst, alignedSize, 2);
    if rc < 1 {
      return;
    }
    var body := c.enc(m.fnCipherName, tok.sessionKeyEncryptionKey, m.fnCipherKeyBytes, buf[..]);
    i' := Put(dest, i, body, from, done);
    rc := 0;
  }

  /** The writer once the room is known to do: the checks come between the fields, so a refused
      packet may be there in part. */
  method WriteBody(c: Crypto, m: Mount, dest: array<byte>, name: seq<byte>, place: Place, tok: AuthTok,
                   alignedSize: nat)
    returns (rc: int, packetSize: nat)
    requires Sound(c) && IsSig(m.fnekSig)
    requires alignedSize == AlignedSize(c.blockSize(m.fnCipherName), |name|)
    requires TAG_70_MAX_METADATA_SIZE + alignedSize <= dest.Length
    modifies dest
    ensures match Body(c, m, name, place, tok)
            case Success(p) => rc == 0 && packetSize == |p| && dest[..] == p + old(dest[packetSize..])
            case Failure(e) =>
              rc == e && packetSize == 0 &&
              dest[TAG_70_MAX_METADATA_SIZE + alignedSize..] == old(dest[TAG_70_MAX_METADATA_SIZE + alignedSize..])
  {
    ghost var from := dest[..];
    ghost var t, n := [TAG_70_PACKET_TYPE], SIG_SIZE + 1 + alignedSize;
    ghost var max := TAG_70_MAX_METADATA_SIZE + alignedSize;
    var i := Put(dest, 0, [TAG_70_PACKET_TYPE], from, []);
    assert [] + t == t;
    if SIG_SIZE + 1 + alignedSize >= 65536 {
      return -EINVAL, 0;
    }
    assert |Encoded(n)| <= 2;
    hide CipherText, AlignedSize, CodeFor, FromHex, Written, Encoded, Fits, IsSig;
    i := PutLength(dest, i, SIG_SIZE + 1 + alignedSize, from, t);
    i := Put(dest, i, FromHex(m.fnekSig), from, t + Encoded(n));
    var code := EcryptfsCodeForCipherString(m.fnCipherName, m.fnCipherKeyBytes);
    BehindUntouched(dest, from, t + Encoded(n) + FromHex(m.fnekSig), max);
    if code == 0 {
      return -EINVAL, 0;
    }
    i := Put(dest, i, [code], from, t + Encoded(n) + FromHex(m.fnekSig));
    BehindUntouched(dest, from, t + Encoded(n) + FromHex(m.fnekSig) + [code], max);
    if !tok.isPassword {
      return -EOPNOTSUPP, 0;
    }
    rc, i := EncryptInto(c, m, dest, i, name, place, tok, alignedSize, from,
                         t + Encoded(n) + FromHex(m.fnekSig) + [code]);
    if rc != 0 {
      return rc, 0;
    }
    ghost var body := CipherText(c, m, name, tok);
    Whole(dest, from, t + Encoded(n) + FromHex(m.fnekSig) + [code] + body);
    packetSize := i;
  }

  /** ecryptfs_write_tag_70_packet */
  method EcryptfsWriteTag70Packet(c: Crypto, m: Mount, dest: array?<byte>, remaining: nat, name: seq<byte>,
                                  place: Place)
    returns (rc: int, packetSize: nat, remaining': nat)
    requires Sound(c) && IsSig(m.fnekSig) && (dest != null ==> remaining <= dest.Length)
    modifies if dest == null then {} else {dest}
    ensures dest == null && Tag70Size(c, m, |name|).Success? ==> rc == 0 && packetSize == Tag70Size(c, m, |name|).value
    ensures dest == null && Tag70Size(c, m, |name|).Failure? ==> rc == Tag70Size(c, m, |name|).error && packetSize == 0
    ensures dest == null ==> remaining' == remaining
    ensures dest != null && WriteTag70(c, m, name, remaining, place).Success? ==>
              var p := WriteTag70(c, m, name, remaining, place).value;
              && rc == 0 && packetSize == |p| <= remaining && remaining' == remaining - packetSize
              && dest[..] == p + old(dest[packetSize..])
    ensures dest != null && WriteTag70(c, m, name, remaining, place).Failure? ==>
              && rc == WriteTag70(c, m, name, remaining, place).error && packetSize == 0 && remaining' == remaining
              && dest[remaining..] == old(dest[remaining..])
  {
    hide PaddedName, AlignedSize, CodeFor, FromHex;
    packetSize, remaining' := 0, remaining;
    var authTok := m.find(m.fnekSig);
    if authTok.Failure? {
      return authTok.error, packetSize, remaining';
    }
    rc := c.tfm(m.fnCipherName);
    if rc != 0 {
      return;
    }
    var blockSize := c.blockSize(m.fnCipherName);
    var alignedSize := AlignedSize(blockSize, |name|);
    var maxPacketSize := TAG_70_MAX_METADATA_SIZE + alignedSize;
    if dest == null {
      return 0, maxPacketSize, remaining';
    }
    if maxPacketSize > remaining {
      return -EINVAL, packetSize, remaining';
    }
    rc, packetSize := WriteBody(c, m, dest, name, place, authTok.value, alignedSize);
    remaining' := remaining - packetSize;
  }

  /** The separator's position; a body without a zero is searched to its end. */
  method FindSeparator(plain: seq<byte>) returns (i: nat)
    ensures i == FirstZero(plain)
  {
    i := 0;
    while i < |plain| && plain[i] != 0
      invariant 0 <= i <= |plain| && forall j :: 0 <= j < i ==> plain[j] != 0
    {
      i := i + 1;
    }
  }

  /** ecryptfs_parse_tag_70_packet */
  method EcryptfsParseTag70Packet(c: Crypto, m: Mount, data: seq<byte>, place: Place)
    returns (rc: int, filename: Option<seq<byte>>, packetSize: nat)
    requires Sound(c)
    ensures match ParseTag70(c, m, data, place)
            case Success(p) => rc == 0 && filename == p.name && packetSize == p.packetSize
            case Failure(e) => rc == e && filename == None && packetSize == 0
  {
    hide Decoded, ParseBody;
    rc, filename, packetSize := 0, None, 0;
    if |data| < TAG_70_MIN_METADATA_SIZE {
      return -EINVAL, None, 0;
    }
    if data[0] != TAG_70_PACKET_TYPE {
      return -EINVAL, None, 0;
    }
    packetSize := 1;
    var parsedSize, packetSizeLen;
    rc, parsedSize, packetSizeLen := EcryptfsParsePacketLength(data, packetSize);
    if rc != 0 {
      return rc, None, 0;
    }
    DecodedOctets(data[1..]);
    rc, filename, packetSize := ParseFields(c, m, data, parsedSize, packetSizeLen, place);
  }

  lemma DecodedOctets(data: seq<byte>)
    requires |data| >= 2
    ensures Decoded(data).Some? ==> 1 <= Decoded(data).value.octets <= 2
  {
  }

  /** The parser from the check of the whole packet's size on. */
  method ParseFields(c: Crypto, m: Mount, data: seq<byte>, parsedSize: nat, packetSizeLen: nat, place: Place)
    returns (rc: int, filename: Option<seq<byte>>, packetSize: nat)
    requires Sound(c) && |data| >= TAG_70_MIN_METADATA_SIZE && 1 <= packetSizeLen <= 2
    ensures match ParseBody(c, m, data, Length(parsedSize, packetSizeLen), place)
            case Success(p) => rc == 0 && filename == p.name && packetSize == p.packetSize
            case Failure(e) => rc == e && filename == None && packetSize == 0
  {
    hide ToHex, NameFor, ParseCipherText;
    var alignedSize := parsedSize - SIG_SIZE - 1;
    if 1 + packetSizeLen + parsedSize > |data| {
      return -EINVAL, None, 0;
    }
    packetSize := 1 + packetSizeLen;
    var sigHex := ToHex(data[packetSize..packetSize + SIG_SIZE]);
    packetSize := packetSize + SIG_SIZE;
    var cipher := EcryptfsCipherCodeToString(data[packetSize]);
    packetSize := packetSize + 1;
    if cipher == None {
      return -EINVAL, None, 0;
    }
    var authTok := m.find(sigHex);
    if authTok.Failure? {
      return authTok.error, None, 0;
    }
    rc := c.tfm(cipher.value);
    if rc != 0 {
      return rc, None, 0;
    }
    if alignedSize <= 0 {
      return 0, None, packetSize;
    }
    var body := data[packetSize..packetSize + alignedSize];
    packetSize := packetSize + alignedSize;
    rc, filename := Decipher(c, m, authTok.value, cipher.value, body, packetSize, place);
    if filename == None {
      packetSize := 0;
    }
  }

  /** The second half of the parser, from the scatterlists on. */
  method Decipher(c: Crypto, m: Mount, tok: AuthTok, cipher: string, body: seq<byte>, ghost end: nat, place: Place)
    returns (rc: int, filename: Option<seq<byte>>)
    requires Sound(c) && body != []
    ensures match ParseCipherText(c, m, tok, cipher, body, end, place)
            case Success(p) => rc == 0 && filename == p.name && filename.Some? && p.packetSize == end
            case Failure(e) => rc == e && filename == None
  {
    var sg;
    rc, sg := VirtToScatterlist(place.src, |body|, 2);
    if rc < 1 {
      return rc, None;
    }
    rc, sg := VirtToScatterlist(place.dst, |body|, 2);
    if rc < 1 {
      return rc, None;
    }
    if !tok.isPassword {
      return -EOPNOTSUPP, None;
    }
    if |body| % c.blockSize(cipher) != 0 {
      return -EINVAL, None;
    }
    var plain := c.dec(cipher, tok.sessionKeyEncryptionKey, m.fnCipherKeyBytes, body);
    var i := FindSeparator(plain);
    if i == |plain| {
      return -EINVAL, None;
    }
    i := i + 1;
    if !(0 < |plain| - i < PATH_MAX) {
      return -EINVAL, None;
    }
    return 0, Some(plain[i..]);
  }
}
