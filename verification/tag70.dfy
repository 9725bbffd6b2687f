/**
 What the tag 70 writer and parser of gaes/ecryptfs_4.7_kocl/keystore.c compute, as functions,
 and that the parser undoes the writer. The methods of tag70_packet.dfy are proved to compute
 these functions in their buffers.

 Cipher and hash are uninterpreted. Where a buffer lies within its page is an input.
 */
module Tag70 {
  import opened Wrappers
  import opened Arithmetic
  import opened Kernel
  import opened Bytes
  import opened PacketLength
  import opened CipherCodes

  const PATH_MAX := 4096
  const SIG_SIZE := 8
  const TAG_70_PACKET_TYPE: byte := 0x46
  const NON_NULL: byte := 0x42
  const DIGEST_SIZE := 16
  const MIN_RANDOM_PREPEND_BYTES := 16
  const TAG_70_MIN_METADATA_SIZE := 1 + 1 + SIG_SIZE + 1 + 1
  const TAG_70_MAX_METADATA_SIZE := 1 + 2 + SIG_SIZE + 1 + 1

  /** The crypto API as the file sees it: `tfm` is what looking a cipher up returns, and a
      cipher works on whole blocks only. */
  datatype Crypto = Crypto(
    tfm: string -> int,
    blockSize: string -> nat,
    enc: (string, seq<byte>, nat, seq<byte>) -> seq<byte>,
    dec: (string, seq<byte>, nat, seq<byte>) -> seq<byte>,
    hash: seq<byte> -> seq<byte>)

  ghost predicate Sound(c: Crypto) {
    && (forall n :: c.blockSize(n) >= 1)
    && (forall x :: |c.hash(x)| == DIGEST_SIZE)
    && (forall n, k, b, x :: |c.enc(n, k, b, x)| == |x| && |c.dec(n, k, b, x)| == |x|)
    && (forall n, k, b, x :: |x| % c.blockSize(n) == 0 ==> c.dec(n, k, b, c.enc(n, k, b, x)) == x)
  }

  type Errno = e: int | e != 0 witness -1

  datatype AuthTok = AuthTok(isPassword: bool, sessionKeyEncryptionKey: seq<byte>)

  /** The fields of ecryptfs_mount_crypt_stat that file names depend on, and what
      ecryptfs_find_auth_tok_for_sig answers for a signature. */
  datatype Mount = Mount(
    encryptFilenames: bool,
    encryptedView: bool,
    useMountFnek: bool,
    fnekSig: string,
    fnCipherName: string,
    fnCipherKeyBytes: nat,
    find: string -> Result<AuthTok, Errno>)

  /* ----- ecryptfs_to_hex, ecryptfs_from_hex ----- */

  function HexDigit(n: nat): char
    requires n < 16
  {
    "0123456789abcdef"[n]
  }

  predicate IsLowerHex(c: char) {
    '0' <= c <= '9' || 'a' <= c <= 'f'
  }

  function HexValue(c: char): (n: nat)
    requires IsLowerHex(c)
    ensures n < 16 && HexDigit(n) == c
  {
    if c <= '9' then c as int - '0' as int else c as int - 'a' as int + 10
  }

  /** A key signature as the mount options give it: SIG_SIZE octets in lower-case hexadecimal. */
  predicate IsSig(s: string) {
    |s| == 2 * SIG_SIZE && forall i :: 0 <= i < |s| ==> IsLowerHex(s[i])
  }

  function FromHex(s: string): (b: seq<byte>)
    requires IsSig(s)
    ensures |b| == SIG_SIZE
  {
    seq(SIG_SIZE, x requires 0 <= x < SIG_SIZE => ByteOf(16 * HexValue(s[2 * x]) + HexValue(s[2 * x + 1])))
  }

  function ToHex(b: seq<byte>): (s: string)
    ensures |s| == 2 * |b|
  {
    seq(2 * |b|, i requires 0 <= i < 2 * |b| =>
      HexDigit(if i % 2 == 0 then ValueOf(b[i / 2]) / 16 else ValueOf(b[i / 2]) % 16))
  }

  lemma HexRoundTrip(s: string)
    requires IsSig(s)
    ensures ToHex(FromHex(s)) == s
  {
    hide ByteOf, ValueOf, HexValue, HexDigit;
    forall i | 0 <= i < |s| ensures ToHex(FromHex(s))[i] == s[i] {
      var x := i / 2;
      var h, l := HexValue(s[2 * x]), HexValue(s[2 * x + 1]);
      assert ValueOf(FromHex(s)[x]) == 16 * h + l;
      assert (16 * h + l) / 16 == h && (16 * h + l) % 16 == l;
    }
  }

  /* ----- virt_to_scatterlist ----- */

  /** The pages that size octets from an offset in a page on lie in; an address past a page's
      end lies in a later page. */
  function PagesOf(offset: nat, size: nat): nat {
    if size == 0 then 0 else (offset % PAGE_SIZE + size - 1) / PAGE_SIZE + 1
  }

  /** A file name buffer goes through two scatterlist entries. */
  predicate Scatters(offset: nat, size: nat) {
    1 <= PagesOf(offset, size) <= 2
  }

  /** Up to one octet more than a page, any place will do; up to two pages, a page boundary will. */
  lemma SmallScatters(offset: nat, size: nat)
    requires 0 < size
    ensures size <= PAGE_SIZE + 1 ==> Scatters(offset, size)
    ensures offset % PAGE_SIZE == 0 && size <= 2 * PAGE_SIZE ==> Scatters(offset, size)
  {
  }

  /** Exactly what ends within two pages from the one it begins in goes through two entries. */
  lemma ScattersExactly(offset: nat, size: nat)
    ensures Scatters(offset, size) <==> 0 < size && offset % PAGE_SIZE + size <= 2 * PAGE_SIZE
  {
  }

  /** Where the two buffers of a cipher request lie. */
  datatype Place = Place(src: nat, dst: nat)

  predicate Fits(p: Place, size: nat) {
    Scatters(p.src, size) && Scatters(p.dst, size)
  }

  lemma FitsTwoPages(p: Place, size: nat)
    requires Fits(p, size)
    ensures size <= 2 * PAGE_SIZE
  {
  }

  /* ----- the padded name ----- */

  function NumRandBytes(b: nat, n: nat): (r: nat)
    requires b >= 1
  {
    var r := MIN_RANDOM_PREPEND_BYTES + 1;
    if (r + n) % b != 0 then r + (b - (r + n) % b) else r
  }

  function AlignedSize(b: nat, n: nat): nat
    requires b >= 1
  {
    NumRandBytes(b, n) + n
  }

  /** The padded size is the least multiple of the block size with room for 16 octets, the
      separator and the name. */
  lemma AlignedIsLeast(b: nat, n: nat)
    requires b >= 1
    ensures AlignedSize(b, n) % b == 0
    ensures 17 + n <= AlignedSize(b, n) <= 16 + n + b
  {
    var r := 17 + n;
    if r % b != 0 {
      var q := r / b;
      assert r == q * b + r % b;
      assert r + (b - r % b) == (q + 1) * b;
      Quotient(r + (b - r % b), b, q + 1, 0);
    }
  }

  /** The k-th link of the hash chain that starts from the token's key. */
  function Chain(c: Crypto, key: seq<byte>, k: nat): seq<byte> {
    if k == 0 then c.hash(key) else c.hash(Chain(c, key, k - 1))
  }

  function NonNull(b: byte): (r: byte)
    ensures r != 0
  {
    if b == 0 then NON_NULL else b
  }

  function PadByte(c: Crypto, key: seq<byte>, j: nat): (r: byte)
    ensures r != 0
  {
    var link := Chain(c, key, j / DIGEST_SIZE);
    if j % DIGEST_SIZE < |link| then NonNull(link[j % DIGEST_SIZE]) else NON_NULL
  }

  function Pad(c: Crypto, key: seq<byte>, n: nat): (p: seq<byte>)
    ensures |p| == n && forall j :: 0 <= j < n ==> p[j] != 0
  {
    seq(n, j requires 0 <= j < n => PadByte(c, key, j))
  }

  /** k hashes one behind the other, each of the one before it. */
  function HashStream(c: Crypto, x: seq<byte>, k: nat): seq<byte>
    decreases k
  {
    if k == 0 then [] else c.hash(x) + HashStream(c, c.hash(x), k - 1)
  }

  lemma {:induction false} ChainOn(c: Crypto, key: seq<byte>, k: nat)
    ensures Chain(c, c.hash(key), k) == Chain(c, key, k + 1)
  {
    if k > 0 { ChainOn(c, key, k - 1); }
  }

  lemma {:induction false} StreamAt(c: Crypto, key: seq<byte>, k: nat, j: nat)
    requires Sound(c) && j < k * DIGEST_SIZE
    ensures |HashStream(c, key, k)| == k * DIGEST_SIZE
    ensures HashStream(c, key, k)[j] == Chain(c, key, j / DIGEST_SIZE)[j % DIGEST_SIZE]
    decreases k
  {
    if k > 1 {
      StreamAt(c, c.hash(key), k - 1, if j < DIGEST_SIZE then 0 else j - DIGEST_SIZE);
      if j >= DIGEST_SIZE { ChainOn(c, key, j / DIGEST_SIZE - 1); }
    }
  }

  /** The padding is the stream of repeated hashes of the key, its zeros replaced. */
  lemma PadIsHashStream(c: Crypto, key: seq<byte>, n: nat, k: nat, j: nat)
    requires Sound(c) && j < n <= k * DIGEST_SIZE
    ensures j < |HashStream(c, key, k)|
    ensures Pad(c, key, n)[j] == if HashStream(c, key, k)[j] == 0 then NON_NULL else HashStream(c, key, k)[j]
  {
    StreamAt(c, key, k, j);
    var link := Chain(c, key, j / DIGEST_SIZE);
    assert |link| == DIGEST_SIZE;
  }

  function PaddedName(c: Crypto, key: seq<byte>, b: nat, name: seq<byte>): (p: seq<byte>)
    requires b >= 1
    ensures |p| == AlignedSize(b, |name|)
  {
    Pad(c, key, NumRandBytes(b, |name|) - 1) + [0] + name
  }

  /* ----- the writer ----- */

  function MaxPacketSize(b: nat, n: nat): nat
    requires b >= 1
  {
    TAG_70_MAX_METADATA_SIZE + AlignedSize(b, n)
  }

  /** ecryptfs_write_tag_70_packet without a destination. */
  function Tag70Size(c: Crypto, m: Mount, n: nat): Result<nat, Errno>
    requires c.blockSize(m.fnCipherName) >= 1
  {
    if m.find(m.fnekSig).Failure? then Failure(m.find(m.fnekSig).error)
    else if c.tfm(m.fnCipherName) != 0 then Failure(c.tfm(m.fnCipherName))
    else Success(MaxPacketSize(c.blockSize(m.fnCipherName), n))
  }

  function PacketOctets(body: seq<byte>, sig: seq<byte>, code: byte): seq<byte>
    requires SIG_SIZE + 1 + |body| < 65536
  {
    [TAG_70_PACKET_TYPE] + Encoded(SIG_SIZE + 1 + |body|) + sig + [code] + body
  }

  /** ecryptfs_write_tag_70_packet with a destination of the given room. */
  function WriteTag70(c: Crypto, m: Mount, name: seq<byte>, room: nat, place: Place): Result<seq<byte>, Errno>
    requires Sound(c) && IsSig(m.fnekSig)
  {
    if m.find(m.fnekSig).Failure? then Failure(m.find(m.fnekSig).error)
    else if c.tfm(m.fnCipherName) != 0 then Failure(c.tfm(m.fnCipherName))
    else
      var b := c.blockSize(m.fnCipherName);
      if MaxPacketSize(b, |name|) > room then Failure(-EINVAL) else Body(c, m, name, place, m.find(m.fnekSig).value)
  }

  function CipherText(c: Crypto, m: Mount, name: seq<byte>, tok: AuthTok): (body: seq<byte>)
    requires Sound(c)
    ensures |body| == AlignedSize(c.blockSize(m.fnCipherName), |name|)
  {
    var key := tok.sessionKeyEncryptionKey;
    c.enc(m.fnCipherName, key, m.fnCipherKeyBytes, PaddedName(c, key, c.blockSize(m.fnCipherName), name))
  }

  function Body(c: Crypto, m: Mount, name: seq<byte>, place: Place, tok: AuthTok): Result<seq<byte>, Errno>
    requires Sound(c) && IsSig(m.fnekSig)
  {
    var b := c.blockSize(m.fnCipherName);
    var aligned := AlignedSize(b, |name|);
    var code := CodeFor(m.fnCipherName, m.fnCipherKeyBytes);
    if SIG_SIZE + 1 + aligned >= 65536 then Failure(-EINVAL)
    else if code == 0 then Failure(-EINVAL)
    else if !tok.isPassword then Failure(-EOPNOTSUPP)
    else if !Fits(place, aligned) then Failure(-ENOMEM)
    else
      Success(PacketOctets(CipherText(c, m, name, tok), FromHex(m.fnekSig), code))
  }

  /* ----- the parser ----- */

  /** A name and the size of its packet. An empty body makes the parser report success
      without a name. */
  datatype Parsed = Parsed(name: Option<seq<byte>>, packetSize: nat)

  function FirstZero(s: seq<byte>): (i: nat)
    ensures i <= |s| && (i < |s| ==> s[i] == 0) && forall j :: 0 <= j < i ==> s[j] != 0
  {
    if s == [] || s[0] == 0 then 0 else 1 + FirstZero(s[1..])
  }

  /** The name behind the separator. */
  function NameIn(plain: seq<byte>): Result<seq<byte>, Errno> {
    var i := FirstZero(plain);
    if i == |plain| then Failure(-EINVAL)
    else
      var name := plain[i + 1..];
      if 0 < |name| < PATH_MAX then Success(name) else Failure(-EINVAL)
  }

  /** ecryptfs_parse_tag_70_packet on the whole of data. */
  function ParseTag70(c: Crypto, m: Mount, data: seq<byte>, place: Place): Result<Parsed, Errno>
    requires Sound(c)
  {
    if |data| < TAG_70_MIN_METADATA_SIZE then Failure(-EINVAL)
    else if data[0] != TAG_70_PACKET_TYPE then Failure(-EINVAL)
    else
      match Decoded(data[1..])
      case None => Failure(-EINVAL)
      case Some(len) => ParseBody(c, m, data, len, place)
  }

  function ParseBody(c: Crypto, m: Mount, data: seq<byte>, len: Length, place: Place): Result<Parsed, Errno>
    requires Sound(c)
    requires |data| >= TAG_70_MIN_METADATA_SIZE && 1 <= len.octets <= 2
  {
    if 1 + len.octets + len.size > |data| then Failure(-EINVAL)
    else
      var at := 1 + len.octets;
      var sig := ToHex(data[at..at + SIG_SIZE]);
      match NameFor(data[at + SIG_SIZE])
      case None => Failure(-EINVAL)
      case Some(cipher) =>
        if m.find(sig).Failure? then Failure(m.find(sig).error)
        else if c.tfm(cipher) != 0 then Failure(c.tfm(cipher))
        else if len.size <= SIG_SIZE + 1 then Success(Parsed(None, at + SIG_SIZE + 1))
        else
          var aligned := len.size - SIG_SIZE - 1;
          var from := at + SIG_SIZE + 1;
          ParseCipherText(c, m, m.find(sig).value, cipher, data[from..from + aligned], from + aligned, place)
  }

  function ParseCipherText(c: Crypto, m: Mount, tok: AuthTok, cipher: string, body: seq<byte>, end: nat, place: Place)
    : Result<Parsed, Errno>
    requires Sound(c)
  {
    if !Fits(place, |body|) then Failure(-ENOMEM)
    else if !tok.isPassword then Failure(-EOPNOTSUPP)
    else if |body| % c.blockSize(cipher) != 0 then Failure(-EINVAL)
    else
      match NameIn(c.dec(cipher, tok.sessionKeyEncryptionKey, m.fnCipherKeyBytes, body))
      case Failure(e) => Failure(e)
      case Success(name) => Success(Parsed(Some(name), end))
  }

  /* ----- the parser undoes the writer ----- */

  /** The separator is the first zero, whatever octets the name holds. */
  lemma NameInPadded(c: Crypto, key: seq<byte>, b: nat, name: seq<byte>)
    requires b >= 1
    ensures NameIn(PaddedName(c, key, b, name)) == if 0 < |name| < PATH_MAX then Success(name) else Failure(-EINVAL)
  {
    hide Pad, NumRandBytes;
    var r := NumRandBytes(b, |name|);
    assert r >= 1 by {
      AlignedIsLeast(b, |name|);
    }
    var plain := PaddedName(c, key, b, name);
    assert plain[r - 1] == 0 && forall j :: 0 <= j < r - 1 ==> plain[j] != 0;
    assert FirstZero(plain) == r - 1;
    assert plain[r..] == name;
  }

  lemma Cut(head: seq<byte>, sig: seq<byte>, code: byte, body: seq<byte>, rest: seq<byte>)
    ensures var data, k := head + sig + [code] + body + rest, |head| + |sig|;
            data[|head|..k] == sig && data[k] == code && data[k + 1..k + 1 + |body|] == body
  {
  }

  /** A packet taken apart, with anything behind it. */
  lemma Fields(body: seq<byte>, sig: seq<byte>, code: byte, rest: seq<byte>)
    requires |sig| == SIG_SIZE && SIG_SIZE + 1 + |body| < 8384
    ensures var n := SIG_SIZE + 1 + |body|;
            var data := PacketOctets(body, sig, code) + rest;
            var at := 1 + |Encoded(n)|;
            && data[0] == TAG_70_PACKET_TYPE && |data| == at + n + |rest|
            && Decoded(data[1..]) == Some(Length(n, at - 1))
            && data[at..at + SIG_SIZE] == sig && data[at + SIG_SIZE] == code
            && data[at + SIG_SIZE + 1..at + SIG_SIZE + 1 + |body|] == body
  {
    var n := SIG_SIZE + 1 + |body|;
    assert |Encoded(n)| <= 2;
    hide Encoded, Decoded;
    var data, head := PacketOctets(body, sig, code) + rest, [TAG_70_PACKET_TYPE] + Encoded(n);
    var tail := sig + [code] + body + rest;
    LengthRoundTrip(n, tail);
    Cut(head, sig, code, body, rest);
    assert data == head + sig + [code] + body + rest;
    assert data[1..] == Encoded(n) + tail;
  }

  /** What a written packet consists of. */
  lemma WrittenPacket(c: Crypto, m: Mount, name: seq<byte>, room: nat, place: Place)
    requires Sound(c) && IsSig(m.fnekSig) && WriteTag70(c, m, name, room, place).Success?
    ensures m.find(m.fnekSig).Success? && m.find(m.fnekSig).value.isPassword && c.tfm(m.fnCipherName) == 0
    ensures CodeFor(m.fnCipherName, m.fnCipherKeyBytes) != 0
    ensures var body := CipherText(c, m, name, m.find(m.fnekSig).value);
            && SIG_SIZE + 1 + |body| < 8384
            && WriteTag70(c, m, name, room, place).value ==
               PacketOctets(body, FromHex(m.fnekSig), CodeFor(m.fnCipherName, m.fnCipherKeyBytes))
  {
    FitsTwoPages(place, AlignedSize(c.blockSize(m.fnCipherName), |name|));
    hide CipherText, AlignedSize, Fits, PacketOctets, FromHex, CodeFor, IsSig;
  }

  /** Deciphering what was enciphered finds the name. */
  lemma Deciphered(c: Crypto, m: Mount, name: seq<byte>, tok: AuthTok, end: nat, place: Place)
    requires Sound(c) && tok.isPassword
    ensures ParseCipherText(c, m, tok, m.fnCipherName, CipherText(c, m, name, tok), end, place) ==
            if !Fits(place, AlignedSize(c.blockSize(m.fnCipherName), |name|)) then Failure(-ENOMEM)
            else if 0 < |name| < PATH_MAX then Success(Parsed(Some(name), end))
            else Failure(-EINVAL)
  {
    var b := c.blockSize(m.fnCipherName);
    AlignedIsLeast(b, |name|);
    NameInPadded(c, tok.sessionKeyEncryptionKey, b, name);
    hide PaddedName, AlignedSize, NameIn, Fits;
  }

  /** The parser on the packet of a known key and cipher. */
  lemma ParsePacket(c: Crypto, m: Mount, body: seq<byte>, rest: seq<byte>, place: Place)
    requires Sound(c) && IsSig(m.fnekSig) && m.find(m.fnekSig).Success? && c.tfm(m.fnCipherName) == 0
    requires CodeFor(m.fnCipherName, m.fnCipherKeyBytes) != 0 && body != [] && SIG_SIZE + 1 + |body| < 8384
    ensures var packet := PacketOctets(body, FromHex(m.fnekSig), CodeFor(m.fnCipherName, m.fnCipherKeyBytes));
            ParseTag70(c, m, packet + rest, place) ==
            ParseCipherText(c, m, m.find(m.fnekSig).value, m.fnCipherName, body, |packet|, place)
  {
    var sig, code := FromHex(m.fnekSig), CodeFor(m.fnCipherName, m.fnCipherKeyBytes);
    HexRoundTrip(m.fnekSig);
    CodeNamesCipher(m.fnCipherName, m.fnCipherKeyBytes);
    Fields(body, sig, code, rest);
    hide ParseTag70, ParseCipherText, PacketOctets, Encoded, Decoded, CodeFor, NameFor, FromHex, ToHex, IsSig, Sound;
    ParseKnown(c, m, PacketOctets(body, sig, code) + rest, |Encoded(SIG_SIZE + 1 + |body|)|, sig, body, place);
  }

  /** Whatever follows the packet, the parser finds the name again and where the packet ends,
      or refuses: when its own buffers do not fit two pages, and a name of a size it does not take. */
  lemma ParseWritten(c: Crypto, m: Mount, name: seq<byte>, room: nat, place: Place, rest: seq<byte>, place': Place)
    requires Sound(c) && IsSig(m.fnekSig) && WriteTag70(c, m, name, room, place).Success?
    ensures var packet := WriteTag70(c, m, name, room, place).value;
            ParseTag70(c, m, packet + rest, place') ==
            if !Fits(place', AlignedSize(c.blockSize(m.fnCipherName), |name|)) then Failure(-ENOMEM)
            else if 0 < |name| < PATH_MAX then Success(Parsed(Some(name), |packet|))
            else Failure(-EINVAL)
  {
    WrittenPacket(c, m, name, room, place);
    var tok := m.find(m.fnekSig).value;
    var body := CipherText(c, m, name, tok);
    BodyNotEmpty(c, m, name, tok);
    hide ParseTag70, ParseCipherText, WriteTag70, CipherText, PacketOctets, AlignedSize, Fits, Encoded, Decoded,
      CodeFor, NameFor, FromHex, ToHex, IsSig, Sound;
    Deciphered(c, m, name, tok, |WriteTag70(c, m, name, room, place).value|, place');
    ParsePacket(c, m, body, rest, place');
  }

  lemma BodyNotEmpty(c: Crypto, m: Mount, name: seq<byte>, tok: AuthTok)
    requires Sound(c)
    ensures CipherText(c, m, name, tok) != []
  {
    AlignedIsLeast(c.blockSize(m.fnCipherName), |name|);
    hide AlignedSize;
  }

  /** The parser on a packet whose fields are known. */
  lemma ParseKnown(c: Crypto, m: Mount, data: seq<byte>, octets: nat, sig: seq<byte>, body: seq<byte>, place: Place)
    requires Sound(c) && |sig| == SIG_SIZE && body != [] && 1 <= octets <= 2
    requires var at := 1 + octets; var n := SIG_SIZE + 1 + |body|;
             && |data| >= at + n && |data| >= TAG_70_MIN_METADATA_SIZE && data[0] == TAG_70_PACKET_TYPE
             && Decoded(data[1..]) == Some(Length(n, octets))
             && data[at..at + SIG_SIZE] == sig && data[at + SIG_SIZE + 1..at + n] == body
             && NameFor(data[at + SIG_SIZE]) == Some(m.fnCipherName)
    requires m.find(ToHex(sig)).Success? && c.tfm(m.fnCipherName) == 0
    ensures ParseTag70(c, m, data, place) ==
            ParseCipherText(c, m, m.find(ToHex(sig)).value, m.fnCipherName, body,
                            1 + octets + SIG_SIZE + 1 + |body|, place)
  {
    hide Decoded, NameFor, ToHex, ParseCipherText;
  }

  /* ----- what is in a packet ----- */

  predicate NonZero(p: seq<byte>) {
    forall j :: 0 <= j < |p| ==> p[j] != 0
  }

  /** The packet holds the signature of the mount's key, the code of its cipher, and under both the encryption of a
      padding without zeros, the separator and the name. */
  predicate IsWritten(c: Crypto, m: Mount, name: seq<byte>, key: seq<byte>, padding: seq<byte>, code: byte,
                      packet: seq<byte>)
    requires Sound(c) && IsSig(m.fnekSig)
  {
    && |padding| >= MIN_RANDOM_PREPEND_BYTES && NonZero(padding) && NameFor(code) == Some(m.fnCipherName)
    && SIG_SIZE + 1 + |padding| + 1 + |name| < 65536
    && packet == PacketOctets(c.enc(m.fnCipherName, key, m.fnCipherKeyBytes, padding + [0] + name),
                              FromHex(m.fnekSig), code)
  }

  /** What is written is encrypted under the key that the mount names. */
  lemma BodyIsEncrypted(c: Crypto, m: Mount, name: seq<byte>, room: nat, place: Place)
    requires Sound(c) && IsSig(m.fnekSig) && WriteTag70(c, m, name, room, place).Success?
    ensures m.find(m.fnekSig).Success?
    ensures exists padding: seq<byte>, code: byte ::
              IsWritten(c, m, name, m.find(m.fnekSig).value.sessionKeyEncryptionKey, padding, code,
                        WriteTag70(c, m, name, room, place).value)
  {
    WrittenPacket(c, m, name, room, place);
    var b, key := c.blockSize(m.fnCipherName), m.find(m.fnekSig).value.sessionKeyEncryptionKey;
    var code := CodeFor(m.fnCipherName, m.fnCipherKeyBytes);
    CodeNamesCipher(m.fnCipherName, m.fnCipherKeyBytes);
    AlignedIsLeast(b, |name|);
    var padding := Pad(c, key, NumRandBytes(b, |name|) - 1);
    hide Pad, FromHex, IsSig, NameFor, CodeFor, PacketOctets, WriteTag70;
    assert IsWritten(c, m, name, key, padding, code, WriteTag70(c, m, name, room, place).value);
  }

  /** The octets are a packet whose key is known and whose body decrypts under it to a padding without zeros, a
      separator and the name. */
  predicate IsRead(c: Crypto, m: Mount, packet: seq<byte>, sig: seq<byte>, code: byte, body: seq<byte>,
                   padding: seq<byte>, name: seq<byte>)
  {
    && |sig| == SIG_SIZE && SIG_SIZE + 1 + |body| < 8384 && packet == PacketOctets(body, sig, code)
    && m.find(ToHex(sig)).Success? && m.find(ToHex(sig)).value.isPassword
    && NameFor(code).Some? && c.tfm(NameFor(code).value) == 0
    && NonZero(padding) && 0 < |name| < PATH_MAX
    && c.dec(NameFor(code).value, m.find(ToHex(sig)).value.sessionKeyEncryptionKey, m.fnCipherKeyBytes, body)
       == padding + [0] + name
  }

  ghost predicate ReadsAs(c: Crypto, m: Mount, packet: seq<byte>, name: seq<byte>) {
    exists sig: seq<byte>, code: byte, body: seq<byte>, padding: seq<byte> ::
      IsRead(c, m, packet, sig, code, body, padding, name)
  }

  lemma SplitAtZero(plain: seq<byte>)
    requires NameIn(plain).Success?
    ensures 0 < |NameIn(plain).value| < PATH_MAX && NonZero(plain[..FirstZero(plain)])
    ensures plain == plain[..FirstZero(plain)] + [0] + NameIn(plain).value
  {
  }

  lemma PacketPieces(data: seq<byte>, len: Length)
    requires |data| >= TAG_70_MIN_METADATA_SIZE && data[0] == TAG_70_PACKET_TYPE && Decoded(data[1..]) == Some(len)
    requires SIG_SIZE + 1 <= len.size && 1 + len.octets + len.size <= |data|
    ensures var at, end := 1 + len.octets, 1 + len.octets + len.size;
            && len.size < 8384
            && data[..end] == PacketOctets(data[at + SIG_SIZE + 1..end], data[at..at + SIG_SIZE], data[at + SIG_SIZE])
  {
    hide Encoded, Decoded;
    LengthRead(data[1..]);
    var at, end := 1 + len.octets, 1 + len.octets + len.size;
    assert data[..end] == [data[0]] + data[1..][..at - 1] + data[at..at + SIG_SIZE] + [data[at + SIG_SIZE]]
                          + data[at + SIG_SIZE + 1..end];
  }

  /** What the parser has checked when it has a name. */
  lemma Checked(c: Crypto, m: Mount, data: seq<byte>, place: Place)
    requires Sound(c) && ParseTag70(c, m, data, place).Success? && ParseTag70(c, m, data, place).value.name.Some?
    ensures |data| >= TAG_70_MIN_METADATA_SIZE && data[0] == TAG_70_PACKET_TYPE && Decoded(data[1..]).Some?
    ensures
      var len := Decoded(data[1..]).value;
      var at, end := 1 + len.octets, 1 + len.octets + len.size;
      && end <= |data| && SIG_SIZE + 1 < len.size
      && var sig, code, body := data[at..at + SIG_SIZE], data[at + SIG_SIZE], data[at + SIG_SIZE + 1..end];
         && NameFor(code).Some? && m.find(ToHex(sig)).Success? && c.tfm(NameFor(code).value) == 0
         && ParseTag70(c, m, data, place)
            == ParseCipherText(c, m, m.find(ToHex(sig)).value, NameFor(code).value, body, end, place)
  {
    hide Decoded, NameFor, ToHex, ParseCipherText;
  }

  lemma BodyAccepted(c: Crypto, m: Mount, packet: seq<byte>, sig: seq<byte>, code: byte, body: seq<byte>, end: nat,
                     place: Place)
    requires Sound(c) && |sig| == SIG_SIZE && SIG_SIZE + 1 + |body| < 8384 && packet == PacketOctets(body, sig, code)
    requires m.find(ToHex(sig)).Success? && NameFor(code).Some? && c.tfm(NameFor(code).value) == 0
    requires ParseCipherText(c, m, m.find(ToHex(sig)).value, NameFor(code).value, body, end, place).Success?
    ensures var p := ParseCipherText(c, m, m.find(ToHex(sig)).value, NameFor(code).value, body, end, place).value;
            p.packetSize == end && p.name.Some? && ReadsAs(c, m, packet, p.name.value)
  {
    var tok := m.find(ToHex(sig)).value;
    var plain := c.dec(NameFor(code).value, tok.sessionKeyEncryptionKey, m.fnCipherKeyBytes, body);
    hide NameFor, ToHex, PacketOctets, Fits, NameIn, FirstZero;
    SplitAtZero(plain);
    assert IsRead(c, m, packet, sig, code, body, plain[..FirstZero(plain)], NameIn(plain).value);
  }

  /** A name is only read from such a packet. */
  lemma Tag70Accepted(c: Crypto, m: Mount, data: seq<byte>, place: Place)
    requires Sound(c) && ParseTag70(c, m, data, place).Success? && ParseTag70(c, m, data, place).value.name.Some?
    ensures var p := ParseTag70(c, m, data, place).value;
            p.packetSize <= |data| && ReadsAs(c, m, data[..p.packetSize], p.name.value)
  {
    hide ParseTag70, ParseCipherText, Decoded, Encoded, NameFor, ToHex, PacketOctets, Fits, NameIn, FirstZero, ReadsAs;
    Checked(c, m, data, place);
    var len := Decoded(data[1..]).value;
    var at, end := 1 + len.octets, 1 + len.octets + len.size;
    PacketPieces(data, len);
    var sig, code, body := data[at..at + SIG_SIZE], data[at + SIG_SIZE], data[at + SIG_SIZE + 1..end];
    BodyAccepted(c, m, data[..end], sig, code, body, end, place);
  }
}
