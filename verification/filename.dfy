/**
 The file name pipeline of gaes/ecryptfs_4.7_kocl/crypto.c: pad, encrypt and frame a name as a
 tag 70 packet, spell the packet in 6-bit text behind a prefix, and back.
 */
module Filename {
  import opened Wrappers
  import opened Kernel
  import opened Bytes
  import opened PacketLength
  import opened CipherCodes
  import opened NameCodec
  import opened Tag70

  /** ECRYPTFS_FNEK_ENCRYPTED. */
  const FNEK_PREFIX: seq<byte> :=
    [0x45, 0x43, 0x52, 0x59, 0x50, 0x54, 0x46, 0x53, 0x5F, 0x46, 0x4E, 0x45, 0x4B, 0x5F,
     0x45, 0x4E, 0x43, 0x52, 0x59, 0x50, 0x54, 0x45, 0x44, 0x2E]
  const FNEK_PREFIX_SIZE := 24

  /** ecryptfs_encrypt_filename: a first call of the writer finds the size of the buffer. */
  function EncryptFilename(c: Crypto, m: Mount, name: seq<byte>, place: Place): Result<seq<byte>, Errno>
    requires Sound(c) && IsSig(m.fnekSig)
  {
    if !m.useMountFnek then Failure(-EOPNOTSUPP)
    else
      match Tag70Size(c, m, |name|)
      case Failure(e) => Failure(e)
      case Success(size) => WriteTag70(c, m, name, size, place)
  }

  /** ecryptfs_encrypt_and_encode_filename */
  function EncryptAndEncode(c: Crypto, m: Mount, name: seq<byte>, place: Place): Result<seq<byte>, Errno>
    requires Sound(c) && IsSig(m.fnekSig)
  {
    if !m.encryptFilenames then Success(name)
    else
      match EncryptFilename(c, m, name, place)
      case Failure(e) => Failure(e)
      case Success(packet) => Success(FNEK_PREFIX + Encode(packet))
  }

  /** Is a lower name one that the decoder takes apart? */
  predicate Encrypted(m: Mount, name: seq<byte>) {
    && m.encryptFilenames && !m.encryptedView
    && |name| > FNEK_PREFIX_SIZE && name[..FNEK_PREFIX_SIZE] == FNEK_PREFIX
  }

  /** ecryptfs_decode_and_decrypt_filename: what cannot be parsed is copied as it is. */
  function DecodeAndDecrypt(c: Crypto, m: Mount, name: seq<byte>, place: Place): Option<seq<byte>>
    requires Sound(c)
  {
    if !Encrypted(m, name) then Some(name)
    else
      match ParseTag70(c, m, Decode(name[FNEK_PREFIX_SIZE..]), place)
      case Failure(e) => Some(name)
      case Success(p) => p.name
  }

  /** The size of the packet of a name of n octets. */
  function PacketSize(b: nat, n: nat): nat
    requires b >= 1
  {
    var body := SIG_SIZE + 1 + AlignedSize(b, n);
    1 + (if body < 192 then 1 else 2) + body
  }

  /** Encrypting succeeds exactly when the key and the cipher are there, the key is a passphrase's,
      and the buffers fit two scatterlist entries: the size found by the first pass is never too small
      for the second, and the length format can say every size that fits. */
  lemma FirstPassSuffices(c: Crypto, m: Mount, name: seq<byte>, place: Place)
    requires Sound(c) && IsSig(m.fnekSig)
    ensures EncryptFilename(c, m, name, place).Success? <==>
            && m.useMountFnek
            && m.find(m.fnekSig).Success? && m.find(m.fnekSig).value.isPassword
            && c.tfm(m.fnCipherName) == 0 && CodeFor(m.fnCipherName, m.fnCipherKeyBytes) != 0
            && Fits(place, AlignedSize(c.blockSize(m.fnCipherName), |name|))
    ensures EncryptFilename(c, m, name, place).Success? ==>
            |EncryptFilename(c, m, name, place).value| == PacketSize(c.blockSize(m.fnCipherName), |name|)
            <= Tag70Size(c, m, |name|).value
  {
    if Fits(place, AlignedSize(c.blockSize(m.fnCipherName), |name|)) {
      FitsTwoPages(place, AlignedSize(c.blockSize(m.fnCipherName), |name|));
    }
    hide PaddedName, AlignedSize, Fits, CodeFor;
  }

  /** Reading a lower name back gives the name it was made from for every non-empty name below
      PATH_MAX, whatever its octets, the cipher, the hash and the block size, as long as the parser's
      own buffers fit; and for no other name. */
  lemma FilenameRoundTrip(c: Crypto, m: Mount, name: seq<byte>, place: Place, place': Place)
    requires Sound(c) && IsSig(m.fnekSig) && m.encryptFilenames && !m.encryptedView
    requires EncryptAndEncode(c, m, name, place).Success?
    ensures DecodeAndDecrypt(c, m, EncryptAndEncode(c, m, name, place).value, place') == Some(name) <==>
            0 < |name| < PATH_MAX && Fits(place', AlignedSize(c.blockSize(m.fnCipherName), |name|))
  {
    hide PaddedName, AlignedSize, Fits, CodeFor, Encode, Decode, ParseTag70, WriteTag70, Zeros;
    var b := c.blockSize(m.fnCipherName);
    var packet := EncryptFilename(c, m, name, place).value;
    var lower := FNEK_PREFIX + Encode(packet);
    FirstPassSuffices(c, m, name, place);
    AlignedIsLeast(b, |name|);
    assert lower[..FNEK_PREFIX_SIZE] == FNEK_PREFIX && lower[FNEK_PREFIX_SIZE..] == Encode(packet);
    DecodeEncode(packet);
    ParseWritten(c, m, name, Tag70Size(c, m, |name|).value, place, Zeros((3 - |packet| % 3) % 3), place');
    assert |lower| > |name|;
  }

  /** Names of the usual lengths and ciphers need no help from the allocator: wherever any of the buffers
      lie, every one of them is encrypted and comes back. */
  lemma NamesComeBack(c: Crypto, m: Mount, name: seq<byte>, place: Place, place': Place)
    requires Sound(c) && IsSig(m.fnekSig) && m.encryptFilenames && !m.encryptedView && m.useMountFnek
    requires m.find(m.fnekSig).Success? && m.find(m.fnekSig).value.isPassword
    requires c.tfm(m.fnCipherName) == 0 && CodeFor(m.fnCipherName, m.fnCipherKeyBytes) != 0
    requires name != [] && |name| + c.blockSize(m.fnCipherName) <= PAGE_SIZE - MIN_RANDOM_PREPEND_BYTES
    ensures EncryptAndEncode(c, m, name, place).Success?
    ensures DecodeAndDecrypt(c, m, EncryptAndEncode(c, m, name, place).value, place') == Some(name)
  {
    var aligned := AlignedSize(c.blockSize(m.fnCipherName), |name|);
    AlignedIsLeast(c.blockSize(m.fnCipherName), |name|);
    SmallScatters(place.src, aligned);
    SmallScatters(place.dst, aligned);
    SmallScatters(place'.src, aligned);
    SmallScatters(place'.dst, aligned);
    hide AlignedSize, Scatters, WriteTag70, DecodeAndDecrypt;
    FirstPassSuffices(c, m, name, place);
    FilenameRoundTrip(c, m, name, place, place');
  }

  /** A lower name depends neither on where the buffers lie nor on whether the mount shows names encrypted. */
  lemma SameLowerName(c: Crypto, m: Mount, name: seq<byte>, place1: Place, view: bool, place2: Place)
    requires Sound(c) && IsSig(m.fnekSig)
    requires EncryptAndEncode(c, m, name, place1).Success?
    requires EncryptAndEncode(c, m.(encryptedView := view), name, place2).Success?
    ensures EncryptAndEncode(c, m, name, place1) == EncryptAndEncode(c, m.(encryptedView := view), name, place2)
  {
    hide PaddedName, AlignedSize, Fits, CodeFor, Encode, PacketOctets, FromHex;
  }

  lemma SucceedsInEitherView(c: Crypto, m: Mount, name: seq<byte>, place: Place, view: bool)
    requires Sound(c) && IsSig(m.fnekSig) && EncryptAndEncode(c, m, name, place).Success?
    ensures EncryptAndEncode(c, m.(encryptedView := view), name, place).Success?
  {
    hide PaddedName, AlignedSize, Fits, CodeFor, Encode, PacketOctets, FromHex;
  }

  /** Different names have different lower names, so a lower directory tells its entries apart. */
  lemma LowerNamesDiffer(c: Crypto, m: Mount, n1: seq<byte>, n2: seq<byte>, place1: Place, place2: Place)
    requires Sound(c) && IsSig(m.fnekSig) && 0 < |n1| < PATH_MAX && 0 < |n2| < PATH_MAX
    requires EncryptAndEncode(c, m, n1, place1).Success? && EncryptAndEncode(c, m, n2, place2).Success?
    ensures EncryptAndEncode(c, m, n1, place1).value == EncryptAndEncode(c, m, n2, place2).value <==> n1 == n2
  {
    if n1 == n2 {
      SameLowerName(c, m, n1, place1, m.encryptedView, place2);
    } else if m.encryptFilenames {
      DecodesOnBoundary(c, m, n1, place1);
      DecodesOnBoundary(c, m, n2, place2);
    }
  }

  /** With buffers at page boundaries the parser undoes every encryption that succeeded. */
  lemma DecodesOnBoundary(c: Crypto, m: Mount, name: seq<byte>, place: Place)
    requires Sound(c) && IsSig(m.fnekSig) && m.encryptFilenames && 0 < |name| < PATH_MAX
    requires EncryptAndEncode(c, m, name, place).Success?
    ensures DecodeAndDecrypt(c, m.(encryptedView := false), EncryptAndEncode(c, m, name, place).value, Place(0, 0)) ==
            Some(name)
  {
    var aligned, m' := AlignedSize(c.blockSize(m.fnCipherName), |name|), m.(encryptedView := false);
    AlignedIsLeast(c.blockSize(m.fnCipherName), |name|);
    FirstPassSuffices(c, m, name, place);
    FitsTwoPages(place, aligned);
    SmallScatters(0, aligned);
    SucceedsInEitherView(c, m, name, place, false);
    SameLowerName(c, m, name, place, false, place);
    hide AlignedSize, Scatters, DecodeAndDecrypt, EncryptAndEncode;
    FilenameRoundTrip(c, m', name, place, Place(0, 0));
  }

  lemma ParsedIsShorter(c: Crypto, m: Mount, data: seq<byte>, place: Place)
    requires Sound(c) && ParseTag70(c, m, data, place).Success?
    ensures var p := ParseTag70(c, m, data, place).value; p.name.Some? ==> |p.name.value| < |data|
  {
    hide NameFor, ToHex, Fits, Decoded;
  }

  /** A directory shows a lower name as it is exactly when it is no encrypted one or the parser refuses its
      packet: a parsed name is always shorter. */
  lemma ShownAsIs(c: Crypto, m: Mount, name: seq<byte>, place: Place)
    requires Sound(c)
    ensures DecodeAndDecrypt(c, m, name, place) == Some(name) <==>
            !Encrypted(m, name) || ParseTag70(c, m, Decode(name[FNEK_PREFIX_SIZE..]), place).Failure?
  {
    if Encrypted(m, name) && ParseTag70(c, m, Decode(name[FNEK_PREFIX_SIZE..]), place).Success? {
      ParsedIsShorter(c, m, Decode(name[FNEK_PREFIX_SIZE..]), place);
    }
    hide ParseTag70, Decode;
  }

  /** A mount that does not encrypt names keeps every name, both ways. */
  lemma PlainNamesStay(c: Crypto, m: Mount, name: seq<byte>, place: Place, place': Place)
    requires Sound(c) && IsSig(m.fnekSig) && !m.encryptFilenames
    ensures EncryptAndEncode(c, m, name, place) == Success(name)
    ensures DecodeAndDecrypt(c, m, name, place') == Some(name)
  {
  }

  /** A lower name holds no zero and no slash: only the prefix and the 64 portable characters. */
  lemma LowerNameIsPortable(c: Crypto, m: Mount, name: seq<byte>, place: Place, i: nat)
    requires Sound(c) && IsSig(m.fnekSig) && m.encryptFilenames && EncryptAndEncode(c, m, name, place).Success?
    requires i < |EncryptAndEncode(c, m, name, place).value|
    ensures var ch := EncryptAndEncode(c, m, name, place).value[i];
            (InAlphabet(ch) || ch == 0x5F) && ch != 0 && ch != 0x2F
  {
    hide WriteTag70, Encode, Tag70Size;
    if i >= FNEK_PREFIX_SIZE {
      EncodeInAlphabet(EncryptFilename(c, m, name, place).value, i - FNEK_PREFIX_SIZE);
    }
  }
}

/** The longest name a mount reports (gaes/ecryptfs_4.7_kocl/crypto.c). */
module NameLength {
  import opened Bytes
  import opened NameCodec
  import opened Tag70
  import opened Filename

  const NAME_MAX := 255
  const ENC_NAME_MAX_BLOCKLEN_8_OR_16 := 143

  /** ecryptfs_set_f_namelen */
  function SetFNamelen(encryptFilenames: bool, lower: nat, b: nat): int
    requires lower >= FNEK_PREFIX_SIZE && b >= 1
  {
    if !encryptFilenames then lower
    else if lower == NAME_MAX && (b == 8 || b == 16) then ENC_NAME_MAX_BLOCKLEN_8_OR_16
    else
      var room := MaxDecodedSize(lower - FNEK_PREFIX_SIZE);
      var n := room - 3 - TAG_70_MAX_METADATA_SIZE - MIN_RANDOM_PREPEND_BYTES - (b - 1);
      if n < 0 then 0 else n
  }

  /** The size of the lower name of a name of n octets. */
  function LowerNameSize(b: nat, n: nat): nat
    requires b >= 1
  {
    FNEK_PREFIX_SIZE + EncodedSize(PacketSize(b, n))
  }

  lemma LowerNameHasSize(c: Crypto, m: Mount, name: seq<byte>, place: Place)
    requires Sound(c) && IsSig(m.fnekSig) && m.encryptFilenames && EncryptAndEncode(c, m, name, place).Success?
    ensures |EncryptAndEncode(c, m, name, place).value| == LowerNameSize(c.blockSize(m.fnCipherName), |name|)
  {
    hide WriteTag70, Tag70Size, Encode;
    FirstPassSuffices(c, m, name, place);
  }

  lemma LowerNameSizeBound(b: nat, n: nat)
    requires b >= 1
    ensures LowerNameSize(b, n) <= 24 + (30 + n + b) / 3 * 4
  {
    AlignedIsLeast(b, n);
  }

  /** Every name of the reported length or less has a lower name within the lower limit. */
  lemma ReportedLengthFits(c: Crypto, m: Mount, name: seq<byte>, place: Place, lower: nat)
    requires Sound(c) && IsSig(m.fnekSig) && EncryptAndEncode(c, m, name, place).Success?
    requires lower >= FNEK_PREFIX_SIZE && name != []
    requires |name| <= SetFNamelen(m.encryptFilenames, lower, c.blockSize(m.fnCipherName))
    ensures |EncryptAndEncode(c, m, name, place).value| <= lower
  {
    hide WriteTag70, Tag70Size, Encode, EncryptFilename, AlignedSize, IsSig;
    if m.encryptFilenames {
      var b := c.blockSize(m.fnCipherName);
      LowerNameHasSize(c, m, name, place);
      if lower == NAME_MAX && (b == 8 || b == 16) {
        CommonCaseExact(b, |name|);
      } else {
        LowerNameSizeBound(b, |name|);
      }
    }
  }

  /** For the usual limit and block sizes 143 is exactly the longest name that fits. */
  lemma CommonCaseExact(b: nat, n: nat)
    requires b == 8 || b == 16
    ensures LowerNameSize(b, n) <= NAME_MAX <==> n <= ENC_NAME_MAX_BLOCKLEN_8_OR_16
  {
    hide AlignedSize;
    AlignedIsLeast(b, n);
  }

  /** In the common case the reported length is exact: a name fits exactly when it is no longer. */
  lemma CommonCaseReported(b: nat, n: nat)
    requires b == 8 || b == 16
    ensures LowerNameSize(b, n) <= NAME_MAX <==> n <= SetFNamelen(true, NAME_MAX, b)
  {
    CommonCaseExact(b, n);
  }

  /** In every other case it is at most a block and 3 octets short of the longest name that fits. */
  lemma EstimateIsClose(b: nat, n: nat, lower: nat)
    requires lower >= FNEK_PREFIX_SIZE && b >= 1 && LowerNameSize(b, n) <= lower
    ensures n <= SetFNamelen(true, lower, b) + b + 3
  {
    AlignedIsLeast(b, n);
    hide AlignedSize;
    if lower == NAME_MAX && (b == 8 || b == 16) { CommonCaseExact(b, n); }
  }

  /** A mount that does not encrypt names reports the limit of the lower directory, and that is exact. */
  lemma PlainNamesReported(c: Crypto, m: Mount, name: seq<byte>, place: Place, lower: nat)
    requires Sound(c) && IsSig(m.fnekSig) && !m.encryptFilenames && lower >= FNEK_PREFIX_SIZE
    ensures EncryptAndEncode(c, m, name, place).Success?
    ensures |EncryptAndEncode(c, m, name, place).value| <= lower <==>
            |name| <= SetFNamelen(false, lower, c.blockSize(m.fnCipherName))
  {
  }
}
