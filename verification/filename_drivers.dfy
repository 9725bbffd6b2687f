/** The two drivers of the file name pipeline, with the buffers they allocate and fill. */
module FilenameDrivers {
  import opened Wrappers
  import opened Kernel
  import opened Bytes
  import opened NameCodec
  import opened NameCodecLoops
  import opened Tag70
  import opened Tag70Packet
  import opened Filename

  /** ecryptfs_encrypt_filename */
  method EncryptFilenameBuffer(c: Crypto, m: Mount, name: seq<byte>, place: Place)
    returns (rc: int, encrypted: seq<byte>)
    requires Sound(c) && IsSig(m.fnekSig)
    ensures match EncryptFilename(c, m, name, place)
            case Success(packet) => rc == 0 && encrypted == packet
            case Failure(e) => rc == e && encrypted == []
  {
    hide WriteTag70, Tag70Size;
    encrypted := [];
    if !m.useMountFnek {
      return -EOPNOTSUPP, [];
    }
    var size, packetSize, remaining;
    rc, size, remaining := EcryptfsWriteTag70Packet(c, m, null, 0, name, place);
    if rc != 0 {
      return rc, [];
    }
    var buf := new byte[size];
    rc, packetSize, remaining := EcryptfsWriteTag70Packet(c, m, buf, size, name, place);
    if rc != 0 {
      return rc, [];
    }
    encrypted := buf[..packetSize];
  }

  /** ecryptfs_encrypt_and_encode_filename: the name ends in a zero that does not count. */
  method EcryptfsEncryptAndEncodeFilename(c: Crypto, m: Mount, name: seq<byte>, place: Place)
    returns (rc: int, encodedName: array?<byte>, encodedNameSize: nat)
    requires Sound(c) && IsSig(m.fnekSig)
    ensures encodedName != null ==> fresh(encodedName)
    ensures match EncryptAndEncode(c, m, name, place)
            case Success(lower) =>
              && rc == 0 && encodedName != null && encodedNameSize == |lower| && encodedName[..] == lower + [0]
            case Failure(e) => rc == e && encodedName == null && encodedNameSize == 0
  {
    hide EncryptFilename, Encode;
    if m.encryptFilenames {
      var encrypted;
      rc, encrypted := EncryptFilenameBuffer(c, m, name, place);
      if rc != 0 {
        return rc, null, 0;
      }
      var noPrefixSize := EncodeForFilename(null, 0, encrypted);
      encodedNameSize := FNEK_PREFIX_SIZE + noPrefixSize;
      var buf := new byte[encodedNameSize + 1];
      forall i | 0 <= i < FNEK_PREFIX_SIZE {
        buf[i] := FNEK_PREFIX[i];
      }
      assert buf[..FNEK_PREFIX_SIZE] == FNEK_PREFIX;
      noPrefixSize := EncodeForFilename(buf, FNEK_PREFIX_SIZE, encrypted);
      encodedNameSize := FNEK_PREFIX_SIZE + noPrefixSize;
      assert buf[..encodedNameSize] == FNEK_PREFIX + Encode(encrypted);
      buf[encodedNameSize] := 0;
      encodedName := buf;
    } else {
      var buf := CopyFilename(name);
      rc, encodedName, encodedNameSize := 0, buf, |name|;
    }
  }

  /** ecryptfs_copy_filename */
  method CopyFilename(name: seq<byte>) returns (copied: array<byte>)
    ensures fresh(copied) && copied[..] == name + [0]
  {
    copied := new byte[|name| + 1](i requires 0 <= i <= |name| => if i < |name| then name[i] else 0);
  }

  /** ecryptfs_decode_and_decrypt_filename */
  method EcryptfsDecodeAndDecryptFilename(c: Crypto, m: Mount, name: seq<byte>, place: Place)
    returns (rc: int, plaintext: Option<seq<byte>>)
    requires Sound(c)
    ensures rc == 0 && plaintext == DecodeAndDecrypt(c, m, name, place)
  {
    hide ParseTag70, Decode;
    if m.encryptFilenames && !m.encryptedView
       && |name| > FNEK_PREFIX_SIZE && name[..FNEK_PREFIX_SIZE] == FNEK_PREFIX {
      var text := name[FNEK_PREFIX_SIZE..];
      var decodedSize := DecodeFromFilename(null, text);
      var decoded := new byte[decodedSize];
      decodedSize := DecodeFromFilename(decoded, text);
      var packetSize;
      rc, plaintext, packetSize := EcryptfsParseTag70Packet(c, m, decoded[..decodedSize], place);
      if rc != 0 {
        rc, plaintext := 0, Some(name);
      }
    } else {
      rc, plaintext := 0, Some(name);
    }
  }
}
