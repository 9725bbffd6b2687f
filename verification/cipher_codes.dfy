/** The map between cipher names and the codes stored in packets (gaes/ecryptfs_4.7_kocl/crypto.c);
    the codes are those of RFC 2440, section 9.2. */
module CipherCodes {
  import opened Wrappers
  import opened Bytes

  const AES_128: byte := 7
  const AES_192: byte := 8
  const AES_256: byte := 9

  datatype Entry = Entry(name: string, code: byte)

  /** ecryptfs_cipher_code_str_map */
  const CIPHER_CODE_STR_MAP: seq<Entry> :=
    [Entry("aes", AES_128), Entry("blowfish", 4), Entry("des3_ede", 2), Entry("cast5", 3),
     Entry("twofish", 10), Entry("cast6", 11), Entry("aes", AES_192), Entry("aes", AES_256)]

  function CodeFor(name: string, keyBytes: nat): byte {
    if name == "aes" then
      if keyBytes == 16 then AES_128 else if keyBytes == 24 then AES_192 else if keyBytes == 32 then AES_256 else 0
    else if name == "blowfish" then 4
    else if name == "des3_ede" then 2
    else if name == "cast5" then 3
    else if name == "twofish" then 10
    else if name == "cast6" then 11
    else 0
  }

  function NameFor(code: byte): Option<string> {
    if AES_128 <= code <= AES_256 then Some("aes")
    else if code == 4 then Some("blowfish")
    else if code == 2 then Some("des3_ede")
    else if code == 3 then Some("cast5")
    else if code == 10 then Some("twofish")
    else if code == 11 then Some("cast6")
    else None
  }

  /** A cipher that has a code is found again under it, and the code of AES tells its key size. */
  lemma CodeNamesCipher(name: string, keyBytes: nat)
    ensures CodeFor(name, keyBytes) != 0 ==> NameFor(CodeFor(name, keyBytes)) == Some(name)
    ensures CodeFor(name, keyBytes) == AES_192 <==> name == "aes" && keyBytes == 24
  {
  }

  /** Exactly the ciphers of the table have a code, AES with its three key sizes only. */
  lemma HasCode(name: string, keyBytes: nat)
    ensures CodeFor(name, keyBytes) != 0 <==>
            name in {"blowfish", "des3_ede", "cast5", "twofish", "cast6"} || (name == "aes" && keyBytes in {16, 24, 32})
  {
  }

  /** Two ciphers share a code exactly when they are the same, with the same key size if it is AES. */
  lemma CodesDiffer(n1: string, k1: nat, n2: string, k2: nat)
    requires CodeFor(n1, k1) != 0
    ensures CodeFor(n1, k1) == CodeFor(n2, k2) <==> n1 == n2 && (n1 == "aes" ==> k1 == k2)
  {
    hide NameFor;
  }

  /** The codes of AES are those of its key size in words of 8 octets: 7, 8 and 9. */
  lemma AesCodes(keyBytes: nat)
    requires keyBytes in {16, 24, 32}
    ensures ValueOf(CodeFor("aes", keyBytes)) == keyBytes / 8 + 5
  {
  }

  /** And no other code names a cipher. */
  lemma NamesOnlyCodes(code: byte)
    ensures NameFor(code).Some? ==> exists keyBytes :: CodeFor(NameFor(code).value, keyBytes) == code != 0
    ensures NameFor(code).None? ==> forall name, keyBytes :: CodeFor(name, keyBytes) == code ==> code == 0
  {
    if NameFor(code) == Some("aes") {
      var keyBytes := if code == AES_128 then 16 else if code == AES_192 then 24 else 32;
      assert CodeFor("aes", keyBytes) == code;
    } else if NameFor(code).Some? {
      assert CodeFor(NameFor(code).value, 16) == code;
    }
    forall name, keyBytes | CodeFor(name, keyBytes) == code != 0 ensures NameFor(code).Some? {
      CodeNamesCipher(name, keyBytes);
    }
  }

  /** ecryptfs_code_for_cipher_string */
  method EcryptfsCodeForCipherString(name: string, keyBytes: nat) returns (code: byte)
    ensures code == CodeFor(name, keyBytes)
  {
    code := 0;
    if name == "aes" {
      match keyBytes {
        case 16 => code := AES_128;
        case 24 => code := AES_192;
        case 32 => code := AES_256;
        case _ =>
      }
    } else {
      var i := 0;
      while i < |CIPHER_CODE_STR_MAP|
        invariant 0 <= i <= |CIPHER_CODE_STR_MAP| && code == 0
        invariant forall j :: 0 <= j < i ==> CIPHER_CODE_STR_MAP[j].name != name
      {
        if name == CIPHER_CODE_STR_MAP[i].name {
          code := CIPHER_CODE_STR_MAP[i].code;
          break;
        }
        i := i + 1;
      }
      assert CIPHER_CODE_STR_MAP[1].name == "blowfish" && CIPHER_CODE_STR_MAP[2].name == "des3_ede";
      assert CIPHER_CODE_STR_MAP[3].name == "cast5" && CIPHER_CODE_STR_MAP[4].name == "twofish";
      assert CIPHER_CODE_STR_MAP[5].name == "cast6";
    }
  }

  /** ecryptfs_cipher_code_to_string: the loop runs to the end and keeps the last match. */
  method EcryptfsCipherCodeToString(code: byte) returns (name: Option<string>)
    ensures name == NameFor(code)
  {
    name := None;
    var i := 0;
    while i < |CIPHER_CODE_STR_MAP|
      invariant 0 <= i <= |CIPHER_CODE_STR_MAP|
      invariant forall j :: 0 <= j < i && CIPHER_CODE_STR_MAP[j].code == code ==>
                  name == Some(CIPHER_CODE_STR_MAP[j].name)
      invariant name.Some? ==> exists j :: 0 <= j < i && CIPHER_CODE_STR_MAP[j].code == code
    {
      if code == CIPHER_CODE_STR_MAP[i].code {
        name := Some(CIPHER_CODE_STR_MAP[i].name);
      }
      i := i + 1;
    }
    assert CIPHER_CODE_STR_MAP[0].code == AES_128 && CIPHER_CODE_STR_MAP[1].code == 4;
    assert CIPHER_CODE_STR_MAP[2].code == 2 && CIPHER_CODE_STR_MAP[3].code == 3;
    assert CIPHER_CODE_STR_MAP[4].code == 10 && CIPHER_CODE_STR_MAP[5].code == 11;
    assert CIPHER_CODE_STR_MAP[6].code == AES_192 && CIPHER_CODE_STR_MAP[7].code == AES_256;
  }
}
