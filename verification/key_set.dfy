/**
 The packet set of a file header: ecryptfs_generate_key_packet_set and the first half of
 ecryptfs_parse_packet_set (gaes/ecryptfs_4.7_kocl/keystore.c) as functions, and that the parser
 reads back what was generated.
 */
module KeySet {
  import opened Wrappers
  import opened Kernel
  import opened Bytes
  import opened PacketLength
  import opened CipherCodes
  import opened Tag70
  import opened KeyPackets

  predicate Tag3Fits(encKey: seq<byte>, max: nat) { 17 + |encKey| <= max }
  predicate Tag11Fits(contents: seq<byte>, max: nat) { 18 + |contents| <= max }
  predicate Tag1Fits(encKey: seq<byte>, max: nat) { 14 + |encKey| <= max }

  /** write_tag_3_packet */
  function WriteTag3(cs: CryptStat, salt: seq<byte>, encKey: seq<byte>, max: nat): Result<seq<byte>, Errno>
    requires |salt| == SALT_SIZE && |encKey| <= MAX_ENCRYPTED_KEY_BYTES
  {
    if !Tag3Fits(encKey, max) then Failure(-EINVAL)
    else if CodeFor(cs.cipher, cs.keySize) == 0 then Failure(-EINVAL)
    else Success(Tag3(CodeFor(cs.cipher, cs.keySize), salt, encKey))
  }

  /** The size a writer asks for is enough for what it stores. */
  lemma WritersFit(code: byte, salt: seq<byte>, encKey: seq<byte>, sig: seq<byte>)
    requires |salt| == SALT_SIZE && |encKey| <= MAX_ENCRYPTED_KEY_BYTES && |sig| == SIG_SIZE
    ensures 15 + |encKey| <= |Tag3(code, salt, encKey)| <= 16 + |encKey|
    ensures |Tag11(sig)| == 24
    ensures 12 + |encKey| <= |Tag1(sig, encKey)| <= 13 + |encKey|
  {
  }

  /** What one key signature of the file adds to the set. */
  function WriteRecord(cs: CryptStat, r: KeyRecord, max: nat): Result<seq<byte>, Errno>
    requires ValidRecord(cs, r)
  {
    match r
    case Missing(rc) => Failure(rc)
    case OtherType => Failure(-EINVAL)
    case PrivateKey(sig, encKey) =>
      if Tag1Fits(encKey, max) then Success(Tag1(FromHex(sig), encKey)) else Failure(-EINVAL)
    case Password(sig, salt, encKey) =>
      match WriteTag3(cs, salt, encKey, max)
      case Failure(e) => Failure(e)
      case Success(packet) =>
        if max >= |packet| && Tag11Fits(FromHex(sig), max - |packet|) then Success(packet + Tag11(FromHex(sig)))
        else Failure(-EINVAL)
  }

  lemma RecordFits(cs: CryptStat, r: KeyRecord, max: nat)
    requires ValidRecord(cs, r) && WriteRecord(cs, r, max).Success?
    ensures 12 <= |WriteRecord(cs, r, max).value| < max
  {
    hide FromHex, IsSig, CodeFor, Tag3, Tag11, Tag1;
    match r
    case PrivateKey(sig, encKey) => WritersFit(0, Zeros(8), encKey, FromHex(sig));
    case Password(sig, salt, encKey) => WritersFit(CodeFor(cs.cipher, cs.keySize), salt, encKey, FromHex(sig));
  }

  predicate AllValid(cs: CryptStat, records: seq<KeyRecord>) {
    forall i :: 0 <= i < |records| ==> ValidRecord(cs, records[i])
  }

  lemma ValidFrom(cs: CryptStat, records: seq<KeyRecord>, k: nat)
    requires AllValid(cs, records) && k <= |records|
    ensures AllValid(cs, records[k..])
    ensures k < |records| ==> ValidRecord(cs, records[k])
  {
  }

  /** The packets of all records within a budget that shrinks by what each has taken; the byte
      that ends the set needs one more octet. */
  function Generate(cs: CryptStat, records: seq<KeyRecord>, max: nat): Result<seq<byte>, Errno>
    requires AllValid(cs, records)
  {
    if records == [] then if max > 0 then Success([]) else Failure(-EIO)
    else
      match WriteRecord(cs, records[0], max)
      case Failure(e) => Failure(e)
      case Success(packets) =>
        RecordFits(cs, records[0], max);
        match Generate(cs, records[1..], max - |packets|)
        case Failure(e) => Failure(e)
        case Success(others) => Success(packets + others)
  }

  /** A generated set leaves room for its last byte in the budget. */
  lemma {:induction false} SetFits(cs: CryptStat, records: seq<KeyRecord>, max: nat)
    requires AllValid(cs, records)
    requires Generate(cs, records, max).Success?
    ensures |Generate(cs, records, max).value| < max
  {
    if records != [] {
      RecordFits(cs, records[0], max);
      SetFits(cs, records[1..], max - |WriteRecord(cs, records[0], max).value|);
    }
  }

  /* ----- when a set is generated ----- */

  function LengthOctets(n: nat): nat { if n < 192 then 1 else 2 }

  /** The octets that a record takes in the set: a tag 1 packet, or a tag 3 and a tag 11 packet. */
  function RecordSize(r: KeyRecord): nat {
    match r
    case PrivateKey(_, encKey) => 1 + LengthOctets(10 + |encKey|) + 10 + |encKey|
    case Password(_, _, encKey) => 1 + LengthOctets(13 + |encKey|) + 13 + |encKey| + 24
    case _ => 0
  }

  /** Is there a key to write, with a cipher that has a code, and room for what each writer asks for? */
  predicate Writable(cs: CryptStat, r: KeyRecord, max: nat) {
    match r
    case PrivateKey(_, encKey) => 14 + |encKey| <= max
    case Password(_, _, encKey) =>
      CodeFor(cs.cipher, cs.keySize) != 0 && 17 + |encKey| <= max && RecordSize(r) + 2 <= max
    case _ => false
  }

  function ErrorOf(r: KeyRecord): Errno {
    if r.Missing? then r.rc else -EINVAL
  }

  /** A record is written exactly when it is writable, with its size, and else fails with its own error. */
  lemma RecordWritten(cs: CryptStat, r: KeyRecord, max: nat)
    requires ValidRecord(cs, r)
    ensures WriteRecord(cs, r, max).Success? <==> Writable(cs, r, max)
    ensures !Writable(cs, r, max) ==> WriteRecord(cs, r, max) == Failure(ErrorOf(r))
    ensures Writable(cs, r, max) ==> |WriteRecord(cs, r, max).value| == RecordSize(r) < max
  {
    hide FromHex, CodeFor, IsSig;
  }

  /** The octets of the first k records. */
  function SizeOf(records: seq<KeyRecord>, k: nat): nat
    requires k <= |records|
  {
    if k == 0 then 0 else SizeOf(records, k - 1) + RecordSize(records[k - 1])
  }

  /** The k-th record is writable in what the ones before it leave of the budget. */
  predicate WritableAt(cs: CryptStat, records: seq<KeyRecord>, max: nat, k: nat)
    requires k < |records|
  {
    SizeOf(records, k) <= max && Writable(cs, records[k], max - SizeOf(records, k))
  }

  lemma {:induction false} SizeOfRest(records: seq<KeyRecord>, k: nat)
    requires k < |records|
    ensures SizeOf(records, k + 1) == RecordSize(records[0]) + SizeOf(records[1..], k)
  {
    if k > 0 {
      SizeOfRest(records, k - 1);
      assert records[1..][k - 1] == records[k];
    }
  }

  /** The records behind the first are writable in the whole budget as they are in what the first leaves. */
  lemma WritableBehind(cs: CryptStat, records: seq<KeyRecord>, max: nat, k: nat)
    requires k + 1 < |records| && RecordSize(records[0]) <= max
    ensures WritableAt(cs, records, max, k + 1) <==> WritableAt(cs, records[1..], max - RecordSize(records[0]), k)
  {
    SizeOfRest(records, k);
    hide Writable, SizeOf, RecordSize;
  }

  ghost predicate AllWritable(cs: CryptStat, records: seq<KeyRecord>, max: nat) {
    forall k :: 0 <= k < |records| ==> WritableAt(cs, records, max, k)
  }

  lemma AllBehind(cs: CryptStat, records: seq<KeyRecord>, max: nat)
    requires records != [] && RecordSize(records[0]) <= max
    ensures AllWritable(cs, records, max) <==>
            WritableAt(cs, records, max, 0) && AllWritable(cs, records[1..], max - RecordSize(records[0]))
  {
    hide WritableAt;
    var rest := max - RecordSize(records[0]);
    if AllWritable(cs, records, max) {
      forall k | 0 <= k < |records| - 1 ensures WritableAt(cs, records[1..], rest, k) {
        WritableBehind(cs, records, max, k);
      }
    }
    if AllWritable(cs, records[1..], rest) && WritableAt(cs, records, max, 0) {
      forall k | 0 <= k < |records| ensures WritableAt(cs, records, max, k) {
        if k > 0 { WritableBehind(cs, records, max, k - 1); }
      }
    }
  }

  /** A set is generated exactly when every record is writable in what the earlier ones leave and one octet remains
      for its end; it has the size of its records. */
  lemma {:induction false} GenerateSucceeds(cs: CryptStat, records: seq<KeyRecord>, max: nat)
    requires AllValid(cs, records)
    ensures Generate(cs, records, max).Success? <==>
            AllWritable(cs, records, max) && SizeOf(records, |records|) < max
    ensures Generate(cs, records, max).Success? ==>
            |Generate(cs, records, max).value| == SizeOf(records, |records|)
  {
    if records != [] {
      RecordWritten(cs, records[0], max);
      assert SizeOf(records, 0) == 0;
      hide Writable, WriteRecord, RecordSize, ValidRecord;
      if WriteRecord(cs, records[0], max).Success? {
        var rest := max - RecordSize(records[0]);
        GenerateSucceeds(cs, records[1..], rest);
        AllBehind(cs, records, max);
        SizeOfRest(records, |records| - 1);
        hide AllWritable, SizeOf;
      } else {
        assert !WritableAt(cs, records, max, 0);
      }
    }
  }

  /** All records before the k-th are writable and it is not, or all are and no octet remains. */
  predicate FailsFirstAt(cs: CryptStat, records: seq<KeyRecord>, max: nat, k: nat) {
    && k <= |records|
    && (forall j :: 0 <= j < k ==> WritableAt(cs, records, max, j))
    && (if k < |records| then !WritableAt(cs, records, max, k) else SizeOf(records, k) >= max)
  }

  function ErrorAt(records: seq<KeyRecord>, k: nat): Errno {
    if k < |records| then ErrorOf(records[k]) else -EIO
  }

  lemma FailsBehind(cs: CryptStat, records: seq<KeyRecord>, max: nat, k: nat)
    requires records != [] && k > 0 && RecordSize(records[0]) <= max && FailsFirstAt(cs, records, max, k)
    ensures FailsFirstAt(cs, records[1..], max - RecordSize(records[0]), k - 1)
    ensures ErrorAt(records, k) == ErrorAt(records[1..], k - 1)
  {
    hide Writable, RecordSize, ErrorOf, SizeOf, WritableAt;
    var rest := max - RecordSize(records[0]);
    forall j | 0 <= j < k - 1 ensures WritableAt(cs, records[1..], rest, j) {
      WritableBehind(cs, records, max, j);
    }
    SizeOfRest(records, k - 1);
    if k < |records| { WritableBehind(cs, records, max, k - 1); }
  }

  lemma GenerateOn(cs: CryptStat, records: seq<KeyRecord>, max: nat, e: Errno)
    requires AllValid(cs, records) && records != [] && WritableAt(cs, records, max, 0)
    ensures RecordSize(records[0]) < max
    ensures Generate(cs, records[1..], max - RecordSize(records[0])) == Failure(e) ==>
            Generate(cs, records, max) == Failure(e)
  {
    RecordWritten(cs, records[0], max);
    hide Writable, WriteRecord, RecordSize, ValidRecord;
  }

  /** Else the error is that of the first record that is not writable, or -EIO for the missing last octet. */
  lemma {:induction false} GenerateFails(cs: CryptStat, records: seq<KeyRecord>, max: nat, k: nat)
    requires AllValid(cs, records) && FailsFirstAt(cs, records, max, k)
    ensures Generate(cs, records, max) == Failure(ErrorAt(records, k))
    decreases |records|
  {
    if k > 0 {
      assert WritableAt(cs, records, max, 0);
      hide WritableAt, Generate, RecordSize, ErrorAt, FailsFirstAt;
      GenerateOn(cs, records, max, ErrorAt(records, k));
      FailsBehind(cs, records, max, k);
      GenerateFails(cs, records[1..], max - RecordSize(records[0]), k - 1);
    } else if records != [] {
      RecordWritten(cs, records[0], max);
      hide Writable, WriteRecord, RecordSize, ValidRecord, ErrorOf;
    }
  }

  /* ----- parsing ----- */

  datatype Token =
    | PasswordToken(sig: string, salt: seq<byte>, iterations: nat, encKey: seq<byte>)
    | PrivateKeyToken(sig: string, encKey: seq<byte>)

  /** The tokens, the cipher and key size that the packets ask for, and where the set ends. */
  datatype SetParsed = SetParsed(tokens: seq<Token>, crypt: CryptStat, end: nat)

  const SIZE_T_RANGE := 0x1_0000_0000_0000_0000

  /** (PAGE_SIZE - 8) - i in a size_t */
  function Bound(i: nat): nat
    requires i < SIZE_T_RANGE
  {
    if i <= PAGE_SIZE - 8 then PAGE_SIZE - 8 - i else SIZE_T_RANGE + PAGE_SIZE - 8 - i
  }

  /** A token, what it asks of the cipher, and the octets it took. */
  datatype Pair = Pair(token: Token, crypt: CryptStat, size: nat)

  /** A tag 3 packet and the tag 11 packet behind it, both within the bound at the first. */
  function ParsePair(data: seq<byte>, max: nat, init: CryptStat -> int): (r: Result<Pair, Errno>)
    ensures r.Success? ==> 0 < r.value.size <= |data|
  {
    match ParseTag3(data, max, init)
    case Failure(e) => Failure(-EIO)
    case Success(t) =>
      match ParseTag11(data[t.size..], SIG_SIZE, max)
      case Failure(e) => Failure(-EIO)
      case Success(s) =>
        if |s.contents| != SIG_SIZE then Failure(-EIO)
        else Success(Pair(PasswordToken(ToHex(s.contents), t.salt, t.iterations, t.encKey), t.crypt, t.size + s.size))
  }

  /** The loop of ecryptfs_parse_packet_set, at offset i with data from there on; list_add puts
      each token at the front. */
  function Parse(data: seq<byte>, i: nat, init: CryptStat -> int, crypt: CryptStat, tokens: seq<Token>)
    : Result<SetParsed, Errno>
    requires i + |data| < SIZE_T_RANGE
    decreases |data|
  {
    if data == [] then Failure(-EIO)
    else if data[0] == TAG_3 then
      match ParsePair(data, Bound(i), init)
      case Failure(e) => Failure(e)
      case Success(p) => Parse(data[p.size..], i + p.size, init, p.crypt, [p.token] + tokens)
    else if data[0] == TAG_1 then
      match ParseTag1(data, Bound(i))
      case Failure(e) => Failure(-EIO)
      case Success(t) => Parse(data[t.size..], i + t.size, init, crypt, [PrivateKeyToken(t.sig, t.encKey)] + tokens)
    else if data[0] == TAG_11 then Failure(-EIO)
    else Success(SetParsed(tokens, crypt, i))
  }

  /** A signature of 8 octets in hexadecimal, and a key no longer than the largest. */
  predicate WellFormed(t: Token) {
    && |t.sig| == 2 * SIG_SIZE && |t.encKey| <= MAX_ENCRYPTED_KEY_BYTES
    && (t.PasswordToken? ==> |t.salt| == SALT_SIZE)
  }

  lemma PairAccepted(data: seq<byte>, max: nat, init: CryptStat -> int)
    requires ParsePair(data, max, init).Success?
    ensures WellFormed(ParsePair(data, max, init).value.token) && init(ParsePair(data, max, init).value.crypt) == 0
  {
    Tag3Accepted(data, max, init);
    hide ParseTag3, ParseTag11, ToHex;
  }

  lemma PrivateAccepted(data: seq<byte>, max: nat)
    requires ParseTag1(data, max).Success?
    ensures WellFormed(PrivateKeyToken(ParseTag1(data, max).value.sig, ParseTag1(data, max).value.encKey))
  {
    Tag1Accepted(data, max);
    var t := ParseTag1(data, max).value;
    var sig: seq<byte>, algorithm: byte :| IsTag1(data[..t.size], sig, algorithm, t);
    hide ParseTag1, Packet;
    assert |ToHex(sig)| == 2 * SIG_SIZE;
  }

  lemma PairParts(data: seq<byte>, max: nat, init: CryptStat -> int)
    requires ParsePair(data, max, init).Success?
    ensures ParseTag3(data, max, init).Success? && ParseTag3(data, max, init).value.size <= |data|
    ensures var k := ParseTag3(data, max, init).value.size;
            && ParseTag11(data[k..], SIG_SIZE, max).Success?
            && ParsePair(data, max, init).value.size == k + ParseTag11(data[k..], SIG_SIZE, max).value.size
  {
    hide ParseTag3, ParseTag11, ToHex;
  }

  /** A packet that is accepted within the page ends 8 octets before the page's end or earlier; the tag 11 packet
      behind a tag 3 packet is only kept shorter than what was left in front of the tag 3 packet. */
  lemma PacketsWithinPage(data: seq<byte>, i: nat, init: CryptStat -> int)
    requires i <= PAGE_SIZE - 8
    ensures ParseTag1(data, Bound(i)).Success? ==> i + ParseTag1(data, Bound(i)).value.size <= PAGE_SIZE - 8
    ensures ParsePair(data, Bound(i), init).Success? ==>
              && ParseTag3(data, Bound(i), init).Success?
              && var first := ParseTag3(data, Bound(i), init).value.size;
                 && i + first <= PAGE_SIZE - 8
                 && i + (ParsePair(data, Bound(i), init).value.size - first) < PAGE_SIZE - 8
  {
    hide ParseTag1, ParseTag3, ParseTag11, ParsePair, IsTag1, IsTag3, IsTag11;
    if ParseTag1(data, Bound(i)).Success? { Tag1Accepted(data, Bound(i)); }
    if ParsePair(data, Bound(i), init).Success? {
      PairParts(data, Bound(i), init);
      Tag3Accepted(data, Bound(i), init);
      Tag11Accepted(data[ParseTag3(data, Bound(i), init).value.size..], SIG_SIZE, Bound(i));
    }
  }

  /** Whatever the octets are, every token that the parser adds is well formed, and a cipher it takes over can be
      set up. */
  lemma {:induction false} TokensAccepted(data: seq<byte>, i: nat, init: CryptStat -> int, crypt: CryptStat,
                                          tokens: seq<Token>)
    requires i + |data| < SIZE_T_RANGE && Parse(data, i, init, crypt, tokens).Success?
    requires (forall t :: t in tokens ==> WellFormed(t))
    ensures var p := Parse(data, i, init, crypt, tokens).value;
            && i <= p.end < i + |data| && (p.crypt == crypt || init(p.crypt) == 0)
            && (forall t :: t in p.tokens ==> WellFormed(t))
            && |tokens| <= |p.tokens| && p.tokens[|p.tokens| - |tokens|..] == tokens
    decreases |data|
  {
    hide ParseTag1, ParsePair, WellFormed;
    ParseRound(data, i, init, crypt, tokens);
    hide Parse;
    if data[0] == TAG_3 {
      PairAccepted(data, Bound(i), init);
      var p := ParsePair(data, Bound(i), init).value;
      TokensAccepted(data[p.size..], i + p.size, init, p.crypt, [p.token] + tokens);
      LastOf(Parse(data, i, init, crypt, tokens).value.tokens, p.token, tokens);
    } else if data[0] == TAG_1 {
      PrivateAccepted(data, Bound(i));
      var t := ParseTag1(data, Bound(i)).value;
      var token := PrivateKeyToken(t.sig, t.encKey);
      TokensAccepted(data[t.size..], i + t.size, init, crypt, [token] + tokens);
      LastOf(Parse(data, i, init, crypt, tokens).value.tokens, token, tokens);
    }
  }

  lemma LastOf(all: seq<Token>, first: Token, tokens: seq<Token>)
    requires |tokens| + 1 <= |all| && all[|all| - (|tokens| + 1)..] == [first] + tokens
    ensures all[|all| - |tokens|..] == tokens
  {
    assert all[|all| - |tokens|..] == all[|all| - (|tokens| + 1)..][1..];
  }

  /* ----- reading back a generated set ----- */

  function TokenOf(r: KeyRecord): Token
    requires r.Password? || r.PrivateKey?
  {
    match r
    case Password(sig, salt, encKey) => PasswordToken(sig, salt, HASH_ITERATIONS, encKey)
    case PrivateKey(sig, encKey) => PrivateKeyToken(sig, encKey)
  }

  /** The tokens of the records, last first, in front of others. */
  function Pushed(records: seq<KeyRecord>, tokens: seq<Token>): seq<Token>
    requires forall r :: r in records ==> r.Password? || r.PrivateKey?
  {
    if records == [] then tokens else Pushed(records[1..], [TokenOf(records[0])] + tokens)
  }

  /** Pushing one after the other reverses the order. */
  lemma {:induction false} PushedReverses(records: seq<KeyRecord>, tokens: seq<Token>, k: nat)
    requires forall r :: r in records ==> r.Password? || r.PrivateKey?
    requires k < |records|
    ensures |Pushed(records, tokens)| == |records| + |tokens|
    ensures Pushed(records, tokens)[|records| - 1 - k] == TokenOf(records[k])
    ensures Pushed(records, tokens)[|records|..] == tokens
  {
    if |records| > 1 {
      PushedReverses(records[1..], [TokenOf(records[0])] + tokens, if k > 0 then k - 1 else 0);
      if k == 0 {
        assert Pushed(records, tokens)[|records| - 1..][0] == TokenOf(records[0]);
      }
      assert Pushed(records, tokens)[|records| - 1..][1..] == tokens;
    }
  }

  lemma {:induction false} GeneratedRecords(cs: CryptStat, records: seq<KeyRecord>, max: nat)
    requires AllValid(cs, records)
    requires Generate(cs, records, max).Success?
    ensures forall r :: r in records ==> r.Password? || r.PrivateKey?
  {
    if records != [] {
      RecordFits(cs, records[0], max);
      GeneratedRecords(cs, records[1..], max - |WriteRecord(cs, records[0], max).value|);
      assert forall r :: r in records ==> r == records[0] || r in records[1..];
    }
  }

  lemma PairRead(cs: CryptStat, sig: string, salt: seq<byte>, encKey: seq<byte>, rest: seq<byte>, max: nat,
                 init: CryptStat -> int)
    requires ValidRecord(cs, Password(sig, salt, encKey)) && CodeFor(cs.cipher, cs.keySize) != 0 && init(cs) == 0
    requires |Tag3(CodeFor(cs.cipher, cs.keySize), salt, encKey)| + 24 <= max
    ensures var first := Tag3(CodeFor(cs.cipher, cs.keySize), salt, encKey);
            ParsePair(first + (Tag11(FromHex(sig)) + rest), max, init) ==
            Success(Pair(PasswordToken(sig, salt, HASH_ITERATIONS, encKey), cs, |first| + 24))
  {
    var code := CodeFor(cs.cipher, cs.keySize);
    var first, second := Tag3(code, salt, encKey), Tag11(FromHex(sig));
    WritersFit(code, salt, encKey, FromHex(sig));
    HexRoundTrip(sig);
    hide Tag3, Tag11, ParseTag3, ParseTag11, CodeFor, FromHex, ToHex, IsSig;
    Tag3RoundTrip(cs, salt, encKey, second + rest, max, init);
    assert (first + (second + rest))[|first|..] == second + rest;
    Tag11RoundTrip(FromHex(sig), rest, max);
  }

  lemma Rebracket(a: seq<byte>, b: seq<byte>, c: seq<byte>)
    ensures a + b + c == a + (b + c)
    ensures (a + b)[|a|..] == b
  {
  }

  lemma PasswordRead(cs: CryptStat, r: KeyRecord, max: nat, rest: seq<byte>, bound: nat, init: CryptStat -> int)
    requires ValidRecord(cs, r) && r.Password? && WriteRecord(cs, r, max).Success? && init(cs) == 0
    requires |WriteRecord(cs, r, max).value| <= bound
    ensures var packets := WriteRecord(cs, r, max).value;
            ParsePair(packets + rest, bound, init) == Success(Pair(TokenOf(r), cs, |packets|))
  {
    PasswordPackets(cs, r, max);
    hide Tag3, Tag11, ParsePair, CodeFor, FromHex, IsSig, WriteRecord, WriteTag3;
    Rebracket(Tag3(CodeFor(cs.cipher, cs.keySize), r.salt, r.encKey), Tag11(FromHex(r.sig)), rest);
    PairRead(cs, r.sig, r.salt, r.encKey, rest, bound, init);
  }

  lemma PasswordPackets(cs: CryptStat, r: KeyRecord, max: nat)
    requires ValidRecord(cs, r) && r.Password? && WriteRecord(cs, r, max).Success?
    ensures CodeFor(cs.cipher, cs.keySize) != 0
    ensures var first, second := Tag3(CodeFor(cs.cipher, cs.keySize), r.salt, r.encKey), Tag11(FromHex(r.sig));
            WriteRecord(cs, r, max).value == first + second && |second| == 24
  {
    WritersFit(CodeFor(cs.cipher, cs.keySize), r.salt, r.encKey, FromHex(r.sig));
    hide Tag3, Tag11, CodeFor, FromHex, IsSig;
  }

  /** A record's packets read back, whatever follows them. */
  lemma RecordRead(cs: CryptStat, r: KeyRecord, max: nat, rest: seq<byte>, bound: nat, init: CryptStat -> int)
    requires ValidRecord(cs, r) && WriteRecord(cs, r, max).Success? && init(cs) == 0
    requires |WriteRecord(cs, r, max).value| <= bound
    ensures var packets := WriteRecord(cs, r, max).value;
            && (r.Password? ==> ParsePair(packets + rest, bound, init) == Success(Pair(TokenOf(r), cs, |packets|)))
            && (r.PrivateKey? ==> ParseTag1(packets + rest, bound) == Success(Tag1Parsed(r.sig, r.encKey, |packets|)))
  {
    hide Tag1, Tag3, Tag11, ParseTag1, ParsePair, FromHex, IsSig;
    if r.PrivateKey? {
      Tag1RoundTrip(r.sig, r.encKey, rest, bound);
    } else if r.Password? {
      PasswordRead(cs, r, max, rest, bound, init);
    }
  }

  lemma FirstByte(cs: CryptStat, r: KeyRecord, max: nat)
    requires ValidRecord(cs, r) && WriteRecord(cs, r, max).Success?
    ensures r.Password? || r.PrivateKey?
    ensures |WriteRecord(cs, r, max).value| > 0
    ensures r.Password? ==> WriteRecord(cs, r, max).value[0] == TAG_3
    ensures r.PrivateKey? ==> WriteRecord(cs, r, max).value[0] == TAG_1
  {
    hide Encoded, FromHex, IsSig, CodeFor;
  }

  lemma GenerateStep(cs: CryptStat, records: seq<KeyRecord>, max: nat)
    requires AllValid(cs, records)
    requires records != [] && Generate(cs, records, max).Success?
    ensures WriteRecord(cs, records[0], max).Success?
    ensures var packets := WriteRecord(cs, records[0], max).value;
            && |packets| <= max && Generate(cs, records[1..], max - |packets|).Success?
            && Generate(cs, records, max).value == packets + Generate(cs, records[1..], max - |packets|).value
  {
    hide WriteRecord, ValidRecord;
    RecordFits(cs, records[0], max);
  }

  /** One round of the parser's loop. */
  lemma ParseRound(data: seq<byte>, i: nat, init: CryptStat -> int, crypt: CryptStat, tokens: seq<Token>)
    requires i + |data| < SIZE_T_RANGE
    ensures data == [] ==> Parse(data, i, init, crypt, tokens) == Failure(-EIO)
    ensures data != [] && data[0] == TAG_3 ==>
              match ParsePair(data, Bound(i), init)
              case Success(p) =>
                Parse(data, i, init, crypt, tokens)
                == Parse(data[p.size..], i + p.size, init, p.crypt, [p.token] + tokens)
              case Failure(_) => Parse(data, i, init, crypt, tokens) == Failure(-EIO)
    ensures data != [] && data[0] == TAG_1 ==>
              match ParseTag1(data, Bound(i))
              case Success(t) =>
                Parse(data, i, init, crypt, tokens) ==
                Parse(data[t.size..], i + t.size, init, crypt, [PrivateKeyToken(t.sig, t.encKey)] + tokens)
              case Failure(_) => Parse(data, i, init, crypt, tokens) == Failure(-EIO)
    ensures data != [] && data[0] == TAG_11 ==> Parse(data, i, init, crypt, tokens) == Failure(-EIO)
    ensures data != [] && data[0] !in {TAG_1, TAG_3, TAG_11} ==>
              Parse(data, i, init, crypt, tokens) == Success(SetParsed(tokens, crypt, i))
  {
    hide ParseTag1, ParseTag3, ParseTag11, ToHex;
  }

  lemma PairStep(packets: seq<byte>, rest: seq<byte>, i: nat, init: CryptStat -> int, crypt: CryptStat,
                 tokens: seq<Token>, p: Pair)
    requires packets != [] && packets[0] == TAG_3 && i + |packets| + |rest| < SIZE_T_RANGE
    requires p.size == |packets| && ParsePair(packets + rest, Bound(i), init) == Success(p)
    ensures Parse(packets + rest, i, init, crypt, tokens) ==
            Parse(rest, i + |packets|, init, p.crypt, [p.token] + tokens)
  {
    hide Parse, ParsePair, ParseTag1;
    Rebracket(packets, rest, []);
    ParseRound(packets + rest, i, init, crypt, tokens);
  }

  lemma PrivateStep(packets: seq<byte>, rest: seq<byte>, i: nat, init: CryptStat -> int, crypt: CryptStat,
                    tokens: seq<Token>, t: Tag1Parsed)
    requires packets != [] && packets[0] == TAG_1 && i + |packets| + |rest| < SIZE_T_RANGE
    requires t.size == |packets| && ParseTag1(packets + rest, Bound(i)) == Success(t)
    ensures Parse(packets + rest, i, init, crypt, tokens) ==
            Parse(rest, i + |packets|, init, crypt, [PrivateKeyToken(t.sig, t.encKey)] + tokens)
  {
    hide Parse, ParsePair, ParseTag1;
    Rebracket(packets, rest, []);
    ParseRound(packets + rest, i, init, crypt, tokens);
  }

  /** One round of the parser's loop on a record's packets. */
  lemma ParseStep(cs: CryptStat, r: KeyRecord, max: nat, i: nat, rest: seq<byte>, init: CryptStat -> int,
                  crypt: CryptStat, tokens: seq<Token>)
    requires ValidRecord(cs, r) && WriteRecord(cs, r, max).Success? && init(cs) == 0
    requires i + |WriteRecord(cs, r, max).value| <= PAGE_SIZE - 8
    requires PAGE_SIZE + |rest| < SIZE_T_RANGE
    ensures r.Password? || r.PrivateKey?
    ensures var packets := WriteRecord(cs, r, max).value;
            Parse(packets + rest, i, init, crypt, tokens) ==
            Parse(rest, i + |packets|, init, if r.Password? then cs else crypt, [TokenOf(r)] + tokens)
  {
    hide WriteRecord, ParsePair, ParseTag1, ValidRecord, Parse;
    var packets := WriteRecord(cs, r, max).value;
    FirstByte(cs, r, max);
    RecordRead(cs, r, max, rest, Bound(i), init);
    if r.Password? {
      PairStep(packets, rest, i, init, crypt, tokens, Pair(TokenOf(r), cs, |packets|));
    } else {
      PrivateStep(packets, rest, i, init, crypt, tokens, Tag1Parsed(r.sig, r.encKey, |packets|));
    }
  }

  /** The cipher and key size after the set: those of the file if a passphrase packet was in it. */
  function CryptAfter(records: seq<KeyRecord>, cs: CryptStat, crypt: CryptStat): CryptStat {
    if records == [] then crypt else CryptAfter(records[1..], cs, if records[0].Password? then cs else crypt)
  }

  /** Wherever a generated set lies within the parser's page bound, the parser consumes exactly
      what was written, stops at its last byte, and has the same tokens, last first. */
  lemma {:induction false} SetRoundTrip(cs: CryptStat, records: seq<KeyRecord>, max: nat, i: nat, rest: seq<byte>,
                                        init: CryptStat -> int, crypt: CryptStat, tokens: seq<Token>)
    requires AllValid(cs, records)
    requires Generate(cs, records, max).Success? && init(cs) == 0
    requires i + |Generate(cs, records, max).value| <= PAGE_SIZE - 8
    requires PAGE_SIZE + |Generate(cs, records, max).value| + |rest| < SIZE_T_RANGE
    ensures forall r :: r in records ==> r.Password? || r.PrivateKey?
    ensures Parse(Generate(cs, records, max).value + [0] + rest, i, init, crypt, tokens) ==
            Success(SetParsed(Pushed(records, tokens), CryptAfter(records, cs, crypt),
                              i + |Generate(cs, records, max).value|))
    decreases |records|
  {
    hide WriteRecord, Parse, ValidRecord;
    GeneratedRecords(cs, records, max);
    if records == [] {
      assert Generate(cs, records, max).value + [0] + rest == [0] + rest;
      ParseRound([0] + rest, i, init, crypt, tokens);
    } else {
      var packets := WriteRecord(cs, records[0], max).value;
      GenerateStep(cs, records, max);
      RecordFits(cs, records[0], max);
      var others := Generate(cs, records[1..], max - |packets|).value;
      hide Generate;
      Rebracket(packets, others, [0]);
      Rebracket(packets, others + [0], rest);
      ParseStep(cs, records[0], max, i, others + [0] + rest, init, crypt, tokens);
      SetRoundTrip(cs, records[1..], max - |packets|, i + |packets|, rest, init,
                   if records[0].Password? then cs else crypt, [TokenOf(records[0])] + tokens);
    }
  }
}
