/**
 The second half of ecryptfs_parse_packet_set (gaes/ecryptfs_4.7_kocl/keystore.c): find a token
 the mount has a key for, try to decrypt the session key with it, and on failure remove it from
 the list and search again from its head. Which keys there are and what each decryption returns
 are fixed inputs.
 */
module AuthTokSearch {
  import opened Wrappers
  import opened Kernel
  import opened Lists
  import opened Bytes
  import opened KeyPackets
  import opened KeySet
  import opened KeyPacketSet

  /** For each token: does ecryptfs_find_auth_tok_for_sig find a key, and what does decrypting return? */
  datatype Keys = Keys(found: Token -> bool, decrypt: Token -> int)

  predicate Opens(t: Token, keys: Keys) {
    keys.found(t) && keys.decrypt(t) == 0
  }

  /** The first position whose token has a key, or the length. */
  function FirstFound(tokens: seq<Token>, keys: Keys): (k: nat)
    ensures k <= |tokens| && (k < |tokens| ==> keys.found(tokens[k]))
    ensures forall j :: 0 <= j < k ==> !keys.found(tokens[j])
  {
    if tokens == [] || keys.found(tokens[0]) then 0 else 1 + FirstFound(tokens[1..], keys)
  }

  /** The token that opened the file, the list at the end, and the tokens taken off it. */
  datatype Outcome = Outcome(winner: Option<Token>, left: seq<Token>, failed: seq<Token>)

  /** The search as the code runs it. */
  function Search(tokens: seq<Token>, keys: Keys): Outcome
    decreases |tokens|
  {
    var k := FirstFound(tokens, keys);
    if k == |tokens| then Outcome(None, tokens, [])
    else if keys.decrypt(tokens[k]) == 0 then Outcome(Some(tokens[k]), tokens, [])
    else
      var o := Search(RemoveAt(tokens, k), keys);
      o.(failed := [tokens[k]] + o.failed)
  }

  /** One walk along the list: tokens without a key stay, those that fail go, the first that opens wins. */
  function Walk(tokens: seq<Token>, keys: Keys): Outcome {
    if tokens == [] then Outcome(None, [], [])
    else if Opens(tokens[0], keys) then Outcome(Some(tokens[0]), tokens, [])
    else
      var o := Walk(tokens[1..], keys);
      if keys.found(tokens[0]) then o.(failed := [tokens[0]] + o.failed) else o.(left := [tokens[0]] + o.left)
  }

  /** A first token without a key is passed over at every start of the search, and stays. */
  lemma {:induction false} SearchSkips(t: Token, tokens: seq<Token>, keys: Keys)
    requires !keys.found(t)
    ensures var o := Search(tokens, keys); Search([t] + tokens, keys) == o.(left := [t] + o.left)
    decreases |tokens|
  {
    var k := FirstFound(tokens, keys);
    assert ([t] + tokens)[1..] == tokens;
    assert FirstFound([t] + tokens, keys) == k + 1;
    if k < |tokens| && keys.decrypt(tokens[k]) != 0 {
      assert RemoveAt([t] + tokens, k + 1) == [t] + RemoveAt(tokens, k);
      SearchSkips(t, RemoveAt(tokens, k), keys);
    }
  }

  /** Starting again after every failure comes to the same as walking along the list once. */
  lemma {:induction false} SearchIsWalk(tokens: seq<Token>, keys: Keys)
    ensures Search(tokens, keys) == Walk(tokens, keys)
  {
    if tokens != [] {
      SearchIsWalk(tokens[1..], keys);
      if !keys.found(tokens[0]) {
        SearchSkips(tokens[0], tokens[1..], keys);
        assert tokens == [tokens[0]] + tokens[1..];
      } else {
        assert RemoveAt(tokens, 0) == tokens[1..];
      }
    }
  }

  lemma {:induction false} WalkFinds(tokens: seq<Token>, keys: Keys)
    ensures Walk(tokens, keys).winner.Some? ==>
              exists i :: 0 <= i < |tokens| && FirstOpening(tokens, i, keys)
                          && Walk(tokens, keys).winner == Some(tokens[i])
    ensures Walk(tokens, keys).winner.None? ==> forall i :: 0 <= i < |tokens| ==> !Opens(tokens[i], keys)
  {
    if tokens != [] {
      if Opens(tokens[0], keys) {
        assert FirstOpening(tokens, 0, keys);
      } else {
        var rest := tokens[1..];
        WalkFinds(rest, keys);
        assert forall j :: 0 < j < |tokens| ==> tokens[j] == rest[j - 1];
        if i :| 0 <= i < |rest| && FirstOpening(rest, i, keys) && Walk(rest, keys).winner == Some(rest[i]) {
          assert FirstOpening(tokens, i + 1, keys);
        }
      }
    }
  }

  lemma {:induction false} WalkKeeps(tokens: seq<Token>, keys: Keys)
    ensures forall t :: t in Walk(tokens, keys).failed ==> keys.found(t) && keys.decrypt(t) != 0
    ensures multiset(Walk(tokens, keys).left) + multiset(Walk(tokens, keys).failed) == multiset(tokens)
  {
    if tokens != [] && !Opens(tokens[0], keys) {
      WalkKeeps(tokens[1..], keys);
      assert tokens == [tokens[0]] + tokens[1..];
    }
  }

  predicate FirstOpening(tokens: seq<Token>, i: nat, keys: Keys)
    requires i < |tokens|
  {
    Opens(tokens[i], keys) && forall j :: 0 <= j < i ==> !Opens(tokens[j], keys)
  }

  /** The search succeeds exactly when some token both has a key and decrypts, with the first such
      token; it takes only tokens off the list whose decryption failed, and keeps all others. */
  lemma SearchComplete(tokens: seq<Token>, keys: Keys)
    ensures var o := Search(tokens, keys);
            && (o.winner.Some? <==> exists i :: 0 <= i < |tokens| && Opens(tokens[i], keys))
            && (o.winner.Some? ==>
                  exists i :: 0 <= i < |tokens| && FirstOpening(tokens, i, keys) && o.winner == Some(tokens[i]))
            && (forall t :: t in o.failed ==> keys.found(t) && keys.decrypt(t) != 0)
            && multiset(o.left) + multiset(o.failed) == multiset(tokens)
  {
    SearchIsWalk(tokens, keys);
    WalkFinds(tokens, keys);
    WalkKeeps(tokens, keys);
    hide Walk;
  }

  /** The tokens that have a key, or those that have none, in their order. */
  function Select(tokens: seq<Token>, keys: Keys, hasKey: bool): seq<Token> {
    if tokens == [] then []
    else (if keys.found(tokens[0]) == hasKey then [tokens[0]] else []) + Select(tokens[1..], keys, hasKey)
  }

  lemma {:induction false} WalkLeaves(tokens: seq<Token>, keys: Keys, w: nat)
    requires w <= |tokens| && (forall j :: 0 <= j < w ==> !Opens(tokens[j], keys))
    requires w < |tokens| ==> Opens(tokens[w], keys)
    ensures Walk(tokens, keys).left == Select(tokens[..w], keys, false) + tokens[w..]
    ensures Walk(tokens, keys).failed == Select(tokens[..w], keys, true)
  {
    if w > 0 {
      WalkLeaves(tokens[1..], keys, w - 1);
      assert tokens[..w][1..] == tokens[1..][..w - 1];
    } else {
      assert tokens[..0] == [] && [] + tokens == tokens;
    }
  }

  /** Of the tokens in front of the first that opens, or of all if none does, exactly those with a key have been
      taken off the list; the others stay in their order. */
  lemma SearchLeaves(tokens: seq<Token>, keys: Keys, w: nat)
    requires w <= |tokens| && (forall j :: 0 <= j < w ==> !Opens(tokens[j], keys))
    requires w < |tokens| ==> Opens(tokens[w], keys)
    ensures Search(tokens, keys).left == Select(tokens[..w], keys, false) + tokens[w..]
    ensures Search(tokens, keys).failed == Select(tokens[..w], keys, true)
  {
    SearchIsWalk(tokens, keys);
    WalkLeaves(tokens, keys, w);
  }

  /** A file whose header was generated opens exactly when one of its records' tokens has a key
      and decrypts. */
  lemma GeneratedHeaderOpens(cs: CryptStat, records: seq<KeyRecord>, max: nat, rest: seq<byte>, init: CryptStat -> int,
                             crypt: CryptStat, keys: Keys)
    requires AllValid(cs, records) && Generate(cs, records, max).Success? && init(cs) == 0
    requires |Generate(cs, records, max).value| <= PAGE_SIZE - 8
    requires PAGE_SIZE + |Generate(cs, records, max).value| + |rest| < SIZE_T_RANGE
    ensures forall r :: r in records ==> r.Password? || r.PrivateKey?
    ensures var parsed := Parse(Generate(cs, records, max).value + [0] + rest, 0, init, crypt, []);
            && parsed.Success?
            && (Search(parsed.value.tokens, keys).winner.Some? <==>
                exists k :: 0 <= k < |records| && Opens(TokenOf(records[k]), keys))
  {
    hide Generate, Parse, AllValid, Search, Opens;
    SetRoundTrip(cs, records, max, 0, rest, init, crypt, []);
    var tokens := Pushed(records, []);
    if records != [] {
      PushedReverses(records, [], 0);
    }
    SearchComplete(tokens, keys);
    forall k: nat | k < |records| ensures tokens[|records| - 1 - k] == TokenOf(records[k]) {
      PushedReverses(records, [], k);
    }
    if i :| 0 <= i < |tokens| && Opens(tokens[i], keys) {
      assert tokens[|records| - 1 - (|records| - 1 - i)] == TokenOf(records[|records| - 1 - i]);
    }
    if k :| 0 <= k < |records| && Opens(TokenOf(records[k]), keys) {
      assert Opens(tokens[|records| - 1 - k], keys);
    }
  }

  /** The loop from find_next_matching_auth_tok on: it ends, since every failed candidate leaves the list. */
  method FindAuthTok(tokens: seq<Token>, keys: Keys) returns (rc: int, winner: Option<Token>, left: seq<Token>)
    ensures rc == if Search(tokens, keys).winner.Some? then 0 else -EIO
    ensures winner == Search(tokens, keys).winner && left == Search(tokens, keys).left
  {
    left := tokens;
    while true
      invariant Search(tokens, keys).winner == Search(left, keys).winner
      invariant Search(tokens, keys).left == Search(left, keys).left
      decreases |left|
    {
      var found, k := false, 0;
      while k < |left| && !found
        invariant 0 <= k <= |left|
        invariant forall j :: 0 <= j < k ==> !keys.found(left[j])
        invariant found ==> k < |left| && keys.found(left[k])
        decreases |left| - k, !found
      {
        if keys.found(left[k]) {
          found := true;
        } else {
          k := k + 1;
        }
      }
      assert FirstFound(left, keys) == k;
      if !found {
        return -EIO, None, left;
      }
      rc := keys.decrypt(left[k]);
      if rc == 0 {
        return 0, Some(left[k]), left;
      }
      left := RemoveAt(left, k);
    }
  }

  /** ecryptfs_parse_packet_set; `finish` is what computing the root IV and setting up the cipher
      for the decrypted key return. */
  method EcryptfsParsePacketSet(src: seq<byte>, init: CryptStat -> int, crypt: CryptStat, keys: Keys, finish: int)
    returns (rc: int, winner: Option<Token>, crypt': CryptStat)
    requires |src| < SIZE_T_RANGE
    ensures Parse(src, 0, init, crypt, []).Failure? ==> rc == Parse(src, 0, init, crypt, []).error && winner == None
    ensures Parse(src, 0, init, crypt, []).Success? ==>
              var p := Parse(src, 0, init, crypt, []).value;
              && (p.tokens == [] ==> rc == -EINVAL && winner == None)
              && (p.tokens != [] ==> winner == Search(p.tokens, keys).winner)
              && (p.tokens != [] && winner == None ==> rc == -EIO)
              && (p.tokens != [] && winner != None ==> rc == finish && crypt' == p.crypt)
  {
    hide Parse, Search;
    winner, crypt' := None, crypt;
    var parsed, left;
    rc, parsed := ParsePackets(src, init, crypt);
    if rc != 0 {
      return;
    }
    if parsed.tokens == [] {
      return -EINVAL, None, crypt;
    }
    crypt' := parsed.crypt;
    rc, winner, left := FindAuthTok(parsed.tokens, keys);
    if rc != 0 {
      return;
    }
    rc := finish;
  }
}
