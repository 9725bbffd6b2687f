/**
 Page encryption (gaes/ecryptfs_4.7_kocl/crypto.c): one page at a time, extent by extent, and in
 batches through one cipher request, under a cipher in ECB mode, whose IV does not matter.
 */
module PageCrypt {
  import opened Wrappers
  import opened Arithmetic
  import opened Kernel
  import opened Bytes

  /** A block size may be any that divides a page. */
  type BlockSize = b: nat | 1 <= b && PAGE_SIZE % b == 0
    witness 16

  /** The cipher's block size */
  const BLOCK: BlockSize

  /** A block cipher: permutations of the 16-octet blocks and their inverses. */
  datatype BlockCipher = BlockCipher(enc: seq<byte> -> seq<byte>, dec: seq<byte> -> seq<byte>)

  ghost predicate Sound(c: BlockCipher) {
    forall b: seq<byte> :: |b| == BLOCK ==> |c.enc(b)| == BLOCK && |c.dec(b)| == BLOCK && c.dec(c.enc(b)) == b
  }

  ghost predicate Blockwise(f: seq<byte> -> seq<byte>) {
    forall b: seq<byte> :: |b| == BLOCK ==> |f(b)| == BLOCK
  }

  /** A number of whole blocks */
  predicate Whole(n: int) {
    n % BLOCK == 0
  }

  /** Where the block begins that holds the j-th octet, and the octet's place in it. */
  function BlockStart(j: nat): nat {
    j / BLOCK * BLOCK
  }

  function InBlock(j: nat): (r: nat)
    ensures r < BLOCK
  {
    j % BLOCK
  }

  function BlockAt(s: seq<byte>, j: nat): (b: seq<byte>)
    requires Whole(|s|) && j < |s|
    ensures |b| == BLOCK
  {
    BlockFits(|s|, j);
    s[BlockStart(j)..BlockStart(j) + BLOCK]
  }

  /** ECB: every block on its own. */
  function Ecb(f: seq<byte> -> seq<byte>, s: seq<byte>): (r: seq<byte>)
    requires Blockwise(f) && Whole(|s|)
    ensures |r| == |s|
  {
    seq(|s|, j requires 0 <= j < |s| => f(BlockAt(s, j))[InBlock(j)])
  }

  lemma Bounds(j: nat)
    ensures j == BlockStart(j) + InBlock(j) && Whole(BlockStart(j))
  {
    Quotient(j / BLOCK * BLOCK, BLOCK, j / BLOCK, 0);
  }

  lemma BlockFits(n: nat, j: nat)
    requires Whole(n) && j < n
    ensures BlockStart(j) + BLOCK <= n
  {
    var p, q := j / BLOCK, n / BLOCK;
    assert j == p * BLOCK + j % BLOCK && n == q * BLOCK;
    Scaled(q - p, BLOCK);
    assert (q - p) * BLOCK == n - p * BLOCK;
  }

  lemma WholeSum(a: int, b: int)
    requires Whole(a) && Whole(b)
    ensures Whole(a + b) && Whole(b - a)
  {
    var p, q := a / BLOCK, b / BLOCK;
    assert a == p * BLOCK && b == q * BLOCK;
    assert a + b == (p + q) * BLOCK && b - a == (q - p) * BLOCK;
    Multiple(p + q, BLOCK);
    Multiple(q - p, BLOCK);
  }

  lemma NoneIsWhole()
    ensures Whole(0) && Whole(BLOCK)
  {
    Multiple(0, BLOCK);
    Multiple(1, BLOCK);
  }

  lemma PageAligned(n: nat)
    ensures Whole(n * PAGE_SIZE)
  {
    var q := PAGE_SIZE / BLOCK;
    assert PAGE_SIZE == q * BLOCK;
    assert n * PAGE_SIZE == (n * q) * BLOCK;
    Multiple(n * q, BLOCK);
  }

  lemma Shifted(k: nat, i: nat)
    requires Whole(k)
    ensures BlockStart(k + i) == k + BlockStart(i) && InBlock(k + i) == InBlock(i)
  {
    var p, q := k / BLOCK, i / BLOCK;
    assert k == p * BLOCK && i == q * BLOCK + i % BLOCK;
    assert k + i == (p + q) * BLOCK + i % BLOCK;
    Quotient(k + i, BLOCK, p + q, i % BLOCK);
  }

  lemma OwnOctet(f: seq<byte> -> seq<byte>, s: seq<byte>, j: nat)
    requires Blockwise(f) && Whole(|s|) && j < |s|
    ensures BlockAt(s, j)[InBlock(j)] == s[j]
    ensures Ecb(f, s)[j] == f(BlockAt(s, j))[InBlock(j)]
  {
    Bounds(j);
    BlockFits(|s|, j);
    hide Whole, BlockStart, InBlock;
  }

  lemma SubSlice(s: seq<byte>, a: nat, b: nat, k: nat, n: nat)
    requires a <= b <= |s| && k + n <= b - a
    ensures s[a..b][k..k + n] == s[a + k..a + k + n]
  {
    var inner, outer := s[a..b][k..k + n], s[a + k..a + k + n];
    assert forall i :: 0 <= i < n ==> inner[i] == outer[i];
  }

  lemma SameBlock(s: seq<byte>, a: nat, b: nat, j: nat)
    requires Whole(|s|) && a <= b <= |s| && Whole(a) && Whole(b) && j < b - a
    ensures Whole(|s[a..b]|)
    ensures BlockAt(s, a + j) == BlockAt(s[a..b], j) && InBlock(a + j) == InBlock(j)
  {
    Shifted(a, j);
    WholeSum(a, b);
    BlockFits(b - a, j);
    hide Whole, BlockStart, InBlock;
    SubSlice(s, a, b, BlockStart(j), BLOCK);
  }

  /** A run of whole blocks encrypts to the same octets inside a larger text as alone. */
  lemma EcbSlice(f: seq<byte> -> seq<byte>, s: seq<byte>, a: nat, b: nat)
    requires Blockwise(f) && Whole(|s|) && a <= b <= |s| && Whole(a) && Whole(b)
    ensures Whole(|s[a..b]|) && Ecb(f, s)[a..b] == Ecb(f, s[a..b])
  {
    hide BlockAt, Ecb, Blockwise, Whole, BlockStart, InBlock;
    WholeSum(a, b);
    forall j | 0 <= j < b - a ensures Ecb(f, s)[a..b][j] == Ecb(f, s[a..b])[j] {
      SameBlock(s, a, b, j);
      OwnOctet(f, s, a + j);
      OwnOctet(f, s[a..b], j);
    }
  }

  /** One block on its own. */
  lemma EcbOne(f: seq<byte> -> seq<byte>, b: seq<byte>)
    requires Blockwise(f) && |b| == BLOCK
    ensures Whole(|b|) && Ecb(f, b) == f(b)
  {
    NoneIsWhole();
    hide Whole;
    forall i: nat | i < BLOCK ensures Ecb(f, b)[i] == f(b)[i] {
      OwnPlace(i);
      OwnOctet(f, b, i);
      assert BlockAt(b, i) == b;
    }
  }

  lemma OwnPlace(i: nat)
    requires i < BLOCK
    ensures BlockStart(i) == 0 && InBlock(i) == i
  {
    Quotient(i, BLOCK, 0, i);
  }

  lemma BlockOfEcb(f: seq<byte> -> seq<byte>, s: seq<byte>, j: nat)
    requires Blockwise(f) && Whole(|s|) && j < |s|
    ensures BlockAt(Ecb(f, s), j) == f(BlockAt(s, j))
  {
    var k := BlockStart(j);
    Bounds(j);
    BlockFits(|s|, j);
    NoneIsWhole();
    WholeSum(k, BLOCK);
    hide Ecb, Blockwise, Whole, BlockStart, InBlock;
    EcbSlice(f, s, k, k + BLOCK);
    EcbOne(f, s[k..k + BLOCK]);
  }

  lemma EcbInverse(c: BlockCipher, s: seq<byte>)
    requires Sound(c) && Whole(|s|)
    ensures Blockwise(c.enc) && Blockwise(c.dec)
    ensures Ecb(c.dec, Ecb(c.enc, s)) == s
  {
    assert Blockwise(c.enc) && Blockwise(c.dec);
    hide BlockAt, Ecb, Blockwise;
    var e := Ecb(c.enc, s);
    forall j | 0 <= j < |s| ensures Ecb(c.dec, e)[j] == s[j] {
      BlockOfEcb(c.enc, s, j);
      OwnOctet(c.enc, s, j);
      OwnOctet(c.dec, e, j);
    }
  }

  /* ----- the lower file ----- */

  lemma Between(front: seq<byte>, data: seq<byte>, back: seq<byte>)
    ensures (front + data + back)[|front|..|front| + |data|] == data
    ensures (front + data)[|front|..|front| + |data|] == data
  {
  }

  /** ecryptfs_write_lower: a write behind the end fills the gap with zeros. */
  function WriteLower(lower: seq<byte>, offset: nat, data: seq<byte>): (r: seq<byte>)
    ensures |r| == if offset + |data| <= |lower| then |lower| else offset + |data|
    ensures r[offset..offset + |data|] == data
  {
    if offset + |data| <= |lower| then
      Between(lower[..offset], data, lower[offset + |data|..]);
      lower[..offset] + data + lower[offset + |data|..]
    else
      var front := if offset <= |lower| then lower[..offset] else lower + Zeros(offset - |lower|);
      Between(front, data, []);
      front + data
  }

  /** What a write does to any other range. */
  lemma WriteLowerElsewhere(lower: seq<byte>, offset: nat, data: seq<byte>, a: nat, b: nat)
    requires a <= b <= |lower| && (b <= offset || offset + |data| <= a)
    ensures WriteLower(lower, offset, data)[a..b] == lower[a..b]
  {
  }

  /** A page of the upper file: its index and its octets. */
  datatype Page = Page(index: nat, data: seq<byte>)

  predicate AllPages(pgs: seq<Page>) {
    forall i :: 0 <= i < |pgs| ==> |pgs[i].data| == PAGE_SIZE
  }

  /** lower_offset_for_page */
  function LowerOffset(header: nat, index: nat): nat {
    header + index * PAGE_SIZE
  }

  /** The lower file after each page in turn has been encrypted and written. */
  function EncryptEach(c: BlockCipher, header: nat, lower: seq<byte>, pgs: seq<Page>): seq<byte>
    requires Blockwise(c.enc) && AllPages(pgs)
  {
    if pgs == [] then lower
    else
      var n := |pgs| - 1;
      WriteLower(EncryptEach(c, header, lower, pgs[..n]), LowerOffset(header, pgs[n].index), Ecb(c.enc, pgs[n].data))
  }

  /** The pages' octets one behind the other, as a scatterlist presents them. */
  function Gathered(pgs: seq<Page>): (r: seq<byte>)
    requires AllPages(pgs)
    ensures |r| == |pgs| * PAGE_SIZE
  {
    if pgs == [] then [] else Gathered(pgs[..|pgs| - 1]) + pgs[|pgs| - 1].data
  }

  lemma {:induction false} GatheredAt(pgs: seq<Page>, i: nat)
    requires AllPages(pgs) && i < |pgs|
    ensures Gathered(pgs)[i * PAGE_SIZE..(i + 1) * PAGE_SIZE] == pgs[i].data
  {
    var n := |pgs| - 1;
    if i < n {
      GatheredAt(pgs[..n], i);
      var g := Gathered(pgs[..n]);
      assert (g + pgs[n].data)[i * PAGE_SIZE..(i + 1) * PAGE_SIZE] == g[i * PAGE_SIZE..(i + 1) * PAGE_SIZE];
    }
  }

  /** One cipher request over all pages gives every page what it gets alone. */
  lemma BatchedPage(f: seq<byte> -> seq<byte>, pgs: seq<Page>, i: nat)
    requires Blockwise(f) && AllPages(pgs) && i < |pgs|
    ensures Whole(|Gathered(pgs)|)
    ensures Ecb(f, Gathered(pgs))[i * PAGE_SIZE..(i + 1) * PAGE_SIZE] == Ecb(f, pgs[i].data)
  {
    GatheredAt(pgs, i);
    PageAligned(|pgs|);
    PageAligned(i);
    PageAligned(i + 1);
    hide Ecb, Gathered, Blockwise, AllPages;
    EcbSlice(f, Gathered(pgs), i * PAGE_SIZE, (i + 1) * PAGE_SIZE);
  }

  /** What the lower file holds for a page. */
  function PageIn(lower: seq<byte>, header: nat, index: nat): seq<byte>
    requires LowerOffset(header, index + 1) <= |lower|
  {
    lower[LowerOffset(header, index)..LowerOffset(header, index + 1)]
  }

  /** The octets last given for a page index. */
  function Last(pgs: seq<Page>, index: nat): Option<seq<byte>> {
    if pgs == [] then None
    else
      var n := |pgs| - 1;
      if pgs[n].index == index then Some(pgs[n].data) else Last(pgs[..n], index)
  }

  /** After a list of pages has been encrypted, the lower file decrypts at every index to the
      last octets that were given for it, and holds what it held at all others. */
  lemma {:induction false} DecryptsToLast(c: BlockCipher, header: nat, lower: seq<byte>, pgs: seq<Page>, index: nat)
    requires Sound(c) && AllPages(pgs)
    ensures Blockwise(c.enc) && Blockwise(c.dec)
    ensures Last(pgs, index).Some? ==>
              && |Last(pgs, index).value| == PAGE_SIZE
              && LowerOffset(header, index + 1) <= |EncryptEach(c, header, lower, pgs)|
              && Ecb(c.dec, PageIn(EncryptEach(c, header, lower, pgs), header, index)) == Last(pgs, index).value
    ensures Last(pgs, index).None? && LowerOffset(header, index + 1) <= |lower| ==>
              && LowerOffset(header, index + 1) <= |EncryptEach(c, header, lower, pgs)|
              && PageIn(EncryptEach(c, header, lower, pgs), header, index) == PageIn(lower, header, index)
  {
    assert Blockwise(c.enc) && Blockwise(c.dec);
    if pgs != [] {
      var n := |pgs| - 1;
      var before, page := EncryptEach(c, header, lower, pgs[..n]), pgs[n];
      hide Ecb, WriteLower, Sound, Blockwise, PageIn, LowerOffset;
      DecryptsToLast(c, header, lower, pgs[..n], index);
      if page.index == index {
        EcbInverse(c, page.data);
        OwnPage(header, before, index, Ecb(c.enc, page.data));
      } else if Last(pgs[..n], index).Some? || LowerOffset(header, index + 1) <= |lower| {
        OtherPage(header, before, index, page.index, Ecb(c.enc, page.data));
      }
    }
  }

  lemma OwnPage(header: nat, lower: seq<byte>, index: nat, data: seq<byte>)
    requires |data| == PAGE_SIZE
    ensures var after := WriteLower(lower, LowerOffset(header, index), data);
            LowerOffset(header, index + 1) <= |after| && PageIn(after, header, index) == data
  {
    hide WriteLower;
  }

  lemma OtherPage(header: nat, lower: seq<byte>, index: nat, written: nat, data: seq<byte>)
    requires |data| == PAGE_SIZE && index != written && LowerOffset(header, index + 1) <= |lower|
    ensures var after := WriteLower(lower, LowerOffset(header, written), data);
            LowerOffset(header, index + 1) <= |after| && PageIn(after, header, index) == PageIn(lower, header, index)
  {
    hide WriteLower;
    WriteLowerElsewhere(lower, LowerOffset(header, written), data,
                        LowerOffset(header, index), LowerOffset(header, index + 1));
  }
}
