/** The methods of gaes/ecryptfs_4.7_kocl/crypto.c that move pages to and from the lower file. */
module LowerFile {
  import opened Wrappers
  import opened Kernel
  import opened Bytes
  import opened PageCrypt

  /** An inode's lower file, its header size and its cipher. */
  class LowerInode {
    const cipher: BlockCipher
    const header: nat
    var lower: seq<byte>

    constructor (cipher: BlockCipher, header: nat, lower: seq<byte>)
      ensures this.cipher == cipher && this.header == header && this.lower == lower
    {
      this.cipher, this.header, this.lower := cipher, header, lower;
    }

    /** crypt_extent for each extent of a page, into another page */
    static method CryptExtents(f: seq<byte> -> seq<byte>, data: seq<byte>, extentSize: nat) returns (out: seq<byte>)
      requires Blockwise(f) && |data| == PAGE_SIZE
      requires extentSize > 0 && PAGE_SIZE % extentSize == 0 && Whole(extentSize)
      ensures out == Ecb(f, data)
    {
      hide Ecb, Blockwise;
      out := [];
      var extentOffset, at := 0, 0;
      var extents := PAGE_SIZE / extentSize;
      Extents(extentSize);
      assert data[..0] == [];
      NoBlocks(f);
      while extentOffset < extents
        invariant 0 <= extentOffset <= extents && at == extentOffset * extentSize <= PAGE_SIZE && Whole(at)
        invariant out == Ecb(f, data[..at])
      {
        NextExtent(extentOffset, extentSize, extents);
        var extent := data[at..at + extentSize];
        EcbAppend(f, data[..at], extent);
        assert data[..at] + extent == data[..at + extentSize];
        out := out + Ecb(f, extent);
        at := at + extentSize;
        extentOffset := extentOffset + 1;
      }
      assert data[..at] == data;
    }

    /** ecryptfs_encrypt_page */
    method EncryptPage(page: Page, extentSize: nat)
      requires Sound(cipher) && |page.data| == PAGE_SIZE
      requires extentSize > 0 && PAGE_SIZE % extentSize == 0 && Whole(extentSize)
      modifies this
      ensures lower == WriteLower(old(lower), LowerOffset(header, page.index), Ecb(cipher.enc, page.data))
    {
      var encrypted := CryptExtents(cipher.enc, page.data, extentSize);
      lower := WriteLower(lower, LowerOffset(header, page.index), encrypted);
    }

    /** ecryptfs_encrypt_pages2: one request for all pages, then one write for each. It leaves the
        lower file as encrypting each page in turn does. */
    method EncryptPages2(pgs: seq<Page>)
      requires Sound(cipher) && AllPages(pgs)
      modifies this
      ensures lower == EncryptEach(cipher, header, old(lower), pgs)
    {
      hide Ecb, WriteLower, Gathered;
      if |pgs| == 0 {
        return;
      }
      var from := Gathered(pgs);
      PageAligned(|pgs|);
      hide Whole;
      var to := Ecb(cipher.enc, from);
      var i := 0;
      while i < |pgs|
        invariant 0 <= i <= |pgs| && lower == EncryptEach(cipher, header, old(lower), pgs[..i])
      {
        BatchedPage(cipher.enc, pgs, i);
        var virt := to[i * PAGE_SIZE..(i + 1) * PAGE_SIZE];
        lower := WriteLower(lower, LowerOffset(header, pgs[i].index), virt);
        i := i + 1;
        assert pgs[..i][..i - 1] == pgs[..i - 1] && pgs[..i][i - 1] == pgs[i - 1];
      }
      assert pgs[..i] == pgs;
    }

    /** The reads of ecryptfs_decrypt_pages: each page gets what the lower file holds for it. */
    method ReadPages(indices: seq<nat>) returns (pgs: seq<Page>)
      requires forall i :: 0 <= i < |indices| ==> LowerOffset(header, indices[i] + 1) <= |lower|
      ensures |pgs| == |indices| && AllPages(pgs)
      ensures forall i :: 0 <= i < |pgs| ==> pgs[i] == Page(indices[i], PageIn(lower, header, indices[i]))
    {
      pgs := [];
      var i := 0;
      while i < |indices|
        invariant 0 <= i == |pgs| <= |indices| && AllPages(pgs)
        invariant forall k :: 0 <= k < i ==> pgs[k] == Page(indices[k], PageIn(lower, header, indices[k]))
      {
        pgs := pgs + [Page(indices[i], PageIn(lower, header, indices[i]))];
        i := i + 1;
      }
    }

    /** ecryptfs_decrypt_pages: the lower pages are read in, then decrypted in place by one request. */
    method DecryptPages(indices: seq<nat>) returns (pgs: seq<Page>)
      requires Sound(cipher)
      requires forall i :: 0 <= i < |indices| ==> LowerOffset(header, indices[i] + 1) <= |lower|
      ensures Blockwise(cipher.dec) && |pgs| == |indices|
      ensures forall i :: 0 <= i < |pgs| ==>
                pgs[i] == Page(indices[i], Ecb(cipher.dec, PageIn(lower, header, indices[i])))
    {
      assert Blockwise(cipher.dec);
      hide Ecb, Gathered, PageIn, Sound, Blockwise, LowerOffset;
      var read := ReadPages(indices);
      PageAligned(|read|);
      hide Whole;
      var plain := Ecb(cipher.dec, Gathered(read));
      pgs := read;
      var i := 0;
      while i < |read|
        invariant 0 <= i <= |read| == |pgs|
        invariant forall k :: 0 <= k < i ==> pgs[k] == Page(indices[k], Ecb(cipher.dec, read[k].data))
      {
        BatchedPage(cipher.dec, read, i);
        pgs := pgs[i := Page(read[i].index, plain[i * PAGE_SIZE..(i + 1) * PAGE_SIZE])];
        i := i + 1;
      }
    }

    /** Encrypting a batch and decrypting it brings every page's last octets back. */
    method Refetch(pgs: seq<Page>) returns (again: seq<Page>)
      requires Sound(cipher) && AllPages(pgs)
      modifies this
      ensures lower == EncryptEach(cipher, header, old(lower), pgs) && |again| == |pgs|
      ensures forall i :: 0 <= i < |pgs| ==>
                again[i].index == pgs[i].index && Last(pgs, pgs[i].index) == Some(again[i].data)
    {
      hide EncryptEach, Ecb;
      EncryptPages2(pgs);
      forall i | 0 <= i < |pgs| ensures LowerOffset(header, pgs[i].index + 1) <= |lower| {
        Listed(pgs, i);
        DecryptsToLast(cipher, header, old(lower), pgs, pgs[i].index);
      }
      again := DecryptPages(seq(|pgs|, i requires 0 <= i < |pgs| => pgs[i].index));
      forall i | 0 <= i < |pgs| ensures Last(pgs, pgs[i].index) == Some(again[i].data) {
        Listed(pgs, i);
        DecryptsToLast(cipher, header, old(lower), pgs, pgs[i].index);
      }
    }
  }

  lemma {:induction false} Listed(pgs: seq<Page>, i: nat)
    requires i < |pgs|
    ensures Last(pgs, pgs[i].index).Some?
  {
    if i < |pgs| - 1 {
      Listed(pgs[..|pgs| - 1], i);
    }
  }

  lemma NoBlocks(f: seq<byte> -> seq<byte>)
    requires Blockwise(f)
    ensures Ecb(f, []) == []
  {
  }

  lemma EcbAppend(f: seq<byte> -> seq<byte>, s: seq<byte>, t: seq<byte>)
    requires Blockwise(f) && Whole(|s|) && Whole(|t|)
    ensures Whole(|s + t|) && Ecb(f, s + t) == Ecb(f, s) + Ecb(f, t)
  {
    WholeSum(|s|, |t|);
    NoneIsWhole();
    hide Ecb, Whole;
    var r := Ecb(f, s + t);
    EcbSlice(f, s + t, 0, |s|);
    EcbSlice(f, s + t, |s|, |s| + |t|);
    assert (s + t)[0..|s|] == s && (s + t)[|s|..|s| + |t|] == t;
    assert r == r[0..|s|] + r[|s|..|s| + |t|];
  }

  lemma Extents(extentSize: nat)
    requires extentSize > 0 && PAGE_SIZE % extentSize == 0
    ensures PAGE_SIZE / extentSize * extentSize == PAGE_SIZE
  {
  }

  lemma NextExtent(k: nat, extentSize: nat, extents: nat)
    requires Whole(extentSize) && k < extents && extents * extentSize == PAGE_SIZE
    ensures (k + 1) * extentSize == k * extentSize + extentSize <= PAGE_SIZE
  {
    assert extents * extentSize == (k + 1) * extentSize + (extents - k - 1) * extentSize;
  }
}
