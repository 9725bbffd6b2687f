/**
 ecryptfs_write and truncation as they run (gaes/ecryptfs_4.7_kocl/read_write.c, inode.c, crypto.c):
 page by page through the page cache and the cipher into the lower file.

 No I/O fails and no signal is pending. A page that the lower file does not hold yet may come from
 the page cache with any octets.
 */
module Truncate {
  import opened Arithmetic
  import opened Kernel
  import opened Bytes
  import opened PageCrypt
  import opened LowerFile
  import opened FileLayout

  /** set_extent_mask_and_shift: the shift counts the twos in the extent size, and the 32-bit mask leaves
      that many low bits out. */
  method SetExtentMaskAndShift(extentSize: nat) returns (mask: nat, shift: nat, ghost odd: nat)
    requires extentSize < 0x8000_0000
    ensures extentSize == 0 ==> mask == 0xFFFF_FFFF && shift == 0
    ensures extentSize > 0 ==>
              && extentSize == odd * Pow2(shift) && odd % 2 == 1
              && mask == MaskOf(shift)
  {
    mask, shift, odd := 0xFFFF_FFFF, 0, 1;
    if extentSize == 0 {
      return;
    }
    var tmp := extentSize;
    while tmp % 2 == 0
      invariant 0 < tmp && tmp * Pow2(shift) == extentSize
      invariant mask == MaskOf(shift)
      decreases tmp
    {
      assert tmp == 2 * (tmp / 2);
      assert tmp / 2 * Pow2(shift + 1) == extentSize;
      Scaled(tmp / 2, Pow2(shift + 1));
      tmp := tmp / 2;
      mask := mask * 2 % 0x1_0000_0000;
      shift := shift + 1;
    }
    odd := tmp;
  }

  lemma {:induction false} OddPart(odd: nat, s: nat, t: nat)
    requires odd % 2 == 1 && odd * Pow2(s) == Pow2(t)
    ensures s == t
  {
    if s > 0 {
      EvenProduct(odd, s);
      if t > 0 {
        OddPart(odd, s - 1, t - 1);
      }
    }
  }

  lemma EvenProduct(odd: nat, s: nat)
    requires s > 0
    ensures odd * Pow2(s) == 2 * (odd * Pow2(s - 1))
  {
  }

  /** A lower file of a header and whole pages. */
  predicate InPages(header: nat, length: nat) {
    header <= length && (length - header) % PAGE_SIZE == 0
  }

  lemma InBlocks(header: nat, length: nat)
    requires InPages(header, length)
    ensures header <= length && Whole(length - header)
  {
    PageAligned((length - header) / PAGE_SIZE);
  }

  lemma PagesAre(header: nat, pages: nat)
    ensures InPages(header, header + pages * PAGE_SIZE)
  {
  }

  /** The file as decrypting the whole of the lower file behind its header shows it. */
  function Plain(c: BlockCipher, header: nat, lower: seq<byte>): (p: seq<byte>)
    requires Sound(c) && InPages(header, |lower|)
    ensures |p| == |lower| - header
  {
    InBlocks(header, |lower|);
    Ecb(c.dec, lower[header..])
  }

  lemma EcbPage(f: seq<byte> -> seq<byte>, s: seq<byte>, k: nat)
    requires Blockwise(f) && Whole(|s|) && (k + 1) * PAGE_SIZE <= |s|
    ensures Ecb(f, s[k * PAGE_SIZE..(k + 1) * PAGE_SIZE]) == Ecb(f, s)[k * PAGE_SIZE..(k + 1) * PAGE_SIZE]
  {
    hide Ecb, Blockwise;
    PageAligned(k);
    PageAligned(k + 1);
    EcbSlice(f, s, k * PAGE_SIZE, (k + 1) * PAGE_SIZE);
  }

  lemma PageBehindHeader(header: nat, lower: seq<byte>, index: nat)
    requires LowerOffset(header, index + 1) <= |lower|
    ensures PageIn(lower, header, index) == lower[header..][index * PAGE_SIZE..(index + 1) * PAGE_SIZE]
  {
  }

  lemma PlainPage(c: BlockCipher, header: nat, lower: seq<byte>, index: nat)
    requires Sound(c) && InPages(header, |lower|)
    requires LowerOffset(header, index + 1) <= |lower|
    ensures Blockwise(c.dec)
    ensures Ecb(c.dec, PageIn(lower, header, index)) ==
            Plain(c, header, lower)[index * PAGE_SIZE..(index + 1) * PAGE_SIZE]
  {
    assert Blockwise(c.dec);
    InBlocks(header, |lower|);
    PageBehindHeader(header, lower, index);
    hide Ecb, InPages, Sound, Blockwise, PageIn;
    EcbPage(c.dec, lower[header..], index);
  }

  lemma DropFront(p: seq<byte>, q: seq<byte>, h: nat)
    requires h <= |p|
    ensures (p + q)[h..] == p[h..] + q
  {
  }

  lemma WriteBehindHeader(header: nat, lower: seq<byte>, index: nat, data: seq<byte>)
    requires LowerOffset(header, index) <= |lower|
    ensures header <= |WriteLower(lower, LowerOffset(header, index), data)|
    ensures WriteLower(lower, LowerOffset(header, index), data)[header..] ==
            WriteLower(lower[header..], index * PAGE_SIZE, data)
  {
    var body, at, offset := lower[header..], index * PAGE_SIZE, LowerOffset(header, index);
    var rest := if offset + |data| <= |lower| then lower[offset + |data|..] else [];
    WriteParts(lower, offset, data);
    WriteParts(body, at, data);
    hide WriteLower;
    DropFront(lower[..offset], data + rest, header);
    assert lower[..offset] + data + rest == lower[..offset] + (data + rest);
    assert lower[..offset][header..] == body[..at];
    assert at + |data| <= |body| ==> body[at + |data|..] == rest;
    assert body[..at] + data + rest == body[..at] + (data + rest);
  }

  lemma WriteParts(body: seq<byte>, at: nat, data: seq<byte>)
    requires at <= |body|
    ensures WriteLower(body, at, data) == body[..at] + data + if at + |data| <= |body| then body[at + |data|..] else []
  {
  }

  lemma LengthAfter(header: nat, length: nat, index: nat)
    requires InPages(header, length) && LowerOffset(header, index) <= length
    ensures LowerOffset(header, index + 1) > length ==> InPages(header, LowerOffset(header, index + 1))
  {
  }

  /** An encrypted page between encrypted parts. */
  lemma PlainParts(c: BlockCipher, front: seq<byte>, data: seq<byte>, rest: seq<byte>)
    requires Sound(c) && Whole(|front|) && Whole(|data|) && Whole(|rest|)
    ensures Blockwise(c.enc) && Blockwise(c.dec) && Whole(|front + Ecb(c.enc, data) + rest|)
    ensures Ecb(c.dec, front + Ecb(c.enc, data) + rest) == Ecb(c.dec, front) + data + Ecb(c.dec, rest)
  {
    EcbInverse(c, data);
    hide Ecb, Blockwise, Sound;
    EcbThree(c.dec, front, Ecb(c.enc, data), rest);
  }

  lemma EcbEnds(f: seq<byte> -> seq<byte>, s: seq<byte>, k: nat)
    requires Blockwise(f) && Whole(|s|) && k <= |s| && Whole(k)
    ensures Whole(|s[..k]|) && Whole(|s[k..]|)
    ensures Ecb(f, s[..k]) == Ecb(f, s)[..k] && Ecb(f, s[k..]) == Ecb(f, s)[k..]
  {
    NoneIsWhole();
    hide Ecb, Blockwise, Whole;
    WholeSum(k, |s|);
    EcbSlice(f, s, 0, k);
    EcbSlice(f, s, k, |s|);
    assert s[0..k] == s[..k] && s[k..|s|] == s[k..];
    var e := Ecb(f, s);
    assert e[0..k] == e[..k] && e[k..|s|] == e[k..];
  }

  lemma EcbThree(f: seq<byte> -> seq<byte>, a: seq<byte>, b: seq<byte>, d: seq<byte>)
    requires Blockwise(f) && Whole(|a|) && Whole(|b|) && Whole(|d|)
    ensures Whole(|a + b + d|) && Ecb(f, a + b + d) == Ecb(f, a) + Ecb(f, b) + Ecb(f, d)
  {
    hide Ecb, Blockwise;
    EcbAppend(f, a, b);
    EcbAppend(f, a + b, d);
  }

  lemma BodyOverwrite(c: BlockCipher, body: seq<byte>, at: nat, data: seq<byte>)
    requires Sound(c) && Whole(|body|) && |data| == PAGE_SIZE && Whole(at) && at + PAGE_SIZE <= |body|
    ensures Blockwise(c.enc) && Blockwise(c.dec)
    ensures Whole(|body[..at] + Ecb(c.enc, data) + body[at + PAGE_SIZE..]|)
    ensures Ecb(c.dec, body[..at] + Ecb(c.enc, data) + body[at + PAGE_SIZE..]) ==
            Ecb(c.dec, body)[..at] + data + Ecb(c.dec, body)[at + PAGE_SIZE..]
  {
    PageAligned(1);
    WholeSum(at, PAGE_SIZE);
    WholeSum(at + PAGE_SIZE, |body|);
    PlainParts(c, body[..at], data, body[at + PAGE_SIZE..]);
    hide Ecb, Sound, Blockwise, Whole;
    EcbEnds(c.dec, body, at);
    EcbEnds(c.dec, body, at + PAGE_SIZE);
  }

  lemma BodyAppend(c: BlockCipher, body: seq<byte>, at: nat, data: seq<byte>)
    requires Sound(c) && Whole(|body|) && |data| == PAGE_SIZE && Whole(at) && at <= |body|
    ensures Blockwise(c.enc) && Blockwise(c.dec)
    ensures Whole(|body[..at] + Ecb(c.enc, data) + []|)
    ensures Ecb(c.dec, body[..at] + Ecb(c.enc, data) + []) == Ecb(c.dec, body)[..at] + data + []
  {
    PlainParts(c, body[..at], data, []);
    hide Ecb, Sound, Blockwise;
    EcbEnds(c.dec, body, at);
    assert |Ecb(c.dec, [])| == 0;
  }

  lemma BodyAfterWrite(c: BlockCipher, body: seq<byte>, at: nat, data: seq<byte>)
    requires Sound(c) && Whole(|body|) && |data| == PAGE_SIZE && Whole(at) && at <= |body|
    ensures Blockwise(c.enc) && Blockwise(c.dec) && Whole(|WriteLower(body, at, Ecb(c.enc, data))|)
    ensures Ecb(c.dec, WriteLower(body, at, Ecb(c.enc, data))) == WriteLower(Ecb(c.dec, body), at, data)
  {
    BodyAppend(c, body, at, data);
    hide Ecb, WriteLower, Sound, Blockwise;
    WriteParts(body, at, Ecb(c.enc, data));
    WriteParts(Ecb(c.dec, body), at, data);
    if at + PAGE_SIZE <= |body| {
      BodyOverwrite(c, body, at, data);
    }
  }

  lemma AfterWrite(c: BlockCipher, header: nat, lower: seq<byte>, index: nat, data: seq<byte>)
    requires Sound(c) && InPages(header, |lower|)
    requires LowerOffset(header, index) <= |lower| && |data| == PAGE_SIZE
    ensures Blockwise(c.enc)
    ensures var after := WriteLower(lower, LowerOffset(header, index), Ecb(c.enc, data));
            && InPages(header, |after|)
  {
    assert Blockwise(c.enc);
    hide Ecb, Sound, Blockwise, InPages;
    LengthAfter(header, |lower|, index);
  }

  /** Encrypting a page into the lower file puts that page into the plain file. */
  lemma PlainAfterWrite(c: BlockCipher, header: nat, lower: seq<byte>, index: nat, data: seq<byte>)
    requires Sound(c) && InPages(header, |lower|)
    requires LowerOffset(header, index) <= |lower| && |data| == PAGE_SIZE
    ensures Blockwise(c.enc)
    ensures var after := WriteLower(lower, LowerOffset(header, index), Ecb(c.enc, data));
            && InPages(header, |after|)
            && Plain(c, header, after) == WriteLower(Plain(c, header, lower), index * PAGE_SIZE, data)
  {
    AfterWrite(c, header, lower, index, data);
    InBlocks(header, |lower|);
    PageAligned(index);
    hide Ecb, WriteLower, Sound, Blockwise, InPages;
    WriteBehindHeader(header, lower, index, Ecb(c.enc, data));
    BodyAfterWrite(c, lower[header..], index * PAGE_SIZE, data);
  }

  /** An encrypted file: the lower file, the upper size in memory and the one its header records. */
  class EcryptfsInode {
    const disk: LowerInode
    var extentMask: nat
    var extentShift: nat
    var iSize: nat
    var recordedSize: nat

    /** The lower file is the header and the whole pages of the upper file. */
    ghost predicate Valid()
      reads this, disk
    {
      && Sound(disk.cipher)
      && |disk.lower| == disk.header + Pages(iSize) * PAGE_SIZE
      && recordedSize == iSize
      && extentShift == 12 && extentMask == 0x1_0000_0000 - PAGE_SIZE
    }

    ghost function PlainFile(): seq<byte>
      requires Sound(disk.cipher) && InPages(disk.header, |disk.lower|)
      reads this, disk
    {
      Plain(disk.cipher, disk.header, disk.lower)
    }

    /** What a reader of the upper file sees. */
    ghost function Content(): (f: seq<byte>)
      requires Valid()
      reads this, disk
      ensures |f| == iSize
    {
      PagesHold(iSize);
      PlainFile()[..iSize]
    }

    /** Nothing of the file is left behind its end in its last page. */
    ghost predicate RestIsZero()
      requires Valid()
      reads this, disk
    {
      forall j :: iSize <= j < |PlainFile()| ==> PlainFile()[j] == 0
    }

    constructor (cipher: BlockCipher, header: nat, lower: seq<byte>)
      requires Sound(cipher) && |lower| == header
      ensures Valid() && Content() == [] && fresh(disk)
    {
      disk := new LowerInode(cipher, header, lower);
      iSize, recordedSize := 0, 0;
      PageShift(header, 0);
      var mask, shift;
      ghost var odd;
      mask, shift, odd := SetExtentMaskAndShift(PAGE_SIZE);
      OddPart(odd, shift, 12);
      extentMask, extentShift := mask, shift;
    }

    /** ecryptfs_get_locked_page */
    method GetLockedPage(index: nat, stale: nat -> seq<byte>) returns (page: seq<byte>)
      requires Sound(disk.cipher) && InPages(disk.header, |disk.lower|)
      requires forall k :: |stale(k)| == PAGE_SIZE
      ensures Fetched(PlainFile(), index, page)
    {
      if LowerOffset(disk.header, index + 1) <= |disk.lower| {
        PlainPage(disk.cipher, disk.header, disk.lower, index);
        page := Ecb(disk.cipher.dec, PageIn(disk.lower, disk.header, index));
      } else {
        page := stale(index);
      }
    }

    /** One round of ecryptfs_write: the page, its zeros, its data, and encrypting it to the lower file. */
    method WriteRound(data: seq<byte>, offset: nat, pos: nat, dataOffset: nat, stale: nat -> seq<byte>,
                      ghost f: seq<byte>)
      returns (numBytes: nat)
      requires Sound(disk.cipher) && InPages(disk.header, |disk.lower|)
      requires forall k :: |stale(k)| == PAGE_SIZE
      requires pos < offset + |data| && (pos >= offset ==> dataOffset == pos - offset)
      requires AtRound(f, offset, offset + |data|, pos) && Filled(f, data, offset, PlainFile(), pos)
      modifies disk
      ensures numBytes == NumBytes(pos, offset, |data|)
      ensures InPages(disk.header, |disk.lower|)
      ensures Filled(f, data, offset, PlainFile(), pos + numBytes)
    {
      hide Sound, Filled, AtRound, Plain, WriteLower, Fetched, NumBytes, InPages;
      var index, start := pos / PAGE_SIZE, pos % PAGE_SIZE;
      numBytes := Num(pos, offset, |data|);
      var fetched := GetLockedPage(index, stale);
      FetchedSize(PlainFile(), index, fetched);
      var page := fetched;
      if pos < offset || start == 0 {
        page := page[..start] + Zeros(PAGE_SIZE - start);
      }
      if pos >= offset {
        page := page[..start] + data[dataOffset..dataOffset + numBytes] + page[start + numBytes..];
      }
      assert page == RoundPage(fetched, pos, data, offset);
      RoundFills(f, data, offset, PlainFile(), pos, fetched);
      PlainAfterWrite(disk.cipher, disk.header, disk.lower, index, page);
      disk.EncryptPage(Page(index, page), PAGE_SIZE);
    }

    /** The number of octets of a round, as the loop computes it. */
    static method Num(pos: nat, offset: nat, size: nat) returns (numBytes: nat)
      requires pos < offset + size
      ensures numBytes == NumBytes(pos, offset, size)
    {
      numBytes := PAGE_SIZE - pos % PAGE_SIZE;
      var totalRemainingBytes := offset + size - pos;
      if numBytes > totalRemainingBytes {
        numBytes := totalRemainingBytes;
      }
      if pos < offset {
        var totalRemainingZeros := offset - pos;
        if numBytes > totalRemainingZeros {
          numBytes := totalRemainingZeros;
        }
      }
    }

    /** ecryptfs_write */
    method EcryptfsWrite(data: seq<byte>, offset: nat, stale: nat -> seq<byte>)
      requires Valid() && forall k :: |stale(k)| == PAGE_SIZE
      modifies this, disk
      ensures Valid() && Content() == Written(old(Content()), data, offset)
    {
      hide Sound, Filled, AtRound, Plain, Written;
      ghost var f := Content();
      var fileSize := iSize;
      var dataOffset := 0;
      var pos := if offset > fileSize then fileSize else offset;
      var end := offset + |data|;
      PagesHold(fileSize);
      FilledAtStart(f, data, offset, PlainFile());
      while pos < end
        invariant Min(offset, fileSize) <= pos <= end && iSize == recordedSize == fileSize == |f|
        invariant pos >= offset ==> dataOffset == pos - offset
        invariant pos < offset ==> dataOffset == 0
        invariant extentShift == old(extentShift) && extentMask == old(extentMask)
        invariant Sound(disk.cipher)
        invariant InPages(disk.header, |disk.lower|)
        invariant AtRound(f, offset, end, pos) && Filled(f, data, offset, PlainFile(), pos)
      {
        StillAtRound(f, offset, |data|, pos);
        var numBytes := WriteRound(data, offset, pos, dataOffset, stale, f);
        if pos >= offset {
          dataOffset := dataOffset + numBytes;
        }
        pos := pos + numBytes;
      }
      FilledIsWritten(f, data, offset, PlainFile(), pos);
      FilledSize(f, data, offset, PlainFile(), pos);
      if pos > fileSize {
        iSize := pos;
        recordedSize := pos;
      }
    }

    /** truncate_upper and ecryptfs_truncate: the upper file becomes its first n octets, or is followed by
        zeros, and the lower file has the length that belongs to the new size. */
    method EcryptfsTruncate(n: nat, stale: nat -> seq<byte>)
      requires Valid() && forall k :: |stale(k)| == PAGE_SIZE
      modifies this, disk
      ensures Valid() && iSize == n && Content() == Truncated(old(Content()), n)
      ensures |disk.lower| == UpperSizeToLowerSize(disk.header, PAGE_SIZE, extentMask, extentShift, n)
      ensures n < old(iSize) ==> RestIsZero()
    {
      hide Sound, Plain, Written, WriteLower;
      PageShift(disk.header, n);
      PageShift(disk.header, iSize);
      ghost var f := Content();
      if n > iSize {
        EcryptfsWrite([0], n - 1, stale);
        GrowIsZeros(f, n);
      } else if n < iSize {
        var before := UpperSizeToLowerSize(disk.header, PAGE_SIZE, extentMask, extentShift, iSize);
        var numZeros := PAGE_SIZE - n % PAGE_SIZE;
        EcryptfsWrite(Zeros(numZeros), n, stale);
        Shrink(n, before, f);
      }
    }

    /** truncate_setsize and the change of the lower file's size, after the zeros have been written. */
    method Shrink(n: nat, before: nat, ghost f: seq<byte>)
      requires n < |f| && before == disk.header + Pages(|f|) * PAGE_SIZE
      requires Valid() && Content() == Written(f, Zeros(PAGE_SIZE - n % PAGE_SIZE), n)
      modifies this, disk
      ensures Valid() && iSize == n && Content() == f[..n]
      ensures RestIsZero()
    {
      hide Sound, Plain, Written, UpperSizeToLowerSize, InPages;
      PagesAre(disk.header, Pages(iSize));
      ghost var w, whole := Content(), PlainFile();
      iSize := n;
      recordedSize := n;
      var after := UpperSizeToLowerSize(disk.header, PAGE_SIZE, extentMask, extentShift, n);
      PageShift(disk.header, n);
      LowerShrinks(n, |f|, |w|);
      if after < before {
        PlainPrefix(disk.cipher, disk.header, disk.lower, Pages(n));
        disk.lower := disk.lower[..after];
      }
      PagesAre(disk.header, Pages(n));
      assert PlainFile() == whole[..Pages(n) * PAGE_SIZE];
      Scrubbed(f, n, w, whole);
    }
  }

  lemma Scrubbed(f: seq<byte>, n: nat, w: seq<byte>, whole: seq<byte>)
    requires n < |f| && w == Written(f, Zeros(PAGE_SIZE - n % PAGE_SIZE), n)
    requires |w| <= |whole| && whole[..|w|] == w && Pages(n) * PAGE_SIZE <= |w|
    ensures n <= Pages(n) * PAGE_SIZE
    ensures whole[..Pages(n) * PAGE_SIZE][..n] == f[..n]
    ensures forall j :: n <= j < Pages(n) * PAGE_SIZE ==> whole[..Pages(n) * PAGE_SIZE][j] == 0
  {
    PagesHold(n);
    forall j | 0 <= j < Pages(n) * PAGE_SIZE ensures whole[j] == if j < n then f[j] else 0 {
      ShrinkKeeps(f, n, j);
      assert whole[..|w|][j] == w[j];
    }
  }

  lemma FetchedSize(plain: seq<byte>, index: nat, page: seq<byte>)
    requires Fetched(plain, index, page)
    ensures |page| == PAGE_SIZE
  {
  }

  lemma FilledSize(f: seq<byte>, data: seq<byte>, offset: nat, plain: seq<byte>, pos: nat)
    requires Filled(f, data, offset, plain, pos)
    ensures |plain| == Max(Pages(|f|), Pages(pos)) * PAGE_SIZE
    ensures |plain| == Pages(Max(|f|, pos)) * PAGE_SIZE
  {
  }

  /** The zeros of a shrinking truncation stay within the pages the file had. */
  lemma LowerShrinks(n: nat, size: nat, written: nat)
    requires n < size && written == Max(size, n + (PAGE_SIZE - n % PAGE_SIZE))
    ensures Pages(written) == Pages(size) && Pages(n) <= Pages(size) && Pages(n) * PAGE_SIZE <= written
  {
  }

  lemma PlainPrefix(c: BlockCipher, header: nat, lower: seq<byte>, pages: nat)
    requires Sound(c) && header + pages * PAGE_SIZE <= |lower| && InPages(header, |lower|)
    ensures InPages(header, header + pages * PAGE_SIZE)
    ensures Plain(c, header, lower[..header + pages * PAGE_SIZE]) == Plain(c, header, lower)[..pages * PAGE_SIZE]
  {
    assert Blockwise(c.dec);
    InBlocks(header, |lower|);
    PagesAre(header, pages);
    hide Ecb, Blockwise, Sound, InPages;
    PageAligned(pages);
    EcbEnds(c.dec, lower[header..], pages * PAGE_SIZE);
    assert lower[..header + pages * PAGE_SIZE][header..] == lower[header..][..pages * PAGE_SIZE];
  }

}
