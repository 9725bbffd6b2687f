/**
 What ecryptfs_write and truncation do to a file's plaintext, and the sizes of upper and lower files
 (gaes/ecryptfs_4.7_kocl/read_write.c, inode.c, crypto.c), as functions. The methods of
 truncate.dfy are proved to compute them on the lower file.

 Files are encrypted, and an extent is a page.
 */
module FileLayout {
  import opened Arithmetic
  import opened Kernel
  import opened Bytes
  import opened PageCrypt

  function Pages(n: nat): nat { (n + PAGE_SIZE - 1) / PAGE_SIZE }

  function Max(a: nat, b: nat): nat { if a > b then a else b }
  function Min(a: nat, b: nat): nat { if a < b then a else b }

  /* ----- ecryptfs_write ----- */

  /** The octets behind the written range that are zeroed with it: the rest of its last page, when the
      loop enters that page at its start. */
  predicate Swept(offset: nat, end: nat, j: nat) {
    offset < end <= j && j / PAGE_SIZE == (end - 1) / PAGE_SIZE && (end - 1) / PAGE_SIZE * PAGE_SIZE >= offset
  }

  function WrittenAt(f: seq<byte>, data: seq<byte>, offset: nat, j: nat): byte {
    if offset <= j < offset + |data| then data[j - offset]
    else if j >= |f| || Swept(offset, offset + |data|, j) then 0
    else f[j]
  }

  /** The file after ecryptfs_write of data at an offset. */
  function Written(f: seq<byte>, data: seq<byte>, offset: nat): (r: seq<byte>)
    ensures |r| == Max(|f|, offset + |data|)
  {
    seq(Max(|f|, offset + |data|), j requires 0 <= j => WrittenAt(f, data, offset, j))
  }

  /** What a write should do: replace a range, with zeros in front of it if it begins behind the end. */
  function Splice(f: seq<byte>, data: seq<byte>, offset: nat): seq<byte> {
    seq(Max(|f|, offset + |data|), j requires 0 <= j =>
      if offset <= j < offset + |data| then data[j - offset] else if j < |f| then f[j] else 0)
  }

  /** Does a write leave the rest of its last page alone: it ends at a page boundary or at or behind the
      end of the file, or begins inside the page it ends in, or writes nothing. */
  predicate KeepsRest(size: nat, offset: nat, length: nat) {
    var end := offset + length;
    length == 0 || end % PAGE_SIZE == 0 || end >= size || (end - 1) / PAGE_SIZE * PAGE_SIZE < offset
  }

  /** ecryptfs_write replaces the range in every file of a size exactly when the range keeps the rest. */
  lemma WriteIsSplice(size: nat, offset: nat, length: nat)
    ensures KeepsRest(size, offset, length) <==>
            forall f: seq<byte>, data: seq<byte> :: |f| == size && |data| == length ==>
              Written(f, data, offset) == Splice(f, data, offset)
  {
    if KeepsRest(size, offset, length) {
      forall f: seq<byte>, data: seq<byte> | |f| == size && |data| == length
        ensures Written(f, data, offset) == Splice(f, data, offset)
      {
        var end := offset + length;
        assert forall j :: 0 <= j < size ==> !Swept(offset, end, j);
      }
    } else {
      var f, data := seq<byte>(size, _ => 1), seq<byte>(length, _ => 1);
      var end := offset + length;
      assert Swept(offset, end, end);
      assert Written(f, data, offset)[end] == 0 && Splice(f, data, offset)[end] == 1;
    }
  }

  /** Concretely: one octet written at the start of a page loses the rest of the page. */
  lemma WriteLosesRest(f: seq<byte>, x: byte, j: nat)
    requires 0 < j < PAGE_SIZE && j < |f|
    ensures Written(f, [x], 0)[j] == 0
  {
  }

  /* ----- truncation ----- */

  function Truncated(f: seq<byte>, n: nat): seq<byte> {
    if n <= |f| then f[..n] else f + Zeros(n - |f|)
  }

  /** Growing writes one zero at the last position. */
  lemma GrowIsZeros(f: seq<byte>, n: nat)
    requires n > |f|
    ensures Written(f, [0], n - 1) == Truncated(f, n)
  {
  }

  /** Shrinking writes zeros from the new end to the end of its page: the kept part stays, and the
      rest of that page is zero. */
  lemma ShrinkKeeps(f: seq<byte>, n: nat, j: nat)
    requires n < |f| && j < (n / PAGE_SIZE + 1) * PAGE_SIZE
    ensures var w := Written(f, Zeros(PAGE_SIZE - n % PAGE_SIZE), n);
            j < |w| && w[j] == if j < n then f[j] else 0
  {
    var end := n + (PAGE_SIZE - n % PAGE_SIZE);
    assert end == (n / PAGE_SIZE + 1) * PAGE_SIZE;
  }

  /* ----- set_extent_mask_and_shift, upper_size_to_lower_size ----- */

  /** upper_size_to_lower_size */
  function UpperSizeToLowerSize(header: nat, extentSize: nat, mask: nat, shift: nat, upper: nat): nat
    requires mask <= 0xFFFF_FFFF
  {
    if upper == 0 then header
    else header + (upper / Pow2(shift) + if BitAnd(upper, Not32(mask)) != 0 then 1 else 0) * extentSize
  }

  /** The mask that set_extent_mask_and_shift gives for a shift. */
  function MaskOf(shift: nat): (mask: int)
    ensures mask <= 0xFFFF_FFFF
  {
    0x1_0000_0000 - Pow2(shift)
  }

  /** The octets of the whole extents that n octets need. */
  function Extents(n: nat, extentSize: nat): nat
    requires extentSize >= 1
  {
    (n + extentSize - 1) / extentSize * extentSize
  }

  /** With an extent size that is a power of two, the lower file is the header and the extents that
      hold the upper file. */
  lemma LowerSizeIsCeil(header: nat, shift: nat, upper: nat)
    requires MaskOf(shift) >= 0
    ensures UpperSizeToLowerSize(header, Pow2(shift), MaskOf(shift), shift, upper)
            == header + Extents(upper, Pow2(shift))
  {
    LowBits(upper, shift);
    CeilDiv(upper, Pow2(shift));
  }

  /** With any other extent size it is too long already for one whole extent. */
  lemma LowerSizeNotCeil(header: nat, shift: nat, odd: nat)
    requires odd > 1 && MaskOf(shift) >= 0
    ensures var extentSize := odd * Pow2(shift);
            UpperSizeToLowerSize(header, extentSize, MaskOf(shift), shift, extentSize) > header + extentSize
  {
    var d := Pow2(shift);
    var extentSize := odd * d;
    Scaled(odd, d);
    Quotient(extentSize, d, odd, 0);
    Doubled(odd, extentSize);
    LowBits(extentSize, shift);
    assert UpperSizeToLowerSize(header, extentSize, MaskOf(shift), shift, extentSize) == header + odd * extentSize;
  }

  lemma Doubled(k: nat, d: nat)
    requires k > 1
    ensures k * d >= 2 * d
  {
  }

  /** The size is the ceiling for every upper size exactly when the extent size is a power of two. */
  lemma LowerSizeExact(header: nat, shift: nat, odd: nat)
    requires odd >= 1 && MaskOf(shift) >= 0
    ensures (forall n: nat :: UpperSizeToLowerSize(header, odd * Pow2(shift), MaskOf(shift), shift, n) ==
                              header + Extents(n, odd * Pow2(shift))) <==> odd == 1
  {
    if odd == 1 {
      forall n: nat ensures UpperSizeToLowerSize(header, Pow2(shift), MaskOf(shift), shift, n)
                            == header + Extents(n, Pow2(shift)) {
        LowerSizeIsCeil(header, shift, n);
      }
    } else {
      var e := odd * Pow2(shift);
      Scaled(odd, Pow2(shift));
      LowerSizeNotCeil(header, shift, odd);
      assert e + e - 1 == 1 * e + (e - 1);
      Quotient(e + e - 1, e, 1, e - 1);
      assert Extents(e, e) == e;
    }
  }

  /** In the code an extent is one page. */
  lemma PageShift(header: nat, upper: nat)
    ensures Pow2(12) == PAGE_SIZE && MaskOf(12) == 0xFFFF_F000
    ensures UpperSizeToLowerSize(header, PAGE_SIZE, MaskOf(12), 12, upper) == header + Pages(upper) * PAGE_SIZE
  {
    assert Pow2(6) == 64;
    assert Pow2(9) == 512;
    assert Pow2(12) == 4096;
    LowerSizeIsCeil(header, 12, upper);
  }

  /* ----- one round of ecryptfs_write ----- */

  function NumBytes(pos: nat, offset: nat, size: nat): (n: nat)
    requires pos < offset + size
    ensures n > 0 && pos % PAGE_SIZE + n <= PAGE_SIZE && pos + n <= offset + size
    ensures pos < offset ==> pos + n <= offset
  {
    var n := Min(PAGE_SIZE - pos % PAGE_SIZE, offset + size - pos);
    if pos < offset then Min(n, offset - pos) else n
  }

  /** What a round makes of the page it is in: zeros to the end of the page when it fills a gap or enters
      the page at its start, then the data. */
  function RoundPage(page: seq<byte>, pos: nat, data: seq<byte>, offset: nat): (r: seq<byte>)
    requires |page| == PAGE_SIZE && pos < offset + |data|
    ensures |r| == PAGE_SIZE
  {
    var start, n := pos % PAGE_SIZE, NumBytes(pos, offset, |data|);
    var cleared := if pos < offset || start == 0 then page[..start] + Zeros(PAGE_SIZE - start) else page;
    if pos >= offset then cleared[..start] + data[pos - offset..pos - offset + n] + cleared[start + n..] else cleared
  }

  /** How much of a write has been done when the loop is at pos: f was the file, plain is what its
      pages hold now. */
  predicate Filled(f: seq<byte>, data: seq<byte>, offset: nat, plain: seq<byte>, pos: nat) {
    && |plain| == Max(Pages(|f|), Pages(pos)) * PAGE_SIZE
    && forall j :: 0 <= j < |plain| ==> FilledAt(f, data, offset, plain[j], pos, j)
  }

  predicate FilledAt(f: seq<byte>, data: seq<byte>, offset: nat, x: byte, pos: nat, j: nat) {
    && (j < pos && j < offset ==> x == if j < |f| then f[j] else 0)
    && (offset <= j < pos && j < offset + |data| ==> x == data[j - offset])
    && (pos <= j < |f| ==> x == if pos == offset + |data| && Swept(offset, pos, j) then 0 else f[j])
  }

  /** Where the loop can be: behind the write's own start it is at page boundaries until it ends. */
  predicate AtRound(f: seq<byte>, offset: nat, end: nat, pos: nat) {
    && Min(offset, |f|) <= pos <= end
    && (offset < pos < end ==> pos % PAGE_SIZE == 0)
    && (pos > |f| && pos < offset ==> pos % PAGE_SIZE == 0)
  }

  lemma PageArithmetic(pos: nat, n: nat)
    requires n > 0 && pos % PAGE_SIZE + n <= PAGE_SIZE
    ensures Pages(pos + n) == pos / PAGE_SIZE + 1
    ensures pos % PAGE_SIZE == 0 ==> Pages(pos) == pos / PAGE_SIZE
    ensures pos % PAGE_SIZE != 0 ==> Pages(pos) == pos / PAGE_SIZE + 1
  {
  }

  /** The octet a round leaves at j, in its page or elsewhere. */
  lemma RoundOctet(f: seq<byte>, data: seq<byte>, offset: nat, page: seq<byte>, pos: nat, j: nat)
    requires |page| == PAGE_SIZE && pos < offset + |data| && AtRound(f, offset, offset + |data|, pos)
    requires j / PAGE_SIZE == pos / PAGE_SIZE
    requires pos % PAGE_SIZE != 0 || j < |f| ==> FilledAt(f, data, offset, page[j % PAGE_SIZE], pos, j)
    ensures FilledAt(f, data, offset, RoundPage(page, pos, data, offset)[j % PAGE_SIZE],
                     pos + NumBytes(pos, offset, |data|), j)
  {
    hide RoundPage, NumBytes, Swept;
    var start, n, k := pos % PAGE_SIZE, NumBytes(pos, offset, |data|), j % PAGE_SIZE;
    var x := RoundPage(page, pos, data, offset)[k];
    SamePage(pos, j);
    RoundPageAt(page, pos, data, offset, k);
    RoundEnds(pos, offset, |data|);
    if j < pos {
      assert x == page[k];
    } else if j < pos + n {
      assert pos < offset ==> x == 0 && |f| <= pos;
    } else if pos >= offset && j < |f| {
      SweptByRound(offset, offset + |data|, pos, n, j);
    }
  }

  lemma SamePage(pos: nat, j: nat)
    requires j / PAGE_SIZE == pos / PAGE_SIZE
    ensures j - pos == j % PAGE_SIZE - pos % PAGE_SIZE
  {
  }

  /** A round ends with its page, with the gap or with the write. */
  lemma RoundEnds(pos: nat, offset: nat, size: nat)
    requires pos < offset + size
    ensures var n := NumBytes(pos, offset, size);
            pos % PAGE_SIZE + n == PAGE_SIZE || pos + n == offset + size || pos + n == offset
  {
  }

  lemma RoundPageAt(page: seq<byte>, pos: nat, data: seq<byte>, offset: nat, k: nat)
    requires |page| == PAGE_SIZE && pos < offset + |data| && k < PAGE_SIZE
    ensures var start, n := pos % PAGE_SIZE, NumBytes(pos, offset, |data|);
            RoundPage(page, pos, data, offset)[k] ==
            if pos >= offset && start <= k < start + n then data[pos - offset + (k - start)]
            else if k >= start && (pos < offset || start == 0) then 0
            else page[k]
  {
  }

  /** Behind the end of the write a round zeroes its page exactly when it ends the write there and
      entered the page at its start. */
  lemma SweptByRound(offset: nat, end: nat, pos: nat, n: nat, j: nat)
    requires offset <= pos < end <= j && n == NumBytes(pos, offset, end - offset)
    requires j / PAGE_SIZE == pos / PAGE_SIZE && (offset < pos ==> pos % PAGE_SIZE == 0)
    requires pos + n <= j
    ensures pos + n == end && (Swept(offset, end, j) <==> pos % PAGE_SIZE == 0)
  {
    assert (end - 1) / PAGE_SIZE == pos / PAGE_SIZE;
  }

  lemma WithinPage(pos: nat, n: nat, j: nat)
    requires pos % PAGE_SIZE + n <= PAGE_SIZE
    ensures pos <= j < pos + n ==> j / PAGE_SIZE == pos / PAGE_SIZE
  {
  }

  /** Octets outside the round's page keep their part of the invariant. */
  lemma OtherOctet(f: seq<byte>, data: seq<byte>, offset: nat, x: byte, pos: nat, j: nat)
    requires pos < offset + |data| && AtRound(f, offset, offset + |data|, pos)
    requires j / PAGE_SIZE != pos / PAGE_SIZE && FilledAt(f, data, offset, x, pos, j)
    ensures FilledAt(f, data, offset, x, pos + NumBytes(pos, offset, |data|), j)
  {
    var n := NumBytes(pos, offset, |data|);
    WithinPage(pos, n, j);
    if j >= pos + n && pos + n == offset + |data| && pos >= offset {
      assert (pos + n - 1) / PAGE_SIZE == pos / PAGE_SIZE;
    }
  }

  lemma StillAtRound(f: seq<byte>, offset: nat, size: nat, pos: nat)
    requires pos < offset + size && AtRound(f, offset, offset + size, pos)
    ensures AtRound(f, offset, offset + size, pos + NumBytes(pos, offset, size))
  {
    RoundEnds(pos, offset, size);
    var n := NumBytes(pos, offset, size);
    if pos % PAGE_SIZE + n == PAGE_SIZE {
      assert (pos + n) % PAGE_SIZE == 0;
    }
  }

  /** The page a round starts from: what the file's pages hold, or anything when there is no such page yet. */
  predicate Fetched(plain: seq<byte>, index: nat, page: seq<byte>) {
    && |page| == PAGE_SIZE
    && ((index + 1) * PAGE_SIZE <= |plain| ==> page == plain[index * PAGE_SIZE..(index + 1) * PAGE_SIZE])
  }

  lemma RoundSize(f: seq<byte>, offset: nat, size: nat, plain: seq<byte>, pos: nat, page: seq<byte>)
    requires pos < offset + size && AtRound(f, offset, offset + size, pos) && |page| == PAGE_SIZE
    requires |plain| == Max(Pages(|f|), Pages(pos)) * PAGE_SIZE
    ensures pos / PAGE_SIZE * PAGE_SIZE <= |plain|
    ensures |WriteLower(plain, pos / PAGE_SIZE * PAGE_SIZE, page)| ==
            Max(Pages(|f|), Pages(pos + NumBytes(pos, offset, size))) * PAGE_SIZE
  {
    PageArithmetic(pos, NumBytes(pos, offset, size));
    hide NumBytes, WriteLower;
    PagesHold(|f|);
  }

  /** A round advances the write and leaves all the rest alone. */
  lemma RoundFills(f: seq<byte>, data: seq<byte>, offset: nat, plain: seq<byte>, pos: nat, page: seq<byte>)
    requires pos < offset + |data| && AtRound(f, offset, offset + |data|, pos) && Filled(f, data, offset, plain, pos)
    requires Fetched(plain, pos / PAGE_SIZE, page)
    ensures pos / PAGE_SIZE * PAGE_SIZE <= |plain|
    ensures Filled(f, data, offset, WriteLower(plain, pos / PAGE_SIZE * PAGE_SIZE, RoundPage(page, pos, data, offset)),
                   pos + NumBytes(pos, offset, |data|))
  {
    var after := RoundPage(page, pos, data, offset);
    RoundSize(f, offset, |data|, plain, pos, after);
    hide NumBytes, RoundPage, FilledAt, AtRound, WriteLower, Fetched, Pages, Max;
    var index := pos / PAGE_SIZE;
    forall j | 0 <= j < |WriteLower(plain, index * PAGE_SIZE, after)|
      ensures FilledAt(f, data, offset, WriteLower(plain, index * PAGE_SIZE, after)[j],
                       pos + NumBytes(pos, offset, |data|), j)
    {
      RoundAt(f, data, offset, plain, pos, page, j);
    }
  }

  lemma RoundAt(f: seq<byte>, data: seq<byte>, offset: nat, plain: seq<byte>, pos: nat, page: seq<byte>, j: nat)
    requires pos < offset + |data| && AtRound(f, offset, offset + |data|, pos) && Filled(f, data, offset, plain, pos)
    requires Fetched(plain, pos / PAGE_SIZE, page) && pos / PAGE_SIZE * PAGE_SIZE <= |plain|
    requires j < |WriteLower(plain, pos / PAGE_SIZE * PAGE_SIZE, RoundPage(page, pos, data, offset))|
    ensures FilledAt(f, data, offset,
                     WriteLower(plain, pos / PAGE_SIZE * PAGE_SIZE, RoundPage(page, pos, data, offset))[j],
                     pos + NumBytes(pos, offset, |data|), j)
  {
    hide NumBytes, RoundPage, FilledAt, AtRound, WriteLower, Pages, Max;
    PageWrite(plain, pos / PAGE_SIZE, RoundPage(page, pos, data, offset), j);
    if j / PAGE_SIZE == pos / PAGE_SIZE {
      if pos % PAGE_SIZE != 0 || j < |f| {
        FetchedOctet(f, data, offset, plain, pos, page, j);
      }
      RoundOctet(f, data, offset, page, pos, j);
    } else {
      OtherOctet(f, data, offset, plain[j], pos, j);
    }
  }

  /** Writing a page changes the octets of that page only. */
  lemma PageWrite(plain: seq<byte>, index: nat, page: seq<byte>, j: nat)
    requires index * PAGE_SIZE <= |plain| && |page| == PAGE_SIZE
    requires j < |WriteLower(plain, index * PAGE_SIZE, page)|
    ensures j / PAGE_SIZE != index ==> j < |plain|
    ensures WriteLower(plain, index * PAGE_SIZE, page)[j]
            == if j / PAGE_SIZE == index then page[j % PAGE_SIZE] else plain[j]
  {
    assert j / PAGE_SIZE == index <==> index * PAGE_SIZE <= j < index * PAGE_SIZE + PAGE_SIZE;
  }

  lemma PagesHold(n: nat)
    ensures n <= Pages(n) * PAGE_SIZE < n + PAGE_SIZE
  {
  }

  lemma FetchedOctet(f: seq<byte>, data: seq<byte>, offset: nat, plain: seq<byte>, pos: nat, page: seq<byte>, j: nat)
    requires Filled(f, data, offset, plain, pos) && Fetched(plain, pos / PAGE_SIZE, page)
    requires j / PAGE_SIZE == pos / PAGE_SIZE && (pos % PAGE_SIZE != 0 || j < |f|)
    ensures FilledAt(f, data, offset, page[j % PAGE_SIZE], pos, j)
  {
    var index := pos / PAGE_SIZE;
    PagesHold(|f|);
    PageArithmetic(pos, 1);
    assert (index + 1) * PAGE_SIZE <= |plain|;
    assert page[j % PAGE_SIZE] == plain[index * PAGE_SIZE + j % PAGE_SIZE];
  }

  /** When the loop is done the file is what the write makes of it. */
  lemma FilledIsWritten(f: seq<byte>, data: seq<byte>, offset: nat, plain: seq<byte>, pos: nat)
    requires Filled(f, data, offset, plain, pos) && pos == Max(offset + |data|, Min(offset, |f|))
    requires pos == offset + |data|
    ensures Max(|f|, pos) <= |plain| && plain[..Max(|f|, pos)] == Written(f, data, offset)
  {
    PagesHold(|f|);
    PagesHold(pos);
  }

  /** Before the loop nothing has been done. */
  lemma FilledAtStart(f: seq<byte>, data: seq<byte>, offset: nat, plain: seq<byte>)
    requires |plain| == Pages(|f|) * PAGE_SIZE && f == plain[..|f|]
    ensures Filled(f, data, offset, plain, Min(offset, |f|)) && AtRound(f, offset, offset + |data|, Min(offset, |f|))
  {
    PagesHold(|f|);
  }
}
