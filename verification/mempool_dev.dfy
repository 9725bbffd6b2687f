/**
 kocl_malloc and kocl_free as they run: each pool's bitmap and alloc_sz are arrays
 changed in place, and the bitmap search jumps from run to run.
 */
module MempoolDev {
  import opened Wrappers
  import opened Kernel
  import opened KoclTypes
  import opened Mempool

  /** struct _kocl_mempool; kva and uva are the pool's kernel and helper addresses. */
  class GmPool {
    const kva: nat
    const uva: nat
    const npages: nat
    const nunits: nat
    const bitmap: array<bool>
    const allocSz: array<nat>

    /** set_gpu_mempool with alloc_sz zeroed throughout. */
    constructor (kva: nat, uva: nat, npages: nat)
      requires kva + npages * PAGE_SIZE < U64
      ensures this.kva == kva && this.uva == uva && this.npages == npages
      ensures Valid() && Units() == Fresh(npages / 256) && fresh(bitmap) && fresh(allocSz)
    {
      this.kva, this.uva, this.npages := kva, uva, npages;
      nunits := npages / 256;
      bitmap := new bool[npages / 256](i => false);
      allocSz := new nat[npages / 256](i => 0);
      new;
      assert Units() == Fresh(nunits);
      FreshInv(nunits);
    }

    ghost function Units(): Units
      reads bitmap, allocSz
    {
      Mempool.Units(bitmap[..], allocSz[..])
    }

    ghost predicate Valid()
      reads bitmap, allocSz
    {
      && nunits == npages / 256 && bitmap.Length == nunits && allocSz.Length == nunits
      && kva + npages * PAGE_SIZE < U64
      && Inv(Units())
    }

    method FindNextZeroBit(start: nat) returns (i: nat)
      requires start <= bitmap.Length
      ensures start <= i <= bitmap.Length && (forall j :: start <= j < i ==> bitmap[j])
      ensures i < bitmap.Length ==> !bitmap[i]
    {
      i := start;
      while i < bitmap.Length && bitmap[i]
        invariant start <= i <= bitmap.Length && forall j :: start <= j < i ==> bitmap[j]
      {
        i := i + 1;
      }
    }

    method FindNextBit(end: nat, start: nat) returns (i: nat)
      requires start <= end <= bitmap.Length
      ensures start <= i <= end && (forall j :: start <= j < i ==> !bitmap[j])
      ensures i < end ==> bitmap[i]
    {
      i := start;
      while i < end && !bitmap[i]
        invariant start <= i <= end && forall j :: start <= j < i ==> !bitmap[j]
      {
        i := i + 1;
      }
    }

    /** bitmap_find_next_zero_area: the result is below nunits exactly when a run was found. */
    method FindNextZeroArea(nr: nat) returns (index: nat)
      requires bitmap.Length == nunits
      ensures match FirstFit(bitmap[..], nr, 0)
              case None => index >= nunits
              case Some(i) => index == i && i < nunits
    {
      FirstFitIsLowest(bitmap[..], nr, 0);
      var start := 0;
      while true
        invariant start <= nunits
        invariant forall k :: 0 <= k < start ==> !Fits(bitmap[..], k, nr)
        decreases nunits - start
      {
        index := FindNextZeroBit(start);
        assert forall k :: start <= k < index ==> !Fits(bitmap[..], k, nr);
        var end := index + nr;
        if end > nunits {
          return end;
        }
        var i := FindNextBit(end, index);
        if i >= end {
          assert index < nunits ==> Fits(bitmap[..], index, nr);
          return;
        }
        assert forall k :: index <= k <= i ==> !Fits(bitmap[..], k, nr);
        start := i + 1;
      }
    }

    /** bitmap_set and bitmap_clear */
    method BitmapFill(idx: nat, n: nat, b: bool)
      requires idx + n <= bitmap.Length
      modifies bitmap
      ensures bitmap[..] == Fill(old(bitmap[..]), idx, n, b)
    {
      for i := idx to idx + n
        invariant forall j :: 0 <= j < bitmap.Length ==>
          bitmap[j] == if idx <= j < i then b else old(bitmap[j])
      {
        bitmap[i] := b;
      }
    }

    method Take(reqUnits: nat) returns (p: Option<nat>)
      requires Valid()
      modifies bitmap, allocSz
      ensures Valid() && Units() == Malloc(old(Units()), reqUnits).0
      ensures match Malloc(old(Units()), reqUnits).1
              case None => p == None
              case Some(i) => p == Some(kva + i * UNIT)
    {
      MallocInv(Units(), reqUnits);
      FirstFitIsLowest(bitmap[..], reqUnits, 0);
      var idx := FindNextZeroArea(reqUnits);
      if idx < nunits {
        BitmapFill(idx, reqUnits, true);
        allocSz[idx] := reqUnits;
        p := Some(kva + idx * UNIT);
      } else {
        p := None;
      }
    }

    method GiveBack(p: nat)
      requires Valid() && p < U64
      modifies bitmap, allocSz
      ensures Valid() && Units() == Free(old(Units()), UnitIndex(kva, p))
    {
      var idx: nat := (p as int - kva) % U64 / UNIT;
      FreeInv(Units(), idx);
      if idx >= nunits {
        return;
      }
      var allocNunits := allocSz[idx];
      if allocNunits == 0 {
        return;
      }
      if allocNunits > nunits - idx {
        return;
      }
      BitmapFill(idx, allocNunits, false);
      allocSz[idx] := 0;
    }

    ghost predicate Delivers(p: nat, q: nat)
      reads bitmap, allocSz
    {
      Reaches(Units(), kva, uva, npages, p, q)
    }

    /** ADDR_WITHIN and ADDR_REBASE on one pointer */
    method Rebase(p: nat) returns (q: nat)
      requires Valid()
      ensures q == Translate(kva, uva, npages, p)
      ensures npages * PAGE_SIZE < U32 ==> Delivers(p, q)
    {
      q := p;
      if p >= kva && p < kva + npages * PAGE_SIZE % U32 {
        q := uva + (p - kva);
      }
      if npages * PAGE_SIZE < U32 {
        hide Inv, Reaches;
        TranslateReaches(Units(), kva, uva, npages, p);
      }
    }
  }

  class KoclMem {
    const gmpool: GmPool
    const gmpool2: GmPool
    const gmpool3: GmPool

    constructor (a: GmPool, b: GmPool, c: GmPool)
      ensures gmpool == a && gmpool2 == b && gmpool3 == c
    {
      gmpool, gmpool2, gmpool3 := a, b, c;
    }

    function PoolFor(channel: int): GmPool {
      match DeviceOf(channel)
      case Second => gmpool2
      case Third => gmpool3
      case Default => gmpool
    }

    ghost function Arrays(): set<object> {
      {gmpool.bitmap, gmpool.allocSz, gmpool2.bitmap, gmpool2.allocSz, gmpool3.bitmap, gmpool3.allocSz}
    }

    ghost predicate Valid()
      reads Arrays()
    {
      && gmpool.Valid() && gmpool2.Valid() && gmpool3.Valid()
      && gmpool.bitmap != gmpool2.bitmap && gmpool.bitmap != gmpool3.bitmap && gmpool2.bitmap != gmpool3.bitmap
      && gmpool.allocSz != gmpool2.allocSz && gmpool.allocSz != gmpool3.allocSz && gmpool2.allocSz != gmpool3.allocSz
    }

    ghost function Abs(): Pools
      reads Arrays()
    {
      Pools(gmpool.Units(), gmpool2.Units(), gmpool3.Units())
    }

    method KoclMalloc(nbytes: nat, channel: int) returns (p: Option<nat>)
      requires Valid() && nbytes < U64
      modifies Arrays()
      ensures Valid() && Abs() == Serve(old(Abs()), MallocCall(ReqUnits(nbytes), channel))
      ensures match Malloc(old(PoolFor(channel).Units()), ReqUnits(nbytes)).1
              case None => p == None
              case Some(i) => p == Some(PoolFor(channel).kva + i * UNIT)
    {
      hide Inv, ReqUnits;
      p := PoolFor(channel).Take(ReqUnits(nbytes));
    }

    method KoclFree(p: nat, channel: int)
      requires Valid() && p < U64
      modifies Arrays()
      ensures Valid() && Abs() == Serve(old(Abs()), FreeCall(UnitIndex(PoolFor(channel).kva, p), channel))
      ensures forall i: nat :: InHead(old(PoolFor(channel).Units()), PoolFor(channel).kva, p, i) ==>
                PoolFor(channel).Units() == Released(old(PoolFor(channel).Units()), i)
      ensures (forall i: nat :: !InHead(old(PoolFor(channel).Units()), PoolFor(channel).kva, p, i)) ==>
                Abs() == old(Abs())
    {
      FreeByAddress(PoolFor(channel).Units(), PoolFor(channel).kva, p);
      hide Inv, UnitIndex, InHead, Free, Released;
      PoolFor(channel).GiveBack(p);
    }

    /** fill_ku_request: the pool of the request's channel translates its three pointers. */
    method FillKuRequest(channel: int, inp: nat, out: nat, udata: nat) returns (kuIn: nat, kuOut: nat, kuData: nat)
      requires Valid()
      ensures
        var pool := PoolFor(channel);
        && kuIn == Translate(pool.kva, pool.uva, pool.npages, inp)
        && kuOut == Translate(pool.kva, pool.uva, pool.npages, out)
        && kuData == Translate(pool.kva, pool.uva, pool.npages, udata)
        && (pool.npages * PAGE_SIZE < U32 ==>
              pool.Delivers(inp, kuIn) && pool.Delivers(out, kuOut) && pool.Delivers(udata, kuData))
    {
      hide Inv, Reaches, Translate;
      var pool;
      if channel == 2 {
        pool := gmpool2;
      } else if channel == 3 {
        pool := gmpool3;
      } else {
        pool := gmpool;
      }
      kuIn := pool.Rebase(inp);
      kuOut := pool.Rebase(out);
      kuData := pool.Rebase(udata);
    }
  }
}
