/**
 The unit allocator over the three pinned pools and the address translation of
 kocl/main.c: a bitmap and an array of block sizes per pool, first-fit search, and
 the rebasing of kernel addresses to the helper's.
 */
module Mempool {
  import opened Wrappers
  import opened Kernel
  import opened KoclTypes

  const UNIT := 0x10_0000 // KOCL_BUF_UNIT_SIZE
  const U64 := 0x1_0000_0000_0000_0000

  /* ----- one pool as a value ----- */

  /** bits: the units in use; sz: the size of the block each unit heads, or 0. */
  datatype Units = Units(bits: seq<bool>, sz: seq<nat>)

  /** A run of n free units can start at i. */
  predicate Fits(bits: seq<bool>, i: nat, n: nat) {
    i < |bits| && i + n <= |bits| && !bits[i] && forall j :: i <= j < i + n ==> !bits[j]
  }

  function FirstFit(bits: seq<bool>, n: nat, i: nat): Option<nat>
    requires i <= |bits|
    decreases |bits| - i
  {
    if i == |bits| then None else if Fits(bits, i, n) then Some(i) else FirstFit(bits, n, i + 1)
  }

  function Fill(bits: seq<bool>, i: nat, n: nat, b: bool): seq<bool> {
    seq(|bits|, j requires 0 <= j < |bits| => if i <= j < i + n then b else bits[j])
  }

  function Malloc(u: Units, n: nat): (r: (Units, Option<nat>))
    requires |u.sz| == |u.bits|
    ensures |r.0.sz| == |r.0.bits| == |u.bits|
  {
    match FirstFit(u.bits, n, 0)
    case None => (u, None)
    case Some(i) =>
      assert i < |u.bits| by { FirstFitIsLowest(u.bits, n, 0); }
      (Units(Fill(u.bits, i, n, true), u.sz[i := n]), Some(i))
  }

  function Free(u: Units, i: nat): Units
    requires |u.sz| == |u.bits|
  {
    if i >= |u.bits| || u.sz[i] == 0 || u.sz[i] > |u.bits| - i then u
    else Units(Fill(u.bits, i, u.sz[i], false), u.sz[i := 0])
  }

  /** The unit j lies in the live block that i heads. */
  predicate InBlock(u: Units, i: nat, j: nat)
  {
    i < |u.sz| && i <= j < i + u.sz[i]
  }

  ghost predicate Inv(u: Units) {
    && |u.sz| == |u.bits|
    && (forall i :: 0 <= i < |u.sz| ==> i + u.sz[i] <= |u.bits|)
    && (forall i, k :: 0 <= i < k < |u.sz| && u.sz[i] > 0 && u.sz[k] > 0 ==> i + u.sz[i] <= k)
    && (forall j :: 0 <= j < |u.bits| ==> (u.bits[j] <==> exists i: nat :: InBlock(u, i, j)))
  }

  function Fresh(nunits: nat): Units {
    Units(seq(nunits, _ => false), seq(nunits, _ => 0))
  }

  lemma FreshInv(nunits: nat)
    ensures Inv(Fresh(nunits))
  {
  }

  /** The search finds the lowest run, and none exactly when there is none. */
  lemma FirstFitIsLowest(bits: seq<bool>, n: nat, i: nat)
    requires i <= |bits|
    ensures match FirstFit(bits, n, i)
            case None => forall k :: i <= k ==> !Fits(bits, k, n)
            case Some(m) => i <= m && Fits(bits, m, n) && forall k :: i <= k < m ==> !Fits(bits, k, n)
    decreases |bits| - i
  {
    if i < |bits| && !Fits(bits, i, n) {
      FirstFitIsLowest(bits, n, i + 1);
    }
  }

  /** The code of kocl_malloc: NULL iff no run of n free units exists, else the lowest one;
      exactly that run is taken and every other block stays. */
  lemma MallocTakesLowest(u: Units, n: nat)
    requires Inv(u)
    ensures
      var (u', r) := Malloc(u, n);
      && (r == None <==> forall i: nat :: !Fits(u.bits, i, n))
      && (r == None ==> u' == u)
      && (r.Some? ==>
            && Fits(u.bits, r.value, n) && (forall i :: 0 <= i < r.value ==> !Fits(u.bits, i, n))
            && (forall j :: 0 <= j < |u.bits| ==> (u'.bits[j] <==> u.bits[j] || r.value <= j < r.value + n))
            && forall i :: 0 <= i < |u.sz| ==> u'.sz[i] == if i == r.value then n else u.sz[i])
  {
    FirstFitIsLowest(u.bits, n, 0);
  }

  lemma FreeUnitHeadsNothing(u: Units, i: nat)
    requires Inv(u) && i < |u.bits| && !u.bits[i]
    ensures u.sz[i] == 0
  {
    assert !InBlock(u, i, i);
  }

  lemma BusyUnit(u: Units, i: nat, j: nat)
    requires Inv(u) && InBlock(u, i, j)
    ensures j < |u.bits| && u.bits[j]
  {
  }

  lemma MallocDisjoint(u: Units, n: nat, i: nat, k: nat)
    requires Inv(u) && i < k < |u.sz|
    requires Malloc(u, n).0.sz[i] > 0 && Malloc(u, n).0.sz[k] > 0
    ensures i + Malloc(u, n).0.sz[i] <= k
  {
    FirstFitIsLowest(u.bits, n, 0);
    var r := Malloc(u, n).1;
    if r.Some? && k == r.value {
      if i + u.sz[i] > k { BusyUnit(u, i, k); }
    } else if r.Some? && i == r.value {
      if i + n > k { BusyUnit(u, k, k); }
    }
  }

  lemma MallocBits(u: Units, n: nat, j: nat)
    requires Inv(u) && j < |u.bits|
    ensures Malloc(u, n).0.bits[j] <==> exists i: nat :: InBlock(Malloc(u, n).0, i, j)
  {
    FirstFitIsLowest(u.bits, n, 0);
    var (u', r) := Malloc(u, n);
    if r.Some? {
      FreeUnitHeadsNothing(u, r.value);
      if r.value <= j < r.value + n {
        assert InBlock(u', r.value, j);
      } else {
        forall i: nat ensures InBlock(u', i, j) <==> InBlock(u, i, j) {}
      }
    }
  }

  lemma MallocInv(u: Units, n: nat)
    requires Inv(u)
    ensures Inv(Malloc(u, n).0)
  {
    var u' := Malloc(u, n).0;
    FirstFitIsLowest(u.bits, n, 0);
    forall i, k | 0 <= i < k < |u'.sz| && u'.sz[i] > 0 && u'.sz[k] > 0 ensures i + u'.sz[i] <= k {
      MallocDisjoint(u, n, i, k);
    }
    forall j | 0 <= j < |u'.bits| ensures u'.bits[j] <==> exists i: nat :: InBlock(u', i, j) {
      MallocBits(u, n, j);
    }
  }

  lemma FreeInv(u: Units, i: nat)
    requires Inv(u)
    ensures Inv(Free(u, i))
  {
    var u' := Free(u, i);
    if u' != u {
      forall j | 0 <= j < |u'.bits| ensures u'.bits[j] <==> exists k: nat :: InBlock(u', k, j) {
        forall k: nat ensures InBlock(u', k, j) <==> k != i && InBlock(u, k, j) {}
        if InBlock(u, i, j) {
          forall k: nat | k != i ensures !InBlock(u, k, j) {}
        }
      }
    }
  }

  /** Freeing through the head unit of a live block releases that block and nothing else;
      through any other unit, or outside the pool, nothing changes. */
  lemma FreeReleasesBlock(u: Units, i: nat)
    requires Inv(u)
    ensures
      var u' := Free(u, i);
      if i < |u.sz| && u.sz[i] > 0 then
        && (forall j :: 0 <= j < |u.bits| ==> (u'.bits[j] <==> u.bits[j] && !InBlock(u, i, j)))
        && (forall k :: 0 <= k < |u.sz| ==> u'.sz[k] == if k == i then 0 else u.sz[k])
      else u' == u
  {
  }

  /** Freeing what was just allocated restores bitmap and sizes exactly. */
  lemma FreeUndoesMalloc(u: Units, n: nat)
    requires Inv(u) && Malloc(u, n).1.Some?
    ensures Free(Malloc(u, n).0, Malloc(u, n).1.value) == u
  {
    FirstFitIsLowest(u.bits, n, 0);
    var (u', r) := Malloc(u, n);
    FreeUnitHeadsNothing(u, r.value);
    var u'' := Free(u', r.value);
    assert u''.bits == u.bits;
    assert u''.sz == u.sz;
  }

  /* ----- the three pools under any sequence of calls ----- */

  datatype Pools = Pools(first: Units, second: Units, third: Units)

  datatype Call = MallocCall(nunits: nat, channel: int) | FreeCall(unit: nat, channel: int)

  function UnitsOf(p: Pools, device: Device): Units {
    match device
    case Second => p.second
    case Third => p.third
    case Default => p.first
  }

  function PoolOf(p: Pools, channel: int): Units {
    UnitsOf(p, DeviceOf(channel))
  }

  function WithPool(p: Pools, channel: int, u: Units): Pools {
    match DeviceOf(channel)
    case Second => p.(second := u)
    case Third => p.(third := u)
    case Default => p.(first := u)
  }

  ghost predicate PoolsInv(p: Pools) {
    Inv(p.first) && Inv(p.second) && Inv(p.third)
  }

  function Serve(p: Pools, call: Call): Pools
    requires |PoolOf(p, call.channel).sz| == |PoolOf(p, call.channel).bits|
  {
    match call
    case MallocCall(n, channel) => WithPool(p, channel, Malloc(PoolOf(p, channel), n).0)
    case FreeCall(unit, channel) => WithPool(p, channel, Free(PoolOf(p, channel), unit))
  }

  lemma PoolSized(p: Pools, channel: int)
    requires PoolsInv(p)
    ensures Inv(PoolOf(p, channel)) && |PoolOf(p, channel).sz| == |PoolOf(p, channel).bits|
  {
  }

  lemma ServeInv(p: Pools, call: Call)
    requires PoolsInv(p) && |PoolOf(p, call.channel).sz| == |PoolOf(p, call.channel).bits|
    ensures PoolsInv(Serve(p, call))
    ensures forall ch: int :: DeviceOf(ch) != DeviceOf(call.channel) ==> PoolOf(Serve(p, call), ch) == PoolOf(p, ch)
  {
    hide Inv;
    match call
    case MallocCall(n, channel) => MallocInv(PoolOf(p, channel), n);
    case FreeCall(unit, channel) => FreeInv(PoolOf(p, channel), unit);
  }

  ghost function ServeAll(p: Pools, calls: seq<Call>): Pools
    requires PoolsInv(p)
    decreases |calls|
  {
    if calls == [] then p
    else
      PoolSized(p, calls[0].channel);
      ServeInv(p, calls[0]);
      ServeAll(Serve(p, calls[0]), calls[1..])
  }

  /** After any calls every pool's live blocks are disjoint and in range, and its bitmap and
      sizes describe exactly those blocks. */
  lemma {:induction false} PoolSafety(p: Pools, calls: seq<Call>)
    requires PoolsInv(p)
    ensures PoolsInv(ServeAll(p, calls))
    decreases |calls|
  {
    if calls != [] {
      PoolSized(p, calls[0].channel);
      ServeInv(p, calls[0]);
      PoolSafety(Serve(p, calls[0]), calls[1..]);
    }
  }

  /* ----- what callers hold ----- */

  /** A run of units that kocl_malloc gave to a caller. */
  datatype Grant = Grant(device: Device, head: nat, units: nat)

  function Result(p: Pools, call: Call): Option<nat>
    requires |PoolOf(p, call.channel).sz| == |PoolOf(p, call.channel).bits|
  {
    if call.MallocCall? then Malloc(PoolOf(p, call.channel), call.nunits).1 else None
  }

  /** The grants after a call, from the calls and their results alone: what is given is held until it is
      freed through its first unit. A call for no units gets an address and holds nothing. */
  function HeldAfter(held: set<Grant>, call: Call, result: Option<nat>): set<Grant> {
    match call
    case MallocCall(n, channel) =>
      if result.Some? && n > 0 then held + {Grant(DeviceOf(channel), result.value, n)} else held
    case FreeCall(unit, channel) =>
      set x | x in held && (x.device != DeviceOf(channel) || x.head != unit)
  }

  ghost function HeldAfterAll(p: Pools, held: set<Grant>, calls: seq<Call>): set<Grant>
    requires PoolsInv(p)
    decreases |calls|
  {
    if calls == [] then held
    else
      PoolSized(p, calls[0].channel);
      ServeInv(p, calls[0]);
      HeldAfterAll(Serve(p, calls[0]), HeldAfter(held, calls[0], Result(p, calls[0])), calls[1..])
  }

  /** The pool's sizes describe the grant. */
  predicate Recorded(p: Pools, x: Grant) {
    x.units > 0 && x.head < |UnitsOf(p, x.device).sz| && UnitsOf(p, x.device).sz[x.head] == x.units
  }

  ghost predicate Agree(p: Pools, held: set<Grant>) {
    forall x :: x in held <==> Recorded(p, x)
  }

  lemma MallocSizes(u: Units, n: nat)
    requires Inv(u)
    ensures
      var (u', r) := Malloc(u, n);
      && (r == None ==> u' == u)
      && (r.Some? ==> r.value < |u.sz| && u.sz[r.value] == 0 && u'.sz == u.sz[r.value := n])
  {
    FirstFitIsLowest(u.bits, n, 0);
    var r := Malloc(u, n).1;
    if r.Some? { FreeUnitHeadsNothing(u, r.value); }
  }

  lemma OtherPools(p: Pools, channel: int, u: Units, device: Device)
    ensures UnitsOf(WithPool(p, channel, u), device) == if device == DeviceOf(channel) then u else UnitsOf(p, device)
  {
  }

  lemma MallocRecords(p: Pools, call: Call, x: Grant)
    requires PoolsInv(p) && call.MallocCall?
    requires |PoolOf(p, call.channel).sz| == |PoolOf(p, call.channel).bits|
    ensures
      var i := Result(p, call);
      Recorded(Serve(p, call), x) <==>
      Recorded(p, x) || (i.Some? && call.nunits > 0 && x == Grant(DeviceOf(call.channel), i.value, call.nunits))
  {
    MallocSizes(PoolOf(p, call.channel), call.nunits);
    OtherPools(p, call.channel, Malloc(PoolOf(p, call.channel), call.nunits).0, x.device);
    hide Inv, Malloc, UnitsOf, WithPool, PoolsInv;
  }

  lemma MallocAgrees(p: Pools, held: set<Grant>, call: Call)
    requires PoolsInv(p) && Agree(p, held) && call.MallocCall?
    requires |PoolOf(p, call.channel).sz| == |PoolOf(p, call.channel).bits|
    ensures Agree(Serve(p, call), HeldAfter(held, call, Result(p, call)))
  {
    hide PoolsInv, Recorded, Serve, Result, PoolOf;
    var p', held' := Serve(p, call), HeldAfter(held, call, Result(p, call));
    forall x ensures x in held' <==> Recorded(p', x) {
      MallocRecords(p, call, x);
    }
  }

  lemma FreeRecords(p: Pools, call: Call, x: Grant)
    requires PoolsInv(p) && call.FreeCall?
    requires |PoolOf(p, call.channel).sz| == |PoolOf(p, call.channel).bits|
    ensures Recorded(Serve(p, call), x) <==>
            Recorded(p, x) && (x.device != DeviceOf(call.channel) || x.head != call.unit)
  {
    FreeReleasesBlock(PoolOf(p, call.channel), call.unit);
    OtherPools(p, call.channel, Free(PoolOf(p, call.channel), call.unit), x.device);
    hide Inv, Free, UnitsOf, WithPool, PoolsInv;
  }

  lemma FreeAgrees(p: Pools, held: set<Grant>, call: Call)
    requires PoolsInv(p) && Agree(p, held) && call.FreeCall?
    requires |PoolOf(p, call.channel).sz| == |PoolOf(p, call.channel).bits|
    ensures Agree(Serve(p, call), HeldAfter(held, call, Result(p, call)))
  {
    hide PoolsInv, Recorded, Serve, Result, PoolOf;
    var p', held' := Serve(p, call), HeldAfter(held, call, Result(p, call));
    forall x ensures x in held' <==> Recorded(p', x) {
      FreeRecords(p, call, x);
    }
  }

  lemma {:induction false} HeldAgrees(p: Pools, held: set<Grant>, calls: seq<Call>)
    requires PoolsInv(p) && Agree(p, held)
    ensures Agree(ServeAll(p, calls), HeldAfterAll(p, held, calls))
    decreases |calls|
  {
    if calls != [] {
      PoolSized(p, calls[0].channel);
      ServeInv(p, calls[0]);
      if calls[0].MallocCall? {
        MallocAgrees(p, held, calls[0]);
      } else {
        FreeAgrees(p, held, calls[0]);
      }
      hide PoolsInv, Agree, Serve, HeldAfter;
      HeldAgrees(Serve(p, calls[0]), HeldAfter(held, calls[0], Result(p, calls[0])), calls[1..]);
    }
  }

  predicate Covers(x: Grant, device: Device, j: nat) {
    x.device == device && x.head <= j < x.head + x.units
  }

  ghost predicate NoOverlap(held: set<Grant>) {
    forall x, y :: x in held && y in held && x != y && x.device == y.device ==>
                     x.head + x.units <= y.head || y.head + y.units <= x.head
  }

  /** Held grants are disjoint, and the units in use are exactly theirs. */
  lemma AgreeIsSafe(p: Pools, held: set<Grant>)
    requires PoolsInv(p) && Agree(p, held)
    ensures NoOverlap(held)
    ensures forall device, j :: 0 <= j < |UnitsOf(p, device).bits| ==>
              (UnitsOf(p, device).bits[j] <==> exists x :: x in held && Covers(x, device, j))
  {
    forall x, y | x in held && y in held && x != y && x.device == y.device
      ensures x.head + x.units <= y.head || y.head + y.units <= x.head
    {
      assert Recorded(p, x) && Recorded(p, y);
    }
    forall device, j | 0 <= j < |UnitsOf(p, device).bits|
      ensures UnitsOf(p, device).bits[j] <==> exists x :: x in held && Covers(x, device, j)
    {
      var u := UnitsOf(p, device);
      if u.bits[j] {
        var i: nat :| InBlock(u, i, j);
        assert Recorded(p, Grant(device, i, u.sz[i]));
        assert Covers(Grant(device, i, u.sz[i]), device, j);
      }
      forall x | x in held && Covers(x, device, j) ensures u.bits[j] {
        assert Recorded(p, x);
        assert InBlock(u, x.head, j);
      }
    }
  }

  /** After any calls no two callers hold a common unit; a unit is in use exactly when some caller holds it. */
  lemma HoldersDisjoint(n: nat, n2: nat, n3: nat, calls: seq<Call>)
    ensures
      var p := Pools(Fresh(n), Fresh(n2), Fresh(n3));
      && PoolsInv(p)
      && NoOverlap(HeldAfterAll(p, {}, calls))
      && forall device, j :: 0 <= j < |UnitsOf(ServeAll(p, calls), device).bits| ==>
           (UnitsOf(ServeAll(p, calls), device).bits[j] <==>
            exists x :: x in HeldAfterAll(p, {}, calls) && Covers(x, device, j))
  {
    var p := Pools(Fresh(n), Fresh(n2), Fresh(n3));
    FreshInv(n);
    FreshInv(n2);
    FreshInv(n3);
    assert Agree(p, {});
    HeldAgrees(p, {}, calls);
    PoolSafety(p, calls);
    hide PoolsInv, Agree, ServeAll, HeldAfterAll;
    AgreeIsSafe(ServeAll(p, calls), HeldAfterAll(p, {}, calls));
  }

  /* ----- sizes and addresses ----- */

  /** DIV_ROUND_UP in unsigned long, then cut to unsigned int. */
  function ReqUnits(nbytes: nat): nat {
    ((nbytes + UNIT - 1) % U64) / UNIT % U32
  }

  /** The reserved units hold the request exactly up to 2^32 - 1 units; beyond that the cast
      to unsigned int makes them too few. */
  lemma ReqUnitsCover(nbytes: nat)
    requires nbytes < U64
    ensures ReqUnits(nbytes) * UNIT >= nbytes <==> nbytes <= (U32 - 1) * UNIT
    ensures nbytes <= (U32 - 1) * UNIT ==> ReqUnits(nbytes) == (nbytes + UNIT - 1) / UNIT
  {
  }

  /** A size for which kocl_malloc reserves nothing although it was asked for 2^52 bytes. */
  lemma ReqUnitsTooFew()
    ensures ReqUnits(U32 * UNIT) == 0
  {
  }

  /** The unit an address of any unsigned long value falls into, as kocl_free computes it. */
  function UnitIndex(kva: nat, p: nat): nat {
    (p as int - kva) % U64 / UNIT
  }

  /** ADDR_WITHIN and ADDR_REBASE; npages << PAGE_SHIFT is a 32-bit shift. */
  predicate Within(kva: nat, npages: nat, p: nat) {
    kva <= p < kva + npages * PAGE_SIZE % U32
  }

  function Translate(kva: nat, uva: nat, npages: nat, p: nat): nat {
    if Within(kva, npages, p) then uva + (p - kva) else p
  }

  /** The bound covers the whole pool exactly when the pool is smaller than 4 GiB. */
  lemma WithinCoversPool(kva: nat, npages: nat)
    ensures (forall p: nat :: kva <= p < kva + npages * PAGE_SIZE ==> Within(kva, npages, p)) <==>
            npages * PAGE_SIZE < U32
  {
    if npages * PAGE_SIZE >= U32 {
      var p := kva + npages * PAGE_SIZE % U32;
      assert !Within(kva, npages, p);
    }
  }

  /** Live blocks reach the helper at the same offsets, in ranges as disjoint as the blocks. */
  lemma TranslateBlocks(u: Units, kva: nat, uva: nat, npages: nat, i: nat, p: nat)
    requires Inv(u) && |u.bits| <= npages / 256 && npages * PAGE_SIZE < U32
    requires i < |u.sz| && kva + i * UNIT <= p < kva + (i + u.sz[i]) * UNIT
    ensures Translate(kva, uva, npages, p) == uva + (p - kva)
    ensures uva + i * UNIT <= Translate(kva, uva, npages, p) < uva + (i + u.sz[i]) * UNIT
    ensures forall k :: 0 <= k < |u.sz| && k != i && u.sz[k] > 0 ==>
      !(uva + k * UNIT <= Translate(kva, uva, npages, p) < uva + (k + u.sz[k]) * UNIT)
  {
    assert (i + u.sz[i]) * UNIT <= |u.bits| * UNIT <= npages * PAGE_SIZE;
  }

  /** An address in the head unit of a live block leads kocl_free to that block, and one
      outside the pool leads it nowhere. */
  lemma UnitIndexFinds(kva: nat, nunits: nat, p: nat)
    requires p < U64 && kva + nunits * UNIT <= U64
    ensures UnitIndex(kva, p) < nunits <==> kva <= p < kva + nunits * UNIT
    ensures kva <= p < kva + nunits * UNIT ==>
      kva + UnitIndex(kva, p) * UNIT <= p < kva + (UnitIndex(kva, p) + 1) * UNIT
  {
    if p < kva {
      assert (p as int - kva) % U64 == p as int - kva + U64;
    }
  }

  function Released(u: Units, i: nat): Units {
    if i < |u.sz| then Units(Fill(u.bits, i, u.sz[i], false), u.sz[i := 0]) else u
  }

  /** The address lies in the first unit of the live block at i. */
  predicate InHead(u: Units, kva: nat, p: nat, i: nat) {
    i < |u.sz| && u.sz[i] > 0 && kva + i * UNIT <= p < kva + (i + 1) * UNIT
  }

  /** kocl_free by address: an address in the first unit of a live block releases that block, and any
      other address, inside the pool or outside, changes nothing. */
  lemma FreeByAddress(u: Units, kva: nat, p: nat)
    requires Inv(u) && p < U64 && kva + |u.bits| * UNIT <= U64
    ensures forall i: nat :: InHead(u, kva, p, i) ==>
              Free(u, UnitIndex(kva, p)) == Released(u, i)
    ensures (forall i: nat :: !InHead(u, kva, p, i)) ==> Free(u, UnitIndex(kva, p)) == u
  {
    UnitIndexFinds(kva, |u.bits|, p);
    var k := UnitIndex(kva, p);
    forall i: nat | InHead(u, kva, p, i) ensures k == i {
      assert (i + 1) * UNIT <= |u.bits| * UNIT;
      assert k < |u.bits| && k * UNIT < (i + 1) * UNIT && i * UNIT < (k + 1) * UNIT;
    }
    if k < |u.sz| && u.sz[k] > 0 { assert InHead(u, kva, p, k); }
  }

  /** q is what the helper gets for p: the same offset in its own mapping of the pool, in the same live
      block and in no other; an address outside the pool is passed on as it is. */
  ghost predicate Reaches(u: Units, kva: nat, uva: nat, npages: nat, p: nat, q: nat) {
    && (kva <= p < kva + npages * PAGE_SIZE ==> q == uva + (p - kva))
    && (!(kva <= p < kva + npages * PAGE_SIZE) ==> q == p)
    && forall i: nat :: HoldsAddress(u, kva, i, p) ==>
         HoldsAddress(u, uva, i, q) && forall k: nat :: k != i ==> !HoldsAddress(u, uva, k, q)
  }

  /** The address is in the live block at i of a pool mapped at base. */
  predicate HoldsAddress(u: Units, base: nat, i: nat, p: nat) {
    i < |u.sz| && base + i * UNIT <= p < base + (i + u.sz[i]) * UNIT
  }

  lemma TranslateReaches(u: Units, kva: nat, uva: nat, npages: nat, p: nat)
    requires Inv(u) && |u.bits| <= npages / 256 && npages * PAGE_SIZE < U32
    ensures Reaches(u, kva, uva, npages, p, Translate(kva, uva, npages, p))
  {
    forall i: nat | HoldsAddress(u, kva, i, p)
      ensures HoldsAddress(u, uva, i, Translate(kva, uva, npages, p))
      ensures forall k: nat :: k != i ==> !HoldsAddress(u, uva, k, Translate(kva, uva, npages, p))
    {
      TranslateBlocks(u, kva, uva, npages, i, p);
    }
  }
}
