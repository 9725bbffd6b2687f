/**
 The kernel module (kocl/main.c) and the helper as one transition system. Every
 region that holds one of the module's locks is one step, so callers may offload
 between any two of them. The helper's lists are the state of module Pipeline.

 A request's `serial` is its place in the order of offloading; `user` is what the
 caller had put into its struct. Both are histories the code never reads.
 */
module OffloadSystem {
  import opened Wrappers
  import opened KoclTypes
  import opened Lists
  import opened Pipeline
  import opened PipelineSafety
  import opened PipelineLiveness

  datatype Callback = UserCallback(f: int) | SyncCallback
  datatype KData = UserData(p: int) | SyncData(call: nat)

  /** The fields of struct kocl_request that change while it is in flight. */
  datatype Struct = Struct(kdata: KData, callback: Callback, errcode: int)

  datatype Request = Request(serial: nat, id: int, channel: int, user: Struct, sync: bool)

  /** struct _kocl_sync_call_data */
  datatype SyncCall = SyncCall(oldkdata: KData, oldcallback: Callback, done: bool)

  datatype Completion = Completion(serial: nat, errcode: int)

  /** A caller's callback as it was invoked, with what it found in the struct. */
  datatype Fired = Fired(serial: nat, f: int, kdata: KData, errcode: int)

  /** Where the helper is in its calls to the module: between the two regions of
      kocl_read, back from it, or between find_request and the callback. */
  datatype Pc =
    | Idle
    | Taken(r: Request)
    | Delivered(r: Request)
    | Found(hit: Option<Request>, response: KuResponse)

  datatype Sys = Sys(
    offloaded: seq<Request>,
    reqs: seq<Request>, rtdreqs: seq<Request>, pc: Pc,
    structs: map<int, Struct>, calls: map<nat, SyncCall>,
    completed: seq<Completion>, fired: seq<Fired>,
    h: State)

  datatype Step =
    | OffloadAsync(id: int, channel: int, user: Struct)
    | OffloadSync(id: int, channel: int, user: Struct)
    | SyncReturn(call: nat)
    | ReadTake
    | ReadPark
    | Accept(found: bool)
    | Work(codes: Codes)
    | WriteFind
    | WriteComplete

  const BOOT := Sys([], [], [], Idle, map[], map[], [], [], START)

  /* ----- the steps ----- */

  /** find_request with offlist = 1: the first item of rtdreqs with that id. */
  function FindRequest(l: seq<Request>, id: int): Option<Request> {
    if l == [] then None else if l[0].id == id then Some(l[0]) else FindRequest(l[1..], id)
  }

  function Unlink(l: seq<Request>, id: int): seq<Request> {
    if l == [] then [] else if l[0].id == id then l[1..] else [l[0]] + Unlink(l[1..], id)
  }

  /** The k-th request is the first with the id, it is found, and it is the one that leaves the list. */
  predicate UnlinksAt(l: seq<Request>, id: int, k: nat) {
    && k < |l| && l[k].id == id && (forall i :: 0 <= i < k ==> l[i].id != id)
    && FindRequest(l, id) == Some(l[k]) && Unlink(l, id) == RemoveAt(l, k)
  }

  lemma UnlinksLater(l: seq<Request>, id: int, k: nat)
    requires l != [] && l[0].id != id && UnlinksAt(l[1..], id, k)
    ensures UnlinksAt(l, id, k + 1)
  {
    assert forall i :: 0 < i < k + 1 ==> l[i] == l[1..][i - 1];
    assert RemoveAt(l, k + 1) == [l[0]] + RemoveAt(l[1..], k);
  }

  /** The first request with the id is found, and it is the one that leaves the list. */
  lemma {:induction false} FindUnlinksFirst(l: seq<Request>, id: int)
    ensures FindRequest(l, id).None? <==> forall i :: 0 <= i < |l| ==> l[i].id != id
    ensures FindRequest(l, id).None? ==> Unlink(l, id) == l
    ensures FindRequest(l, id).Some? ==> exists k: nat :: UnlinksAt(l, id, k)
  {
    if l != [] {
      if l[0].id == id {
        assert UnlinksAt(l, id, 0);
      } else {
        FindUnlinksFirst(l[1..], id);
        if FindRequest(l[1..], id).Some? {
          var k: nat :| UnlinksAt(l[1..], id, k);
          hide Unlink;
          UnlinksLater(l, id, k);
        }
      }
    }
  }

  /** The lists between kh_service_done and kh_get_next_service_request in one pass. */
  function WorkOn(h: State, codes: Codes): State {
    var h1 := LaunchSome(PostSome(FinishAll(h), codes), codes);
    AllocAll(PrepareSome(h1, 0, codes))
  }

  function OffloadWith(s: Sys, r: Request, fields: Struct): Sys {
    s.(offloaded := s.offloaded + [r], reqs := s.reqs + [r], structs := s.structs[r.id := fields])
  }

  /** A struct may be handed in when no offload of it is under way. */
  ghost predicate Unused(s: Sys, id: int) {
    && (forall r :: r in Flight(s) ==> r.id != id)
    && (forall c :: c in s.calls && c < |s.offloaded| ==> s.offloaded[c].id != id)
  }

  ghost predicate Enabled(s: Sys, step: Step) {
    match step
    case OffloadAsync(id, _, user) => Unused(s, id) && user.callback.UserCallback?
    case OffloadSync(id, _, user) => Unused(s, id)
    case SyncReturn(call) => call in s.calls && s.calls[call].done && call < |s.offloaded|
    case ReadTake => s.pc.Idle? && s.reqs != []
    case ReadPark => s.pc.Taken?
    case Accept(_) => s.pc.Delivered?
    case Work(_) => s.pc.Idle?
    case WriteFind => s.pc.Idle? && s.h.done != []
    case WriteComplete => s.pc.Found? && s.h.done != []
  }

  /** The write found its request: errcode is set and the callback runs. A sync caller's
      callback marks its call done, any other one is recorded. */
  function RunCallback(s: Sys, r: Request, errcode: int): Sys {
    var fields := if r.id in s.structs then s.structs[r.id] else r.user;
    var s := s.(structs := s.structs[r.id := fields.(errcode := errcode)],
                completed := s.completed + [Completion(r.serial, errcode)]);
    match fields.callback
    case UserCallback(f) => s.(fired := s.fired + [Fired(r.serial, f, fields.kdata, errcode)])
    case SyncCallback =>
      if fields.kdata.SyncData? && fields.kdata.call in s.calls then
        s.(calls := s.calls[fields.kdata.call := s.calls[fields.kdata.call].(done := true)])
      else s
  }

  ghost function Do(s: Sys, step: Step): Sys
    requires Enabled(s, step)
  {
    var n := |s.offloaded|;
    match step
    case OffloadAsync(id, channel, user) =>
      OffloadWith(s, Request(n, id, channel, user, false), user)
    case OffloadSync(id, channel, user) =>
      OffloadWith(s, Request(n, id, channel, user, true), user.(kdata := SyncData(n), callback := SyncCallback))
        .(calls := s.calls[n := SyncCall(user.kdata, user.callback, false)])
    case SyncReturn(call) =>
      var id := s.offloaded[call].id;
      var fields := if id in s.structs then s.structs[id] else s.offloaded[call].user;
      s.(structs := s.structs[id := fields.(kdata := s.calls[call].oldkdata, callback := s.calls[call].oldcallback)],
         calls := s.calls - {call})
    case ReadTake => s.(pc := Taken(s.reqs[0]), reqs := s.reqs[1..])
    case ReadPark => s.(pc := Delivered(s.pc.r), rtdreqs := s.rtdreqs + [s.pc.r])
    case Accept(found) =>
      s.(pc := Idle, h := InitServiceRequest(s.h, Arrival(KuRequest(s.pc.r.id, s.pc.r.channel), found)))
    case Work(codes) => s.(h := WorkOn(s.h, codes))
    case WriteFind =>
      var resp := KuResponse(s.h.done[0].id, s.h.done[0].errcode);
      s.(pc := Found(FindRequest(s.rtdreqs, resp.id), resp), rtdreqs := Unlink(s.rtdreqs, resp.id))
    case WriteComplete =>
      var s' := match s.pc.hit
        case None => s
        case Some(r) => RunCallback(s, r, s.pc.response.errcode);
      s'.(pc := Idle, h := ServiceDone(s.h))
  }

  /* ----- the invariant ----- */

  function ReqsOf(all: seq<Ticket>, o: seq<Request>): seq<Request>
    requires forall t :: t in all ==> t.stamp < |o|
  {
    seq(|all|, i requires 0 <= i < |all| => assert all[i] in all; o[all[i].stamp])
  }

  function InHand(pc: Pc): seq<Request> {
    match pc
    case Taken(r) => [r]
    case Delivered(r) => [r]
    case _ => []
  }

  ghost predicate Numbered(s: Sys) {
    && (forall i :: 0 <= i < |s.offloaded| ==> s.offloaded[i].serial == i)
    && |s.h.arrived| <= |s.offloaded|
    && s.offloaded[|s.h.arrived|..] == InHand(s.pc) + s.reqs
    && (forall i :: 0 <= i < |s.h.arrived| ==>
          s.h.arrived[i] == KuRequest(s.offloaded[i].id, s.offloaded[i].channel))
    && (forall t :: t in s.h.all ==> t.stamp < |s.h.arrived|)
  }

  /** Everything offloaded and not answered. */
  ghost function Flight(s: Sys): set<Request> {
    set r | r in s.offloaded && (r.serial >= |s.h.arrived| || Ticket(r.serial, r.id) in s.h.all)
  }

  ghost predicate DistinctIds(s: Sys) {
    forall r, q :: r in Flight(s) && q in Flight(s) && r.id == q.id ==> r == q
  }

  /** The tickets whose requests are still on rtdreqs. */
  function Parked(s: Sys): seq<Ticket> {
    if s.pc.Found? && s.h.done != [] then Without(s.h.all, TicketOf(s.h.done[0])) else s.h.all
  }

  function CompletedOf(log: seq<Item>): seq<Completion> {
    seq(|log|, i requires 0 <= i < |log| => Completion(log[i].stamp, log[i].errcode))
  }

  /** What the caller's callbacks must have seen, completion by completion. */
  function FiredOf(completed: seq<Completion>, o: seq<Request>): seq<Fired> {
    if completed == [] then []
    else
      var c := completed[|completed| - 1];
      FiredOf(completed[..|completed| - 1], o) +
      if c.serial < |o| && !o[c.serial].sync && o[c.serial].user.callback.UserCallback? then
        [Fired(c.serial, o[c.serial].user.callback.f, o[c.serial].user.kdata, c.errcode)]
      else []
  }

  /** The struct of a request in flight is as kocl_offload_async or kocl_offload_sync left it. */
  ghost predicate StructsInv(s: Sys) {
    forall r :: r in Flight(s) ==>
      && r.id in s.structs
      && (if r.sync then
            && s.structs[r.id].kdata == SyncData(r.serial) && s.structs[r.id].callback == SyncCallback
            && r.serial in s.calls
          else
            s.structs[r.id].kdata == r.user.kdata && s.structs[r.id].callback == r.user.callback
            && r.user.callback.UserCallback?)
  }

  /** A pending or answered call of kocl_offload_sync and the struct it was given. */
  ghost predicate CallInv(s: Sys, c: nat)
    requires c in s.calls
  {
    && c < |s.offloaded| && s.offloaded[c].sync
    && s.calls[c].oldkdata == s.offloaded[c].user.kdata && s.calls[c].oldcallback == s.offloaded[c].user.callback
    && (s.calls[c].done <==> s.offloaded[c] !in Flight(s))
    && s.offloaded[c].id in s.structs
    && (s.calls[c].done ==> Completion(c, s.structs[s.offloaded[c].id].errcode) in s.completed)
    && (forall r :: r in Flight(s) && r.id == s.offloaded[c].id ==> r.serial == c)
  }

  ghost predicate CallsInv(s: Sys) {
    && (forall c :: c in s.calls ==> CallInv(s, c))
    && (forall c, d :: c in s.calls && d in s.calls && s.offloaded[c].id == s.offloaded[d].id ==> c == d)
  }

  ghost predicate KernelInv(s: Sys) {
    && (forall t :: t in Parked(s) ==> t.stamp < |s.offloaded|)
    && s.rtdreqs == ReqsOf(Parked(s), s.offloaded) + (if s.pc.Delivered? then [s.pc.r] else [])
    && (s.pc.Found? ==>
          && s.h.done != [] && s.h.done[0].stamp < |s.offloaded|
          && s.pc.hit == Some(s.offloaded[s.h.done[0].stamp])
          && s.pc.response == KuResponse(s.h.done[0].id, s.h.done[0].errcode))
    && s.completed == CompletedOf(s.h.log)
    && s.fired == FiredOf(s.completed, s.offloaded)
  }

  ghost predicate SysInv(s: Sys) {
    && Inv(s.h) && Numbered(s) && DistinctIds(s)
    && KernelInv(s) && StructsInv(s) && CallsInv(s)
  }

  /* ----- every step keeps it ----- */

  lemma BootInv()
    ensures SysInv(BOOT)
  {
    StartInv();
  }

  /** Steps that keep the requests in flight and the callers' records keep what is said about them. */
  lemma SameFlight(s: Sys, s': Sys)
    requires DistinctIds(s) && StructsInv(s) && CallsInv(s)
    requires s'.offloaded == s.offloaded && s'.structs == s.structs && s'.calls == s.calls
    requires s'.completed == s.completed && Flight(s') == Flight(s)
    ensures DistinctIds(s') && StructsInv(s') && CallsInv(s')
  {
    forall c | c in s'.calls ensures CallInv(s', c) { assert CallInv(s, c); }
  }

  lemma ReadTakeInv(s: Sys)
    requires SysInv(s) && Enabled(s, ReadTake)
    ensures SysInv(Do(s, ReadTake))
  {
    hide Inv, DistinctIds, StructsInv, CallsInv;
    var s' := Do(s, ReadTake);
    assert InHand(s.pc) + s.reqs == InHand(s'.pc) + s'.reqs by {
      assert s.reqs == [s.reqs[0]] + s.reqs[1..];
    }
    assert Flight(s') == Flight(s);
    SameFlight(s, s');
    hide Flight, ReqsOf, FiredOf, CompletedOf;
  }

  lemma ReadParkInv(s: Sys)
    requires SysInv(s) && Enabled(s, ReadPark)
    ensures SysInv(Do(s, ReadPark))
  {
    hide Inv, DistinctIds, StructsInv, CallsInv;
    var s' := Do(s, ReadPark);
    assert Flight(s') == Flight(s);
    SameFlight(s, s');
    assert s.rtdreqs + [] == s.rtdreqs;
  }

  lemma WorkKeeps(h: State, codes: Codes)
    requires Inv(h)
    ensures Inv(WorkOn(h, codes))
    ensures WorkOn(h, codes).all == h.all && WorkOn(h, codes).log == h.log && WorkOn(h, codes).arrived == h.arrived
  {
    var h1 := PostSome(FinishAll(h), codes);
    FinishAllInv(h);
    PostSomeInv(FinishAll(h), codes);
    LaunchSomeInv(h1, codes);
    PrepareSomeInv(LaunchSome(h1, codes), 0, codes);
    AllocAllInv(PrepareSome(LaunchSome(h1, codes), 0, codes));
    FinishAllEffect(h);
    PostSomeEffect(FinishAll(h), codes);
    PrepareSomeFrame(LaunchSome(h1, codes), 0, codes);
    AllocAllEffect(PrepareSome(LaunchSome(h1, codes), 0, codes));
  }

  lemma WorkInv(s: Sys, codes: Codes)
    requires SysInv(s) && Enabled(s, Work(codes))
    ensures SysInv(Do(s, Work(codes)))
  {
    WorkKeeps(s.h, codes);
    hide Inv, DistinctIds, StructsInv, CallsInv, WorkOn;
    var s' := Do(s, Work(codes));
    assert Flight(s') == Flight(s);
    SameFlight(s, s');
  }

  lemma FiredOfGrows(completed: seq<Completion>, o: seq<Request>, r: Request)
    requires forall c :: c in completed ==> c.serial < |o|
    ensures FiredOf(completed, o + [r]) == FiredOf(completed, o)
  {
    if completed != [] {
      assert completed[|completed| - 1] in completed;
      FiredOfGrows(completed[..|completed| - 1], o, r);
    }
  }

  lemma CompletedInRange(s: Sys)
    requires SysInv(s)
    ensures forall c :: c in s.completed ==> c.serial < |s.h.arrived|
  {
    forall c | c in s.completed ensures c.serial < |s.h.arrived| {
      var i :| 0 <= i < |s.completed| && s.completed[i] == c;
      assert s.h.log[i] in s.h.log;
    }
  }

  lemma OffloadLists(s: Sys, s': Sys, r: Request)
    requires SysInv(s) && r.serial == |s.offloaded|
    requires s' == s.(offloaded := s.offloaded + [r], reqs := s.reqs + [r], structs := s'.structs, calls := s'.calls)
    ensures Flight(s') == Flight(s) + {r}
    ensures Numbered(s') && KernelInv(s')
  {
    hide Inv, DistinctIds, StructsInv, CallsInv;
    assert s'.offloaded[|s.h.arrived|..] == s.offloaded[|s.h.arrived|..] + [r];
    assert InHand(s.pc) + s.reqs + [r] == InHand(s.pc) + (s.reqs + [r]);
    assert ReqsOf(Parked(s), s'.offloaded) == ReqsOf(Parked(s), s.offloaded);
    CompletedInRange(s);
    FiredOfGrows(s.completed, s.offloaded, r);
  }

  lemma OffloadCalls(s: Sys, step: Step)
    requires SysInv(s) && Enabled(s, step) && (step.OffloadAsync? || step.OffloadSync?)
    requires Flight(Do(s, step)) == Flight(s) + {Do(s, step).offloaded[|s.offloaded|]}
    ensures CallsInv(Do(s, step))
  {
    hide Inv, Numbered, KernelInv, Flight, StructsInv, DistinctIds;
    var s', n := Do(s, step), |s.offloaded|;
    forall c | c in s'.calls ensures CallInv(s', c) {
      if c != n { assert CallInv(s, c) && s'.offloaded[c] == s.offloaded[c]; }
    }
    forall c, d | c in s'.calls && d in s'.calls && s'.offloaded[c].id == s'.offloaded[d].id ensures c == d {
      if c != n && d != n { assert s.offloaded[c].id == s.offloaded[d].id; }
    }
  }

  lemma OffloadStructs(s: Sys, s': Sys, r: Request)
    requires DistinctIds(s) && StructsInv(s) && Unused(s, r.id)
    requires Flight(s') == Flight(s) + {r}
    requires r.id in s'.structs && s'.structs == s.structs[r.id := s'.structs[r.id]]
    requires forall c :: c in s.calls ==> c in s'.calls
    requires if r.sync then
        && s'.structs[r.id].kdata == SyncData(r.serial) && s'.structs[r.id].callback == SyncCallback
        && r.serial in s'.calls
      else
        s'.structs[r.id] == r.user && r.user.callback.UserCallback?
    ensures StructsInv(s') && DistinctIds(s')
  {
    hide Flight;
  }

  lemma OffloadInv(s: Sys, step: Step)
    requires SysInv(s) && Enabled(s, step) && (step.OffloadAsync? || step.OffloadSync?)
    ensures SysInv(Do(s, step))
  {
    var s' := Do(s, step);
    var r := s'.offloaded[|s.offloaded|];
    hide Inv, Numbered, KernelInv, CallsInv, DistinctIds, StructsInv, Flight;
    OffloadLists(s, s', r);
    OffloadCalls(s, step);
    OffloadStructs(s, s', r);
  }

  lemma SyncReturnShape(s: Sys, call: nat)
    requires Enabled(s, SyncReturn(call))
    ensures var s', id := Do(s, SyncReturn(call)), s.offloaded[call].id;
            && s'.offloaded == s.offloaded && s'.completed == s.completed && s'.calls == s.calls - {call}
            && s'.structs.Keys == s.structs.Keys + {id}
            && forall k :: k in s.structs && k != id ==> s'.structs[k] == s.structs[k]
  {
  }

  lemma SyncReturnCalls(s: Sys, call: nat)
    requires SysInv(s) && Enabled(s, SyncReturn(call))
    ensures Flight(Do(s, SyncReturn(call))) == Flight(s)
    ensures CallsInv(Do(s, SyncReturn(call)))
  {
    var s' := Do(s, SyncReturn(call));
    assert Flight(s') == Flight(s);
    assert CallInv(s, call);
    SyncReturnShape(s, call);
    hide Inv, Numbered, DistinctIds, KernelInv, StructsInv, Flight, Do, Enabled;
    forall c | c in s'.calls ensures CallInv(s', c) {
      assert CallInv(s, c) && s.offloaded[c].id != s.offloaded[call].id;
    }
  }

  lemma SyncReturnInv(s: Sys, call: nat)
    requires SysInv(s) && Enabled(s, SyncReturn(call))
    ensures SysInv(Do(s, SyncReturn(call)))
  {
    SyncReturnCalls(s, call);
    SyncReturnStructs(s, call);
    hide CallsInv, Inv, StructsInv, CallInv, FiredOf, CompletedOf, ReqsOf, Flight;
  }

  /** The struct that is given back is that of no request in flight. */
  lemma SyncReturnStructs(s: Sys, call: nat)
    requires SysInv(s) && Enabled(s, SyncReturn(call)) && Flight(Do(s, SyncReturn(call))) == Flight(s)
    ensures StructsInv(Do(s, SyncReturn(call)))
  {
    assert CallInv(s, call);
    hide Inv, Numbered, KernelInv, CallsInv, Flight;
    var s', id := Do(s, SyncReturn(call)), s.offloaded[call].id;
    assert forall r :: r in Flight(s) ==> r.serial != call ==> r.id != id;
    assert forall r :: r in Flight(s) ==> r.id != id;
  }

  lemma TicketIds(h: State)
    requires Inv(h)
    ensures forall t :: t in h.all ==> t.stamp < |h.arrived| && h.arrived[t.stamp].id == t.id
  {
    forall t | t in h.all ensures t.stamp < |h.arrived| && h.arrived[t.stamp].id == t.id {
      assert t in Tickets(Live(h)) by { assert t in Members(h.all); }
      var x :| x in Live(h) && TicketOf(x) == t;
      assert OriginOf(x) in Origins(h.log + Live(h));
      assert OriginOf(x) in Arrivals(h.arrived);
    }
  }

  lemma AcceptShape(s: Sys, found: bool)
    requires Enabled(s, Accept(found))
    ensures
      var h := Do(s, Accept(found)).h;
      && h.arrived == s.h.arrived + [KuRequest(s.pc.r.id, s.pc.r.channel)]
      && h.all == s.h.all + [Ticket(|s.h.arrived|, s.pc.r.id)]
      && h.log == s.h.log
  {
  }

  lemma AcceptNumbered(s: Sys, found: bool)
    requires Numbered(s) && Enabled(s, Accept(found))
    ensures s.pc.r == s.offloaded[|s.h.arrived|]
    ensures Numbered(Do(s, Accept(found)))
  {
    var n := |s.h.arrived|;
    AcceptShape(s, found);
    hide InitServiceRequest;
    assert s.offloaded[n] == s.offloaded[n..][0] == s.pc.r;
    assert s.offloaded[n + 1..] == s.offloaded[n..][1..] == [] + s.reqs;
  }

  lemma AcceptFlight(s: Sys, found: bool)
    requires Numbered(s) && Enabled(s, Accept(found)) && s.pc.r == s.offloaded[|s.h.arrived|]
    ensures Flight(Do(s, Accept(found))) == Flight(s)
  {
    AcceptShape(s, found);
    hide InitServiceRequest;
    var s', n := Do(s, Accept(found)), |s.h.arrived|;
    forall r | r in s.offloaded ensures r in Flight(s') <==> r in Flight(s) {
      assert r == s.offloaded[r.serial];
    }
  }

  lemma AcceptKernel(s: Sys, found: bool)
    requires Numbered(s) && KernelInv(s) && Enabled(s, Accept(found))
    requires s.pc.r == s.offloaded[|s.h.arrived|]
    ensures KernelInv(Do(s, Accept(found)))
  {
    AcceptShape(s, found);
    hide InitServiceRequest;
    var s' := Do(s, Accept(found));
    assert ReqsOf(s'.h.all, s.offloaded) == ReqsOf(s.h.all, s.offloaded) + [s.pc.r];
    assert s'.rtdreqs + [] == s'.rtdreqs;
  }

  lemma AcceptInv(s: Sys, found: bool)
    requires SysInv(s) && Enabled(s, Accept(found))
    ensures SysInv(Do(s, Accept(found)))
  {
    AcceptNumbered(s, found);
    AcceptFlight(s, found);
    AcceptKernel(s, found);
    InitServiceRequestInv(s.h, Arrival(KuRequest(s.pc.r.id, s.pc.r.channel), found));
    hide Inv, Numbered, KernelInv, DistinctIds, StructsInv, CallsInv, InitServiceRequest, Flight;
    SameFlight(s, Do(s, Accept(found)));
  }

  /** With distinct ids in flight, looking up a response's id finds exactly its own request. */
  lemma FindByTicket(all: seq<Ticket>, o: seq<Request>, t: Ticket)
    requires t in all
    requires forall u :: u in all ==> u.stamp < |o| && o[u.stamp].id == u.id
    requires forall u, v :: u in all && v in all && u.id == v.id ==> u == v
    ensures FindRequest(ReqsOf(all, o), t.id) == Some(o[t.stamp])
    ensures forall u :: u in Without(all, t) ==> u in all
    ensures Unlink(ReqsOf(all, o), t.id) == ReqsOf(Without(all, t), o)
  {
    WithoutSubset(all, t);
    var l := ReqsOf(all, o);
    assert all[0] in all && l[1..] == ReqsOf(all[1..], o);
    if all[0] == t {
      assert l[0].id == t.id;
    } else {
      assert l[0].id != t.id;
      FindByTicket(all[1..], o, t);
      assert ReqsOf(Without(all, t), o) == [l[0]] + ReqsOf(Without(all[1..], t), o);
    }
  }

  lemma FoundIt(s: Sys)
    requires SysInv(s) && s.pc.Idle? && s.h.done != []
    ensures
      var t := TicketOf(s.h.done[0]);
      && t in s.h.all && t.stamp < |s.offloaded|
      && FindRequest(s.rtdreqs, t.id) == Some(s.offloaded[t.stamp])
      && (forall u :: u in Without(s.h.all, t) ==> u in s.h.all)
      && Unlink(s.rtdreqs, t.id) == ReqsOf(Without(s.h.all, t), s.offloaded)
  {
    var t := TicketOf(s.h.done[0]);
    TicketIds(s.h);
    assert s.h.done[0] in Live(s.h);
    assert t in Members(s.h.all);
    forall u, v | u in s.h.all && v in s.h.all && u.id == v.id ensures u == v {
      assert s.offloaded[u.stamp] in Flight(s) && s.offloaded[v.stamp] in Flight(s);
    }
    FindByTicket(s.h.all, s.offloaded, t);
    assert s.rtdreqs == ReqsOf(s.h.all, s.offloaded);
  }

  lemma FindFlight(s: Sys)
    requires Enabled(s, WriteFind)
    ensures Flight(Do(s, WriteFind)) == Flight(s)
  {
  }

  lemma WriteFindInv(s: Sys)
    requires SysInv(s) && Enabled(s, WriteFind)
    ensures SysInv(Do(s, WriteFind)) && Do(s, WriteFind).pc.hit.Some?
  {
    hide Inv, DistinctIds, StructsInv, CallsInv, FiredOf, CompletedOf, FindRequest, Unlink, Without;
    FoundIt(s);
    var s' := Do(s, WriteFind);
    FindFlight(s);
    SameFlight(s, s');
    assert s'.rtdreqs + [] == s'.rtdreqs;
  }

  lemma CompleteLists(s: Sys)
    requires SysInv(s) && Enabled(s, WriteComplete)
    ensures s.pc.hit.Some? && s.pc.hit.value in Flight(s)
    ensures s.pc.hit.value.serial == s.h.done[0].stamp
    ensures ServiceDone(s.h).all == Parked(s)
    ensures forall t :: t in Parked(s) <==> t in s.h.all && t != TicketOf(s.h.done[0])
    ensures s.pc.hit.value.id == s.h.done[0].id
  {
    var t := TicketOf(s.h.done[0]);
    TicketIds(s.h);
    assert s.h.done[0] in Live(s.h);
    assert t in s.h.all by { assert t in Members(s.h.all); }
    forall u ensures u in Without(s.h.all, t) <==> u in s.h.all && u != t {
      WithoutIn(s.h.all, t, |s.h.arrived|, u);
    }
  }

  lemma CompleteFlight(s: Sys)
    requires SysInv(s) && Enabled(s, WriteComplete) && s.pc.hit.Some?
    ensures Flight(Do(s, WriteComplete)) == Flight(s) - {s.pc.hit.value}
  {
    var s', r := Do(s, WriteComplete), s.pc.hit.value;
    CompleteLists(s);
    TicketIds(s.h);
    assert s'.h.all == Parked(s) && s'.h.arrived == s.h.arrived && s'.offloaded == s.offloaded;
    assert r == s.offloaded[r.serial] && Ticket(r.serial, r.id) == TicketOf(s.h.done[0]);
    hide Inv, DistinctIds, StructsInv, CallsInv, KernelInv, Do, Parked;
    OneLeavesFlight(s, s', r);
  }

  /** One ticket fewer on all_reqs is one request fewer in flight. */
  lemma OneLeavesFlight(s: Sys, s': Sys, r: Request)
    requires forall i :: 0 <= i < |s.offloaded| ==> s.offloaded[i].serial == i
    requires r.serial < |s.h.arrived| && r.serial < |s.offloaded| && r == s.offloaded[r.serial]
    requires s'.offloaded == s.offloaded && s'.h.arrived == s.h.arrived
    requires forall t :: t in s'.h.all <==> t in s.h.all && t != Ticket(r.serial, r.id)
    ensures Flight(s') == Flight(s) - {r}
  {
    forall q ensures q in Flight(s') <==> q in Flight(s) && q != r {
      if q in s.offloaded && q != r {
        assert q == s.offloaded[q.serial];
      }
    }
  }

  lemma FiredOfLast(completed: seq<Completion>, o: seq<Request>, c: Completion)
    ensures FiredOf(completed + [c], o) == FiredOf(completed, o) + FiredOf([c], o)
  {
    assert (completed + [c])[..|completed|] == completed;
    assert [c][..0] == [];
  }

  lemma CompleteNumbered(s: Sys)
    requires SysInv(s) && Enabled(s, WriteComplete)
    ensures Numbered(Do(s, WriteComplete))
  {
    CompleteLists(s);
    CompleteShape(s);
    hide Inv, DistinctIds, StructsInv, CallsInv, KernelInv, Do, Enabled, Parked, ServiceDone;
  }

  lemma CompleteShape(s: Sys)
    requires Enabled(s, WriteComplete)
    ensures var s' := Do(s, WriteComplete);
            && s'.offloaded == s.offloaded && s'.reqs == s.reqs
            && s'.h == ServiceDone(s.h) && s'.h.arrived == s.h.arrived
            && InHand(s'.pc) == [] == InHand(s.pc)
  {
  }

  lemma CompleteLogs(s: Sys)
    requires SysInv(s) && Enabled(s, WriteComplete) && s.pc.hit.Some?
    ensures
      var s', c := Do(s, WriteComplete), Completion(s.pc.hit.value.serial, s.pc.response.errcode);
      && s'.completed == s.completed + [c] && CompletedOf(s'.h.log) == CompletedOf(s.h.log) + [c]
      && s'.fired == s.fired + FiredOf([c], s.offloaded)
  {
    var s' := Do(s, WriteComplete);
    CompleteLists(s);
    var r, e := s.pc.hit.value, s.pc.response.errcode;
    assert s'.completed == s.completed + [Completion(r.serial, e)];
    assert CompletedOf(s'.h.log) == CompletedOf(s.h.log) + [Completion(r.serial, e)];
    assert [Completion(r.serial, e)][..0] == [];
  }

  lemma CompleteKernel(s: Sys)
    requires SysInv(s) && Enabled(s, WriteComplete)
    ensures KernelInv(Do(s, WriteComplete)) && Numbered(Do(s, WriteComplete))
  {
    CompleteLists(s);
    CompleteNumbered(s);
    CompleteLogs(s);
    CompleteParked(s);
    hide Inv, DistinctIds, StructsInv, CallsInv, Numbered, FiredOf, CompletedOf, Do, Enabled, Parked, ReqsOf;
    FiredOfLast(s.completed, s.offloaded, Completion(s.pc.hit.value.serial, s.pc.response.errcode));
  }

  lemma CompleteParked(s: Sys)
    requires Enabled(s, WriteComplete)
    ensures var s' := Do(s, WriteComplete);
            && Parked(s') == ServiceDone(s.h).all && s'.rtdreqs == s.rtdreqs && s'.offloaded == s.offloaded
            && s'.pc.Idle?
  {
  }

  lemma CompleteEffect(s: Sys)
    requires SysInv(s) && Enabled(s, WriteComplete)
    ensures
      var s', r, e := Do(s, WriteComplete), s.pc.hit.value, s.pc.response.errcode;
      && s.pc.hit.Some? && r.id in s.structs
      && s'.offloaded == s.offloaded && s'.completed == s.completed + [Completion(r.serial, e)]
      && s'.structs == s.structs[r.id := s.structs[r.id].(errcode := e)]
      && (r.sync ==> r.serial in s.calls && s'.calls == s.calls[r.serial := s.calls[r.serial].(done := true)])
      && (!r.sync ==> s'.calls == s.calls)
  {
    CompleteLists(s);
  }

  /** The same on the callers' records alone: r has left the requests in flight and e reached its struct. */
  lemma CompleteCalls(s: Sys, s': Sys, r: Request, e: int)
    requires DistinctIds(s) && StructsInv(s) && CallsInv(s)
    requires r in Flight(s) && Flight(s') == Flight(s) - {r} && r.id in s.structs
    requires r.serial < |s.offloaded| && r == s.offloaded[r.serial]
    requires s'.offloaded == s.offloaded && s'.completed == s.completed + [Completion(r.serial, e)]
    requires s'.structs == s.structs[r.id := s.structs[r.id].(errcode := e)]
    requires r.sync ==> r.serial in s.calls && s'.calls == s.calls[r.serial := s.calls[r.serial].(done := true)]
    requires !r.sync ==> s'.calls == s.calls
    ensures StructsInv(s') && CallsInv(s') && DistinctIds(s')
  {
    hide Flight;
    assert Completion(r.serial, e) in s'.completed;
    forall c | c in s'.calls ensures CallInv(s', c) {
      assert CallInv(s, c);
      if c != r.serial {
        assert s.offloaded[c].id != r.id;
      }
    }
  }

  lemma WriteCompleteInv(s: Sys)
    requires SysInv(s) && Enabled(s, WriteComplete)
    ensures SysInv(Do(s, WriteComplete))
  {
    ServiceDoneInv(s.h);
    CompleteKernel(s);
    CompleteLists(s);
    CompleteFlight(s);
    CompleteEffect(s);
    var s', r := Do(s, WriteComplete), s.pc.hit.value;
    assert r == s.offloaded[r.serial];
    hide Inv, Numbered, KernelInv, DistinctIds, StructsInv, CallsInv, Flight;
    CompleteCalls(s, s', r, s.pc.response.errcode);
  }

  /* ----- over whole runs ----- */

  lemma StepInv(s: Sys, step: Step)
    requires SysInv(s) && Enabled(s, step)
    ensures SysInv(Do(s, step))
  {
    match step
    case OffloadAsync(_, _, _) => OffloadInv(s, step);
    case OffloadSync(_, _, _) => OffloadInv(s, step);
    case SyncReturn(call) => SyncReturnInv(s, call);
    case ReadTake => ReadTakeInv(s);
    case ReadPark => ReadParkInv(s);
    case Accept(found) => AcceptInv(s, found);
    case Work(codes) => WorkInv(s, codes);
    case WriteFind => WriteFindInv(s);
    case WriteComplete => WriteCompleteInv(s);
  }

  /** Every step of the run can be taken where it is taken. */
  ghost predicate Runs(s: Sys, steps: seq<Step>)
    decreases |steps|
  {
    steps == [] || (Enabled(s, steps[0]) && Runs(Do(s, steps[0]), steps[1..]))
  }

  ghost function Exec(s: Sys, steps: seq<Step>): Sys
    requires Runs(s, steps)
    decreases |steps|
  {
    if steps == [] then s else Exec(Do(s, steps[0]), steps[1..])
  }

  /** What a caller handed in. */
  datatype Offer = Offer(id: int, channel: int, user: Struct, sync: bool)

  function Offers(o: seq<Request>): seq<Offer> {
    seq(|o|, i requires 0 <= i < |o| => Offer(o[i].id, o[i].channel, o[i].user, o[i].sync))
  }

  function OffersOf(steps: seq<Step>): seq<Offer> {
    if steps == [] then []
    else
      (match steps[0]
       case OffloadAsync(id, channel, user) => [Offer(id, channel, user, false)]
       case OffloadSync(id, channel, user) => [Offer(id, channel, user, true)]
       case _ => []) + OffersOf(steps[1..])
  }

  lemma StepRecords(s: Sys, step: Step)
    requires Enabled(s, step)
    ensures Offers(Do(s, step).offloaded) == Offers(s.offloaded) + OffersOf([step])
  {
    assert OffersOf([step][1..]) == [];
  }

  lemma OffersSplit(steps: seq<Step>)
    requires steps != []
    ensures OffersOf(steps) == OffersOf([steps[0]]) + OffersOf(steps[1..])
  {
    assert OffersOf([steps[0]][1..]) == [];
  }

  /** No offload is forgotten: the requests of the system are, in order, those that its callers handed in. */
  lemma {:induction false} OffloadsRecorded(s: Sys, steps: seq<Step>)
    requires Runs(s, steps)
    ensures Offers(Exec(s, steps).offloaded) == Offers(s.offloaded) + OffersOf(steps)
    decreases |steps|
  {
    if steps == [] {
      assert Offers(s.offloaded) + [] == Offers(s.offloaded);
    } else {
      StepRecords(s, steps[0]);
      OffersSplit(steps);
      hide Do, Enabled, Offers, OffersOf;
      OffloadsRecorded(Do(s, steps[0]), steps[1..]);
    }
  }

  /** The places a request can be in: waiting, being read, parked, being answered, answered. */
  ghost function Places(s: Sys): multiset<Request>
    requires forall c :: c in s.completed ==> c.serial < |s.offloaded|
  {
    multiset(s.reqs) + (if s.pc.Taken? then multiset{s.pc.r} else multiset{})
    + multiset(s.rtdreqs) + (if s.pc.Found? && s.pc.hit.Some? then multiset{s.pc.hit.value} else multiset{})
    + multiset(Answers(s.completed, s.offloaded))
  }

  function Answers(completed: seq<Completion>, o: seq<Request>): seq<Request>
    requires forall c :: c in completed ==> c.serial < |o|
  {
    seq(|completed|, i requires 0 <= i < |completed| => assert completed[i] in completed; o[completed[i].serial])
  }

  ghost predicate Conserved(s: Sys) {
    && (forall c :: c in s.completed ==> c.serial < |s.offloaded|)
    && Places(s) == multiset(s.offloaded)
  }

  lemma UnlinkOne(l: seq<Request>, id: int)
    ensures match FindRequest(l, id)
            case None => Unlink(l, id) == l
            case Some(r) => multiset(l) == multiset(Unlink(l, id)) + multiset{r}
  {
    if l != [] {
      assert l == [l[0]] + l[1..];
    }
  }

  lemma OffloadConserves(s: Sys, step: Step)
    requires Conserved(s) && Enabled(s, step) && (step.OffloadAsync? || step.OffloadSync?)
    ensures Conserved(Do(s, step))
  {
    var s' := Do(s, step);
    var r := s'.offloaded[|s.offloaded|];
    assert s'.offloaded == s.offloaded + [r] && s'.reqs == s.reqs + [r];
    hide Do, Enabled, Unused, Flight;
    OneMorePlace(s, s', r);
  }

  lemma OneMorePlace(s: Sys, s': Sys, r: Request)
    requires Conserved(s) && s'.offloaded == s.offloaded + [r] && s'.reqs == s.reqs + [r]
    requires s'.rtdreqs == s.rtdreqs && s'.pc == s.pc && s'.completed == s.completed
    ensures Conserved(s')
  {
    assert Answers(s'.completed, s'.offloaded) == Answers(s.completed, s.offloaded);
    hide Answers;
  }

  lemma ReadConserves(s: Sys)
    requires Conserved(s)
    ensures Enabled(s, ReadTake) ==> Conserved(Do(s, ReadTake))
  {
    if Enabled(s, ReadTake) {
      assert s.reqs == [s.reqs[0]] + s.reqs[1..];
      assert multiset(s.reqs) == multiset{s.reqs[0]} + multiset(s.reqs[1..]);
    }
    hide Flight;
  }

  lemma FindConserves(s: Sys)
    requires SysInv(s) && Conserved(s) && Enabled(s, WriteFind)
    ensures Conserved(Do(s, WriteFind))
  {
    hide Inv, DistinctIds, StructsInv, CallsInv, KernelInv, Numbered, FindRequest, Unlink, Without, Answers;
    FoundIt(s);
    UnlinkOne(s.rtdreqs, s.h.done[0].id);
    var s' := Do(s, WriteFind);
    assert s'.completed == s.completed && s'.offloaded == s.offloaded && s'.reqs == s.reqs;
  }

  lemma AnsweredPlaces(s: Sys, s': Sys, r: Request, e: int)
    requires Conserved(s) && s.pc.Found? && s.pc.hit == Some(r)
    requires r.serial < |s.offloaded| && s.offloaded[r.serial] == r
    requires s'.offloaded == s.offloaded && s'.reqs == s.reqs && s'.rtdreqs == s.rtdreqs && s'.pc.Idle?
    requires s'.completed == s.completed + [Completion(r.serial, e)]
    ensures Conserved(s')
  {
    assert forall d :: d in s'.completed ==> d in s.completed || d == Completion(r.serial, e);
    assert Answers(s'.completed, s.offloaded) == Answers(s.completed, s.offloaded) + [r];
  }

  lemma CompleteConserves(s: Sys)
    requires SysInv(s) && Conserved(s) && Enabled(s, WriteComplete)
    ensures Conserved(Do(s, WriteComplete))
  {
    CompleteEffect(s);
    CompleteLists(s);
    CompleteFrame(s);
    assert s.offloaded[s.pc.hit.value.serial] == s.pc.hit.value;
    hide Inv, DistinctIds, StructsInv, CallsInv, KernelInv, Numbered, Do, Enabled, Conserved;
    AnsweredPlaces(s, Do(s, WriteComplete), s.pc.hit.value, s.pc.response.errcode);
  }

  lemma CompleteFrame(s: Sys)
    requires Enabled(s, WriteComplete)
    ensures var s' := Do(s, WriteComplete); s'.reqs == s.reqs && s'.rtdreqs == s.rtdreqs && s'.pc.Idle?
  {
  }

  lemma OtherConserves(s: Sys, step: Step)
    requires Conserved(s) && Enabled(s, step)
    requires step.SyncReturn? || step.ReadPark? || step.Accept? || step.Work?
    ensures Conserved(Do(s, step))
  {
    OtherPlaces(s, step);
    hide Do, Enabled;
    SamePlaces(s, Do(s, step));
  }

  /** A request may be parked, or leave the helper's hand, where it already is on rtdreqs. */
  predicate PlacesKept(s: Sys, s': Sys) {
    && s'.offloaded == s.offloaded && s'.completed == s.completed && s'.reqs == s.reqs
    && !s'.pc.Taken? && (s'.pc == s.pc || !s'.pc.Found?)
    && s'.rtdreqs == s.rtdreqs + (if s.pc.Taken? then [s.pc.r] else [])
    && (s'.pc == s.pc || !s.pc.Found?)
  }

  lemma OtherPlaces(s: Sys, step: Step)
    requires Enabled(s, step) && (step.SyncReturn? || step.ReadPark? || step.Accept? || step.Work?)
    ensures PlacesKept(s, Do(s, step)) || (Do(s, step).pc == s.pc && PlacesSame(s, Do(s, step)))
  {
    hide Flight, Unused, WorkOn, InitServiceRequest;
    assert s.rtdreqs + [] == s.rtdreqs;
  }

  predicate PlacesSame(s: Sys, s': Sys) {
    && s'.offloaded == s.offloaded && s'.completed == s.completed && s'.reqs == s.reqs && s'.rtdreqs == s.rtdreqs
  }

  lemma SamePlaces(s: Sys, s': Sys)
    requires Conserved(s) && (PlacesKept(s, s') || (s'.pc == s.pc && PlacesSame(s, s')))
    ensures Conserved(s')
  {
    hide Answers;
  }

  lemma StepConserves(s: Sys, step: Step)
    requires SysInv(s) && Conserved(s) && Enabled(s, step)
    ensures Conserved(Do(s, step))
  {
    hide *;
    match step
    case OffloadAsync(_, _, _) => OffloadConserves(s, step);
    case OffloadSync(_, _, _) => OffloadConserves(s, step);
    case ReadTake => ReadConserves(s);
    case WriteFind => FindConserves(s);
    case WriteComplete => CompleteConserves(s);
    case _ => OtherConserves(s, step);
  }

  lemma ExecInv(s: Sys, steps: seq<Step>)
    requires SysInv(s) && Conserved(s) && Runs(s, steps)
    ensures SysInv(Exec(s, steps)) && Conserved(Exec(s, steps))
    decreases |steps|
  {
    if steps != [] {
      StepInv(s, steps[0]);
      StepConserves(s, steps[0]);
      ExecInv(Do(s, steps[0]), steps[1..]);
    }
  }

  lemma Once(o: seq<Request>, k: nat)
    requires k < |o| && forall i, j :: 0 <= i < j < |o| ==> o[i].serial != o[j].serial
    ensures multiset(o)[o[k]] == 1
  {
    var rest := o[..k] + o[k + 1..];
    assert o == o[..k] + [o[k]] + o[k + 1..];
    assert multiset(o) == multiset(rest) + multiset{o[k]};
    assert o[k] !in rest;
  }

  lemma Reached(steps: seq<Step>)
    requires Runs(BOOT, steps)
    ensures SysInv(Exec(BOOT, steps)) && Conserved(Exec(BOOT, steps))
  {
    BootInv();
    assert Conserved(BOOT);
    hide SysInv, Conserved, Exec, Runs;
    ExecInv(BOOT, steps);
  }

  /** In every reachable state each offloaded request is in exactly one place, exactly once. */
  lemma ExactlyOnce(steps: seq<Step>, k: nat)
    requires Runs(BOOT, steps) && k < |Exec(BOOT, steps).offloaded|
    ensures Conserved(Exec(BOOT, steps))
    ensures Places(Exec(BOOT, steps))[Exec(BOOT, steps).offloaded[k]] == 1
  {
    Reached(steps);
    hide Runs, Exec, Inv, DistinctIds, KernelInv, StructsInv, CallsInv, Places;
    Once(Exec(BOOT, steps).offloaded, k);
  }

  /** The ids on rtdreqs are, in order, those on the helper's all_reqs. */
  ghost predicate SameIds(s: Sys) {
    |s.rtdreqs| == |s.h.all| && forall i :: 0 <= i < |s.h.all| ==> s.rtdreqs[i].id == s.h.all[i].id
  }

  lemma IdsAgree(s: Sys)
    requires SysInv(s) && (s.pc.Idle? || s.pc.Taken?)
    ensures SameIds(s)
  {
    TicketIds(s.h);
    hide Inv, DistinctIds, StructsInv, CallsInv, FiredOf, CompletedOf;
    assert s.rtdreqs == ReqsOf(s.h.all, s.offloaded) + [] == ReqsOf(s.h.all, s.offloaded);
    forall i | 0 <= i < |s.h.all| ensures s.rtdreqs[i].id == s.h.all[i].id {
      assert s.h.all[i] in s.h.all;
    }
  }

  /** Between a read and a response the kernel's rtdreqs and the helper's all_reqs agree. */
  lemma ListsAgree(steps: seq<Step>)
    requires Runs(BOOT, steps) && (Exec(BOOT, steps).pc.Idle? || Exec(BOOT, steps).pc.Taken?)
    ensures SameIds(Exec(BOOT, steps))
  {
    Reached(steps);
    hide *;
    IdsAgree(Exec(BOOT, steps));
  }

  /** No response misses its request: the lookup by id finds the request of the item being answered. */
  lemma ResponseFindsRequest(steps: seq<Step>)
    requires Runs(BOOT, steps) && Enabled(Exec(BOOT, steps), WriteFind)
    ensures
      var s := Exec(BOOT, steps);
      s.h.done[0].stamp < |s.offloaded| && Do(s, WriteFind).pc.hit == Some(s.offloaded[s.h.done[0].stamp])
  {
    Reached(steps);
    hide Runs, Exec, Inv, Numbered, DistinctIds, KernelInv, StructsInv, CallsInv;
    FoundIt(Exec(BOOT, steps));
  }

  /** Each answered request was completed once, with the code of its own item; each caller's
      own callback ran exactly for its completed asynchronous requests, in that order,
      and saw its own kdata and code. */
  lemma OwnAnswers(steps: seq<Step>)
    requires Runs(BOOT, steps)
    ensures
      var s := Exec(BOOT, steps);
      && s.completed == CompletedOf(s.h.log)
      && (forall i, j :: 0 <= i < j < |s.completed| ==> s.completed[i].serial != s.completed[j].serial)
      && s.fired == FiredOf(s.completed, s.offloaded)
  {
    Reached(steps);
    var s := Exec(BOOT, steps);
    hide Runs, Exec, Staged, Live, DistinctIds, StructsInv, CallsInv, Numbered;
    forall i, j | 0 <= i < j < |s.completed| ensures s.completed[i].serial != s.completed[j].serial {
      assert Compatible((s.h.log + Live(s.h))[i], (s.h.log + Live(s.h))[j]);
    }
  }

  lemma ReturnsItsOwn(s: Sys, call: nat)
    requires SysInv(s) && Enabled(s, SyncReturn(call))
    ensures call < |s.offloaded| && s.offloaded[call].id in Do(s, SyncReturn(call)).structs
    ensures
      var r := s.offloaded[call];
      var fields := Do(s, SyncReturn(call)).structs[r.id];
      r.sync && fields.kdata == r.user.kdata && fields.callback == r.user.callback
      && Completion(call, fields.errcode) in s.completed
  {
    assert CallInv(s, call);
    hide Inv, Numbered, DistinctIds, KernelInv, StructsInv, CallsInv, Flight;
  }

  /** A synchronous caller that returns has its own kdata and callback back in its struct,
      and finds the code its own request was completed with. */
  lemma SyncGetsItsOwn(steps: seq<Step>, call: nat)
    requires Runs(BOOT, steps) && Enabled(Exec(BOOT, steps), SyncReturn(call))
    ensures
      var s := Exec(BOOT, steps);
      var r := s.offloaded[call];
      var fields := Do(s, SyncReturn(call)).structs[r.id];
      r.sync && fields.kdata == r.user.kdata && fields.callback == r.user.callback
      && Completion(call, fields.errcode) in s.completed
  {
    Reached(steps);
    hide Runs, Exec, SysInv, Conserved, Do, Enabled;
    ReturnsItsOwn(Exec(BOOT, steps), call);
  }

  lemma CompletedLeft(s: Sys, c: Completion)
    requires SysInv(s) && c in s.completed && c.serial < |s.offloaded|
    ensures s.offloaded[c.serial] !in Flight(s)
  {
    var i :| 0 <= i < |s.completed| && s.completed[i] == c;
    assert s.h.log[i].stamp == c.serial && s.h.log[i] in s.h.log;
    assert c.serial < |s.h.arrived|;
    LiveOrAnswered(s.h, c.serial);
  }

  lemma LeftCompleted(s: Sys, k: nat)
    requires SysInv(s) && k < |s.offloaded| && s.offloaded[k] !in Flight(s)
    ensures exists e :: Completion(k, e) in s.completed
  {
    assert s.offloaded[k] in s.offloaded && s.offloaded[k].serial == k;
    assert k < |s.h.arrived|;
    TicketIds(s.h);
    LiveOrAnswered(s.h, k);
    var i :| 0 <= i < |s.h.log| && s.h.log[i].stamp == k;
    assert s.completed[i] == Completion(k, s.h.log[i].errcode);
  }

  /** A synchronous call is marked done exactly when its own request has been completed. */
  lemma DoneWhenCompleted(steps: seq<Step>, call: nat)
    requires Runs(BOOT, steps) && call in Exec(BOOT, steps).calls
    ensures
      var s := Exec(BOOT, steps);
      s.calls[call].done <==> exists e :: Completion(call, e) in s.completed
  {
    Reached(steps);
    var s := Exec(BOOT, steps);
    hide Runs, Exec, Inv, Numbered, DistinctIds, KernelInv, StructsInv, Flight;
    assert CallInv(s, call);
    if s.calls[call].done { LeftCompleted(s, call); }
    forall e | Completion(call, e) in s.completed ensures s.offloaded[call] !in Flight(s) {
      CompletedLeft(s, Completion(call, e));
    }
  }
}
