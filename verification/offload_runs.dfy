/**
 Whole runs of the kernel module on its request structs (kocl/main.c): any calls of the module and any
 steps of the helper, one after the other, from an empty device. Each such run stands for a run of
 OffloadSystem, so what is proved of that system holds of the structs.
 */
module OffloadRuns {
  import opened Wrappers
  import S = OffloadSystem
  import opened Offload

  /** What kocl_offload_sync holds on to while it waits. */
  datatype Waiter = Waiter(req: KoclRequest, data: SyncCallData)

  /** A device with the local variables of the calls under way: kocl_read between its regions, kocl_write
      behind find_request, and every waiting kocl_offload_sync. */
  datatype Local = Local(v: View, item: Option<KoclRequest>, hit: Option<KoclRequest>, waiting: map<nat, Waiter>)

  const EMPTY := Local(View([], [], [], map[], map[], map[], map[]), None, None, map[])

  datatype Call =
    | Async(req: KoclRequest, f: Fields)
    | SyncStart(req: KoclRequest, f: Fields, data: SyncCallData)
    | SyncFinish(call: nat)
    | Take
    | Park
    | Helper(step: S.Step)
    | Find
    | Complete

  ghost function StepOf(c: Call): S.Step {
    match c
    case Async(req, f) => S.OffloadAsync(req.id, req.channel, StructOf(f))
    case SyncStart(req, f, _) => S.OffloadSync(req.id, req.channel, StructOf(f))
    case SyncFinish(call) => S.SyncReturn(call)
    case Take => S.ReadTake
    case Park => S.ReadPark
    case Helper(step) => step
    case Find => S.WriteFind
    case Complete => S.WriteComplete
  }

  ghost predicate Records(s: S.Sys, f: Fields, data: SyncCallData) {
    data.serial == |s.offloaded| && data.oldkdata == f.kdata && data.oldcallback == f.callback
  }

  function Restored(v: View, w: Waiter): Fields {
    if w.req.id in v.fields then v.fields[w.req.id].(kdata := w.data.oldkdata, callback := w.data.oldcallback)
    else Fields(w.data.oldkdata, w.data.oldcallback, 0)
  }

  ghost predicate FindsIn(d: Local, id: int, d': Local) {
    || (exists k: nat :: FirstWithId(d.v.rtdreqs, id, k)
                    && d' == d.(v := FindView(d.v, k), hit := Some(d.v.rtdreqs[k])))
    || ((forall i :: 0 <= i < |d.v.rtdreqs| ==> d.v.rtdreqs[i].id != id) && d' == d.(hit := None))
  }

  /** The call takes the device from d to d'. Callers offer structs as they may; the helper writes the response
      of its first done item. */
  ghost predicate Goes(d: Local, s: S.Sys, c: Call, d': Local) {
    match c
    case Async(req, f) => Offered(d.v, req, f) && d' == d.(v := AsyncView(d.v, req, f))
    case SyncStart(req, f, data) =>
      && Offered(d.v, req, f) && Records(s, f, data)
      && d' == d.(v := SyncView(d.v, req, f, data), waiting := d.waiting[|s.offloaded| := Waiter(req, data)])
    case SyncFinish(call) =>
      && call in d.waiting
      && d' == d.(v := FinishView(d.v, d.waiting[call].req, Restored(d.v, d.waiting[call]), call),
                  waiting := d.waiting - {call})
    case Take => d.v.reqs != [] && d' == d.(v := TakeView(d.v), item := Some(d.v.reqs[0]))
    case Park => d.item.Some? && d' == d.(v := ParkView(d.v, d.item.value), item := None)
    case Helper(step) => (step.Accept? || step.Work?) && d' == d
    case Find => s.h.done != [] && FindsIn(d, s.h.done[0].id, d')
    case Complete =>
      s.pc.Found? &&
      match d.hit {
        case None => d' == d
        case Some(o) => o.id in d.v.fields && d' == d.(v := CompleteView(d.v, o, s.pc.response.errcode), hit := None)
      }
  }

  /** The devices ds follow on each other by the calls. */
  ghost predicate Trace(ds: seq<Local>, s: S.Sys, calls: seq<Call>)
    decreases |calls|
  {
    && |ds| == |calls| + 1
    && (calls == [] ||
        (S.Enabled(s, StepOf(calls[0])) && Goes(ds[0], s, calls[0], ds[1])
         && Trace(ds[1..], S.Do(s, StepOf(calls[0])), calls[1..])))
  }

  ghost function StepsOf(calls: seq<Call>): seq<S.Step> {
    if calls == [] then [] else [StepOf(calls[0])] + StepsOf(calls[1..])
  }

  /* ----- the local variables ----- */

  ghost predicate HeldIs(d: Local, s: S.Sys) {
    && (s.pc.Taken? ==> d.item.Some? && Stands(d.v, d.item.value, s.pc.r))
    && (s.pc.Found? ==>
          && (d.hit.Some? <==> s.pc.hit.Some?)
          && (d.hit.Some? ==> Stands(d.v, d.hit.value, s.pc.hit.value)))
  }

  ghost predicate WaitingIs(d: Local, s: S.Sys) {
    && d.waiting.Keys == s.calls.Keys
    && forall c :: c in d.waiting ==> WaitsOn(d.v, s, c, d.waiting[c].req, d.waiting[c].data)
  }

  ghost predicate Mirrors(d: Local, s: S.Sys) {
    Represents(d.v, s) && HeldIs(d, s) && WaitingIs(d, s)
  }

  /** Structs stay filed where they are, records stay but those that are given back, and so callers keep
      waiting on their own. */
  lemma WaitingStays(d: Local, s: S.Sys, d': Local, s': S.Sys)
    requires WaitingIs(d, s) && s.offloaded <= s'.offloaded
    requires Filed(d.v, d'.v) && d'.waiting.Keys == s'.calls.Keys
    requires forall c :: c in d'.waiting && c in d.waiting ==>
               && d'.waiting[c] == d.waiting[c]
               && c in d'.v.records && (c in d.v.records ==> d'.v.records[c] == d.v.records[c])
    requires forall c :: c in d'.waiting && c !in d.waiting ==>
               WaitsOn(d'.v, s', c, d'.waiting[c].req, d'.waiting[c].data)
    ensures WaitingIs(d', s')
  {
    forall c | c in d'.waiting ensures WaitsOn(d'.v, s', c, d'.waiting[c].req, d'.waiting[c].data) {
      if c in d.waiting { assert WaitsOn(d.v, s, c, d.waiting[c].req, d.waiting[c].data); }
    }
  }

  /** Everything filed under an id stays there. */
  ghost predicate Filed(v: View, v': View) {
    forall id :: id in v.objects ==> id in v'.objects && v'.objects[id] == v.objects[id]
  }

  lemma HeldStays(d: Local, s: S.Sys, d': Local, s': S.Sys)
    requires HeldIs(d, s) && Filed(d.v, d'.v)
    requires s'.pc == s.pc && d'.item == d.item && d'.hit == d.hit
    ensures HeldIs(d', s')
  {
  }

  lemma AsyncGoes(d: Local, s: S.Sys, c: Call, d': Local)
    requires Mirrors(d, s) && S.Enabled(s, StepOf(c)) && Goes(d, s, c, d') && c.Async?
    ensures Mirrors(d', S.Do(s, StepOf(c)))
  {
    AsyncStep(d.v, s, c.req, c.f);
    hide Represents, S.Unused, WaitsOn, Stands;
    HeldStays(d, s, d', S.Do(s, StepOf(c)));
    WaitingStays(d, s, d', S.Do(s, StepOf(c)));
  }

  /** What the start of a synchronous call keeps of a device. */
  lemma SyncStartKeeps(d: Local, s: S.Sys, req: KoclRequest, f: Fields, data: SyncCallData)
    requires Offered(d.v, req, f) && data.serial == |s.offloaded| && d.v.records.Keys == s.calls.Keys
    requires forall c :: c in s.calls ==> c < |s.offloaded|
    ensures var v' := SyncView(d.v, req, f, data);
            && Filed(d.v, v') && forall c :: c in s.calls ==> c in v'.records && v'.records[c] == d.v.records[c]
  {
  }

  lemma SyncStartDoes(s: S.Sys, id: int, channel: int, user: S.Struct)
    requires S.Enabled(s, S.OffloadSync(id, channel, user))
    ensures var s' := S.Do(s, S.OffloadSync(id, channel, user));
            s'.pc == s.pc && s.offloaded <= s'.offloaded && s'.calls.Keys == s.calls.Keys + {|s.offloaded|}
  {
  }

  lemma SyncStartMirrors(d: Local, s: S.Sys, req: KoclRequest, f: Fields, data: SyncCallData, s': S.Sys)
    requires HeldIs(d, s) && WaitingIs(d, s) && d.v.records.Keys == s.calls.Keys
    requires Offered(d.v, req, f) && data.serial == |s.offloaded|
    requires s'.pc == s.pc && s.offloaded <= s'.offloaded && s'.calls.Keys == s.calls.Keys + {|s.offloaded|}
    requires WaitsOn(SyncView(d.v, req, f, data), s', |s.offloaded|, req, data)
    ensures var d' := d.(v := SyncView(d.v, req, f, data), waiting := d.waiting[|s.offloaded| := Waiter(req, data)]);
            HeldIs(d', s') && WaitingIs(d', s')
  {
    assert forall c :: c in s.calls ==> c < |s.offloaded| by {
      forall c | c in s.calls ensures c < |s.offloaded| {
        assert WaitsOn(d.v, s, c, d.waiting[c].req, d.waiting[c].data);
      }
    }
    SyncStartKeeps(d, s, req, f, data);
    var d' := d.(v := SyncView(d.v, req, f, data), waiting := d.waiting[|s.offloaded| := Waiter(req, data)]);
    hide SyncView, WaitsOn, Stands, Offered;
    HeldStays(d, s, d', s');
    WaitingStays(d, s, d', s');
  }

  lemma SyncStartGoes(d: Local, s: S.Sys, c: Call, d': Local)
    requires Mirrors(d, s) && S.Enabled(s, StepOf(c)) && Goes(d, s, c, d') && c.SyncStart?
    ensures Mirrors(d', S.Do(s, StepOf(c)))
  {
    SyncStep(d.v, s, c.req, c.f, c.data);
    SyncWaits(d.v, s, c.req, c.f, c.data);
    SyncStartDoes(s, c.req.id, c.req.channel, StructOf(c.f));
    assert d.v.records.Keys == s.calls.Keys;
    hide Represents, S.Unused, S.Do, SyncView, WaitsOn, StructOf, Offered, HeldIs, WaitingIs;
    SyncStartMirrors(d, s, c.req, c.f, c.data, S.Do(s, StepOf(c)));
  }

  /** A step after which the same callers wait. */
  lemma SameWaiting(d: Local, s: S.Sys, d': Local, s': S.Sys)
    requires WaitingIs(d, s) && d'.waiting == d.waiting && s'.calls.Keys == s.calls.Keys
    requires s'.offloaded == s.offloaded && d'.v.objects == d.v.objects && d'.v.records == d.v.records
    ensures WaitingIs(d', s')
  {
    hide WaitsOn;
    forall c | c in d'.waiting ensures WaitsOn(d'.v, s', c, d'.waiting[c].req, d'.waiting[c].data) {
      assert WaitsOn(d.v, s, c, d.waiting[c].req, d.waiting[c].data);
      OneWaits(d, s, d', s', c);
    }
  }

  lemma OneWaits(d: Local, s: S.Sys, d': Local, s': S.Sys, c: nat)
    requires c in d.waiting && c in d'.waiting && d'.waiting[c] == d.waiting[c]
    requires WaitsOn(d.v, s, c, d.waiting[c].req, d.waiting[c].data)
    requires s'.offloaded == s.offloaded && d'.v.objects == d.v.objects && d'.v.records == d.v.records
    ensures WaitsOn(d'.v, s', c, d'.waiting[c].req, d'.waiting[c].data)
  {
  }

  lemma SyncFinishDoes(s: S.Sys, call: nat)
    requires S.Enabled(s, S.SyncReturn(call))
    ensures var s' := S.Do(s, S.SyncReturn(call));
            s'.calls.Keys == s.calls.Keys - {call} && s'.offloaded == s.offloaded && s'.pc == s.pc
  {
  }

  lemma SyncFinishGoes(d: Local, s: S.Sys, c: Call, d': Local)
    requires Mirrors(d, s) && S.Enabled(s, StepOf(c)) && Goes(d, s, c, d') && c.SyncFinish?
    ensures Mirrors(d', S.Do(s, StepOf(c)))
  {
    var s', w := S.Do(s, StepOf(c)), d.waiting[c.call];
    assert WaitsOn(d.v, s, c.call, w.req, w.data);
    FinishStep(d.v, s, c.call, w.req, w.data);
    SyncFinishDoes(s, c.call);
    hide Represents, Keyed, Stands, S.Do, S.Enabled;
    HeldStays(d, s, d', s');
    WaitingStays(d, s, d', s');
  }

  lemma TakeGoes(d: Local, s: S.Sys, c: Call, d': Local)
    requires Mirrors(d, s) && S.Enabled(s, StepOf(c)) && Goes(d, s, c, d') && c.Take?
    ensures Mirrors(d', S.Do(s, StepOf(c)))
  {
    TakeStep(d.v, s);
    hide Represents, WaitsOn;
    SameWaiting(d, s, d', S.Do(s, StepOf(c)));
  }

  lemma ParkGoes(d: Local, s: S.Sys, c: Call, d': Local)
    requires Mirrors(d, s) && S.Enabled(s, StepOf(c)) && Goes(d, s, c, d') && c.Park?
    ensures Mirrors(d', S.Do(s, StepOf(c)))
  {
    ParkStep(d.v, s, d.item.value);
    hide Represents, WaitsOn;
    SameWaiting(d, s, d', S.Do(s, StepOf(c)));
  }

  lemma HelperDoes(s: S.Sys, step: S.Step)
    requires S.Enabled(s, step) && (step.Accept? || step.Work?)
    ensures var s' := S.Do(s, step);
            s'.calls == s.calls && s'.offloaded == s.offloaded && s'.pc.Idle?
  {
  }

  lemma HelperGoes(d: Local, s: S.Sys, c: Call, d': Local)
    requires Mirrors(d, s) && S.Enabled(s, StepOf(c)) && Goes(d, s, c, d') && c.Helper?
    ensures Mirrors(d', S.Do(s, StepOf(c)))
  {
    HelperStep(d.v, s, c.step);
    HelperDoes(s, c.step);
    hide Represents, WaitsOn, S.Do, S.Enabled;
    SameWaiting(d, s, d', S.Do(s, StepOf(c)));
  }

  lemma FindDoes(s: S.Sys)
    requires S.Enabled(s, S.WriteFind)
    ensures var s' := S.Do(s, S.WriteFind);
            s'.calls == s.calls && s'.offloaded == s.offloaded && s'.pc.Found?
  {
  }

  lemma FindHits(d: Local, s: S.Sys, k: nat)
    requires Mirrors(d, s) && S.Enabled(s, S.WriteFind) && FirstWithId(d.v.rtdreqs, s.h.done[0].id, k)
    ensures Mirrors(d.(v := FindView(d.v, k), hit := Some(d.v.rtdreqs[k])), S.Do(s, S.WriteFind))
  {
    var d', s' := d.(v := FindView(d.v, k), hit := Some(d.v.rtdreqs[k])), S.Do(s, S.WriteFind);
    FindStep(d.v, s, k);
    FindDoes(s);
    hide Represents, FirstWithId, S.Do, S.Enabled, WaitsOn;
    SameWaiting(d, s, d', s');
  }

  lemma FindMisses(d: Local, s: S.Sys)
    requires Mirrors(d, s) && S.Enabled(s, S.WriteFind)
    requires forall i :: 0 <= i < |d.v.rtdreqs| ==> d.v.rtdreqs[i].id != s.h.done[0].id
    ensures Mirrors(d.(hit := None), S.Do(s, S.WriteFind))
  {
    MissStep(d.v, s);
    FindDoes(s);
    hide Represents, S.Do, S.Enabled, WaitsOn;
    SameWaiting(d, s, d.(hit := None), S.Do(s, S.WriteFind));
  }

  lemma FindGoes(d: Local, s: S.Sys, c: Call, d': Local)
    requires Mirrors(d, s) && S.Enabled(s, StepOf(c)) && Goes(d, s, c, d') && c.Find?
    ensures Mirrors(d', S.Do(s, StepOf(c)))
  {
    var id := s.h.done[0].id;
    hide Mirrors, S.Do, FindView, FirstWithId;
    if k: nat :| FirstWithId(d.v.rtdreqs, id, k)
                 && d' == d.(v := FindView(d.v, k), hit := Some(d.v.rtdreqs[k])) {
      FindHits(d, s, k);
    } else {
      FindMisses(d, s);
    }
  }

  lemma CompleteGoes(d: Local, s: S.Sys, c: Call, d': Local)
    requires Mirrors(d, s) && S.Enabled(s, StepOf(c)) && Goes(d, s, c, d') && c.Complete?
    ensures Mirrors(d', S.Do(s, StepOf(c)))
  {
    CompleteKeeps(s);
    if d.hit.Some? {
      CompleteStep(d.v, s, d.hit.value);
    } else {
      MissedStep(d.v, s);
    }
    hide Represents, WaitsOn, S.RunCallback;
    SameWaiting(d, s, d', S.Do(s, StepOf(c)));
  }

  lemma CompleteKeeps(s: S.Sys)
    requires S.Enabled(s, S.WriteComplete)
    ensures var s' := S.Do(s, S.WriteComplete);
            s'.calls.Keys == s.calls.Keys && s'.offloaded == s.offloaded && s'.pc.Idle?
  {
  }

  lemma Follows(d: Local, s: S.Sys, c: Call, d': Local)
    requires Mirrors(d, s) && S.Enabled(s, StepOf(c)) && Goes(d, s, c, d')
    ensures Mirrors(d', S.Do(s, StepOf(c)))
  {
    hide *;
    match c
    case Async(_, _) => AsyncGoes(d, s, c, d');
    case SyncStart(_, _, _) => SyncStartGoes(d, s, c, d');
    case SyncFinish(_) => SyncFinishGoes(d, s, c, d');
    case Take => TakeGoes(d, s, c, d');
    case Park => ParkGoes(d, s, c, d');
    case Helper(_) => HelperGoes(d, s, c, d');
    case Find => FindGoes(d, s, c, d');
    case Complete => CompleteGoes(d, s, c, d');
  }

  /* ----- over whole runs ----- */

  lemma TraceMirrors(ds: seq<Local>, s: S.Sys, calls: seq<Call>)
    requires Trace(ds, s, calls) && Mirrors(ds[0], s)
    ensures S.Runs(s, StepsOf(calls)) && Mirrors(ds[|calls|], S.Exec(s, StepsOf(calls)))
    decreases |calls|
  {
    if calls != [] {
      var c := calls[0];
      Follows(ds[0], s, c, ds[1]);
      hide Mirrors, Goes, S.Enabled, S.Do;
      TraceMirrors(ds[1..], S.Do(s, StepOf(c)), calls[1..]);
      assert StepsOf(calls)[0] == StepOf(c) && StepsOf(calls)[1..] == StepsOf(calls[1..]);
    }
  }

  /** Whatever is called and whatever the helper does, the structs of a device that began empty stand for a
      state the system reaches; a caller waits on its own struct and record from the start of its call to
      its return. */
  lemma RunsAreSystemRuns(ds: seq<Local>, calls: seq<Call>)
    requires Trace(ds, S.BOOT, calls) && ds[0] == EMPTY
    ensures S.Runs(S.BOOT, StepsOf(calls))
    ensures Mirrors(ds[|calls|], S.Exec(S.BOOT, StepsOf(calls)))
  {
    assert Mirrors(EMPTY, S.BOOT);
    hide Mirrors;
    TraceMirrors(ds, S.BOOT, calls);
  }

  /** So the callbacks that the device has run are those of the answered asynchronous requests, in the order of
      the answers, each with its own caller's data and its own item's code. */
  lemma CallbacksSeeTheirOwn(ds: seq<Local>, calls: seq<Call>)
    requires Trace(ds, S.BOOT, calls) && ds[0] == EMPTY
    ensures S.Runs(S.BOOT, StepsOf(calls))
    ensures
      var s := S.Exec(S.BOOT, StepsOf(calls));
      var owed := S.FiredOf(S.CompletedOf(s.h.log), s.offloaded);
      var invoked := ds[|calls|].v.invoked;
      |invoked| == |owed| && forall i :: 0 <= i < |owed| ==> InvocationIs(invoked[i], owed[i])
  {
    RunsAreSystemRuns(ds, calls);
    hide S.Runs, S.Exec, Trace, HeldIs, WaitingIs, ListIs, StructsAre, RecordsAre, PointersAre, InHandIs, Keyed;
    S.OwnAnswers(StepsOf(calls));
    hide S.FiredOf, S.CompletedOf;
  }

  /** And a waiting caller whose record is marked finds in its struct the code that its own request was completed
      with, and in its record the kdata and callback that it had offered. */
  lemma WaitersGetTheirOwn(ds: seq<Local>, calls: seq<Call>, call: nat)
    requires Trace(ds, S.BOOT, calls) && ds[0] == EMPTY
    requires var d := ds[|calls|]; call in d.waiting && call in d.v.done && d.v.done[call]
    ensures S.Runs(S.BOOT, StepsOf(calls))
    ensures
      var s, d := S.Exec(S.BOOT, StepsOf(calls)), ds[|calls|];
      var w := d.waiting[call];
      && call < |s.offloaded| && w.req.id == s.offloaded[call].id && w.req.id in d.v.fields
      && KDataOf(w.data.oldkdata) == s.offloaded[call].user.kdata
      && w.data.oldcallback == s.offloaded[call].user.callback
      && S.Completion(call, d.v.fields[w.req.id].errcode) in s.completed
  {
    RunsAreSystemRuns(ds, calls);
    var s, d := S.Exec(S.BOOT, StepsOf(calls)), ds[|calls|];
    S.Reached(StepsOf(calls));
    hide S.Runs, S.Exec, Trace, S.Conserved;
    WaiterHas(d, s, call);
  }

  lemma WaiterHas(d: Local, s: S.Sys, call: nat)
    requires Mirrors(d, s) && S.SysInv(s) && call in d.waiting && call in d.v.done && d.v.done[call]
    ensures
      var w := d.waiting[call];
      && call < |s.offloaded| && w.req.id == s.offloaded[call].id && w.req.id in d.v.fields
      && KDataOf(w.data.oldkdata) == s.offloaded[call].user.kdata
      && w.data.oldcallback == s.offloaded[call].user.callback
      && S.Completion(call, d.v.fields[w.req.id].errcode) in s.completed
  {
    assert WaitsOn(d.v, s, call, d.waiting[call].req, d.waiting[call].data);
    assert call in s.calls;
    assert S.CallInv(s, call);
    hide S.Numbered, S.KernelInv, S.DistinctIds, S.StructsInv, S.CallsInv, S.Flight;
    hide ListIs, InHandIs, InvokedAre, PointersAre;
  }
}
