/**
 The kernel module's request lists and calls (kocl/main.c) as they run on request
 structs that callers own and the module changes in place. A device stands for a
 state of OffloadSystem (predicate Represents), and each region under a lock takes
 the step of that system which it is for.
 */
module Offload {
  import opened Wrappers
  import opened KoclTypes
  import opened Lists
  import S = OffloadSystem

  const INT_MAX := 0x7FFF_FFFF

  /** struct _kocl_sync_call_data; `serial` is the request it was made for. */
  class SyncCallData {
    const oldkdata: KData
    const oldcallback: S.Callback
    ghost const serial: nat
    var done: bool

    constructor (kdata: KData, callback: S.Callback, ghost serial: nat)
      ensures oldkdata == kdata && oldcallback == callback && !done && this.serial == serial
    {
      oldkdata, oldcallback, done := kdata, callback, false;
      this.serial := serial;
    }
  }

  /** The kdata pointer: a caller's own data, or the record of a synchronous call. */
  datatype KData = UserData(p: int) | SyncData(data: SyncCallData)

  /** struct kocl_request; its id is given to the struct once, when it is made. */
  class KoclRequest {
    const id: int
    const channel: int
    var kdata: KData
    var callback: S.Callback
    var errcode: int

    constructor (id: int, channel: int, kdata: KData, callback: S.Callback)
      ensures this.id == id && this.channel == channel && this.kdata == kdata && this.callback == callback
    {
      this.id, this.channel, this.kdata, this.callback, errcode := id, channel, kdata, callback, 0;
    }
  }

  /** The fields of a struct that change. */
  datatype Fields = Fields(kdata: KData, callback: S.Callback, errcode: int)

  function FieldsOf(r: KoclRequest): Fields
    reads r
  {
    Fields(r.kdata, r.callback, r.errcode)
  }

  /** A caller's callback with what it found in the struct it was given. */
  datatype Invocation = Invocation(f: int, kdata: KData, errcode: int)

  /** k is the first position of l whose request has the id. */
  predicate FirstWithId(l: seq<KoclRequest>, id: int, k: nat) {
    k < |l| && l[k].id == id && forall i :: 0 <= i < k ==> l[i].id != id
  }

  /* ----- what a device holds at one time, and the state of the system that it stands for ----- */

  /** The lists, the structs of all ids handed in so far with their fields, and the records of the
      synchronous calls under way with their flags. */
  datatype View = View(
    reqs: seq<KoclRequest>, rtdreqs: seq<KoclRequest>, invoked: seq<Invocation>,
    objects: map<int, KoclRequest>, fields: map<int, Fields>,
    records: map<nat, SyncCallData>, done: map<nat, bool>)

  ghost function KDataOf(k: KData): S.KData {
    match k
    case UserData(p) => S.UserData(p)
    case SyncData(data) => S.SyncData(data.serial)
  }

  ghost function StructOf(f: Fields): S.Struct {
    S.Struct(KDataOf(f.kdata), f.callback, f.errcode)
  }

  /** The struct is the one of the request. */
  predicate Stands(v: View, o: KoclRequest, r: S.Request) {
    r.id in v.objects && o == v.objects[r.id] && o.channel == r.channel
  }

  predicate ListIs(v: View, l: seq<KoclRequest>, rs: seq<S.Request>) {
    |l| == |rs| && forall i :: 0 <= i < |l| ==> Stands(v, l[i], rs[i])
  }

  ghost predicate StructsAre(v: View, s: S.Sys) {
    && v.fields.Keys == s.structs.Keys
    && forall id :: id in v.fields ==> StructOf(v.fields[id]) == s.structs[id]
  }

  ghost predicate RecordsAre(v: View, s: S.Sys) {
    && v.records.Keys == s.calls.Keys == v.done.Keys
    && forall c :: c in v.records ==>
         && c < |s.offloaded|
         && v.records[c].oldkdata.UserData? && v.records[c].oldcallback.UserCallback?
         && s.calls[c] == S.SyncCall(KDataOf(v.records[c].oldkdata), v.records[c].oldcallback, v.done[c])
  }

  /** A struct whose callback is the module's points to the record of the call it was last used for. */
  ghost predicate PointsToCall(v: View, s: S.Sys, id: int, f: Fields) {
    f.callback.SyncCallback? ==>
      && f.kdata.SyncData? && f.kdata.data.serial in v.records && v.records[f.kdata.data.serial] == f.kdata.data
      && f.kdata.data.serial < |s.offloaded| && s.offloaded[f.kdata.data.serial].id == id
  }

  ghost predicate PointersAre(v: View, s: S.Sys) {
    forall id :: id in v.fields ==> PointsToCall(v, s, id, v.fields[id])
  }

  predicate InHandIs(v: View, pc: S.Pc) {
    match pc
    case Taken(r) => r.id in v.objects && v.objects[r.id].channel == r.channel
    case Delivered(r) => r.id in v.objects && v.objects[r.id].channel == r.channel
    case Found(hit, _) => hit.Some? ==> hit.value.id in v.objects
    case Idle => true
  }

  ghost predicate InvokedAre(v: View, s: S.Sys) {
    |v.invoked| == |s.fired| && forall i :: 0 <= i < |v.invoked| ==> InvocationIs(v.invoked[i], s.fired[i])
  }

  ghost predicate InvocationIs(x: Invocation, y: S.Fired) {
    x.f == y.f && KDataOf(x.kdata) == y.kdata && x.errcode == y.errcode
  }

  ghost predicate Represents(v: View, s: S.Sys) {
    && Keyed(v)
    && ListIs(v, v.reqs, s.reqs) && ListIs(v, v.rtdreqs, s.rtdreqs)
    && StructsAre(v, s) && RecordsAre(v, s) && PointersAre(v, s)
    && InHandIs(v, s.pc) && InvokedAre(v, s)
  }

  /** Every struct is filed under its own id and every record under its own request. */
  ghost predicate Keyed(v: View) {
    && v.objects.Keys == v.fields.Keys && v.records.Keys == v.done.Keys
    && (forall id :: id in v.objects ==> v.objects[id].id == id)
    && (forall c :: c in v.records ==> v.records[c].serial == c)
  }

  /** A caller may offer a struct with its own data and callback, since the module's are private to it,
      and with the id that the struct has always had. */
  predicate Offered(v: View, req: KoclRequest, f: Fields) {
    f.kdata.UserData? && f.callback.UserCallback? && (req.id in v.objects ==> v.objects[req.id] == req)
  }

  /** From a state that v stands for, the change from v to v' is the step, if that can be taken there. */
  ghost predicate TakesStep(v: View, s: S.Sys, v': View, step: S.Step) {
    Represents(v, s) && S.Enabled(s, step) ==> Represents(v', S.Do(s, step))
  }

  /* ----- the device's operations on what it holds, and that they are steps of the system ----- */

  /** A list stands for the same requests while structs are only added. */
  lemma ListStays(v: View, v': View, l: seq<KoclRequest>, rs: seq<S.Request>)
    requires ListIs(v, l, rs) && forall id :: id in v.objects ==> id in v'.objects && v'.objects[id] == v.objects[id]
    ensures ListIs(v', l, rs)
  {
    forall i | 0 <= i < |l| ensures Stands(v', l[i], rs[i]) {
      assert Stands(v, l[i], rs[i]);
    }
  }

  /** What a step that changes only lists keeps. */
  lemma FieldsStay(v: View, s: S.Sys, v': View, s': S.Sys)
    requires Represents(v, s)
    requires v' == v.(reqs := v'.reqs, rtdreqs := v'.rtdreqs)
    requires s'.structs == s.structs && s'.calls == s.calls && s'.fired == s.fired && s'.offloaded == s.offloaded
    ensures Keyed(v') && StructsAre(v', s') && RecordsAre(v', s') && PointersAre(v', s') && InvokedAre(v', s')
  {
    forall id | id in v'.fields ensures PointsToCall(v', s', id, v'.fields[id]) {
      assert PointsToCall(v, s, id, v.fields[id]);
    }
  }

  function AsyncView(v: View, req: KoclRequest, f: Fields): View {
    v.(reqs := v.reqs + [req], objects := v.objects[req.id := req], fields := v.fields[req.id := f])
  }

  /** The lists when a struct is handed in. */
  lemma HandedIn(v: View, s: S.Sys, req: KoclRequest, f: Fields, r: S.Request)
    requires Represents(v, s) && (req.id in v.objects ==> v.objects[req.id] == req)
    requires r.id == req.id && r.channel == req.channel
    ensures var v' := AsyncView(v, req, f);
            && ListIs(v', v'.reqs, s.reqs + [r]) && ListIs(v', v'.rtdreqs, s.rtdreqs) && InHandIs(v', s.pc)
  {
    var v' := AsyncView(v, req, f);
    ListStays(v, v', v.reqs, s.reqs);
    ListStays(v, v', v.rtdreqs, s.rtdreqs);
  }

  lemma AsyncStep(v: View, s: S.Sys, req: KoclRequest, f: Fields)
    requires Offered(v, req, f)
    ensures TakesStep(v, s, AsyncView(v, req, f), S.OffloadAsync(req.id, req.channel, StructOf(f)))
  {
    hide S.Unused;
    if Represents(v, s) && S.Enabled(s, S.OffloadAsync(req.id, req.channel, StructOf(f))) {
      var v', s' := AsyncView(v, req, f), S.Do(s, S.OffloadAsync(req.id, req.channel, StructOf(f)));
      HandedIn(v, s, req, f, S.Request(|s.offloaded|, req.id, req.channel, StructOf(f), false));
      hide ListIs, InHandIs;
      forall id | id in v'.fields ensures PointsToCall(v', s', id, v'.fields[id]) {
        assert id in v.fields ==> PointsToCall(v, s, id, v.fields[id]);
      }
    }
  }

  function SyncFields(f: Fields, data: SyncCallData): Fields {
    f.(kdata := SyncData(data), callback := S.SyncCallback)
  }

  ghost function SyncView(v: View, req: KoclRequest, f: Fields, data: SyncCallData): View {
    AsyncView(v, req, SyncFields(f, data))
      .(records := v.records[data.serial := data], done := v.done[data.serial := false])
  }

  /** A struct that the device may know has new fields. */
  function ReplaceView(v: View, req: KoclRequest, f: Fields): View {
    v.(fields := if req.id in v.objects && v.objects[req.id] == req then v.fields[req.id := f] else v.fields)
  }

  lemma SyncChanges(v: View, req: KoclRequest, f: Fields, data: SyncCallData)
    requires Keyed(v) && Offered(v, req, f)
    ensures AsyncView(ReplaceView(v, req, SyncFields(f, data)), req, SyncFields(f, data))
            == AsyncView(v, req, SyncFields(f, data))
  {
  }

  lemma SyncLists(v: View, s: S.Sys, req: KoclRequest, f: Fields, data: SyncCallData, r: S.Request)
    requires Represents(v, s) && (req.id in v.objects ==> v.objects[req.id] == req)
    requires r.id == req.id && r.channel == req.channel
    ensures var v' := SyncView(v, req, f, data);
            && ListIs(v', v'.reqs, s.reqs + [r]) && ListIs(v', v'.rtdreqs, s.rtdreqs) && InHandIs(v', s.pc)
  {
    var u, v' := AsyncView(v, req, SyncFields(f, data)), SyncView(v, req, f, data);
    HandedIn(v, s, req, SyncFields(f, data), r);
    ListStays(u, v', u.reqs, s.reqs + [r]);
    ListStays(u, v', u.rtdreqs, s.rtdreqs);
  }

  lemma SyncPointers(v: View, s: S.Sys, req: KoclRequest, f: Fields, data: SyncCallData, s': S.Sys)
    requires Represents(v, s) && data.serial == |s.offloaded| && |s'.offloaded| == |s.offloaded| + 1
    requires s.offloaded <= s'.offloaded && s'.offloaded[|s.offloaded|].id == req.id
    ensures PointersAre(SyncView(v, req, f, data), s')
  {
    var v' := SyncView(v, req, f, data);
    hide ListIs, InHandIs, InvokedAre;
    forall id | id in v'.fields ensures PointsToCall(v', s', id, v'.fields[id]) {
      assert id in v.fields ==> PointsToCall(v, s, id, v.fields[id]);
    }
  }

  lemma SyncStructs(v: View, s: S.Sys, req: KoclRequest, f: Fields, data: SyncCallData, s': S.Sys)
    requires Represents(v, s) && data.serial == |s.offloaded| && s'.fired == s.fired
    requires s'.structs == s.structs[req.id := StructOf(SyncFields(f, data))]
    ensures var v' := SyncView(v, req, f, data); Keyed(v') && StructsAre(v', s') && InvokedAre(v', s')
  {
    hide ListIs, InHandIs, PointersAre, RecordsAre;
  }

  lemma SyncRecords(v: View, s: S.Sys, req: KoclRequest, f: Fields, data: SyncCallData, s': S.Sys)
    requires Represents(v, s) && Offered(v, req, f)
    requires data.serial == |s.offloaded| && data.oldkdata == f.kdata && data.oldcallback == f.callback
    requires |s'.offloaded| == |s.offloaded| + 1
    requires s'.calls == s.calls[data.serial := S.SyncCall(KDataOf(f.kdata), f.callback, false)]
    ensures RecordsAre(SyncView(v, req, f, data), s')
  {
    hide ListIs, InHandIs, PointersAre, StructsAre, InvokedAre, Keyed;
  }

  lemma SyncStep(v: View, s: S.Sys, req: KoclRequest, f: Fields, data: SyncCallData)
    requires Offered(v, req, f)
    requires data.serial == |s.offloaded| && data.oldkdata == f.kdata && data.oldcallback == f.callback
    ensures TakesStep(v, s, SyncView(v, req, f, data), S.OffloadSync(req.id, req.channel, StructOf(f)))
  {
    var user := StructOf(f);
    if Represents(v, s) && S.Enabled(s, S.OffloadSync(req.id, req.channel, user)) {
      var s' := S.Do(s, S.OffloadSync(req.id, req.channel, user));
      SyncLists(v, s, req, f, data, S.Request(|s.offloaded|, req.id, req.channel, user, true));
      SyncPointers(v, s, req, f, data, s');
      SyncStructs(v, s, req, f, data, s');
      SyncRecords(v, s, req, f, data, s');
    }
    hide S.Unused, S.Do, S.Enabled, ListIs, InHandIs, PointersAre, StructsAre, RecordsAre, InvokedAre, Keyed, SyncView;
  }

  /** From then on the call waits on its struct and record. */
  lemma SyncWaits(v: View, s: S.Sys, req: KoclRequest, f: Fields, data: SyncCallData)
    requires S.Enabled(s, S.OffloadSync(req.id, req.channel, StructOf(f))) && data.serial == |s.offloaded|
    ensures WaitsOn(SyncView(v, req, f, data), S.Do(s, S.OffloadSync(req.id, req.channel, StructOf(f))),
                    |s.offloaded|, req, data)
  {
  }

  function FinishView(v: View, req: KoclRequest, f: Fields, call: nat): View {
    ReplaceView(v, req, f).(records := v.records - {call}, done := v.done - {call})
  }

  /** The struct and the record of a synchronous call. */
  ghost predicate WaitsOn(v: View, s: S.Sys, call: nat, req: KoclRequest, data: SyncCallData) {
    && call in v.records && v.records[call] == data && call < |s.offloaded|
    && s.offloaded[call].id in v.objects && v.objects[s.offloaded[call].id] == req
  }

  lemma FinishPointers(v: View, s: S.Sys, call: nat, req: KoclRequest, data: SyncCallData, s': S.Sys)
    requires Represents(v, s) && WaitsOn(v, s, call, req, data) && s'.offloaded == s.offloaded
    ensures req.id in v.fields
    ensures var f := v.fields[req.id].(kdata := data.oldkdata, callback := data.oldcallback);
            PointersAre(FinishView(v, req, f, call), s')
  {
    var f := v.fields[req.id].(kdata := data.oldkdata, callback := data.oldcallback);
    var v' := FinishView(v, req, f, call);
    hide ListIs, InHandIs, InvokedAre;
    forall id | id in v'.fields ensures PointsToCall(v', s', id, v'.fields[id]) {
      assert PointsToCall(v, s, id, v.fields[id]);
    }
  }

  lemma FinishStep(v: View, s: S.Sys, call: nat, req: KoclRequest, data: SyncCallData)
    requires Keyed(v) && WaitsOn(v, s, call, req, data)
    ensures req.id in v.fields
    ensures var f := v.fields[req.id].(kdata := data.oldkdata, callback := data.oldcallback);
            TakesStep(v, s, FinishView(v, req, f, call), S.SyncReturn(call))
  {
    var f := v.fields[req.id].(kdata := data.oldkdata, callback := data.oldcallback);
    if Represents(v, s) && S.Enabled(s, S.SyncReturn(call)) {
      var v', s' := FinishView(v, req, f, call), S.Do(s, S.SyncReturn(call));
      ListStays(v, v', v.reqs, s.reqs);
      ListStays(v, v', v.rtdreqs, s.rtdreqs);
      FinishPointers(v, s, call, req, data, s');
      hide ListIs, InHandIs, PointersAre;
    }
  }

  function TakeView(v: View): View
    requires v.reqs != []
  {
    v.(reqs := v.reqs[1..])
  }

  lemma TakeStep(v: View, s: S.Sys)
    requires v.reqs != []
    ensures TakesStep(v, s, TakeView(v), S.ReadTake)
    ensures Represents(v, s) && S.Enabled(s, S.ReadTake) ==> Stands(v, v.reqs[0], S.Do(s, S.ReadTake).pc.r)
  {
    if Represents(v, s) && S.Enabled(s, S.ReadTake) {
      var v', s' := TakeView(v), S.Do(s, S.ReadTake);
      assert Stands(v, v.reqs[0], s.reqs[0]);
      forall i | 0 <= i < |v'.reqs| ensures Stands(v', v'.reqs[i], s'.reqs[i]) {
        assert Stands(v, v.reqs[i + 1], s.reqs[i + 1]);
      }
      ListStays(v, v', v.rtdreqs, s.rtdreqs);
      FieldsStay(v, s, v', s');
    }
  }

  function ParkView(v: View, item: KoclRequest): View {
    v.(rtdreqs := v.rtdreqs + [item])
  }

  lemma ParkStep(v: View, s: S.Sys, item: KoclRequest)
    requires s.pc.Taken? ==> Stands(v, item, s.pc.r)
    ensures TakesStep(v, s, ParkView(v, item), S.ReadPark)
  {
    if Represents(v, s) && S.Enabled(s, S.ReadPark) {
      var v', s' := ParkView(v, item), S.Do(s, S.ReadPark);
      ListStays(v, v', v.reqs, s.reqs);
      ListStays(v, v', v.rtdreqs, s.rtdreqs);
      FieldsStay(v, s, v', s');
    }
  }

  /** The helper's own steps touch nothing of the device. */
  lemma HelperStep(v: View, s: S.Sys, step: S.Step)
    requires step.Accept? || step.Work?
    ensures TakesStep(v, s, v, step)
  {
    if Represents(v, s) && S.Enabled(s, step) {
      FieldsStay(v, s, v, S.Do(s, step));
    }
  }

  function FindView(v: View, k: nat): View
    requires k < |v.rtdreqs|
  {
    v.(rtdreqs := RemoveAt(v.rtdreqs, k))
  }

  /** The lookup by id finds in the structs what the system's lookup finds. */
  lemma FoundSame(v: View, s: S.Sys, id: int, k: nat)
    requires Represents(v, s) && FirstWithId(v.rtdreqs, id, k)
    ensures k < |s.rtdreqs| && S.FindRequest(s.rtdreqs, id) == Some(s.rtdreqs[k])
    ensures S.Unlink(s.rtdreqs, id) == RemoveAt(s.rtdreqs, k)
  {
    hide StructsAre, RecordsAre, PointersAre, InHandIs, InvokedAre;
    forall i | 0 <= i < |v.rtdreqs| ensures v.rtdreqs[i].id == s.rtdreqs[i].id {
      assert Stands(v, v.rtdreqs[i], s.rtdreqs[i]);
    }
    S.FindUnlinksFirst(s.rtdreqs, id);
    assert s.rtdreqs[k].id == id;
    var j: nat :| S.UnlinksAt(s.rtdreqs, id, j);
    assert !(j < k) && !(k < j);
  }

  lemma MissedSame(v: View, s: S.Sys, id: int)
    requires Represents(v, s) && forall i :: 0 <= i < |v.rtdreqs| ==> v.rtdreqs[i].id != id
    ensures S.FindRequest(s.rtdreqs, id) == None && S.Unlink(s.rtdreqs, id) == s.rtdreqs
  {
    hide StructsAre, RecordsAre, PointersAre, InHandIs, InvokedAre;
    forall i | 0 <= i < |v.rtdreqs| ensures v.rtdreqs[i].id == s.rtdreqs[i].id {
      assert Stands(v, v.rtdreqs[i], s.rtdreqs[i]);
    }
    S.FindUnlinksFirst(s.rtdreqs, id);
  }

  lemma FindStep(v: View, s: S.Sys, k: nat)
    requires Represents(v, s) && S.Enabled(s, S.WriteFind) && FirstWithId(v.rtdreqs, s.h.done[0].id, k)
    ensures TakesStep(v, s, FindView(v, k), S.WriteFind)
    ensures var hit := S.Do(s, S.WriteFind).pc.hit; hit.Some? && Stands(v, v.rtdreqs[k], hit.value)
  {
    FoundSame(v, s, s.h.done[0].id, k);
    var v', s' := FindView(v, k), S.Do(s, S.WriteFind);
    assert Stands(v, v.rtdreqs[k], s.rtdreqs[k]);
    forall i | 0 <= i < |v'.rtdreqs| ensures Stands(v', v'.rtdreqs[i], s'.rtdreqs[i]) {
      assert Stands(v, v.rtdreqs[if i < k then i else i + 1], s.rtdreqs[if i < k then i else i + 1]);
    }
    ListStays(v, v', v.reqs, s.reqs);
    FieldsStay(v, s, v', s');
  }

  lemma MissStep(v: View, s: S.Sys)
    requires Represents(v, s) && S.Enabled(s, S.WriteFind)
    requires forall i :: 0 <= i < |v.rtdreqs| ==> v.rtdreqs[i].id != s.h.done[0].id
    ensures TakesStep(v, s, v, S.WriteFind) && S.Do(s, S.WriteFind).pc.hit == None
  {
    MissedSame(v, s, s.h.done[0].id);
    FieldsStay(v, s, v, S.Do(s, S.WriteFind));
  }

  /** The code is set and the callback run: a caller's is recorded, the module's marks its record. */
  function CompleteView(v: View, req: KoclRequest, errcode: int): View
    requires req.id in v.fields
  {
    var f := v.fields[req.id].(errcode := errcode);
    var u := v.(fields := v.fields[req.id := f]);
    match f.callback
    case UserCallback(g) => u.(invoked := u.invoked + [Invocation(g, f.kdata, errcode)])
    case SyncCallback => if f.kdata.SyncData? then u.(done := Marked(u.records, u.done, f.kdata.data)) else u
  }

  /** The flags after a record has been marked done. */
  function Marked(records: map<nat, SyncCallData>, done: map<nat, bool>, data: SyncCallData): map<nat, bool> {
    map c | c in done :: (c in records && records[c] == data) || done[c]
  }

  lemma CompleteUser(v: View, s: S.Sys, r: S.Request, errcode: int)
    requires Represents(v, s) && r.id in v.fields && v.fields[r.id].callback.UserCallback?
    ensures var v', s' := CompleteView(v, v.objects[r.id], errcode), S.RunCallback(s, r, errcode);
            StructsAre(v', s') && RecordsAre(v', s') && InvokedAre(v', s')
  {
    hide ListIs, InHandIs, PointersAre;
  }

  lemma CompleteSync(v: View, s: S.Sys, r: S.Request, errcode: int)
    requires Represents(v, s) && r.id in v.fields && v.fields[r.id].callback.SyncCallback?
    ensures var v', s' := CompleteView(v, v.objects[r.id], errcode), S.RunCallback(s, r, errcode);
            StructsAre(v', s') && RecordsAre(v', s') && InvokedAre(v', s')
  {
    assert PointsToCall(v, s, r.id, v.fields[r.id]);
    hide ListIs, InHandIs, PointersAre;
  }

  lemma CompletePointers(v: View, s: S.Sys, r: S.Request, errcode: int)
    requires Represents(v, s) && r.id in v.fields
    ensures var v', s' := CompleteView(v, v.objects[r.id], errcode), S.RunCallback(s, r, errcode);
            PointersAre(v', s') && s'.offloaded == s.offloaded && s'.reqs == s.reqs && s'.rtdreqs == s.rtdreqs
  {
    hide ListIs, InHandIs, StructsAre, RecordsAre, InvokedAre;
    var v', s' := CompleteView(v, v.objects[r.id], errcode), S.RunCallback(s, r, errcode);
    forall id | id in v'.fields ensures PointsToCall(v', s', id, v'.fields[id]) {
      assert PointsToCall(v, s, id, v.fields[id]);
    }
  }

  lemma CompleteKeyed(v: View, s: S.Sys, r: S.Request, errcode: int)
    requires Represents(v, s) && r.id in v.fields
    ensures var v' := CompleteView(v, v.objects[r.id], errcode);
            && Keyed(v') && ListIs(v', v'.reqs, s.reqs) && ListIs(v', v'.rtdreqs, s.rtdreqs)
  {
    var v' := CompleteView(v, v.objects[r.id], errcode);
    ListStays(v, v', v.reqs, s.reqs);
    ListStays(v, v', v.rtdreqs, s.rtdreqs);
    hide ListIs, InHandIs, StructsAre, RecordsAre, InvokedAre, PointersAre;
  }

  lemma CompleteStep(v: View, s: S.Sys, req: KoclRequest)
    requires Represents(v, s) && S.Enabled(s, S.WriteComplete) && s.pc.hit.Some? && s.pc.hit.value.id in v.objects
    requires v.objects[s.pc.hit.value.id] == req
    ensures req.id in v.fields && TakesStep(v, s, CompleteView(v, req, s.pc.response.errcode), S.WriteComplete)
  {
    var r, errcode := s.pc.hit.value, s.pc.response.errcode;
    var s1, s' := S.RunCallback(s, r, errcode), S.Do(s, S.WriteComplete);
    assert s' == s1.(pc := s'.pc, h := s'.h) && s'.pc == S.Idle;
    hide S.RunCallback, S.Do, CompleteView;
    if v.fields[r.id].callback.UserCallback? {
      CompleteUser(v, s, r, errcode);
    } else {
      CompleteSync(v, s, r, errcode);
    }
    CompletePointers(v, s, r, errcode);
    CompleteKeyed(v, s, r, errcode);
    hide ListIs;
    SameDevice(CompleteView(v, req, errcode), s1, s');
  }

  lemma SameDevice(v: View, s: S.Sys, s': S.Sys)
    requires s' == s.(pc := S.Idle, h := s'.h)
    requires StructsAre(v, s) && RecordsAre(v, s) && PointersAre(v, s) && InvokedAre(v, s)
    ensures StructsAre(v, s') && RecordsAre(v, s') && PointersAre(v, s') && InvokedAre(v, s')
  {
    forall id | id in v.fields ensures PointsToCall(v, s', id, v.fields[id]) {
      assert PointsToCall(v, s, id, v.fields[id]);
    }
  }

  lemma MissedStep(v: View, s: S.Sys)
    requires s.pc.Found? ==> s.pc.hit == None
    ensures TakesStep(v, s, v, S.WriteComplete)
  {
    if Represents(v, s) && S.Enabled(s, S.WriteComplete) {
      FieldsStay(v, s, v, S.Do(s, S.WriteComplete));
    }
  }

  /** The structs on rtdreqs are the ones filed under their ids, and those used synchronously point to records. */
  ghost predicate Linked(v: View) {
    && (forall i :: 0 <= i < |v.rtdreqs| ==> v.rtdreqs[i].id in v.objects && v.objects[v.rtdreqs[i].id] == v.rtdreqs[i])
    && (forall id :: id in v.fields && v.fields[id].callback.SyncCallback? ==>
          v.fields[id].kdata.SyncData? && v.fields[id].kdata.data in v.records.Values)
  }

  lemma RepresentsLinked(v: View, s: S.Sys)
    requires Represents(v, s)
    ensures Keyed(v) && Linked(v)
  {
    forall i | 0 <= i < |v.rtdreqs| ensures v.rtdreqs[i].id in v.objects && v.objects[v.rtdreqs[i].id] == v.rtdreqs[i] {
      assert Stands(v, v.rtdreqs[i], s.rtdreqs[i]);
    }
    forall id | id in v.fields && v.fields[id].callback.SyncCallback?
      ensures v.fields[id].kdata.SyncData? && v.fields[id].kdata.data in v.records.Values
    {
      assert PointsToCall(v, s, id, v.fields[id]);
    }
  }

  /** The helper answers the first item of its done_reqs. */
  ghost predicate WritesFirstDone(s: S.Sys, resp: KuResponse) {
    S.Enabled(s, S.WriteFind) && resp == KuResponse(s.h.done[0].id, s.h.done[0].errcode)
  }

  /** The change is a lookup followed by a completion. */
  ghost predicate TakesWrite(v: View, s: S.Sys, v': View, resp: KuResponse) {
    Represents(v, s) && WritesFirstDone(s, resp) ==> Represents(v', S.Do(S.Do(s, S.WriteFind), S.WriteComplete))
  }

  lemma WriteMisses(v: View, s: S.Sys, resp: KuResponse)
    requires forall i :: 0 <= i < |v.rtdreqs| ==> v.rtdreqs[i].id != resp.id
    ensures TakesWrite(v, s, v, resp)
    ensures !(S.SysInv(s) && Represents(v, s) && WritesFirstDone(s, resp))
  {
    if Represents(v, s) && WritesFirstDone(s, resp) {
      MissStep(v, s);
      MissedStep(v, S.Do(s, S.WriteFind));
      if S.SysInv(s) {
        S.WriteFindInv(s);
      }
    }
  }

  lemma WriteFinds(v: View, s: S.Sys, resp: KuResponse, k: nat)
    requires Keyed(v) && Linked(v) && FirstWithId(v.rtdreqs, resp.id, k)
    ensures v.rtdreqs[k].id in v.fields
    ensures TakesWrite(v, s, CompleteView(FindView(v, k), v.rtdreqs[k], resp.errcode), resp)
  {
    if Represents(v, s) && WritesFirstDone(s, resp) {
      FindStep(v, s, k);
      CompleteStep(FindView(v, k), S.Do(s, S.WriteFind), v.rtdreqs[k]);
    }
  }

  /* ----- the device ----- */

  class KoclDev {
    var ridSequence: int
    var reqs: seq<KoclRequest>
    var rtdreqs: seq<KoclRequest>
    /** The callers' callbacks invoked so far. */
    var invoked: seq<Invocation>
    /** The struct of every id handed in so far, and the records of the synchronous calls under way. */
    ghost var objects: map<int, KoclRequest>
    ghost var records: map<nat, SyncCallData>

    ghost function Holds(): View
      reads this, objects.Values, records.Values
    {
      View(reqs, rtdreqs, invoked,
           objects, map id | id in objects :: FieldsOf(objects[id]),
           records, map c | c in records :: records[c].done)
    }

    constructor ()
      ensures ridSequence == 0 && reqs == [] && rtdreqs == [] && invoked == []
      ensures Represents(Holds(), S.BOOT)
    {
      ridSequence, reqs, rtdreqs, invoked := 0, [], [], [];
      objects, records := map[], map[];
    }

    /** kocl_next_request_id: the increment of a C int wraps, and a negative value is reset. */
    method NextRequestId() returns (rt: int)
      requires 0 <= ridSequence <= INT_MAX
      modifies `ridSequence
      ensures rt == ridSequence == NextId(old(ridSequence))
    {
      ridSequence := if ridSequence == INT_MAX then -INT_MAX - 1 else ridSequence + 1;
      if ridSequence < 0 {
        ridSequence := 0;
      }
      rt := ridSequence;
    }

    /** Both offloads queue a struct in this way. */
    method Enqueue(req: KoclRequest)
      requires req.id in objects ==> objects[req.id] == req
      modifies `reqs, `objects
      ensures reqs == old(reqs) + [req] && objects == old(objects)[req.id := req]
      ensures Holds() == AsyncView(old(Holds()), req, FieldsOf(req))
    {
      reqs := reqs + [req];
      objects := objects[req.id := req];
    }

    /** The part of a struct that a synchronous call replaces and puts back. */
    method Replace(req: KoclRequest, kdata: KData, callback: S.Callback)
      requires Keyed(Holds()) && (req.id in objects ==> objects[req.id] == req)
      modifies req`kdata, req`callback
      ensures FieldsOf(req) == old(FieldsOf(req)).(kdata := kdata, callback := callback)
      ensures Holds() == ReplaceView(old(Holds()), req, FieldsOf(req))
    {
      assert forall id :: id in objects && id != req.id ==> objects[id] != req;
      req.kdata := kdata;
      req.callback := callback;
    }

    ghost method Record(data: SyncCallData)
      modifies `records
      ensures Holds() == var v := old(Holds());
                         v.(records := v.records[data.serial := data], done := v.done[data.serial := data.done])
    {
      records := records[data.serial := data];
    }

    /** kocl_offload_async */
    method OffloadAsync(req: KoclRequest, ghost s: S.Sys)
      requires Keyed(Holds()) && Offered(Holds(), req, FieldsOf(req))
      modifies `reqs, `objects
      ensures Holds() == AsyncView(old(Holds()), req, FieldsOf(req))
      ensures TakesStep(old(Holds()), s, Holds(), S.OffloadAsync(req.id, req.channel, StructOf(FieldsOf(req))))
    {
      AsyncStep(Holds(), s, req, FieldsOf(req));
      hide TakesStep, StructOf, Keyed, AsyncView;
      Enqueue(req);
    }

    /** kocl_offload_sync up to its wait */
    method OffloadSyncStart(req: KoclRequest, ghost s: S.Sys) returns (data: SyncCallData)
      requires Keyed(Holds()) && Offered(Holds(), req, FieldsOf(req))
      modifies `reqs, `objects, `records, req`kdata, req`callback
      ensures fresh(data) && data.serial == |s.offloaded|
      ensures data.oldkdata == old(req.kdata) && data.oldcallback == old(req.callback)
      ensures Holds() == SyncView(old(Holds()), req, old(FieldsOf(req)), data)
      ensures TakesStep(old(Holds()), s, Holds(), S.OffloadSync(req.id, req.channel, StructOf(old(FieldsOf(req)))))
    {
      data := new SyncCallData(req.kdata, req.callback, |s.offloaded|);
      SyncStep(Holds(), s, req, FieldsOf(req), data);
      hide TakesStep, StructOf, SyncView;
      Install(req, data);
    }

    /** The struct gets the record of its call and is queued. */
    method Install(req: KoclRequest, data: SyncCallData)
      requires Keyed(Holds()) && Offered(Holds(), req, FieldsOf(req)) && !data.done
      modifies `reqs, `objects, `records, req`kdata, req`callback
      ensures Holds() == SyncView(old(Holds()), req, old(FieldsOf(req)), data)
    {
      SyncChanges(Holds(), req, FieldsOf(req), data);
      hide ReplaceView, AsyncView, Offered;
      Replace(req, SyncData(data), S.SyncCallback);
      hide Keyed;
      Enqueue(req);
      Record(data);
    }

    /** kocl_offload_sync after its wait */
    method OffloadSyncFinish(req: KoclRequest, data: SyncCallData, ghost s: S.Sys, ghost call: nat)
      requires Keyed(Holds()) && WaitsOn(Holds(), s, call, req, data)
      modifies `records, req`kdata, req`callback
      ensures FieldsOf(req) == old(FieldsOf(req)).(kdata := data.oldkdata, callback := data.oldcallback)
      ensures Holds() == FinishView(old(Holds()), req, FieldsOf(req), call)
      ensures TakesStep(old(Holds()), s, Holds(), S.SyncReturn(call))
    {
      FinishStep(Holds(), s, call, req, data);
      hide TakesStep;
      Replace(req, data.oldkdata, data.oldcallback);
      hide Keyed, WaitsOn, ReplaceView;
      records := records - {call};
    }

    /** The first region of kocl_read: the first request is taken off and its id delivered; None
        stands for -EAGAIN. */
    method ReadTake(ghost s: S.Sys) returns (item: KoclRequest?, kureq: Option<KuRequest>)
      modifies `reqs
      ensures old(reqs) == [] ==> item == null && kureq == None && Holds() == old(Holds())
      ensures old(reqs) != [] ==>
        && item == old(reqs)[0] && kureq == Some(KuRequest(item.id, item.channel))
        && Holds() == TakeView(old(Holds()))
      ensures item != null ==> TakesStep(old(Holds()), s, Holds(), S.ReadTake)
    {
      if reqs == [] {
        return null, None;
      }
      TakeStep(Holds(), s);
      hide TakesStep;
      item := reqs[0];
      reqs := reqs[1..];
      kureq := Some(KuRequest(item.id, item.channel));
    }

    /** The second region of kocl_read */
    method ReadPark(item: KoclRequest, ghost s: S.Sys)
      requires s.pc.Taken? ==> Stands(Holds(), item, s.pc.r)
      modifies `rtdreqs
      ensures Holds() == ParkView(old(Holds()), item)
      ensures TakesStep(old(Holds()), s, Holds(), S.ReadPark)
    {
      ParkStep(Holds(), s, item);
      hide TakesStep;
      rtdreqs := rtdreqs + [item];
    }

    /** find_request: the first request with the id; it leaves the list when offlist is set */
    method FindRequest(id: int, offlist: bool) returns (item: KoclRequest?, ghost at: nat)
      modifies `rtdreqs
      ensures item == null ==> Holds() == old(Holds()) && forall i :: 0 <= i < |rtdreqs| ==> rtdreqs[i].id != id
      ensures item != null ==> FirstWithId(old(rtdreqs), id, at) && item == old(rtdreqs)[at]
      ensures item != null ==> Holds() == if offlist then FindView(old(Holds()), at) else old(Holds())
    {
      var pos := 0;
      at := 0;
      while pos < |rtdreqs|
        invariant 0 <= pos <= |rtdreqs|
        invariant rtdreqs == old(rtdreqs)
        invariant forall i :: 0 <= i < pos ==> rtdreqs[i].id != id
      {
        if rtdreqs[pos].id == id {
          item, at := rtdreqs[pos], pos;
          if offlist {
            rtdreqs := rtdreqs[..pos] + rtdreqs[pos + 1..];
          }
          return;
        }
        pos := pos + 1;
      }
      item := null;
    }

    /** kocl_write behind find_request: the code is set and the callback runs. */
    method Complete(item: KoclRequest, errcode: int)
      requires Keyed(Holds()) && item.id in objects && objects[item.id] == item
      requires item.callback.SyncCallback? ==> item.kdata.SyncData?
      modifies `invoked, item`errcode
      modifies if item.callback.SyncCallback? && item.kdata.SyncData? then {item.kdata.data} else {}
      ensures Holds() == CompleteView(old(Holds()), item, errcode)
    {
      assert forall id :: id in objects && id != item.id ==> objects[id] != item;
      item.errcode := errcode;
      match item.callback {
        case UserCallback(f) => invoked := invoked + [Invocation(f, item.kdata, item.errcode)];
        case SyncCallback => RunSyncCallback(item);
      }
      ghost var v, v' := Holds(), CompleteView(old(Holds()), item, errcode);
      assert v.fields == v'.fields;
      assert v.done == v'.done;
    }

    /** kocl_write: the response's request completes; false stands for -EFAULT. */
    method Write(resp: KuResponse, ghost s: S.Sys) returns (ok: bool, ghost at: nat)
      requires Keyed(Holds()) && Linked(Holds())
      modifies `rtdreqs, `invoked, (set r | r in rtdreqs)`errcode, records.Values
      ensures ok <==> exists r :: r in old(rtdreqs) && r.id == resp.id
      ensures !ok ==> Holds() == old(Holds())
      ensures ok ==> FirstWithId(old(rtdreqs), resp.id, at) && old(rtdreqs)[at].id in old(Holds()).fields
      ensures ok ==> Holds() == CompleteView(FindView(old(Holds()), at), old(rtdreqs)[at], resp.errcode)
      ensures TakesWrite(old(Holds()), s, Holds(), resp)
      ensures S.SysInv(s) && Represents(old(Holds()), s) && WritesFirstDone(s, resp) ==> ok
    {
      ghost var v := Holds();
      var item;
      item, at := FindRequest(resp.id, true);
      if item == null {
        WriteMisses(v, s, resp);
        return false, 0;
      }
      WriteFinds(v, s, resp, at);
      hide TakesWrite, WritesFirstDone, S.SysInv, Represents;
      Complete(item, resp.errcode);
      ok := true;
    }

    /** sync_callback; its kdata is a record whenever it is a request's callback. */
    method RunSyncCallback(req: KoclRequest)
      requires req.kdata.SyncData?
      modifies req.kdata.data
      ensures req.kdata.data.done
    {
      var data := req.kdata.data;
      data.done := true;
    }
  }

  function NextId(id: int): int {
    if id == INT_MAX then 0 else id + 1
  }

  function NthId(id: int, n: nat): int {
    if n == 0 then id else NextId(NthId(id, n - 1))
  }

  lemma {:induction false} NthIdWraps(id: int, n: nat)
    requires 0 <= id <= INT_MAX && n <= INT_MAX
    ensures NthId(id, n) == if id + n <= INT_MAX then id + n else id + n - INT_MAX - 1
  {
    if n > 0 { NthIdWraps(id, n - 1); }
  }

  /** Ids repeat only after 2^31 requests. */
  lemma IdsDistinct(id: int, i: nat, j: nat)
    requires 0 <= id <= INT_MAX && i < j <= INT_MAX
    ensures NthId(id, i) != NthId(id, j)
  {
    NthIdWraps(id, i);
    NthIdWraps(id, j);
  }
}
