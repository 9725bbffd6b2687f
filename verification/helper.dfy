/**
 kocl/helper.c and the queue allocator of kocl/gpuops.c as they run: six state lists
 and all_reqs rewritten by every operation, three arrays of queue flags scanned and
 set in place, and loops over the lists. Every method is proved to compute the
 function of module Pipeline it is named after.
 */
module Helper {
  import opened Wrappers
  import opened KoclTypes
  import opened Lists
  import opened Pipeline
  import opened PipelineSafety

  /** The responses that the answered items stand for. */
  function ResponsesOf(log: seq<Item>): seq<KuResponse> {
    seq(|log|, i requires 0 <= i < |log| => KuResponse(log[i].id, log[i].errcode))
  }

  class KoclHelper {
    var allReqs: seq<Ticket>
    var initReqs: seq<Item>
    var memdoneReqs: seq<Item>
    var preparedReqs: seq<Item>
    var runningReqs: seq<Item>
    var postExecReqs: seq<Item>
    var doneReqs: seq<Item>
    const queueUses: array<bool>
    const queueUses2: array<bool>
    const queueUses3: array<bool>
    /** The responses written to the device. */
    var responses: seq<KuResponse>
    var arrivals: nat
    ghost var log: seq<Item>
    ghost var arrived: seq<KuRequest>

    function Uses(d: Device): array<bool> {
      match d
      case Second => queueUses2
      case Third => queueUses3
      case Default => queueUses
    }

    ghost function Arrays(): set<object> { {queueUses, queueUses2, queueUses3} }

    ghost predicate Allocated() {
      && queueUses.Length == MAX_QUEUE_NR && queueUses2.Length == MAX_QUEUE_NR && queueUses3.Length == MAX_QUEUE_NR
      && queueUses != queueUses2 && queueUses != queueUses3 && queueUses2 != queueUses3
    }

    ghost function Busy(): set<Slot>
      requires Allocated()
      reads Arrays()
    {
      set d: Device, i | 0 <= i < MAX_QUEUE_NR && Uses(d)[i] :: Slot(d, i)
    }

    ghost function Abs(): State
      requires Allocated()
      reads this, Arrays()
    {
      State(allReqs, initReqs, memdoneReqs, preparedReqs, runningReqs, postExecReqs, doneReqs, Busy(), log, arrived)
    }

    ghost predicate Valid()
      reads this, Arrays()
    {
      Allocated() && arrivals == |arrived| && responses == ResponsesOf(log)
    }

    constructor ()
      ensures Valid() && Abs() == START && fresh(Arrays())
    {
      allReqs, initReqs, memdoneReqs, preparedReqs := [], [], [], [];
      runningReqs, postExecReqs, doneReqs := [], [], [];
      queueUses := new bool[MAX_QUEUE_NR](i => false);
      queueUses2 := new bool[MAX_QUEUE_NR](i => false);
      queueUses3 := new bool[MAX_QUEUE_NR](i => false);
      responses, arrivals, log, arrived := [], 0, [], [];
      new;
      assert Busy() == {};
    }

    /* ----- kocl/gpuops.c ----- */

    /** Takes the lowest free queue of a device; -1 when all are busy. */
    method GpuAllocCmdQueue(channel: int) returns (queueId: int)
      requires Allocated()
      modifies Arrays()
      ensures match FreeSlot(old(Busy()), DeviceOf(channel))
              case None => queueId == -1 && Busy() == old(Busy())
              case Some(q) => queueId == q && Busy() == old(Busy()) + {Slot(DeviceOf(channel), q)}
    {
      var d := DeviceOf(channel);
      var uses := Uses(d);
      var i := 0;
      while i < MAX_QUEUE_NR
        invariant 0 <= i <= MAX_QUEUE_NR
        invariant Busy() == old(Busy())
        invariant forall a: array<bool>, j | a in Arrays() && 0 <= j < a.Length :: a[j] == old(a[j])
        invariant FreeSlot(Busy(), d) == FreeSlotFrom(Busy(), d, i)
      {
        assert uses[i] <==> Slot(d, i) in Busy();
        if !uses[i] {
          uses[i] := true;
          assert forall c :: c in Busy() <==> c in old(Busy()) || c == Slot(d, i);
          return i;
        }
        i := i + 1;
      }
      return -1;
    }

    method GpuFreeCmdQueue(item: Item)
      requires Allocated()
      modifies Arrays()
      ensures Busy() == ReleaseQueue(old(Busy()), item)
    {
      if 0 <= item.queue < MAX_QUEUE_NR {
        Uses(DeviceOf(item.channel))[item.queue] := false;
        assert forall c :: c in Busy() <==> c in old(Busy()) && c != SlotOf(item);
      }
    }

    /* ----- kocl/helper.c: the operations ----- */

    /** The item has been unlinked from its list, if it was on one. */
    method FailRequest(item: Item, serr: int)
      modifies this`doneReqs
      ensures doneReqs == old(doneReqs) + [Failed(item, serr)]
    {
      doneReqs := doneReqs + [item.(stage := Done, errcode := serr)];
    }

    method InitServiceRequest(kureq: KuRequest, found: bool)
      requires Valid()
      modifies this
      ensures Valid()
      ensures Abs() == Pipeline.InitServiceRequest(old(Abs()), Arrival(kureq, found))
    {
      var item := Item(arrivals, kureq.id, kureq.channel, Init, 0, -1);
      allReqs := allReqs + [Ticket(item.stamp, item.id)];
      if !found {
        FailRequest(item, KOCL_NO_SERVICE);
      } else {
        initReqs := initReqs + [item];
      }
      arrivals, arrived := arrivals + 1, arrived + [kureq];
    }

    method RequestAllocMem() returns (r: int)
      requires Valid() && initReqs != []
      modifies this
      ensures Valid() && Abs() == Pipeline.RequestAllocMem(old(Abs())) && r == 0
    {
      var item := initReqs[0];
      initReqs := initReqs[1..];
      memdoneReqs := memdoneReqs + [item.(stage := MemDone)];
      r := 0;
    }

    /** kh_prepare_exec; an item of a device without a free queue stays and reports -1. */
    method PrepareExec(pos: nat, codes: Codes) returns (r: int, moved: bool)
      requires Valid() && pos < |memdoneReqs|
      modifies this, Arrays()
      ensures Valid() && Abs() == Pipeline.PrepareExec(old(Abs()), pos, codes.prepare(old(memdoneReqs)[pos].stamp))
      ensures moved == FreeSlot(old(Busy()), DeviceOf(old(memdoneReqs)[pos].channel)).Some?
      ensures r == if moved then codes.prepare(old(memdoneReqs)[pos].stamp) else -1
    {
      var item := memdoneReqs[pos];
      FreeSlotIsLowest(Busy(), DeviceOf(item.channel), 0);
      var queueId := GpuAllocCmdQueue(item.channel);
      if queueId < 0 {
        return -1, false;
      }
      item := item.(queue := queueId);
      r, moved := codes.prepare(item.stamp), true;
      memdoneReqs := RemoveAt(memdoneReqs, pos);
      if r != 0 {
        FailRequest(item, r);
      } else {
        preparedReqs := preparedReqs + [item.(stage := Prepared)];
      }
    }

    /** kh_launch_exec reports 0 whatever the service returns. */
    method LaunchExec(codes: Codes) returns (r: int)
      requires Valid() && preparedReqs != []
      modifies this
      ensures Valid() && r == 0
      ensures Abs() == Pipeline.LaunchExec(old(Abs()), codes.launch(old(preparedReqs)[0].stamp))
    {
      var item := preparedReqs[0];
      r := codes.launch(item.stamp);
      preparedReqs := preparedReqs[1..];
      if r != 0 {
        FailRequest(item, r);
      } else {
        runningReqs := runningReqs + [item.(stage := Running)];
      }
      r := 0;
    }

    method PostExec(codes: Codes) returns (r: int)
      requires Valid() && runningReqs != []
      modifies this
      ensures Valid() && r == codes.post(old(runningReqs)[0].stamp)
      ensures Abs() == Pipeline.PostExec(old(Abs()), r)
    {
      var item := runningReqs[0];
      r := codes.post(item.stamp);
      runningReqs := runningReqs[1..];
      if r == 0 {
        postExecReqs := postExecReqs + [item.(stage := Posted)];
      } else {
        FailRequest(item, r);
      }
    }

    method FinishPost() returns (r: int)
      requires Valid() && postExecReqs != []
      modifies this
      ensures Valid() && Abs() == Pipeline.FinishPost(old(Abs())) && r == 0
    {
      var item := postExecReqs[0];
      postExecReqs := postExecReqs[1..];
      doneReqs := doneReqs + [item.(stage := Done)];
      r := 0;
    }

    method ServiceDone() returns (r: int)
      requires Valid() && doneReqs != []
      modifies this, Arrays()
      ensures Valid() && Abs() == Pipeline.ServiceDone(old(Abs())) && r == 0
      ensures responses == old(responses) + [KuResponse(old(doneReqs)[0].id, old(doneReqs)[0].errcode)]
    {
      var item := doneReqs[0];
      responses := responses + [KuResponse(item.id, item.errcode)];
      doneReqs := doneReqs[1..];
      allReqs := Without(allReqs, Ticket(item.stamp, item.id));
      GpuFreeCmdQueue(item);
      log := log + [item.(queue := -1)];
      r := 0;
    }

    /* ----- __kh_process_request over each list ----- */

    method ProcessDone()
      requires Valid()
      modifies this, Arrays()
      ensures Valid() && Abs() == AnswerAll(old(Abs()))
    {
      while doneReqs != []
        invariant Valid() && AnswerAll(Abs()) == AnswerAll(old(Abs()))
        decreases |doneReqs|
      {
        var _ := ServiceDone();
      }
    }

    method ProcessPostExec()
      requires Valid()
      modifies this
      ensures Valid() && Abs() == FinishAll(old(Abs()))
    {
      while postExecReqs != []
        invariant Valid() && FinishAll(Abs()) == FinishAll(old(Abs()))
        decreases |postExecReqs|
      {
        var _ := FinishPost();
      }
    }

    method ProcessRunning(codes: Codes)
      requires Valid()
      modifies this
      ensures Valid() && Abs() == PostSome(old(Abs()), codes)
    {
      while runningReqs != []
        invariant Valid() && PostSome(Abs(), codes) == PostSome(old(Abs()), codes)
        decreases |runningReqs|
      {
        var r := PostExec(codes);
        if r == 0 {
          return;
        }
      }
    }

    method ProcessPrepared(codes: Codes)
      requires Valid()
      modifies this
      ensures Valid() && Abs() == LaunchSome(old(Abs()), codes)
    {
      if preparedReqs != [] {
        var _ := LaunchExec(codes);
      }
    }

    /** pos counts the items passed over; an item that leaves the list brings its successor to pos. */
    method ProcessMemdone(codes: Codes)
      requires Valid()
      modifies this, Arrays()
      ensures Valid() && Abs() == PrepareSome(old(Abs()), 0, codes)
    {
      var pos := 0;
      while pos < |memdoneReqs|
        invariant Valid() && pos <= |memdoneReqs|
        invariant PrepareSome(Abs(), pos, codes) == PrepareSome(old(Abs()), 0, codes)
        decreases |memdoneReqs| - pos
      {
        var r, moved := PrepareExec(pos, codes);
        if r == 0 {
          return;
        }
        if !moved {
          pos := pos + 1;
        }
      }
    }

    method ProcessInit()
      requires Valid()
      modifies this
      ensures Valid() && Abs() == AllocAll(old(Abs()))
    {
      while initReqs != []
        invariant Valid() && AllocAll(Abs()) == AllocAll(old(Abs()))
        decreases |initReqs|
      {
        var _ := RequestAllocMem();
      }
    }

    method GetNextServiceRequest(arrival: Option<Arrival>)
      requires Valid()
      modifies this
      ensures Valid() && Abs() == Receive(old(Abs()), arrival)
    {
      if arrival.Some? {
        InitServiceRequest(arrival.value.request, arrival.value.found);
      }
    }

    /** kh_main_loop, one iteration per input. */
    method MainLoop(inputs: seq<Input>)
      requires Valid()
      modifies this, Arrays()
      ensures Valid() && Abs() == Run(old(Abs()), inputs)
      ensures Inv(old(Abs())) ==> Inv(Abs())
    {
      if Inv(Abs()) { RunInv(Abs(), inputs); }
      var rest := inputs;
      while rest != []
        invariant Valid() && Run(Abs(), rest) == Run(old(Abs()), inputs)
        decreases |rest|
      {
        ghost var s := Abs();
        ProcessDone();
        ProcessPostExec();
        ProcessRunning(rest[0].codes);
        ProcessPrepared(rest[0].codes);
        ProcessMemdone(rest[0].codes);
        ProcessInit();
        GetNextServiceRequest(rest[0].arrival);
        assert Abs() == Pass(s, rest[0]);
        rest := rest[1..];
      }
    }
  }
}
