/**
 The helper's request pipeline (kocl/helper.c) and its command-queue allocator
 (kocl/gpuops.c) as functions on a state. The class in helper.dfy is proved
 to compute these functions in place.

 An item carries a `stamp`, the number of requests read before it. It stands for
 the identity of the malloc'd item and is never read by the code. Two histories
 are kept beside the lists: `arrived`, the requests read so far, and `log`, the
 items already answered, in the order of their responses.
 */
module Pipeline {
  import opened Wrappers
  import opened KoclTypes
  import opened Lists

  datatype Stage = Init | MemDone | Prepared | Running | Posted | Done

  datatype Item = Item(stamp: nat, id: int, channel: int, stage: Stage, errcode: int, queue: int)

  /** An item's node on all_reqs. */
  datatype Ticket = Ticket(stamp: nat, id: int)

  /** A command queue: the device whose array holds it and its index there. */
  datatype Slot = Slot(device: Device, index: int)

  datatype State = State(
    all: seq<Ticket>,
    init: seq<Item>, mem: seq<Item>, prepared: seq<Item>,
    running: seq<Item>, post: seq<Item>, done: seq<Item>,
    busy: set<Slot>,
    log: seq<Item>,
    arrived: seq<KuRequest>)

  /** The return codes of the services' functions during one pass of the main loop. */
  datatype Codes = Codes(prepare: nat -> int, launch: nat -> int, post: nat -> int)

  /** One read of the device: the request and whether its service is registered. */
  datatype Arrival = Arrival(request: KuRequest, found: bool)

  /** Everything outside the helper that one pass of the main loop depends on. */
  datatype Input = Input(codes: Codes, arrival: Option<Arrival>)

  const START := State([], [], [], [], [], [], [], {}, [], [])

  function TicketOf(x: Item): Ticket { Ticket(x.stamp, x.id) }

  function SlotOf(x: Item): Slot { Slot(DeviceOf(x.channel), x.queue) }

  /* ----- gpu_alloc_cmdQueue, gpu_free_cmdQueue ----- */

  function FreeSlotFrom(busy: set<Slot>, d: Device, i: nat): Option<nat>
    requires i <= MAX_QUEUE_NR
    decreases MAX_QUEUE_NR - i
  {
    if i == MAX_QUEUE_NR then None
    else if Slot(d, i) !in busy then Some(i)
    else FreeSlotFrom(busy, d, i + 1)
  }

  function FreeSlot(busy: set<Slot>, d: Device): Option<nat> {
    FreeSlotFrom(busy, d, 0)
  }

  function ReleaseQueue(busy: set<Slot>, x: Item): set<Slot> {
    if 0 <= x.queue < MAX_QUEUE_NR then busy - {SlotOf(x)} else busy
  }

  /* ----- the operations on one item ----- */

  function Failed(x: Item, serr: int): Item {
    x.(stage := Done, errcode := serr)
  }

  function NewItem(s: State, r: KuRequest): Item {
    Item(|s.arrived|, r.id, r.channel, Init, 0, -1)
  }

  /** kh_init_service_request */
  function InitServiceRequest(s: State, a: Arrival): State {
    var x := NewItem(s, a.request);
    var s := s.(all := s.all + [TicketOf(x)], arrived := s.arrived + [a.request]);
    if a.found then s.(init := s.init + [x])
    else s.(done := s.done + [Failed(x, KOCL_NO_SERVICE)])
  }

  /** kh_request_alloc_mem on the first item of init_reqs */
  function RequestAllocMem(s: State): State
    requires s.init != []
  {
    s.(init := s.init[1..], mem := s.mem + [s.init[0].(stage := MemDone)])
  }

  /** kh_prepare_exec on the k-th item of memdone_reqs */
  function PrepareExec(s: State, k: nat, code: int): State
    requires k < |s.mem|
  {
    match FreeSlot(s.busy, DeviceOf(s.mem[k].channel))
    case None => s
    case Some(q) =>
      var x := s.mem[k].(queue := q);
      var s := s.(mem := RemoveAt(s.mem, k), busy := s.busy + {SlotOf(x)});
      if code != 0 then s.(done := s.done + [Failed(x, code)])
      else s.(prepared := s.prepared + [x.(stage := Prepared)])
  }

  /** kh_launch_exec on the first item of prepared_reqs */
  function LaunchExec(s: State, code: int): State
    requires s.prepared != []
  {
    var x := s.prepared[0];
    var s := s.(prepared := s.prepared[1..]);
    if code != 0 then s.(done := s.done + [Failed(x, code)])
    else s.(running := s.running + [x.(stage := Running)])
  }

  /** kh_post_exec on the first item of running_reqs */
  function PostExec(s: State, code: int): State
    requires s.running != []
  {
    var x := s.running[0];
    var s := s.(running := s.running[1..]);
    if code != 0 then s.(done := s.done + [Failed(x, code)])
    else s.(post := s.post + [x.(stage := Posted)])
  }

  /** kh_finish_post on the first item of post_exec_reqs */
  function FinishPost(s: State): State
    requires s.post != []
  {
    s.(post := s.post[1..], done := s.done + [s.post[0].(stage := Done)])
  }

  /** kh_service_done on the first item of done_reqs; the answered item no longer owns a queue */
  function ServiceDone(s: State): State
    requires s.done != []
  {
    var x := s.done[0];
    s.(done := s.done[1..], all := Without(s.all, TicketOf(x)),
       busy := ReleaseQueue(s.busy, x), log := s.log + [x.(queue := -1)])
  }

  /* ----- __kh_process_request over each list ----- */

  function AnswerAll(s: State): State
    decreases |s.done|
  {
    if s.done == [] then s else AnswerAll(ServiceDone(s))
  }

  function FinishAll(s: State): State
    decreases |s.post|
  {
    if s.post == [] then s else FinishAll(FinishPost(s))
  }

  /** Goes on past failures and stops at the first success. */
  function PostSome(s: State, codes: Codes): State
    decreases |s.running|
  {
    if s.running == [] then s
    else
      var code := codes.post(s.running[0].stamp);
      if code == 0 then PostExec(s, code) else PostSome(PostExec(s, code), codes)
  }

  /** kh_launch_exec always reports 0, so exactly one item is tried. */
  function LaunchSome(s: State, codes: Codes): State {
    if s.prepared == [] then s else LaunchExec(s, codes.launch(s.prepared[0].stamp))
  }

  /** From the k-th item on: goes on past items without a free queue and past failures. */
  function PrepareSome(s: State, k: nat, codes: Codes): State
    requires k <= |s.mem|
    decreases |s.mem| - k
  {
    if k == |s.mem| then s
    else
      var code := codes.prepare(s.mem[k].stamp);
      if FreeSlot(s.busy, DeviceOf(s.mem[k].channel)).None? then PrepareSome(s, k + 1, codes)
      else if code != 0 then PrepareSome(PrepareExec(s, k, code), k, codes)
      else PrepareExec(s, k, code)
  }

  function AllocAll(s: State): State
    decreases |s.init|
  {
    if s.init == [] then s else AllocAll(RequestAllocMem(s))
  }

  function Receive(s: State, arrival: Option<Arrival>): State {
    match arrival
    case None => s
    case Some(a) => InitServiceRequest(s, a)
  }

  /** One iteration of kh_main_loop. */
  function Pass(s: State, input: Input): State {
    var s1 := FinishAll(AnswerAll(s));
    var s2 := LaunchSome(PostSome(s1, input.codes), input.codes);
    Receive(AllocAll(PrepareSome(s2, 0, input.codes)), input.arrival)
  }

  /** kh_main_loop: one pass per input. */
  function Run(s: State, inputs: seq<Input>): State
    decreases |inputs|
  {
    if inputs == [] then s else Run(Pass(s, inputs[0]), inputs[1..])
  }
}
