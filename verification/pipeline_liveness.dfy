/**
 Progress of the pipeline: what one pass of the main loop does to each list, the
 bounded answer to every request under arbitrary arrivals and return codes, and
 the drain of the pipeline once arrivals stop.
 */
module PipelineLiveness {
  import opened Wrappers
  import opened KoclTypes
  import opened Lists
  import opened Pipeline
  import opened PipelineSafety

  /* ----- the loops in closed form ----- */

  function Restaged(l: seq<Item>, stage: Stage): seq<Item> {
    seq(|l|, i requires 0 <= i < |l| => l[i].(stage := stage))
  }

  function Released(l: seq<Item>): seq<Item> {
    seq(|l|, i requires 0 <= i < |l| => l[i].(queue := -1))
  }

  function Failures(l: seq<Item>, code: nat -> int): seq<Item> {
    seq(|l|, i requires 0 <= i < |l| => Failed(l[i], code(l[i].stamp)))
  }

  /** The position of the first item whose code is 0, or the length. */
  function FirstOk(l: seq<Item>, code: nat -> int): (n: nat)
    ensures n <= |l|
    ensures forall i :: 0 <= i < n ==> code(l[i].stamp) != 0
    ensures n < |l| ==> code(l[n].stamp) == 0
  {
    if l == [] || code(l[0].stamp) == 0 then 0 else 1 + FirstOk(l[1..], code)
  }

  lemma RestagedBehind(front: seq<Item>, l: seq<Item>, stage: Stage)
    requires l != []
    ensures front + Restaged(l, stage) == front + [l[0].(stage := stage)] + Restaged(l[1..], stage)
  {
  }

  lemma AnswerAllEffect(s: State)
    ensures AnswerAll(s) ==
      s.(done := [], log := s.log + Released(s.done), all := AnswerAll(s).all, busy := AnswerAll(s).busy)
    ensures forall t :: t in AnswerAll(s).all ==> t in s.all
    decreases |s.done|
  {
    if s.done == [] {
      assert s.log + Released(s.done) == s.log;
    } else {
      AnswerAllEffect(ServiceDone(s));
      assert Released(s.done) == [s.done[0].(queue := -1)] + Released(s.done[1..]);
      assert s.log + Released(s.done) == s.log + [s.done[0].(queue := -1)] + Released(s.done[1..]);
      WithoutSubset(s.all, TicketOf(s.done[0]));
    }
  }

  lemma WithoutSubset(all: seq<Ticket>, t: Ticket)
    ensures forall u :: u in Without(all, t) ==> u in all
  {
  }

  lemma FinishAllEffect(s: State)
    ensures FinishAll(s) == s.(post := [], done := s.done + Restaged(s.post, Done))
    decreases |s.post|
  {
    if s.post == [] {
      assert s.done + Restaged(s.post, Done) == s.done;
    } else {
      FinishAllEffect(FinishPost(s));
      RestagedBehind(s.done, s.post, Done);
    }
  }

  lemma FailuresBehind(front: seq<Item>, l: seq<Item>, n: nat, code: nat -> int)
    requires 0 < n <= |l|
    ensures front + [Failed(l[0], code(l[0].stamp))] + Failures(l[1..][..n - 1], code) == front + Failures(l[..n], code)
  {
    assert Failures(l[..n], code) == [Failed(l[0], code(l[0].stamp))] + Failures(l[1..][..n - 1], code);
  }

  lemma PostSomeEffect(s: State, codes: Codes)
    ensures
      var n := FirstOk(s.running, codes.post);
      PostSome(s, codes) == s.(
        done := s.done + Failures(s.running[..n], codes.post),
        post := if n < |s.running| then s.post + [s.running[n].(stage := Posted)] else s.post,
        running := if n < |s.running| then s.running[n + 1..] else [])
    decreases |s.running|
  {
    var n := FirstOk(s.running, codes.post);
    if s.running == [] || n == 0 {
      assert Failures(s.running[..0], codes.post) == [];
      assert s.done + [] == s.done;
    } else {
      var s1 := PostExec(s, codes.post(s.running[0].stamp));
      assert PostSome(s, codes) == PostSome(s1, codes);
      PostSomeEffect(s1, codes);
      FailuresBehind(s.done, s.running, n, codes.post);
      hide PostSome, Failures;
    }
  }

  lemma AllocAllEffect(s: State)
    ensures AllocAll(s) == s.(init := [], mem := s.mem + Restaged(s.init, MemDone))
    decreases |s.init|
  {
    if s.init == [] {
      assert s.mem + Restaged(s.init, MemDone) == s.mem;
    } else {
      AllocAllEffect(RequestAllocMem(s));
      RestagedBehind(s.mem, s.init, MemDone);
    }
  }

  ghost predicate HasStamp(l: seq<Item>, k: nat) {
    exists i :: 0 <= i < |l| && l[i].stamp == k
  }

  /** kh_prepare_exec touches memdone_reqs, prepared_reqs and done_reqs only, and queues at most one item. */
  lemma PrepareSomeFrame(s: State, k: nat, codes: Codes)
    requires k <= |s.mem|
    ensures
      var s' := PrepareSome(s, k, codes);
      && s' == s.(mem := s'.mem, done := s'.done, prepared := s'.prepared, busy := s'.busy)
      && s.done <= s'.done && s.prepared <= s'.prepared && |s'.prepared| <= |s.prepared| + 1
      && |s'.mem| + |s'.prepared| + |s'.done| == |s.mem| + |s.prepared| + |s.done|
      && (forall y :: y in s'.mem ==> y in s.mem)
    decreases |s.mem| - k
  {
    if k < |s.mem| {
      var code := codes.prepare(s.mem[k].stamp);
      match FreeSlot(s.busy, DeviceOf(s.mem[k].channel))
      case None => PrepareSomeFrame(s, k + 1, codes);
      case Some(q) =>
        if code != 0 { PrepareSomeFrame(PrepareExec(s, k, code), k, codes); }
    }
  }

  /** Where an item of memdone_reqs is after the loop. */
  ghost predicate Fate(s: State, s': State, x: Item) {
    || x in s'.mem
    || (HasStamp(s'.prepared, x.stamp) && |s'.prepared| > |s.prepared|)
    || (exists y :: y in s'.done && y.stamp == x.stamp && y.errcode != 0)
  }

  /** kh_prepare_exec leaves each item where it is, queues it behind prepared_reqs, or fails it. */
  lemma PrepareSomeFate(s: State, k: nat, codes: Codes, x: Item)
    requires k <= |s.mem| && x in s.mem
    ensures Fate(s, PrepareSome(s, k, codes), x)
    decreases |s.mem| - k
  {
    if k < |s.mem| {
      var code := codes.prepare(s.mem[k].stamp);
      match FreeSlot(s.busy, DeviceOf(s.mem[k].channel))
      case None => PrepareSomeFate(s, k + 1, codes, x);
      case Some(q) =>
        var s1 := PrepareExec(s, k, code);
        assert s.mem == s.mem[..k] + [s.mem[k]] + s.mem[k + 1..];
        if code == 0 {
          assert s1.prepared[|s.prepared|].stamp == s.mem[k].stamp;
        } else {
          PrepareSomeFrame(s1, k, codes);
          assert s1.done[|s.done|] in PrepareSome(s, k, codes).done;
          if x in s1.mem { PrepareSomeFate(s1, k, codes, x); }
        }
    }
  }

  /* ----- one pass, in the middle and as a whole ----- */

  /** The state of a pass after the first four lists have been processed. */
  function Front(s: State, codes: Codes): State {
    LaunchSome(PostSome(FinishAll(AnswerAll(s)), codes), codes)
  }

  lemma FrontEffect(s: State, codes: Codes)
    ensures
      var n := FirstOk(s.running, codes.post);
      var s' := Front(s, codes);
      var tail := if n < |s.running| then s.running[n + 1..] else [];
      && s'.log == s.log + Released(s.done)
      && s'.mem == s.mem && s'.init == s.init && s'.arrived == s.arrived
      && Restaged(s.post, Done) + Failures(s.running[..n], codes.post) <= s'.done
      && s'.post == (if n < |s.running| then [s.running[n].(stage := Posted)] else [])
      && (s.prepared == [] ==> s'.running == tail && s'.prepared == [])
      && (s.prepared != [] ==>
            && s'.prepared == s.prepared[1..]
            && (|| (s'.running == tail + [s.prepared[0].(stage := Running)])
                || (s'.running == tail && HasStamp(s'.done, s.prepared[0].stamp))))
  {
    PostedEffect(s, codes);
    var s2 := PostSome(FinishAll(AnswerAll(s)), codes);
    assert Front(s, codes) == LaunchSome(s2, codes);
    hide AnswerAll, FinishAll, PostSome, Front, Restaged, Failures, Released, FirstOk;
    if s2.prepared != [] && codes.launch(s2.prepared[0].stamp) != 0 {
      assert LaunchSome(s2, codes).done[|s2.done|].stamp == s.prepared[0].stamp;
    }
  }

  /** The first three of them. */
  lemma PostedEffect(s: State, codes: Codes)
    ensures
      var n := FirstOk(s.running, codes.post);
      var s2 := PostSome(FinishAll(AnswerAll(s)), codes);
      && s2.log == s.log + Released(s.done)
      && s2.mem == s.mem && s2.init == s.init && s2.arrived == s.arrived && s2.prepared == s.prepared
      && s2.done == Restaged(s.post, Done) + Failures(s.running[..n], codes.post)
      && s2.post == (if n < |s.running| then [s.running[n].(stage := Posted)] else [])
      && s2.running == (if n < |s.running| then s.running[n + 1..] else [])
  {
    hide AnswerAll, FinishAll, PostSome, Restaged, Failures, Released, FirstOk;
    FinishedEffect(s);
    var s1 := FinishAll(AnswerAll(s));
    assert s1.running == s.running;
    PostSomeEffect(s1, codes);
  }

  lemma FinishedEffect(s: State)
    ensures
      var s1 := FinishAll(AnswerAll(s));
      && s1.log == s.log + Released(s.done) && s1.done == Restaged(s.post, Done) && s1.post == []
      && s1.mem == s.mem && s1.init == s.init && s1.arrived == s.arrived && s1.prepared == s.prepared
      && s1.running == s.running
  {
    hide AnswerAll, FinishAll, Restaged, Released;
    AnswerAllEffect(s);
    FinishAllEffect(AnswerAll(s));
    assert [] + Restaged(s.post, Done) == Restaged(s.post, Done);
  }

  lemma PassEffect(s: State, input: Input)
    ensures
      var s3, s' := Front(s, input.codes), Pass(s, input);
      && s'.log == s3.log && s'.post == s3.post && s'.running == s3.running
      && s3.done <= s'.done && s3.prepared <= s'.prepared
      && s.arrived <= s'.arrived
      && |PrepareSome(s3, 0, input.codes).mem| <= |s'.mem|
      && PrepareSome(s3, 0, input.codes).mem + Restaged(s3.init, MemDone) == s'.mem
      && PrepareSome(s3, 0, input.codes).done <= s'.done
      && s'.prepared == PrepareSome(s3, 0, input.codes).prepared
  {
    FrontEffect(s, input.codes);
    PrepareSomeFrame(Front(s, input.codes), 0, input.codes);
    AllocAllEffect(PrepareSome(Front(s, input.codes), 0, input.codes));
  }

  /** What the first four loops make of post_exec_reqs and of the tried part of running_reqs. */
  lemma Advanced(s: State, input: Input)
    ensures
      var n, s' := FirstOk(s.running, input.codes.post), Pass(s, input);
      && (forall i :: 0 <= i < |s.post| ==> i < |s'.done| && s'.done[i] == s.post[i].(stage := Done))
      && |s.post| + n <= |s'.done|
      && (forall q :: 0 <= q < n ==>
            s'.done[|s.post| + q] == Failed(s.running[q], input.codes.post(s.running[q].stamp)))
      && (n < |s.running| ==> s'.post == [s.running[n].(stage := Posted)])
      && (forall q :: n < q < |s.running| ==> q - n - 1 < |s'.running| && s'.running[q - n - 1] == s.running[q])
  {
    var n, s' := FirstOk(s.running, input.codes.post), Pass(s, input);
    PassEffect(s, input);
    FrontEffect(s, input.codes);
    hide Pass, Front, FirstOk, PrepareSome;
    FrontOf(Restaged(s.post, Done), Failures(s.running[..n], input.codes.post), s'.done);
  }

  lemma FrontOf(a: seq<Item>, b: seq<Item>, l: seq<Item>)
    requires a + b <= l
    ensures forall i :: 0 <= i < |a| ==> l[i] == a[i]
    ensures forall q :: 0 <= q < |b| ==> l[|a| + q] == b[q]
  {
    assert forall i :: 0 <= i < |a| ==> (a + b)[i] == a[i];
    assert forall q :: 0 <= q < |b| ==> (a + b)[|a| + q] == b[q];
  }

  /* ----- the oldest request waits a bounded number of passes ----- */

  function OrOne(n: nat): nat { if n == 0 then 1 else n }

  /** The longest a request at the front of all_reqs can wait: 24 items share the queues. */
  const LONGEST_WAIT := 29

  /** Item k, if nothing older is live, needs at most n more passes. */
  ghost predicate Within(s: State, k: nat, n: int) {
    || (HasStamp(s.done, k) && 1 <= n)
    || (HasStamp(s.post, k) && 2 <= n)
    || (exists q :: 0 <= q < |s.running| && s.running[q].stamp == k && q + 3 <= n)
    || (exists p :: 0 <= p < |s.prepared| && s.prepared[p].stamp == k && p + OrOne(|s.running|) + 3 <= n)
    || (HasStamp(s.mem, k) && 28 <= n)
    || (HasStamp(s.init, k) && 29 <= n)
  }

  ghost predicate Answered(s: State, k: nat) { HasStamp(s.log, k) }

  lemma FromDone(s: State, input: Input, k: nat)
    requires HasStamp(s.done, k)
    ensures Answered(Pass(s, input), k)
  {
    PassEffect(s, input);
    FrontEffect(s, input.codes);
    var i :| 0 <= i < |s.done| && s.done[i].stamp == k;
    assert Pass(s, input).log[|s.log| + i].stamp == k;
  }

  lemma FromPost(s: State, input: Input, k: nat)
    requires HasStamp(s.post, k)
    ensures Within(Pass(s, input), k, 1)
  {
    Advanced(s, input);
    var i :| 0 <= i < |s.post| && s.post[i].stamp == k;
    assert Pass(s, input).done[i].stamp == k;
  }

  lemma FromRunning(s: State, input: Input, q: nat)
    requires q < |s.running|
    ensures Within(Pass(s, input), s.running[q].stamp, q + 2)
  {
    var k, n, s' := s.running[q].stamp, FirstOk(s.running, input.codes.post), Pass(s, input);
    Advanced(s, input);
    if q < n {
      assert s'.done[|s.post| + q].stamp == k;
    } else if q == n {
      assert s'.post[0].stamp == k;
    } else {
      assert s'.running[q - n - 1].stamp == k;
    }
  }

  lemma FromPrepared(s: State, input: Input, p: nat)
    requires p < |s.prepared|
    ensures Within(Pass(s, input), s.prepared[p].stamp, p + OrOne(|s.running|) + 2)
  {
    var k, s' := s.prepared[p].stamp, Pass(s, input);
    PassEffect(s, input);
    FrontEffect(s, input.codes);
    if p > 0 {
      assert s'.prepared[p - 1].stamp == k;
    } else if HasStamp(Front(s, input.codes).done, k) {
      var i :| 0 <= i < |Front(s, input.codes).done| && Front(s, input.codes).done[i].stamp == k;
      assert s'.done[i].stamp == k;
    } else {
      assert s'.running[|s'.running| - 1].stamp == k;
    }
  }

  lemma FromInit(s: State, input: Input, k: nat)
    requires HasStamp(s.init, k)
    ensures Within(Pass(s, input), k, 28)
  {
    PassEffect(s, input);
    FrontEffect(s, input.codes);
    var i :| 0 <= i < |s.init| && s.init[i].stamp == k;
    var mem := PrepareSome(Front(s, input.codes), 0, input.codes).mem;
    assert Pass(s, input).mem[|mem| + i].stamp == k;
  }

  /* ----- a free queue for the oldest request ----- */

  lemma OldestIsLeast(s: State, x: Item)
    requires Inv(s) && x in Live(s)
    ensures s.all != [] && s.all[0].stamp <= x.stamp
  {
    assert TicketOf(x) in Members(s.all);
  }

  lemma FirstOfMem(s: State, i: nat)
    requires ByStamp(s.mem + s.init) && i < |s.mem|
    ensures i == 0 || s.mem[0].stamp < s.mem[i].stamp
  {
    assert (s.mem + s.init)[0] == s.mem[0] && (s.mem + s.init)[i] == s.mem[i];
  }

  lemma OldestInMemIsFirst(s: State)
    requires Inv(s) && s.all != [] && HasStamp(s.mem, s.all[0].stamp)
    ensures s.mem[0].stamp == s.all[0].stamp
  {
    var i :| 0 <= i < |s.mem| && s.mem[i].stamp == s.all[0].stamp;
    assert s.mem[0] in Live(s);
    OldestIsLeast(s, s.mem[0]);
    FirstOfMem(s, i);
  }

  /** y is an item of l, possibly further on. */
  ghost predicate StemsFrom(l: seq<Item>, y: Item) {
    exists x :: x in l && x.stamp == y.stamp && x.channel == y.channel
  }

  lemma StemsFromLoop(l: seq<Item>, stage: Stage, code: nat -> int, y: Item)
    requires y in Restaged(l, stage) || y in Failures(l, code)
    ensures StemsFrom(l, y)
  {
    if y in Restaged(l, stage) {
      var i :| 0 <= i < |l| && Restaged(l, stage)[i] == y;
      assert l[i] in l;
    } else {
      var i :| 0 <= i < |l| && Failures(l, code)[i] == y;
      assert l[i] in l && y == Failed(l[i], code(l[i].stamp));
    }
  }

  /** Whatever can hold a queue when kh_prepare_exec runs was past memdone_reqs when the pass began. */
  lemma HolderOrigin(s: State, codes: Codes, y: Item)
    requires y in Front(s, codes).done + Front(s, codes).post + Front(s, codes).running + Front(s, codes).prepared
    ensures StemsFrom(s.post, y) || StemsFrom(s.running, y) || StemsFrom(s.prepared, y)
  {
    var s1 := FinishAll(AnswerAll(s));
    var s2 := PostSome(s1, codes);
    var n := FirstOk(s.running, codes.post);
    AnswerAllEffect(s);
    FinishAllEffect(AnswerAll(s));
    PostSomeEffect(s1, codes);
    if y in s2.done {
      if y in Restaged(s.post, Done) {
        StemsFromLoop(s.post, Done, codes.post, y);
      } else {
        StemsFromLoop(s.running[..n], Done, codes.post, y);
      }
    } else if y in s2.post {
      assert s.running[n] in s.running;
    } else if y in s2.running {
      assert y in s.running;
    } else if y in s.prepared {
      assert StemsFrom(s.prepared, y);
    } else {
      assert s.prepared[0] in s.prepared;
    }
  }

  /** The oldest request is never blocked on a command queue: any holder would be older. */
  lemma OldestGetsQueue(s: State, codes: Codes)
    requires Inv(s) && s.all != [] && HasStamp(s.mem, s.all[0].stamp)
    ensures Front(s, codes).mem == s.mem
    ensures FreeSlot(Front(s, codes).busy, DeviceOf(s.mem[0].channel)).Some?
  {
    var s', d := Front(s, codes), DeviceOf(s.mem[0].channel);
    FrontEffect(s, codes);
    OldestInMemIsFirst(s);
    FrontInv(s, codes);
    forall y | y in Live(s') && y.queue >= 0 ensures DeviceOf(y.channel) != d {
      assert y in s'.done + s'.post + s'.running + s'.prepared;
      HolderOrigin(s, codes, y);
      var ahead := s.post + s.running + s.prepared;
      var x :| x in ahead && x.stamp == y.stamp && x.channel == y.channel;
      var i :| 0 <= i < |ahead| && ahead[i] == x;
      AheadOfMem(s, i);
      OldestIsLeast(s, x);
    }
    FreeSlotIsLowest(s'.busy, d, 0);
    assert Slot(d, 0) !in s'.busy;
  }

  lemma FrontInv(s: State, codes: Codes)
    requires Inv(s)
    ensures Inv(Front(s, codes))
  {
    AnswerAllInv(s);
    FinishAllInv(AnswerAll(s));
    PostSomeInv(FinishAll(AnswerAll(s)), codes);
    LaunchSomeInv(PostSome(FinishAll(AnswerAll(s)), codes), codes);
  }

  lemma AheadOfMem(s: State, i: nat)
    requires Inv(s) && s.mem != [] && i < |s.post + s.running + s.prepared|
    ensures
      var x := (s.post + s.running + s.prepared)[i];
      x in Live(s) && Compatible(x, s.mem[0]) && x.errcode == 0 && s.mem[0].errcode == 0
  {
    var x := (s.post + s.running + s.prepared)[i];
    PairwiseSuffix(s.log, Live(s));
    assert Live(s)[|s.done| + i] == x;
    MemInLive(s);
    assert Live(s)[MemAt(s) + 0] == s.mem[0];
    assert Compatible(Live(s)[|s.done| + i], Live(s)[MemAt(s)]);
    assert x in s.post || x in s.running || x in s.prepared;
  }

  /* ----- at most 24 items hold queues ----- */

  lemma HoldersCount(l: seq<Item>)
    requires Pairwise(l) && forall x :: x in l ==> x.queue >= 0
    ensures |Holders(l)| == |l|
  {
    if l == [] {
      assert Holders(l) == {};
    } else {
      assert l == [l[0]] + l[1..];
      FirstLeaves(l[0], l[1..]);
      forall i, j | 0 <= i < j < |l[1..]| ensures Compatible(l[1..][i], l[1..][j]) {
        assert Compatible(l[i + 1], l[j + 1]);
      }
      HoldersCount(l[1..]);
      assert SlotOf(l[0]) in Holders(l);
    }
  }

  function QueuesOf(d: Device, n: nat): (r: set<Slot>)
    ensures |r| == n
    ensures forall c :: c in r <==> c.device == d && 0 <= c.index < n
  {
    if n == 0 then {} else {Slot(d, n - 1)} + QueuesOf(d, n - 1)
  }

  lemma SubsetCard<T>(a: set<T>, b: set<T>)
    requires a <= b
    ensures |a| <= |b|
  {
    assert b == a + (b - a);
  }

  lemma UnionCard<T>(a: set<T>, b: set<T>)
    ensures |a + b| <= |a| + |b|
  {
    assert a + b == a + (b - a);
    SubsetCard(b - a, b);
  }

  lemma AllQueues(q: set<Slot>, n: nat)
    requires forall c :: c in q ==> 0 <= c.index < n
    ensures |q| <= 3 * n
  {
    var a, b, c := QueuesOf(Default, n), QueuesOf(Second, n), QueuesOf(Third, n);
    UnionCard(a, b);
    UnionCard(a + b, c);
    SubsetCard(q, a + b + c);
  }

  /** Running and prepared items together are at most the 3 * 8 command queues. */
  lemma Capacity(s: State)
    requires Inv(s)
    ensures |s.running| + |s.prepared| <= 3 * MAX_QUEUE_NR
  {
    var l, n := s.running + s.prepared, |s.done| + |s.post|;
    assert Pairwise(l) by {
      PairwiseSuffix(s.log, Live(s));
      RunningAndPrepared(s);
      forall i, j | 0 <= i < j < |l| ensures Compatible(l[i], l[j]) {
        assert Compatible(Live(s)[n + i], Live(s)[n + j]);
      }
    }
    HoldersCount(l);
    AllQueues(Holders(l), MAX_QUEUE_NR);
  }

  lemma RunningAndPrepared(s: State)
    ensures forall i :: 0 <= i < |s.running + s.prepared| ==>
      (s.running + s.prepared)[i] == Live(s)[|s.done| + |s.post| + i]
  {
  }

  lemma FromMem(s: State, input: Input)
    requires Inv(s) && s.all != [] && HasStamp(s.mem, s.all[0].stamp)
    ensures Within(Pass(s, input), s.all[0].stamp, 27)
  {
    var s3, s' := Front(s, input.codes), Pass(s, input);
    PassEffect(s, input);
    OldestInMemIsFirst(s);
    OldestGetsQueue(s, input.codes);
    PassInv(s, input);
    Capacity(s');
    var code := input.codes.prepare(s.mem[0].stamp);
    var s4 := PrepareExec(s3, 0, code);
    if code == 0 {
      assert s'.prepared[|s3.prepared|].stamp == s.all[0].stamp;
    } else {
      PrepareSomeFrame(s4, 0, input.codes);
      assert s'.done[|s3.done|].stamp == s.all[0].stamp;
    }
  }

  /* ----- the bounded answer ----- */

  lemma FrontAll(s: State, codes: Codes)
    ensures Front(s, codes).all == AnswerAll(s).all
  {
    FinishAllEffect(AnswerAll(s));
    PostSomeEffect(FinishAll(AnswerAll(s)), codes);
  }

  lemma PassAll(s: State, input: Input)
    ensures Pass(s, input).all == Front(s, input.codes).all + match input.arrival
                                                              case None => []
                                                              case Some(a) => [Ticket(|s.arrived|, a.request.id)]
  {
    FrontEffect(s, input.codes);
    PrepareSomeFrame(Front(s, input.codes), 0, input.codes);
    AllocAllEffect(PrepareSome(Front(s, input.codes), 0, input.codes));
  }

  lemma AllGrowsBehind(s: State, input: Input)
    ensures forall t :: t in Pass(s, input).all && t.stamp < |s.arrived| ==> t in s.all
    ensures s.log <= Pass(s, input).log && s.arrived <= Pass(s, input).arrived
  {
    PassEffect(s, input);
    FrontEffect(s, input.codes);
    hide *;
    PassAll(s, input);
    FrontAll(s, input.codes);
    AnswerAllEffect(s);
  }

  lemma LiveOrAnswered(s: State, k: nat)
    requires Inv(s) && k < |s.arrived|
    ensures Answered(s, k) <==> !exists t :: t in s.all && t.stamp == k
  {
    Partition(s, k);
    var i: nat :| StampOnlyAt(s.log + Live(s), i, k)
      && (i >= |s.log| <==> Ticket(k, s.arrived[k].id) in s.all);
    if i < |s.log| {
      assert s.log[i].stamp == k;
      forall t | t in s.all ensures t.stamp != k {
        assert t in Tickets(Live(s)) by { assert t in Members(s.all); }
        var y :| y in Live(s) && TicketOf(y) == t;
        var m :| 0 <= m < |Live(s)| && Live(s)[m] == y;
        assert (s.log + Live(s))[|s.log| + m] == y;
      }
    } else {
      forall m | 0 <= m < |s.log| ensures s.log[m].stamp != k {
        assert (s.log + Live(s))[m] == s.log[m];
      }
    }
  }

  /** A live item is within LONGEST_WAIT of its answer once it is the oldest. */
  lemma OldestStarts(s: State)
    requires Inv(s) && s.all != []
    ensures Within(s, s.all[0].stamp, LONGEST_WAIT)
  {
    assert s.all[0] in Tickets(Live(s)) by { assert s.all[0] in Members(s.all); }
    var y :| y in Live(s) && TicketOf(y) == s.all[0];
    Capacity(s);
  }

  lemma OldestAdvances(s: State, input: Input, n: nat)
    requires Inv(s) && s.all != [] && Within(s, s.all[0].stamp, n)
    ensures n > 0
    ensures Answered(Pass(s, input), s.all[0].stamp) || Within(Pass(s, input), s.all[0].stamp, n - 1)
  {
    var k := s.all[0].stamp;
    if HasStamp(s.done, k) && 1 <= n {
      FromDone(s, input, k);
    } else if HasStamp(s.post, k) && 2 <= n {
      FromPost(s, input, k);
    } else if q :| 0 <= q < |s.running| && s.running[q].stamp == k && q + 3 <= n {
      FromRunning(s, input, q);
    } else if p :| 0 <= p < |s.prepared| && s.prepared[p].stamp == k && p + OrOne(|s.running|) + 3 <= n {
      FromPrepared(s, input, p);
    } else if HasStamp(s.mem, k) {
      FromMem(s, input);
    } else {
      FromInit(s, input, k);
    }
  }

  lemma RunGrows(s: State, inputs: seq<Input>)
    ensures forall t :: t in Run(s, inputs).all && t.stamp < |s.arrived| ==> t in s.all
    ensures s.log <= Run(s, inputs).log && s.arrived <= Run(s, inputs).arrived
    decreases |inputs|
  {
    if inputs != [] {
      AllGrowsBehind(s, inputs[0]);
      RunGrows(Pass(s, inputs[0]), inputs[1..]);
    }
  }

  lemma AnsweredForGood(s: State, inputs: seq<Input>, k: nat)
    requires Answered(s, k)
    ensures Answered(Run(s, inputs), k)
  {
    RunGrows(s, inputs);
    var i :| 0 <= i < |s.log| && s.log[i].stamp == k;
    assert Run(s, inputs).log[i].stamp == k;
  }

  lemma OldestStays(s: State, input: Input)
    requires Inv(s) && s.all != [] && !Answered(Pass(s, input), s.all[0].stamp)
    ensures Pass(s, input).all != [] && Pass(s, input).all[0] == s.all[0]
  {
    var s' := Pass(s, input);
    PassInv(s, input);
    AllGrowsBehind(s, input);
    assert s.all[0] in s.all;
    LiveOrAnswered(s', s.all[0].stamp);
    var t :| t in s'.all && t.stamp == s.all[0].stamp;
    assert s'.all[0].stamp <= t.stamp;
    assert s'.all[0] in s'.all;
  }

  lemma OldestAnswered(s: State, inputs: seq<Input>, n: nat)
    requires Inv(s) && s.all != [] && Within(s, s.all[0].stamp, n) && n <= |inputs|
    ensures Answered(Run(s, inputs), s.all[0].stamp)
    decreases n
  {
    OldestAdvances(s, inputs[0], n);
    var s' := Pass(s, inputs[0]);
    PassInv(s, inputs[0]);
    if Answered(s', s.all[0].stamp) {
      AnsweredForGood(s', inputs[1..], s.all[0].stamp);
    } else {
      OldestStays(s, inputs[0]);
      OldestAnswered(s', inputs[1..], n - 1);
    }
  }

  /** The unanswered requests up to and including t. */
  function UpTo(s: State, t: Ticket): set<Ticket> {
    set u | u in s.all && u.stamp <= t.stamp
  }

  lemma RunSplit(s: State, inputs: seq<Input>, n: nat)
    requires n <= |inputs|
    ensures Run(s, inputs) == Run(Run(s, inputs[..n]), inputs[n..])
    decreases n
  {
    hide Pass;
    if n > 0 {
      RunSplit(Pass(s, inputs[0]), inputs[1..], n - 1);
      assert inputs[1..][..n - 1] == inputs[..n][1..];
      assert inputs[1..][n - 1..] == inputs[n..];
    } else {
      assert inputs[..0] == [] && inputs[0..] == inputs;
    }
  }

  /** LONGEST_WAIT passes answer the oldest request, so that one request fewer is ahead. */
  lemma OneFewerAhead(s: State, t: Ticket, inputs: seq<Input>)
    requires Inv(s) && t in s.all && |inputs| == LONGEST_WAIT
    ensures var s' := Run(s, inputs);
            && Inv(s')
            && (Answered(s', t.stamp) ||
                (t in s'.all && UpTo(s', t) <= UpTo(s, t) - {s.all[0]} && s.all[0] in UpTo(s, t)))
  {
    assert s.all[0] in UpTo(s, t);
    OldestStarts(s);
    RunInv(s, inputs);
    RunGrows(s, inputs);
    OldestAnswered(s, inputs, LONGEST_WAIT);
    var s' := Run(s, inputs);
    hide Run, Within;
    if !Answered(s', t.stamp) {
      TicketsInRange(s);
      hide Inv, Answered;
      LiveOrAnswered(s', t.stamp);
      LiveOrAnswered(s', s.all[0].stamp);
    }
  }

  lemma TicketsInRange(s: State)
    requires Inv(s)
    ensures forall t :: t in s.all ==> t.stamp < |s.arrived|
    ensures forall t, u :: t in s.all && u in s.all && t.stamp == u.stamp ==> t == u
  {
    hide Staged, Pairwise, Origins, Holders, Members, ByStamp;
  }

  /** Whatever arrives and whatever the services return, a request that has u unanswered
      requests up to itself is answered within u * LONGEST_WAIT passes. */
  lemma EveryRequestAnswered(s: State, t: Ticket, inputs: seq<Input>)
    requires Inv(s) && t in s.all
    requires LONGEST_WAIT * |UpTo(s, t)| <= |inputs|
    ensures Answered(Run(s, inputs), t.stamp)
    decreases |UpTo(s, t)|
  {
    hide Run, Inv, Answered;
    assert s.all[0] in s.all;
    assert t in UpTo(s, t);
    var first, rest := inputs[..LONGEST_WAIT], inputs[LONGEST_WAIT..];
    var s' := Run(s, first);
    RunSplit(s, inputs, LONGEST_WAIT);
    OneFewerAhead(s, t, first);
    if Answered(s', t.stamp) {
      AnsweredForGood(s', rest, t.stamp);
    } else {
      hide UpTo;
      SubsetCard(UpTo(s', t), UpTo(s, t) - {s.all[0]});
      EveryRequestAnswered(s', t, rest);
    }
  }

  /* ----- the drain ----- */

  /** The operations still needed to answer everything that is live. */
  function Remaining(s: State): nat {
    6 * |s.init| + 5 * |s.mem| + 4 * |s.prepared| + 3 * |s.running| + 2 * |s.post| + |s.done|
  }

  lemma FrontRemaining(s: State, codes: Codes)
    ensures Remaining(Front(s, codes)) + |s.done| + |s.post|
         <= Remaining(s) - (if s.running == [] then 0 else 1) - (if s.prepared == [] then 0 else 1)
  {
    AnswerAllEffect(s);
    FinishAllEffect(AnswerAll(s));
    PostSomeEffect(FinishAll(AnswerAll(s)), codes);
  }

  lemma PrepareRemaining(s: State, k: nat, codes: Codes)
    requires k <= |s.mem|
    ensures Remaining(PrepareSome(s, k, codes)) <= Remaining(s)
    ensures k < |s.mem| && FreeSlot(s.busy, DeviceOf(s.mem[k].channel)).Some? ==>
      Remaining(PrepareSome(s, k, codes)) < Remaining(s)
    decreases |s.mem| - k
  {
    if k < |s.mem| {
      var code := codes.prepare(s.mem[k].stamp);
      if FreeSlot(s.busy, DeviceOf(s.mem[k].channel)).None? {
        PrepareRemaining(s, k + 1, codes);
      } else if code != 0 {
        PrepareRemaining(PrepareExec(s, k, code), k, codes);
      }
    }
  }

  lemma EmptyTogether(s: State)
    requires Inv(s)
    ensures s.all == [] <==> Live(s) == []
  {
    if s.all != [] { assert s.all[0] in Members(s.all); }
    if Live(s) != [] { assert TicketOf(Live(s)[0]) in Tickets(Live(s)); }
  }

  lemma AllocRemaining(s: State)
    ensures Remaining(AllocAll(s)) == Remaining(s) - |s.init|
  {
    AllocAllEffect(s);
  }

  /** When all that is live waits at the MEM_DONE stage, no queue is busy. */
  lemma OnlyMemStarts(s: State, codes: Codes)
    requires Inv(s) && s.all != []
    requires s.done == [] && s.post == [] && s.running == [] && s.prepared == [] && s.init == []
    ensures var s3 := Front(s, codes);
            s3.mem != [] && FreeSlot(s3.busy, DeviceOf(s3.mem[0].channel)).Some?
  {
    FrontEffect(s, codes);
    EmptyTogether(s);
    assert Live(s) == s.mem;
    assert s.busy == {};
    FreeSlotIsLowest(Front(s, codes).busy, DeviceOf(s.mem[0].channel), 0);
  }

  /** Without a new arrival every pass does some of the remaining work. */
  lemma PassProgress(s: State, codes: Codes)
    requires Inv(s) && s.all != []
    ensures Remaining(Pass(s, Input(codes, None))) < Remaining(s)
  {
    var s3 := Front(s, codes);
    assert Pass(s, Input(codes, None)) == AllocAll(PrepareSome(s3, 0, codes));
    hide Inv, AllocAll, PrepareSome, Front, Pass, Remaining, FreeSlot;
    FrontInit(s, codes);
    FrontRemaining(s, codes);
    PrepareRemaining(s3, 0, codes);
    PrepareSomeFrame(s3, 0, codes);
    AllocRemaining(PrepareSome(s3, 0, codes));
    if s.done == [] && s.post == [] && s.running == [] && s.prepared == [] && s.init == [] {
      OnlyMemStarts(s, codes);
    }
  }

  lemma FrontInit(s: State, codes: Codes)
    ensures Front(s, codes).init == s.init
  {
    FrontEffect(s, codes);
  }

  function NoArrivals(codes: seq<Codes>): seq<Input> {
    seq(|codes|, i requires 0 <= i < |codes| => Input(codes[i], None))
  }

  /** Without new arrivals everything is answered after at most six passes per live request. */
  lemma Drain(s: State, codes: seq<Codes>)
    requires Inv(s) && 6 * |Live(s)| <= |codes|
    ensures Run(s, NoArrivals(codes)).all == [] && Live(Run(s, NoArrivals(codes))) == []
  {
    DrainWithin(s, codes);
  }

  lemma DrainWithin(s: State, codes: seq<Codes>)
    requires Inv(s) && Remaining(s) <= |codes|
    ensures Run(s, NoArrivals(codes)).all == [] && Live(Run(s, NoArrivals(codes))) == []
    decreases |codes|
  {
    if codes == [] {
      EmptyTogether(s);
    } else {
      assert NoArrivals(codes)[1..] == NoArrivals(codes[1..]);
      var s' := Pass(s, Input(codes[0], None));
      PassInv(s, Input(codes[0], None));
      if s.all != [] {
        PassProgress(s, codes[0]);
      } else {
        NothingLive(s, codes[0]);
      }
      DrainWithin(s', codes[1..]);
    }
  }

  lemma NothingLive(s: State, codes: Codes)
    requires Inv(s) && s.all == []
    ensures Remaining(Pass(s, Input(codes, None))) == 0
  {
    EmptyTogether(s);
  }

  /* ----- failed requests ----- */

  lemma OthersHoldOther(front: seq<Item>, rest: seq<Item>, x: Item)
    requires Pairwise(front + rest) && x in front && x.queue >= 0
    ensures SlotOf(x) !in Holders(rest)
  {
    var i :| 0 <= i < |front| && front[i] == x;
    forall y | y in rest && y.queue >= 0 ensures SlotOf(y) != SlotOf(x) {
      var m :| 0 <= m < |rest| && rest[m] == y;
      assert Compatible((front + rest)[i], (front + rest)[|front| + m]);
    }
  }

  lemma LiveSplits(s: State)
    ensures Live(s) == s.done + Live(AnswerAll(s))
  {
    AnswerAllEffect(s);
    hide AnswerAll;
  }

  /** Once all of done_reqs is answered, only the other live items hold queues. */
  lemma AnswerAllFrees(s: State, x: Item)
    requires Inv(s) && x in s.done && x.queue >= 0
    ensures SlotOf(x) in s.busy && SlotOf(x) !in AnswerAll(s).busy
  {
    LiveSplits(s);
    AnswerAllInv(s);
    hide AnswerAll, Live, Pairwise, Staged, Origins, Arrivals, TicketsSorted, ByStamp;
    PairwiseSuffix(s.log, Live(s));
    assert x in Live(s);
    OthersHoldOther(s.done, Live(AnswerAll(s)), x);
  }

  /** x has failed with the code: it stands on done_reqs and still holds its queue; the next pass answers it
      with that code and frees the queue. */
  ghost predicate FailsWith(s': State, x: Item, code: int, input: Input) {
    && Failed(x, code) in s'.done
    && x.queue >= 0 && SlotOf(x) in s'.busy
    && Failed(x, code).(queue := -1) in Pass(s', input).log
    && SlotOf(x) !in AnswerAll(s').busy
  }

  lemma DoneFailsWith(s': State, x: Item, code: int, input: Input)
    requires Inv(s') && Failed(x, code) in s'.done && x.queue >= 0
    ensures FailsWith(s', x, code, input)
  {
    var y := Failed(x, code);
    AnswerAllFrees(s', y);
    PassEffect(s', input);
    FrontEffect(s', input.codes);
    var i :| 0 <= i < |s'.done| && s'.done[i] == y;
    assert Pass(s', input).log[|s'.log| + i] == y.(queue := -1);
  }

  /** A request whose preparation, launch or post-processing fails keeps its queue until it is answered, and its
      caller gets the code of the failure. */
  lemma FailureIsAnswered(s: State, k: nat, code: int, input: Input)
    requires Inv(s) && code != 0
    ensures s.running != [] ==> FailsWith(PostExec(s, code), s.running[0], code, input)
    ensures s.prepared != [] ==> FailsWith(LaunchExec(s, code), s.prepared[0], code, input)
    ensures k < |s.mem| && FreeSlot(s.busy, DeviceOf(s.mem[k].channel)).Some? ==>
      FailsWith(PrepareExec(s, k, code), s.mem[k].(queue := FreeSlot(s.busy, DeviceOf(s.mem[k].channel)).value),
                code, input)
  {
    hide Pass, AnswerAll;
    if s.running != [] {
      PostExecInv(s, code);
      hide Inv;
      DoneFailsWith(PostExec(s, code), s.running[0], code, input);
    }
    if s.prepared != [] {
      LaunchExecInv(s, code);
      hide Inv;
      DoneFailsWith(LaunchExec(s, code), s.prepared[0], code, input);
    }
    if k < |s.mem| && FreeSlot(s.busy, DeviceOf(s.mem[k].channel)).Some? {
      PrepareExecInv(s, k, code);
      hide Inv;
      DoneFailsWith(PrepareExec(s, k, code), s.mem[k].(queue := FreeSlot(s.busy, DeviceOf(s.mem[k].channel)).value),
                    code, input);
    }
  }

  /* ----- no request moves more than one list per pass ----- */

  function Next(stage: Stage): Stage {
    match stage
    case Init => MemDone
    case MemDone => Prepared
    case Prepared => Running
    case Running => Posted
    case Posted => Done
    case Done => Done
  }

  /** After a pass the request of x stands where it stood, one list further on, or among
      the failed ones of done_reqs. */
  ghost predicate OneStep(x: Item, s': State) {
    exists y :: y in Live(s') && y.stamp == x.stamp &&
      (y.stage == x.stage || y.stage == Next(x.stage) || (y.stage == Done && y.errcode != 0))
  }

  lemma OneListPerPass(s: State, input: Input, x: Item)
    requires Inv(s) && x in Live(s)
    ensures if x.stage == Done then Answered(Pass(s, input), x.stamp) else OneStep(x, Pass(s, input))
  {
    PassInv(s, input);
    assert OnItsList(s, x);
    match x.stage
    case Done =>
      FromDone(s, input, x.stamp);
    case Posted =>
      var i :| 0 <= i < |s.post| && s.post[i] == x;
      PostedOneStep(s, input, i);
    case Running =>
      var q :| 0 <= q < |s.running| && s.running[q] == x;
      RunningOneStep(s, input, q);
    case Prepared =>
      var p :| 0 <= p < |s.prepared| && s.prepared[p] == x;
      PreparedOneStep(s, input, p);
    case MemDone =>
      FrontEffect(s, input.codes);
      PrepareSomeFate(Front(s, input.codes), 0, input.codes, x);
      MemOneStep(s, input, x);
    case Init =>
      var i :| 0 <= i < |s.init| && s.init[i] == x;
      InitOneStep(s, input, i);
  }

  ghost predicate OnItsList(s: State, x: Item) {
    match x.stage
    case Done => x in s.done
    case Posted => x in s.post
    case Running => x in s.running
    case Prepared => x in s.prepared
    case MemDone => x in s.mem
    case Init => x in s.init
  }

  lemma InitOneStep(s: State, input: Input, i: nat)
    requires Staged(s) && Staged(Pass(s, input)) && i < |s.init|
    ensures OneStep(s.init[i], Pass(s, input))
  {
    InitMoves(s, input, i);
    var s' := Pass(s, input);
    hide Pass;
    var k :| 0 <= k < |s'.mem| && s'.mem[k].stamp == s.init[i].stamp;
    assert s'.mem[k] in Live(s') && s'.mem[k].stage == MemDone;
  }

  lemma InitMoves(s: State, input: Input, i: nat)
    requires i < |s.init|
    ensures exists k :: 0 <= k < |Pass(s, input).mem| && Pass(s, input).mem[k].stamp == s.init[i].stamp
  {
    PassEffect(s, input);
    FrontEffect(s, input.codes);
    var mem, s' := PrepareSome(Front(s, input.codes), 0, input.codes).mem, Pass(s, input);
    hide Pass, PrepareSome, Front;
    assert s'.mem[|mem| + i].stamp == s.init[i].stamp;
  }

  lemma PostedOneStep(s: State, input: Input, i: nat)
    requires Staged(s) && Staged(Pass(s, input)) && i < |s.post|
    ensures OneStep(s.post[i], Pass(s, input))
  {
    Advanced(s, input);
    var y := Pass(s, input).done[i];
    assert y in Live(Pass(s, input)) && y.stage == Done && y.stamp == s.post[i].stamp;
  }

  lemma RunningOneStep(s: State, input: Input, q: nat)
    requires Staged(s) && Staged(Pass(s, input)) && q < |s.running|
    ensures OneStep(s.running[q], Pass(s, input))
  {
    var x, n, s' := s.running[q], FirstOk(s.running, input.codes.post), Pass(s, input);
    Advanced(s, input);
    if q < n {
      var y := s'.done[|s.post| + q];
      assert y in s'.done && y.stamp == x.stamp && y.errcode != 0;
    } else if q == n {
      assert s'.post[0] in s'.post && s'.post[0].stamp == x.stamp;
    } else {
      assert s'.running[q - n - 1] in s'.running;
    }
  }

  lemma PreparedOneStep(s: State, input: Input, p: nat)
    requires Staged(s) && Staged(Pass(s, input)) && p < |s.prepared|
    ensures OneStep(s.prepared[p], Pass(s, input))
  {
    var x, s2, s' := s.prepared[p], PostSome(FinishAll(AnswerAll(s)), input.codes), Pass(s, input);
    PassEffect(s, input);
    FrontEffect(s, input.codes);
    AnswerAllEffect(s);
    FinishAllEffect(AnswerAll(s));
    PostSomeEffect(FinishAll(AnswerAll(s)), input.codes);
    assert x in s.prepared;
    if p > 0 {
      assert s'.prepared[p - 1] == x;
      assert x in Live(s');
    } else if input.codes.launch(x.stamp) != 0 {
      var y := Failed(x, input.codes.launch(x.stamp));
      assert s'.done[|s2.done|] == y;
      assert y in Live(s');
    } else {
      assert s'.running[|s'.running| - 1] == x.(stage := Running);
      assert x.(stage := Running) in Live(s');
    }
  }

  lemma MemOneStep(s: State, input: Input, x: Item)
    requires Staged(s) && Staged(Pass(s, input)) && x in s.mem
    requires Fate(Front(s, input.codes), PrepareSome(Front(s, input.codes), 0, input.codes), x)
    ensures OneStep(x, Pass(s, input))
  {
    var s3, s' := Front(s, input.codes), Pass(s, input);
    var s4 := PrepareSome(s3, 0, input.codes);
    PassEffect(s, input);
    FrontEffect(s, input.codes);
    if x in s4.mem {
      assert x in s'.mem;
      assert x in Live(s');
    } else if HasStamp(s4.prepared, x.stamp) {
      var i :| 0 <= i < |s4.prepared| && s4.prepared[i].stamp == x.stamp;
      assert s'.prepared[i] in Live(s');
    } else {
      var y :| y in s4.done && y.stamp == x.stamp && y.errcode != 0;
      assert y in s'.done;
      assert y in Live(s');
    }
  }
}
