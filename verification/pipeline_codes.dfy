/**
 How the return codes of the services decide what the pipeline does: which items one pass prepares, launches
 and posts, and, over any run, that a request's answer is the code of the first of its own calls that failed.
 */
module PipelineCodes {
  import opened Wrappers
  import opened KoclTypes
  import opened Lists
  import opened Pipeline
  import opened PipelineSafety
  import opened PipelineLiveness

  /* ----- preparing ----- */

  /** x was passed over: it stays, and all queues of its class are busy. */
  ghost predicate PassedBy(s': State, x: Item) {
    x in s'.mem && FreeSlot(s'.busy, DeviceOf(x.channel)).None?
  }

  /** x got a queue and its prepare failed with the code. */
  ghost predicate FailedPrepare(s': State, x: Item, code: int) {
    code != 0 && exists q: nat :: GotQueue(s', x, q) && Failed(x.(queue := q), code) in s'.done
  }

  ghost predicate WasPrepared(s': State, x: Item) {
    exists q: nat :: GotQueue(s', x, q) && x.(queue := q, stage := Prepared) in s'.prepared
  }

  predicate GotQueue(s': State, x: Item, q: nat) {
    q < MAX_QUEUE_NR && Slot(DeviceOf(x.channel), q) in s'.busy
  }

  /** Of the items mem, those from k on up to m are passed over or fail, the m-th is prepared, and those behind it
      are not tried. If none is prepared, prepared_reqs is as before. */
  ghost predicate Tried(mem: seq<Item>, before: seq<Item>, s': State, k: nat, m: nat, codes: Codes) {
    && k <= m <= |mem|
    && (forall i :: k <= i < m ==> PassedBy(s', mem[i]) || FailedPrepare(s', mem[i], codes.prepare(mem[i].stamp)))
    && (m < |mem| ==> codes.prepare(mem[m].stamp) == 0 && WasPrepared(s', mem[m]))
    && (m == |mem| ==> s'.prepared == before)
    && (forall i :: m < i < |mem| ==> mem[i] in s'.mem)
  }

  lemma PrepareSomeGrows(s: State, k: nat, codes: Codes)
    requires k <= |s.mem|
    ensures s.busy <= PrepareSome(s, k, codes).busy && s.mem[..k] <= PrepareSome(s, k, codes).mem
    decreases |s.mem| - k
  {
    if k < |s.mem| {
      var code := codes.prepare(s.mem[k].stamp);
      if FreeSlot(s.busy, DeviceOf(s.mem[k].channel)).None? {
        PrepareSomeGrows(s, k + 1, codes);
        assert s.mem[..k] == s.mem[..k + 1][..k];
      } else if code != 0 {
        PrepareSomeGrows(PrepareExec(s, k, code), k, codes);
        assert PrepareExec(s, k, code).mem[..k] == s.mem[..k];
      } else {
        assert RemoveAt(s.mem, k)[..k] == s.mem[..k];
      }
    }
  }

  lemma StaysFull(busy: set<Slot>, busy': set<Slot>, d: Device)
    requires busy <= busy' && FreeSlot(busy, d).None?
    ensures FreeSlot(busy', d).None?
  {
    FreeSlotIsLowest(busy, d, 0);
    FreeSlotIsLowest(busy', d, 0);
  }

  lemma TriesPast(mem: seq<Item>, before: seq<Item>, s': State, k: nat, m: nat, codes: Codes)
    requires k < |mem| && Tried(mem, before, s', k + 1, m, codes) && PassedBy(s', mem[k])
    ensures Tried(mem, before, s', k, m, codes)
  {
  }

  lemma TriesFailed(mem: seq<Item>, before: seq<Item>, s': State, k: nat, m: nat, codes: Codes)
    requires k < |mem| && Tried(RemoveAt(mem, k), before, s', k, m, codes)
    requires FailedPrepare(s', mem[k], codes.prepare(mem[k].stamp))
    ensures Tried(mem, before, s', k, m + 1, codes)
  {
    hide PassedBy, FailedPrepare, WasPrepared;
    var rest := RemoveAt(mem, k);
    assert forall i :: k < i < |mem| ==> mem[i] == rest[i - 1];
    forall i | k <= i < m + 1
      ensures PassedBy(s', mem[i]) || FailedPrepare(s', mem[i], codes.prepare(mem[i].stamp))
    {
      if k < i { assert mem[i] == rest[i - 1]; }
    }
    forall i | m + 1 < i < |mem| ensures mem[i] in s'.mem {
      assert mem[i] == rest[i - 1];
    }
  }

  lemma PassesFull(s: State, k: nat, codes: Codes)
    requires k < |s.mem| && FreeSlot(s.busy, DeviceOf(s.mem[k].channel)).None?
    ensures PassedBy(PrepareSome(s, k, codes), s.mem[k])
  {
    var s' := PrepareSome(s, k, codes);
    PrepareSomeGrows(s, k + 1, codes);
    StaysFull(s.busy, s'.busy, DeviceOf(s.mem[k].channel));
    assert s.mem[..k + 1][k] == s.mem[k];
  }

  lemma FailsHere(s: State, k: nat, codes: Codes)
    requires k < |s.mem| && FreeSlot(s.busy, DeviceOf(s.mem[k].channel)).Some?
    requires codes.prepare(s.mem[k].stamp) != 0
    ensures FailedPrepare(PrepareSome(s, k, codes), s.mem[k], codes.prepare(s.mem[k].stamp))
  {
    var x, code, s' := s.mem[k], codes.prepare(s.mem[k].stamp), PrepareSome(s, k, codes);
    var q := FreeSlot(s.busy, DeviceOf(x.channel)).value;
    FreeSlotIsLowest(s.busy, DeviceOf(x.channel), 0);
    var s1 := PrepareExec(s, k, code);
    PrepareSomeGrows(s1, k, codes);
    PrepareSomeFrame(s1, k, codes);
    assert s' == PrepareSome(s1, k, codes);
    hide PrepareSome;
    assert GotQueue(s', x, q) && s'.done[|s.done|] == Failed(x.(queue := q), code);
  }

  lemma PreparesHere(s: State, k: nat, codes: Codes)
    requires k < |s.mem| && FreeSlot(s.busy, DeviceOf(s.mem[k].channel)).Some?
    requires codes.prepare(s.mem[k].stamp) == 0
    ensures Tried(s.mem, s.prepared, PrepareSome(s, k, codes), k, k, codes)
  {
    var x, s' := s.mem[k], PrepareSome(s, k, codes);
    var q := FreeSlot(s.busy, DeviceOf(x.channel)).value;
    FreeSlotIsLowest(s.busy, DeviceOf(x.channel), 0);
    assert GotQueue(s', x, q) && s'.prepared[|s.prepared|] == x.(queue := q, stage := Prepared);
    forall i | k < i < |s.mem| ensures s.mem[i] in s'.mem {
      assert s'.mem[i - 1] == s.mem[i];
    }
  }

  /** The loop over memdone_reqs from the k-th item on. */
  lemma PrepareSomeTries(s: State, k: nat, codes: Codes) returns (m: nat)
    requires k <= |s.mem|
    ensures Tried(s.mem, s.prepared, PrepareSome(s, k, codes), k, m, codes)
    decreases |s.mem| - k
  {
    if k == |s.mem| {
      return k;
    }
    var code := codes.prepare(s.mem[k].stamp);
    hide Tried, PassedBy, FailedPrepare, FreeSlot;
    if FreeSlot(s.busy, DeviceOf(s.mem[k].channel)).None? {
      m := PrepareSomeTries(s, k + 1, codes);
      PassesFull(s, k, codes);
      TriesPast(s.mem, s.prepared, PrepareSome(s, k, codes), k, m, codes);
    } else if code == 0 {
      PreparesHere(s, k, codes);
      m := k;
    } else {
      m := PrepareSomeTries(PrepareExec(s, k, code), k, codes);
      FailsHere(s, k, codes);
      TriesFailed(s.mem, s.prepared, PrepareSome(s, k, codes), k, m, codes);
      m := m + 1;
    }
  }

  /** What one pass does with memdone_reqs: up to the first item that is prepared, if any, items without a free
      queue are passed over and failures are done; those behind it wait for the next pass. */
  lemma PassPrepares(s: State, input: Input) returns (m: nat)
    ensures Tried(s.mem, if s.prepared == [] then [] else s.prepared[1..], Pass(s, input), 0, m, input.codes)
  {
    var s3, s' := Front(s, input.codes), Pass(s, input);
    var s4 := PrepareSome(s3, 0, input.codes);
    m := PrepareSomeTries(s3, 0, input.codes);
    FrontEffect(s, input.codes);
    PassEffect(s, input);
    AllocAllEffect(s4);
    assert s'.busy == s4.busy;
    hide Front, Pass, PrepareSome, AllocAll;
    SameLists(s.mem, s3.prepared, s4, s', m, input.codes);
  }

  lemma SameLists(mem: seq<Item>, before: seq<Item>, s: State, s': State, m: nat, codes: Codes)
    requires Tried(mem, before, s, 0, m, codes)
    requires s.mem <= s'.mem && s.done <= s'.done && s.prepared == s'.prepared && s.busy == s'.busy
    ensures Tried(mem, before, s', 0, m, codes)
  {
    forall i | 0 <= i < m ensures PassedBy(s', mem[i]) || FailedPrepare(s', mem[i], codes.prepare(mem[i].stamp)) {
      if !PassedBy(s, mem[i]) {
        var q: nat :| GotQueue(s, mem[i], q) && Failed(mem[i].(queue := q), codes.prepare(mem[i].stamp)) in s.done;
        assert GotQueue(s', mem[i], q);
      }
    }
    if m < |mem| {
      var q: nat :| GotQueue(s, mem[m], q) && mem[m].(queue := q, stage := Prepared) in s.prepared;
      assert GotQueue(s', mem[m], q);
    }
  }

  /** No class of devices blocks another: a request that a pass leaves at the memory stage although its class has
      a free queue afterwards stood behind the one request that the pass prepared. */
  lemma NoClassBlocks(s: State, input: Input, i: nat)
    requires Inv(s) && i < |s.mem| && s.mem[i] in Pass(s, input).mem
    requires FreeSlot(Pass(s, input).busy, DeviceOf(s.mem[i].channel)).Some?
    ensures exists m :: 0 <= m < i && input.codes.prepare(s.mem[m].stamp) == 0 && WasPrepared(Pass(s, input), s.mem[m])
  {
    var m := PassPrepares(s, input);
    var s' := Pass(s, input);
    PassInv(s, input);
    if i <= m {
      hide Pass;
      MemOnly(s', s.mem[i]);
      assert false;
    }
  }

  /** What is on memdone_reqs is on no other list. */
  lemma MemOnly(s: State, x: Item)
    requires Inv(s) && x in s.mem
    ensures forall y :: y in s.done || y in s.prepared ==> y.stamp != x.stamp
  {
    var i :| 0 <= i < |s.mem| && s.mem[i] == x;
    var a, b := s.done + s.post + s.running + s.prepared, s.mem + s.init;
    assert s.log + Live(s) == (s.log + a) + b;
    assert b[i] == x;
    forall y | y in s.done || y in s.prepared ensures y.stamp != x.stamp {
      assert y in a;
      var m :| 0 <= m < |a| && a[m] == y;
      assert ((s.log + a) + b)[|s.log| + m] == y && ((s.log + a) + b)[|s.log| + |a| + i] == x;
      assert Compatible((s.log + Live(s))[|s.log| + m], (s.log + Live(s))[|s.log| + |a| + i]);
    }
  }

  /* ----- launching and posting ----- */

  /** One pass launches exactly the first prepared item: with a code it is done with that code, else it runs. */
  lemma PassLaunches(s: State, input: Input)
    requires s.prepared != []
    ensures
      var x, s' := s.prepared[0], Pass(s, input);
      var code := input.codes.launch(x.stamp);
      && (code != 0 ==> Failed(x, code) in s'.done)
      && (code == 0 ==> x.(stage := Running) in s'.running)
      && s.prepared[1..] <= s'.prepared
  {
    var s2 := PostSome(FinishAll(AnswerAll(s)), input.codes);
    AnswerAllEffect(s);
    FinishAllEffect(AnswerAll(s));
    PostSomeEffect(FinishAll(AnswerAll(s)), input.codes);
    assert s2.prepared == s.prepared;
    var x, s3 := s.prepared[0], Front(s, input.codes);
    assert s3 == LaunchExec(s2, input.codes.launch(x.stamp));
    PassEffect(s, input);
    hide Front, Pass, PostSome, AnswerAll, FinishAll;
    if input.codes.launch(x.stamp) != 0 {
      assert s3.done[|s2.done|] == Failed(x, input.codes.launch(x.stamp));
    } else {
      assert s3.running[|s2.running|] == x.(stage := Running);
    }
  }

  /** One pass posts running items in order up to the first success. */
  lemma PassPosts(s: State, input: Input, i: nat)
    requires i < |s.running|
    ensures
      var x, s' := s.running[i], Pass(s, input);
      var code, n := input.codes.post(x.stamp), FirstOk(s.running, input.codes.post);
      && (i < n ==> code != 0 && Failed(x, code) in s'.done)
      && (i == n ==> code == 0 && x.(stage := Posted) in s'.post)
      && (i > n ==> x in s'.running)
  {
    var x, s', n := s.running[i], Pass(s, input), FirstOk(s.running, input.codes.post);
    Advanced(s, input);
    if i < n {
      assert s'.done[|s.post| + i] in s'.done;
    } else if i == n {
      assert s'.post[0] in s'.post;
    } else {
      assert s'.running[i - n - 1] in s'.running;
    }
  }

  /* ----- what a pass makes of each item ----- */

  /** x's service was called and returned the code: y is its item on the next list, or done with the code. */
  predicate Called(x: Item, y: Item, code: int, next: Stage) {
    if code == 0 then y.stage == next && y.errcode == 0 else y.stage == Done && y.errcode == code
  }

  predicate Advances(x: Item, y: Item, codes: Codes) {
    && y.stamp == x.stamp && y.id == x.id && y.channel == x.channel
    && match x.stage {
         case Init => y.stage == MemDone && y.errcode == 0
         case MemDone => y == x || Called(x, y, codes.prepare(x.stamp), Prepared)
         case Prepared => y == x || Called(x, y, codes.launch(x.stamp), Running)
         case Running => y == x || Called(x, y, codes.post(x.stamp), Posted)
         case Posted => y.stage == Done && y.errcode == 0
         case Done => false
       }
  }

  ghost predicate AdvancesIn(s': State, x: Item, codes: Codes) {
    exists y :: y in Live(s') && Advances(x, y, codes)
  }

  lemma InitAdvances(s: State, input: Input, i: nat)
    requires Staged(s) && i < |s.init|
    ensures AdvancesIn(Pass(s, input), s.init[i], input.codes)
  {
    PassEffect(s, input);
    FrontEffect(s, input.codes);
    var mem, s' := PrepareSome(Front(s, input.codes), 0, input.codes).mem, Pass(s, input);
    hide Pass, PrepareSome, Front, Restaged;
    RestagedIn(mem, s.init, s'.mem, i);
    assert OnList(s.init[i], Init, |s.arrived|);
    assert Advances(s.init[i], s.init[i].(stage := MemDone), input.codes);
  }

  lemma RestagedIn(front: seq<Item>, l: seq<Item>, all: seq<Item>, i: nat)
    requires all == front + Restaged(l, MemDone) && i < |l|
    ensures l[i].(stage := MemDone) in all
  {
    assert all[|front| + i] == l[i].(stage := MemDone);
  }

  lemma MemAdvances(s: State, input: Input, i: nat)
    requires Staged(s) && i < |s.mem|
    ensures AdvancesIn(Pass(s, input), s.mem[i], input.codes)
  {
    var m := PassPrepares(s, input);
    var x, s' := s.mem[i], Pass(s, input);
    hide Pass;
    assert OnList(x, MemDone, |s.arrived|);
    if i == m {
      var q: nat :| GotQueue(s', x, q) && x.(queue := q, stage := Prepared) in s'.prepared;
      assert Advances(x, x.(queue := q, stage := Prepared), input.codes);
    } else if x in s'.mem {
      assert Advances(x, x, input.codes);
    } else {
      var q: nat :| GotQueue(s', x, q) && Failed(x.(queue := q), input.codes.prepare(x.stamp)) in s'.done;
      assert Advances(x, Failed(x.(queue := q), input.codes.prepare(x.stamp)), input.codes);
    }
  }

  lemma PreparedAdvances(s: State, input: Input, i: nat)
    requires Staged(s) && i < |s.prepared|
    ensures AdvancesIn(Pass(s, input), s.prepared[i], input.codes)
  {
    PassLaunches(s, input);
    var x, s' := s.prepared[i], Pass(s, input);
    hide Pass;
    assert OnList(x, Prepared, |s.arrived|);
    if i > 0 {
      assert s'.prepared[i - 1] == s.prepared[1..][i - 1] == x;
      assert x in Live(s') && Advances(x, x, input.codes);
    } else if input.codes.launch(x.stamp) == 0 {
      assert x.(stage := Running) in Live(s') && Advances(x, x.(stage := Running), input.codes);
    } else {
      assert Failed(x, input.codes.launch(x.stamp)) in Live(s');
      assert Advances(x, Failed(x, input.codes.launch(x.stamp)), input.codes);
    }
  }

  lemma RunningAdvances(s: State, input: Input, i: nat)
    requires Staged(s) && i < |s.running|
    ensures AdvancesIn(Pass(s, input), s.running[i], input.codes)
  {
    PassPosts(s, input, i);
    var x, s' := s.running[i], Pass(s, input);
    hide Pass;
    assert OnList(x, Running, |s.arrived|);
    if x in s'.running {
      assert x in Live(s') && Advances(x, x, input.codes);
    } else if input.codes.post(x.stamp) == 0 {
      assert x.(stage := Posted) in Live(s') && Advances(x, x.(stage := Posted), input.codes);
    } else {
      assert Failed(x, input.codes.post(x.stamp)) in Live(s');
      assert Advances(x, Failed(x, input.codes.post(x.stamp)), input.codes);
    }
  }

  lemma PostedAdvances(s: State, input: Input, i: nat)
    requires Staged(s) && i < |s.post|
    ensures AdvancesIn(Pass(s, input), s.post[i], input.codes)
  {
    Advanced(s, input);
    var s' := Pass(s, input);
    hide Pass;
    assert OnList(s.post[i], Posted, |s.arrived|);
    assert s'.done[i] in Live(s') && Advances(s.post[i], s'.done[i], input.codes);
  }

  lemma DoneAnswered(s: State, input: Input, i: nat)
    requires i < |s.done|
    ensures s.done[i].(queue := -1) in Pass(s, input).log
  {
    PassEffect(s, input);
    FrontEffect(s, input.codes);
    assert Pass(s, input).log[|s.log| + i] == s.done[i].(queue := -1);
  }

  /** In one pass every live item is answered with its code, or stays, or goes where the code of its own service
      sends it. */
  lemma ItemAdvances(s: State, input: Input, x: Item)
    requires Inv(s) && x in Live(s)
    ensures if x.stage == Done then x.(queue := -1) in Pass(s, input).log
            else AdvancesIn(Pass(s, input), x, input.codes)
  {
    assert OnItsList(s, x);
    hide Pass, AdvancesIn, Inv;
    match x.stage
    case Done =>
      var i :| 0 <= i < |s.done| && s.done[i] == x;
      DoneAnswered(s, input, i);
    case Posted =>
      var i :| 0 <= i < |s.post| && s.post[i] == x;
      PostedAdvances(s, input, i);
    case Running =>
      var i :| 0 <= i < |s.running| && s.running[i] == x;
      RunningAdvances(s, input, i);
    case Prepared =>
      var i :| 0 <= i < |s.prepared| && s.prepared[i] == x;
      PreparedAdvances(s, input, i);
    case MemDone =>
      var i :| 0 <= i < |s.mem| && s.mem[i] == x;
      MemAdvances(s, input, i);
    case Init =>
      var i :| 0 <= i < |s.init| && s.init[i] == x;
      InitAdvances(s, input, i);
  }

  /* ----- the calls made for a request over a run ----- */

  datatype Operation = Lookup | Prepare | Launch | Post

  datatype Return = Return(of: Operation, code: int)

  /** The call that a pass makes for the k-th request, seen from where the request stands before and after it: the
      lookup of its service when it is read, and its prepare, launch or post when it leaves the list for them. */
  ghost function Returned(s: State, input: Input, k: nat): seq<Return> {
    var s' := Pass(s, input);
    if k == |s.arrived| then
      match input.arrival
      case None => []
      case Some(a) => [Return(Lookup, if a.found then 0 else KOCL_NO_SERVICE)]
    else if HasStamp(s.mem, k) && !HasStamp(s'.mem, k) then [Return(Prepare, input.codes.prepare(k))]
    else if HasStamp(s.prepared, k) && !HasStamp(s'.prepared, k) then [Return(Launch, input.codes.launch(k))]
    else if HasStamp(s.running, k) && !HasStamp(s'.running, k) then [Return(Post, input.codes.post(k))]
    else []
  }

  ghost function Returns(s: State, inputs: seq<Input>, k: nat): seq<Return>
    decreases |inputs|
  {
    if inputs == [] then [] else Returned(s, inputs[0], k) + Returns(Pass(s, inputs[0]), inputs[1..], k)
  }

  /** The first n calls of a request, all successful. */
  function Successes(n: nat): seq<Return>
    requires n <= 4
  {
    [Return(Lookup, 0), Return(Prepare, 0), Return(Launch, 0), Return(Post, 0)][..n]
  }

  /** All four calls were made and returned 0, or the last one made is the first that failed, and e is its code. */
  predicate Verdict(calls: seq<Return>, e: int) {
    if e == 0 then calls == Successes(4)
    else 1 <= |calls| <= 4 && calls == Successes(|calls|)[..|calls| - 1] + [Successes(|calls|)[|calls| - 1].(code := e)]
  }

  /** The calls made for an item that is not answered yet. */
  predicate Explains(calls: seq<Return>, x: Item) {
    match x.stage
    case Init => calls == Successes(1)
    case MemDone => calls == Successes(1)
    case Prepared => calls == Successes(2)
    case Running => calls == Successes(3)
    case Posted => calls == Successes(4)
    case Done => Verdict(calls, x.errcode)
  }

  ghost predicate Explained(s: State, k: nat, calls: seq<Return>) {
    && (k >= |s.arrived| ==> calls == [])
    && (forall x :: x in s.log && x.stamp == k ==> Verdict(calls, x.errcode))
    && (forall x :: x in Live(s) && x.stamp == k ==> Explains(calls, x))
  }

  lemma SameItem(s: State, x: Item, y: Item)
    requires Inv(s) && x in s.log + Live(s) && y in s.log + Live(s) && x.stamp == y.stamp
    ensures x == y
  {
    var l := s.log + Live(s);
    var i :| 0 <= i < |l| && l[i] == x;
    var j :| 0 <= j < |l| && l[j] == y;
    OneStamp(l, i);
    assert i == j;
  }

  lemma AnsweredIsNotLive(s: State, x: Item, y: Item)
    requires Inv(s) && x in s.log && y in Live(s)
    ensures x.stamp != y.stamp
  {
    var i :| 0 <= i < |s.log| && s.log[i] == x;
    var j :| 0 <= j < |Live(s)| && Live(s)[j] == y;
    OneStamp(s.log + Live(s), i);
    assert (s.log + Live(s))[i] == x && (s.log + Live(s))[|s.log| + j] == y;
  }

  /** The list that a live item stands on, and no other, has its stamp. */
  lemma OneList(s: State, x: Item)
    requires Inv(s) && x in s.log + Live(s)
    ensures HasStamp(s.mem, x.stamp) <==> x in Live(s) && x.stage == MemDone
    ensures HasStamp(s.prepared, x.stamp) <==> x in Live(s) && x.stage == Prepared
    ensures HasStamp(s.running, x.stamp) <==> x in Live(s) && x.stage == Running
  {
    hide Pairwise, Origins, Holders, Tickets, TicketsSorted, ByStamp;
    if i :| 0 <= i < |s.mem| && s.mem[i].stamp == x.stamp {
      assert OnList(s.mem[i], MemDone, |s.arrived|) && s.mem[i] in Live(s);
      SameItem(s, s.mem[i], x);
    }
    if i :| 0 <= i < |s.prepared| && s.prepared[i].stamp == x.stamp {
      assert OnList(s.prepared[i], Prepared, |s.arrived|) && s.prepared[i] in Live(s);
      SameItem(s, s.prepared[i], x);
    }
    if i :| 0 <= i < |s.running| && s.running[i].stamp == x.stamp {
      assert OnList(s.running[i], Running, |s.arrived|) && s.running[i] in Live(s);
      SameItem(s, s.running[i], x);
    }
    if x in Live(s) {
      assert OnItsList(s, x);
    }
  }

  function OperationAt(n: nat): Operation
    requires n < 4
  {
    if n == 0 then Lookup else if n == 1 then Prepare else if n == 2 then Launch else Post
  }

  lemma OneCallMore(n: nat, code: int)
    requires n < 4
    ensures code == 0 ==> Successes(n) + [Return(OperationAt(n), code)] == Successes(n + 1)
    ensures code != 0 ==> Verdict(Successes(n) + [Return(OperationAt(n), code)], code)
  {
  }

  /** The call that takes an item on explains where it goes. */
  lemma CallExplains(x: Item, y: Item, n: nat, code: int, next: Stage)
    requires n < 4 && Called(x, y, code, next)
    requires forall z: Item :: z.stage == next ==> Explains(Successes(n + 1), z)
    ensures Explains(Successes(n) + [Return(OperationAt(n), code)], y)
  {
    OneCallMore(n, code);
    hide Successes;
  }

  function CallFor(x: Item, y: Item, codes: Codes): seq<Return> {
    if x.stage == y.stage then []
    else
      match x.stage
      case MemDone => [Return(Prepare, codes.prepare(x.stamp))]
      case Prepared => [Return(Launch, codes.launch(x.stamp))]
      case Running => [Return(Post, codes.post(x.stamp))]
      case _ => []
  }

  lemma CallForExplains(x: Item, y: Item, codes: Codes, calls: seq<Return>)
    requires Advances(x, y, codes) && Explains(calls, x)
    ensures Explains(calls + CallFor(x, y, codes), y)
  {
    hide Successes;
    assert calls + [] == calls;
    match x.stage
    case MemDone => if y.stage != MemDone { CallExplains(x, y, 1, codes.prepare(x.stamp), Prepared); }
    case Prepared => if y.stage != Prepared { CallExplains(x, y, 2, codes.launch(x.stamp), Running); }
    case Running => if y.stage != Running { CallExplains(x, y, 3, codes.post(x.stamp), Posted); }
    case _ =>
  }

  /* ----- one pass keeps the explanation of every request ----- */

  /** What a pass returns for the request of an item. */
  lemma ReturnedFor(s: State, input: Input, x: Item, y: Item)
    requires Inv(s) && Inv(Pass(s, input)) && x in Live(s) && y in Live(Pass(s, input)) && x.stamp < |s.arrived|
    requires Advances(x, y, input.codes)
    ensures Returned(s, input, x.stamp) == CallFor(x, y, input.codes)
  {
    OneList(s, x);
    OneList(Pass(s, input), y);
    hide Inv, Pass, HasStamp, Live;
  }

  lemma OnlyAnswered(s: State, x: Item, k: nat, calls: seq<Return>)
    requires Inv(s) && x in s.log && x.stamp == k < |s.arrived| && Verdict(calls, x.errcode)
    ensures Explained(s, k, calls)
  {
    forall z | z in s.log + Live(s) && z.stamp == k ensures z == x { SameItem(s, x, z); }
    forall z | z in Live(s) ensures z.stamp != k { AnsweredIsNotLive(s, x, z); }
  }

  lemma OnlyLive(s: State, x: Item, k: nat, calls: seq<Return>)
    requires Inv(s) && x in Live(s) && x.stamp == k < |s.arrived| && Explains(calls, x)
    ensures Explained(s, k, calls)
  {
    forall z | z in s.log + Live(s) && z.stamp == k ensures z == x { SameItem(s, x, z); }
    forall z | z in s.log ensures z.stamp != k { AnsweredIsNotLive(s, z, x); }
  }

  lemma ArrivedGrows(s: State, input: Input)
    ensures Pass(s, input).arrived ==
            match input.arrival { case None => s.arrived case Some(a) => s.arrived + [a.request] }
    ensures s.log <= Pass(s, input).log
  {
    FrontEffect(s, input.codes);
    PassEffect(s, input);
    PrepareSomeFrame(Front(s, input.codes), 0, input.codes);
    AllocAllEffect(PrepareSome(Front(s, input.codes), 0, input.codes));
  }

  lemma StaysAnswered(s: State, input: Input, x: Item, calls: seq<Return>)
    requires Inv(s) && Inv(Pass(s, input)) && x in s.log && x.stamp < |s.arrived| && Verdict(calls, x.errcode)
    ensures Explained(Pass(s, input), x.stamp, calls + Returned(s, input, x.stamp))
  {
    ArrivedGrows(s, input);
    OneList(s, x);
    forall y | y in Live(s) ensures y != x { AnsweredIsNotLive(s, x, y); }
    assert calls + [] == calls;
    hide Inv, Pass, Live, HasStamp, Verdict;
    assert Returned(s, input, x.stamp) == [];
    OnlyAnswered(Pass(s, input), x, x.stamp, calls);
  }

  lemma DoneExplained(s: State, input: Input, x: Item, calls: seq<Return>)
    requires Inv(s) && Inv(Pass(s, input)) && x in Live(s) && x.stamp < |s.arrived| && x.stage == Done
    requires Explains(calls, x)
    ensures Explained(Pass(s, input), x.stamp, calls + Returned(s, input, x.stamp))
  {
    ArrivedGrows(s, input);
    OneList(s, x);
    ItemAdvances(s, input, x);
    assert calls + [] == calls;
    hide Inv, Pass, Live, HasStamp, Verdict;
    assert Returned(s, input, x.stamp) == [];
    OnlyAnswered(Pass(s, input), x.(queue := -1), x.stamp, calls);
  }

  lemma LiveExplained(s: State, input: Input, x: Item, calls: seq<Return>)
    requires Inv(s) && Inv(Pass(s, input)) && x in Live(s) && x.stamp < |s.arrived| && x.stage != Done
    requires Explains(calls, x)
    ensures Explained(Pass(s, input), x.stamp, calls + Returned(s, input, x.stamp))
  {
    ArrivedGrows(s, input);
    ItemAdvances(s, input, x);
    hide Inv, Pass, Live, HasStamp, Explains, Verdict, Returned;
    var y :| y in Live(Pass(s, input)) && Advances(x, y, input.codes);
    ReturnedFor(s, input, x, y);
    CallForExplains(x, y, input.codes, calls);
    OnlyLive(Pass(s, input), y, x.stamp, calls + Returned(s, input, x.stamp));
  }

  lemma OldExplained(s: State, input: Input, k: nat, calls: seq<Return>)
    requires Inv(s) && Inv(Pass(s, input)) && k < |s.arrived| && Explained(s, k, calls)
    ensures Explained(Pass(s, input), k, calls + Returned(s, input, k))
  {
    hide Inv, Pass, Live, HasStamp, Explains, Verdict, Returned, Staged;
    Partition(s, k);
    var i: nat :| StampOnlyAt(s.log + Live(s), i, k);
    var x := (s.log + Live(s))[i];
    if x in s.log {
      StaysAnswered(s, input, x, calls);
    } else if x.stage == Done {
      DoneExplained(s, input, x, calls);
    } else {
      LiveExplained(s, input, x, calls);
    }
  }

  /** The item of a request that has just been read. */
  lemma NewItemIn(s: State, input: Input)
    requires input.arrival.Some?
    ensures var a, x := input.arrival.value, NewItem(s, input.arrival.value.request);
            (if a.found then x else Failed(x, KOCL_NO_SERVICE)) in Live(Pass(s, input))
  {
    var s4 := PrepareSome(Front(s, input.codes), 0, input.codes);
    FrontEffect(s, input.codes);
    PrepareSomeFrame(Front(s, input.codes), 0, input.codes);
    AllocAllEffect(s4);
    var s5 := AllocAll(s4);
    assert Pass(s, input) == InitServiceRequest(s5, input.arrival.value);
    assert s5.arrived == s.arrived;
  }

  lemma LookupExplains(y: Item)
    requires if y.errcode == 0 then y.stage == Init else y.stage == Done
    ensures Explains([Return(Lookup, y.errcode)], y)
  {
    OneCallMore(0, y.errcode);
    assert Successes(0) + [Return(Lookup, y.errcode)] == [Return(Lookup, y.errcode)];
  }

  lemma NewExplained(s: State, input: Input)
    requires Inv(s) && Inv(Pass(s, input)) && input.arrival.Some?
    ensures Explained(Pass(s, input), |s.arrived|, Returned(s, input, |s.arrived|))
  {
    var a, s' := input.arrival.value, Pass(s, input);
    var x := NewItem(s, a.request);
    var y := if a.found then x else Failed(x, KOCL_NO_SERVICE);
    NewItemIn(s, input);
    ArrivedGrows(s, input);
    hide Inv, Pass, Live, HasStamp;
    assert Returned(s, input, |s.arrived|) == [Return(Lookup, y.errcode)];
    hide Explains, Returned;
    LookupExplains(y);
    OnlyLive(s', y, |s.arrived|, Returned(s, input, |s.arrived|));
  }

  lemma NotReadExplained(s: State, k: nat)
    requires Inv(s) && k >= |s.arrived|
    ensures Explained(s, k, [])
    ensures !HasStamp(s.mem, k) && !HasStamp(s.prepared, k) && !HasStamp(s.running, k)
  {
    forall x | x in Live(s) ensures x.stamp < |s.arrived| {
      assert OnItsList(s, x);
    }
  }

  lemma PassExplained(s: State, input: Input, k: nat, calls: seq<Return>)
    requires Inv(s) && Explained(s, k, calls)
    ensures Explained(Pass(s, input), k, calls + Returned(s, input, k))
  {
    PassInv(s, input);
    if k < |s.arrived| {
      OldExplained(s, input, k, calls);
    } else {
      assert calls == [];
      ArrivedGrows(s, input);
      NotReadExplained(s, k);
      hide Inv, Pass, Live, HasStamp;
      if k == |s.arrived| && input.arrival.Some? {
        NewExplained(s, input);
        assert [] + Returned(s, input, k) == Returned(s, input, k);
      } else {
        assert Returned(s, input, k) == [];
        NotReadExplained(Pass(s, input), k);
      }
    }
  }

  lemma {:induction false} RunExplained(s: State, inputs: seq<Input>, k: nat, calls: seq<Return>)
    requires Inv(s) && Explained(s, k, calls)
    ensures Explained(Run(s, inputs), k, calls + Returns(s, inputs, k))
    decreases |inputs|
  {
    if inputs == [] {
      assert calls + [] == calls;
    } else {
      PassInv(s, inputs[0]);
      PassExplained(s, inputs[0], k, calls);
      hide Inv, Pass, Explained, Returned;
      RunExplained(Pass(s, inputs[0]), inputs[1..], k, calls + Returned(s, inputs[0], k));
      var a, b := Returned(s, inputs[0], k), Returns(Pass(s, inputs[0]), inputs[1..], k);
      assert calls + a + b == calls + (a + b);
    }
  }

  /** Over any run, an answer is 0 exactly when the request's service was found and its prepare, launch and post, in
      the passes that made these calls, all returned 0; and otherwise it is the code of the first call that failed,
      behind which no other was made. */
  lemma AnswersByCodes(inputs: seq<Input>, i: nat)
    requires i < |Run(START, inputs).log|
    ensures var x := Run(START, inputs).log[i];
            Verdict(Returns(START, inputs, x.stamp), x.errcode)
  {
    var x := Run(START, inputs).log[i];
    StartInv();
    NotReadExplained(START, x.stamp);
    RunExplained(START, inputs, x.stamp, []);
    hide Run, Returns, Verdict;
    assert [] + Returns(START, inputs, x.stamp) == Returns(START, inputs, x.stamp);
  }

  /** And before its answer a live request stands where the calls made for it so far have brought it. */
  lemma StandsByCodes(inputs: seq<Input>, x: Item)
    requires x in Live(Run(START, inputs))
    ensures Explains(Returns(START, inputs, x.stamp), x)
  {
    StartInv();
    NotReadExplained(START, x.stamp);
    RunExplained(START, inputs, x.stamp, []);
    hide Run, Returns, Explains, Live;
    assert [] + Returns(START, inputs, x.stamp) == Returns(START, inputs, x.stamp);
  }
}
