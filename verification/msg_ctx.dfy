/**
 The message contexts of gaes/ecryptfs_4.7_kocl/messaging.c: slots that requests to the user-space
 daemon are sent from and replies are matched with, as a transition system. The methods of
 msg_ctx_table.dfy are proved to take its steps.

 An exchange is one use of a slot; exchanges are numbered from 1 in the order they begin. The
 number of a slot's last exchange and the histories of accepted and of delivered replies stand beside
 the fields of the code and are never read by it. Each region under the lists' or a context's lock is one step.
 The daemon is not torn down.
 */
module MsgCtx {
  import opened Wrappers
  import opened Kernel
  import opened Lists

  datatype CtxState = FREE | PENDING | DONE

  /** A context; payloads are told apart by a number. */
  datatype Ctx = Ctx(state: CtxState, counter: nat, msg: Option<nat>, exchange: nat)

  /** A reply that was taken for an exchange. */
  datatype Accepted = Accepted(exchange: nat, payload: nat)

  datatype Table = Table(
    ctxs: seq<Ctx>,
    free: seq<nat>,
    alloc: seq<nat>,
    counter: nat,
    sent: nat,
    taken: seq<Accepted>,
    delivered: seq<Accepted>)

  /** ecryptfs_init_messaging: every context is free, in order. */
  function Start(n: nat): Table {
    Table(seq(n, _ => Ctx(FREE, 0, None, 0)), seq(n, i => i), [], 0, 0, [], [])
  }

  /** The first free context whose mutex nobody holds. */
  function FirstUnlocked(free: seq<nat>, locked: set<nat>): Option<nat> {
    if free == [] then None
    else if free[0] !in locked then Some(free[0])
    else FirstUnlocked(free[1..], locked)
  }

  /** ecryptfs_acquire_free_msg_ctx and ecryptfs_msg_ctx_free_to_alloc */
  function Send(t: Table, locked: set<nat>): (Table, Option<nat>) {
    match FirstUnlocked(t.free, locked)
    case None => (t, None)
    case Some(i) =>
      if i >= |t.ctxs| then (t, None)
      else
        var counter := (t.counter + 1) % U32;
        (t.(ctxs := t.ctxs[i := Ctx(PENDING, counter, t.ctxs[i].msg, t.sent + 1)],
            free := Without(t.free, i), alloc := [i] + t.alloc, counter := counter, sent := t.sent + 1),
         Some(i))
  }

  /** Is a reply taken? */
  predicate Takes(t: Table, index: nat, seqNo: nat) {
    index < |t.ctxs| && t.ctxs[index].state == PENDING && t.ctxs[index].counter == seqNo
  }

  /** ecryptfs_process_response */
  function Reply(t: Table, index: nat, seqNo: nat, payload: nat): Table {
    if Takes(t, index, seqNo) then
      var c := t.ctxs[index];
      t.(ctxs := t.ctxs[index := c.(state := DONE, msg := Some(payload))],
         taken := t.taken + [Accepted(c.exchange, payload)])
    else t
  }

  /** A waiter's turn in ecryptfs_wait_for_response: it leaves with the reply, or without one when its
      time is over, or sleeps on. */
  function Wait(t: Table, index: nat, timedOut: bool): (Table, Option<nat>)
    requires index < |t.ctxs|
  {
    var c := t.ctxs[index];
    if c.state != DONE && !timedOut then (t, None)
    else
      (t.(ctxs := t.ctxs[index := Ctx(FREE, c.counter, None, c.exchange)],
          free := [index] + Without(t.free, index), alloc := Without(t.alloc, index),
          delivered := t.delivered
                       + if c.state == DONE && c.msg.Some? then [Accepted(c.exchange, c.msg.value)] else []),
       if c.state == DONE then c.msg else None)
  }

  /* ----- runs ----- */

  datatype Event =
    | DoSend(locked: set<nat>)
    | DoReply(index: nat, seqNo: nat, payload: nat)
    | DoWait(index: nat, timedOut: bool)

  /** Only the holder of a context waits on it. */
  predicate Enabled(t: Table, e: Event) {
    match e
    case DoWait(index, _) => index < |t.ctxs| && index in t.alloc
    case _ => true
  }

  function Step(t: Table, e: Event): Table
    requires Enabled(t, e)
  {
    match e
    case DoSend(locked) => Send(t, locked).0
    case DoReply(index, seqNo, payload) => Reply(t, index, seqNo, payload)
    case DoWait(index, timedOut) => Wait(t, index, timedOut).0
  }

  predicate Possible(t: Table, run: seq<Event>)
    decreases |run|
  {
    run == [] || (Enabled(t, run[0]) && Possible(Step(t, run[0]), run[1..]))
  }

  function Run(t: Table, run: seq<Event>): Table
    requires Possible(t, run)
    decreases |run|
  {
    if run == [] then t else Run(Step(t, run[0]), run[1..])
  }

  /* ----- what every step keeps ----- */

  predicate NoDup(l: seq<nat>) {
    forall i, j :: 0 <= i < j < |l| ==> l[i] != l[j]
  }

  predicate ListsOk(t: Table) {
    && NoDup(t.free) && NoDup(t.alloc)
    && (forall k :: k in t.free ==> k < |t.ctxs|) && (forall k :: k in t.alloc ==> k < |t.ctxs|)
    && (forall k :: 0 <= k < |t.ctxs| ==> (t.ctxs[k].state == FREE <==> k in t.free))
    && (forall k :: 0 <= k < |t.ctxs| ==> (t.ctxs[k].state != FREE <==> k in t.alloc))
  }

  predicate Numbers(t: Table) {
    && t.counter == t.sent % U32
    && (forall k :: 0 <= k < |t.ctxs| ==> CtxOk(t, t.ctxs[k]))
    && (forall j, k :: 0 <= j < k < |t.ctxs| && t.ctxs[j].exchange == t.ctxs[k].exchange ==> t.ctxs[j].exchange == 0)
  }

  predicate CtxOk(t: Table, c: Ctx) {
    && c.exchange <= t.sent && c.counter == c.exchange % U32
    && (c.state == DONE <==> c.msg.Some?) && (c.state != FREE ==> c.exchange > 0)
    && (c.state == DONE ==> Accepted(c.exchange, c.msg.value) in t.taken)
    && (c.state == PENDING ==> forall i :: 0 <= i < |t.taken| ==> t.taken[i].exchange != c.exchange)
  }

  predicate Once(t: Table) {
    && (forall i :: 0 <= i < |t.taken| ==> 0 < t.taken[i].exchange <= t.sent)
    && (forall i, j :: 0 <= i < j < |t.taken| ==> t.taken[i].exchange != t.taken[j].exchange)
  }

  /** The slot's reply waits for its waiter. */
  predicate Holds(t: Table, k: nat, a: Accepted) {
    k < |t.ctxs| && t.ctxs[k].state == DONE && t.ctxs[k].exchange == a.exchange && t.ctxs[k].msg == Some(a.payload)
  }

  /** Every reply that was taken waits in a slot or has been delivered, and not both; no other was delivered, and
      none for an exchange twice. */
  ghost predicate Deliveries(t: Table) {
    && (forall a :: a in t.delivered ==> a in t.taken)
    && (forall a :: a in t.taken ==> (a in t.delivered <==> !exists k: nat :: Holds(t, k, a)))
    && (forall i, j :: 0 <= i < j < |t.delivered| ==> t.delivered[i].exchange != t.delivered[j].exchange)
  }

  predicate Inv(t: Table) {
    ListsOk(t) && Numbers(t) && Once(t)
  }

  lemma StartInv(n: nat)
    ensures Inv(Start(n))
  {
    var t := Start(n);
    forall k | 0 <= k < n ensures k in t.free {
      assert t.free[k] == k;
    }
  }

  lemma {:induction false} WithoutIs(l: seq<nat>, i: nat)
    requires NoDup(l)
    ensures NoDup(Without(l, i))
    ensures forall x :: x in Without(l, i) <==> x in l && x != i
  {
    if l != [] {
      assert l == [l[0]] + l[1..];
      if l[0] != i {
        WithoutIs(l[1..], i);
        var w := Without(l[1..], i);
        assert Without(l, i) == [l[0]] + w;
        forall a, b | 0 <= a < b < |w| + 1 ensures ([l[0]] + w)[a] != ([l[0]] + w)[b] {
          assert w[b - 1] in w;
          if a > 0 {
            assert w[a - 1] != w[b - 1];
          }
        }
      }
    }
  }

  lemma {:induction false} FirstUnlockedIs(free: seq<nat>, locked: set<nat>)
    ensures FirstUnlocked(free, locked).Some? ==>
              FirstUnlocked(free, locked).value in free && FirstUnlocked(free, locked).value !in locked
    ensures FirstUnlocked(free, locked).None? <==> forall i :: i in free ==> i in locked
  {
    if free != [] {
      FirstUnlockedIs(free[1..], locked);
      assert free == [free[0]] + free[1..];
    }
  }

  lemma Pushed(i: nat, l: seq<nat>)
    requires NoDup(l) && i !in l
    ensures NoDup([i] + l)
  {
    forall a, b | 0 <= a < b < |l| + 1 ensures ([i] + l)[a] != ([i] + l)[b] {
      assert l[b - 1] in l;
      if a > 0 {
        assert l[a - 1] != l[b - 1];
      }
    }
  }

  lemma SendLists(t: Table, locked: set<nat>)
    requires ListsOk(t)
    ensures ListsOk(Send(t, locked).0)
  {
    FirstUnlockedIs(t.free, locked);
    if FirstUnlocked(t.free, locked).Some? {
      var i := FirstUnlocked(t.free, locked).value;
      WithoutIs(t.free, i);
      Pushed(i, t.alloc);
    }
  }

  lemma SendNumbers(t: Table, locked: set<nat>)
    requires Inv(t)
    ensures Numbers(Send(t, locked).0) && Once(Send(t, locked).0)
  {
    FirstUnlockedIs(t.free, locked);
    if FirstUnlocked(t.free, locked).Some? {
      var t', i := Send(t, locked).0, FirstUnlocked(t.free, locked).value;
      assert t.ctxs[i].state == FREE && t.ctxs[i].msg == None;
      assert t'.counter == t'.sent % U32 by {
        NextCounter(t.sent);
      }
      forall k | 0 <= k < |t'.ctxs| ensures CtxOk(t', t'.ctxs[k]) {
        assert k != i ==> CtxOk(t, t.ctxs[k]);
      }
    }
  }

  lemma NextCounter(n: nat)
    ensures (n % U32 + 1) % U32 == (n + 1) % U32
  {
  }

  /** No two contexts have the same exchange. */
  lemma OwnNumber(t: Table, j: nat, k: nat)
    requires Numbers(t) && j < |t.ctxs| && k < |t.ctxs| && t.ctxs[j].exchange > 0
    ensures t.ctxs[j].exchange == t.ctxs[k].exchange ==> j == k
  {
  }

  lemma ReplyInv(t: Table, index: nat, seqNo: nat, payload: nat)
    requires Inv(t)
    ensures Inv(Reply(t, index, seqNo, payload))
  {
    if Takes(t, index, seqNo) {
      var t' := Reply(t, index, seqNo, payload);
      var x := Accepted(t.ctxs[index].exchange, payload);
      assert CtxOk(t, t.ctxs[index]);
      assert t'.taken[|t.taken|] == x;
      forall k | 0 <= k < |t'.ctxs| ensures CtxOk(t', t'.ctxs[k]) {
        assert CtxOk(t, t.ctxs[k]);
        OwnNumber(t, index, k);
      }
    }
  }

  lemma WaitInv(t: Table, index: nat, timedOut: bool)
    requires Inv(t) && index < |t.ctxs| && index in t.alloc
    ensures Inv(Wait(t, index, timedOut).0)
  {
    var c := t.ctxs[index];
    if c.state == DONE || timedOut {
      var t' := Wait(t, index, timedOut).0;
      WithoutIs(t.free, index);
      WithoutIs(t.alloc, index);
      Pushed(index, Without(t.free, index));
      forall k | 0 <= k < |t'.ctxs| ensures CtxOk(t', t'.ctxs[k]) {
        assert CtxOk(t, t.ctxs[k]);
      }
    }
  }

  lemma StepInv(t: Table, e: Event)
    requires Inv(t) && Enabled(t, e)
    ensures Inv(Step(t, e)) && |Step(t, e).ctxs| == |t.ctxs|
    ensures t.sent <= Step(t, e).sent && t.taken <= Step(t, e).taken
  {
    hide Inv;
    match e
    case DoSend(locked) => SendInv(t, locked);
    case DoReply(index, seqNo, payload) => ReplyInv(t, index, seqNo, payload);
    case DoWait(index, timedOut) => WaitInv(t, index, timedOut);
  }

  lemma SendInv(t: Table, locked: set<nat>)
    requires Inv(t)
    ensures Inv(Send(t, locked).0)
  {
    SendLists(t, locked);
    SendNumbers(t, locked);
  }

  lemma {:induction false} RunInv(t: Table, run: seq<Event>)
    requires Inv(t) && Possible(t, run)
    ensures Inv(Run(t, run)) && |Run(t, run).ctxs| == |t.ctxs|
    ensures t.sent <= Run(t, run).sent && t.taken <= Run(t, run).taken
    decreases |run|
  {
    hide Inv, Step, Enabled;
    if run != [] {
      StepInv(t, run[0]);
      RunInv(Step(t, run[0]), run[1..]);
    }
  }

  /* ----- the results ----- */

  /** In every reachable state a context is on the free list exactly when its state is FREE and on the
      other list exactly when it is not, and on no list twice. */
  lemma FreeListIsFree(n: nat, run: seq<Event>, k: nat)
    requires Possible(Start(n), run) && k < n
    ensures var t := Run(Start(n), run);
            && |t.ctxs| == n
            && (k in t.free <==> t.ctxs[k].state == FREE) && (k in t.alloc <==> t.ctxs[k].state != FREE)
            && NoDup(t.free) && NoDup(t.alloc)
  {
    StartInv(n);
    RunInv(Start(n), run);
  }

  /** A reply is taken exactly when its slot is pending and its sequence number is that of the slot's
      exchange modulo 2 to the 32. */
  lemma TakenByPendingExchange(n: nat, run: seq<Event>, index: nat, seqNo: nat)
    requires Possible(Start(n), run)
    ensures var t := Run(Start(n), run);
            Takes(t, index, seqNo) <==>
            index < |t.ctxs| == n && t.ctxs[index].state == PENDING && t.ctxs[index].exchange % U32 == seqNo
  {
    StartInv(n);
    RunInv(Start(n), run);
  }

  /** An exchange that is over, its slot given back by a reply or by a timeout or used again. */
  predicate Over(t: Table, exchange: nat) {
    && 0 < exchange <= t.sent
    && forall k :: 0 <= k < |t.ctxs| && t.ctxs[k].exchange == exchange ==> t.ctxs[k].state != PENDING
  }

  lemma OverStays(t: Table, e: Event, exchange: nat)
    requires Inv(t) && Enabled(t, e) && Over(t, exchange)
    ensures Over(Step(t, e), exchange)
  {
    if e.DoSend? {
      FirstUnlockedIs(t.free, e.locked);
    }
  }

  lemma {:induction false} OverForGood(t: Table, run: seq<Event>, exchange: nat)
    requires Inv(t) && Possible(t, run) && Over(t, exchange)
    ensures Over(Run(t, run), exchange)
    decreases |run|
  {
    hide Inv, Step, Enabled, Over;
    if run != [] {
      OverStays(t, run[0], exchange);
      StepInv(t, run[0]);
      OverForGood(Step(t, run[0]), run[1..], exchange);
    }
  }

  /** While at most 2 to the 32 exchanges have begun, a reply to an exchange that is over is refused
      at every slot, from the moment it is over on: by whoever uses the slot then, and also when
      it was answered before. */
  lemma StaleReplyRefused(n: nat, before: seq<Event>, after: seq<Event>, exchange: nat, index: nat)
    requires Possible(Start(n), before)
    requires var t := Run(Start(n), before); Over(t, exchange) && Possible(t, after)
    requires Run(Run(Start(n), before), after).sent <= U32
    ensures !Takes(Run(Run(Start(n), before), after), index, exchange % U32)
  {
    hide Inv, Over, Takes, Run, Possible, Start;
    var t := Run(Start(n), before);
    StartInv(n);
    RunInv(Start(n), before);
    RunInv(t, after);
    OverForGood(t, after, exchange);
    OverRefused(Run(t, after), exchange, index);
  }

  lemma OverRefused(t: Table, exchange: nat, index: nat)
    requires Inv(t) && Over(t, exchange) && t.sent <= U32
    ensures !Takes(t, index, exchange % U32)
  {
    if Takes(t, index, exchange % U32) {
      assert CtxOk(t, t.ctxs[index]);
      SameNumber(t.ctxs[index].exchange, exchange);
    }
  }

  lemma SameNumber(a: nat, b: nat)
    requires 0 < a <= U32 && 0 < b <= U32 && a % U32 == b % U32
    ensures a == b
  {
  }

  /** Is every reply to an exchange that is over refused, in all runs of at most so many exchanges? */
  ghost predicate StaleRepliesRefused(n: nat, exchanges: nat) {
    forall run: seq<Event>, exchange: nat, index: nat ::
      Possible(Start(n), run) && Run(Start(n), run).sent <= exchanges && Over(Run(Start(n), run), exchange) ==>
      !Takes(Run(Start(n), run), index, exchange % U32)
  }

  /** The run in which every exchange on slot 0 times out, k times, and one more begins. */
  function TimingOut(k: nat): seq<Event> {
    if k == 0 then [DoSend({})] else [DoSend({}), DoWait(0, true)] + TimingOut(k - 1)
  }

  /** Nothing is under way and slot 0 is the next to be used. */
  predicate Quiet(t: Table) {
    t.alloc == [] && t.free != [] && t.free[0] == 0 && |t.ctxs| > 0
  }

  lemma QuietRound(t: Table)
    requires Inv(t) && Quiet(t)
    ensures var u := Step(t, DoSend({}));
            && Enabled(u, DoWait(0, true))
            && Quiet(Step(u, DoWait(0, true))) && Step(u, DoWait(0, true)).sent == t.sent + 1
            && |u.ctxs| == |t.ctxs| && u.sent == t.sent + 1
            && u.ctxs[0].state == PENDING && u.ctxs[0].exchange == t.sent + 1
            && forall k :: 0 < k < |u.ctxs| ==> u.ctxs[k].state == FREE
  {
    var u := Step(t, DoSend({}));
    assert u.alloc == [0];
    forall k | 0 < k < |u.ctxs| ensures u.ctxs[k].state == FREE {
      assert k !in t.alloc;
    }
  }

  lemma {:induction false} TimingOutRuns(t: Table, k: nat)
    requires Inv(t) && Quiet(t)
    ensures Possible(t, TimingOut(k))
    ensures var u := Run(t, TimingOut(k));
            && |u.ctxs| == |t.ctxs| && u.sent == t.sent + k + 1
            && u.ctxs[0].state == PENDING && u.ctxs[0].exchange == t.sent + k + 1
            && forall i :: 0 < i < |u.ctxs| ==> u.ctxs[i].state == FREE
    decreases k
  {
    QuietRound(t);
    var run, u := TimingOut(k), Step(t, DoSend({}));
    StepInv(t, DoSend({}));
    hide Inv, Quiet, Step, Enabled;
    assert Enabled(t, DoSend({})) by {
      Sends(t);
    }
    assert run[0] == DoSend({});
    if k == 0 {
      assert run[1..] == [];
    } else {
      StepInv(u, DoWait(0, true));
      TimingOutRuns(Step(u, DoWait(0, true)), k - 1);
      assert run[1..][0] == DoWait(0, true) && run[1..][1..] == TimingOut(k - 1);
    }
  }

  lemma Sends(t: Table)
    ensures Enabled(t, DoSend({}))
  {
  }

  /** Whatever the number of contexts, the bound of 2 to the 32 exchanges is exact: with one more, the
      exchange that has the first one's slot takes a reply to the first one. */
  lemma StaleRepliesExactly(n: nat, exchanges: nat)
    requires n >= 1
    ensures StaleRepliesRefused(n, exchanges) <==> exchanges <= U32
  {
    if exchanges <= U32 {
      forall run: seq<Event>, exchange: nat, index: nat
        | Possible(Start(n), run) && Run(Start(n), run).sent <= exchanges && Over(Run(Start(n), run), exchange)
        ensures !Takes(Run(Start(n), run), index, exchange % U32)
      {
        StartInv(n);
        RunInv(Start(n), run);
        OverRefused(Run(Start(n), run), exchange, index);
      }
    } else {
      StartInv(n);
      TimingOutRuns(Start(n), U32);
      var run := TimingOut(U32);
      RunInv(Start(n), run);
      WrapTakes(Run(Start(n), run));
    }
  }

  lemma WrapTakes(t: Table)
    requires Inv(t) && |t.ctxs| > 0 && t.sent == U32 + 1
    requires t.ctxs[0].state == PENDING && t.ctxs[0].exchange == U32 + 1
    requires forall i :: 0 < i < |t.ctxs| ==> t.ctxs[i].state == FREE
    ensures Over(t, 1) && Takes(t, 0, 1 % U32)
  {
    assert CtxOk(t, t.ctxs[0]);
  }

  /** Once a reply has been taken, its exchange is over; so no exchange takes two replies. */
  lemma TakenOnce(n: nat, run: seq<Event>, index: nat, seqNo: nat, payload: nat)
    requires Possible(Start(n), run) && Takes(Run(Start(n), run), index, seqNo)
    ensures var t := Run(Start(n), run);
            var t' := Reply(t, index, seqNo, payload);
            && Over(t', t.ctxs[index].exchange)
            && t'.free == t.free && t'.alloc == t.alloc && |t'.ctxs| == |t.ctxs|
            && (forall k :: 0 <= k < |t.ctxs| && k != index ==> t'.ctxs[k] == t.ctxs[k])
            && (forall i, j :: 0 <= i < j < |t'.taken| ==> t'.taken[i].exchange != t'.taken[j].exchange)
  {
    StartInv(n);
    RunInv(Start(n), run);
    var t := Run(Start(n), run);
    assert CtxOk(t, t.ctxs[index]);
    ReplyInv(t, index, seqNo, payload);
  }

  /** A waiter that leaves with a message has the one that was taken for its own exchange, and one that
      leaves without has had none taken. */
  lemma WaiterGetsItsOwn(n: nat, run: seq<Event>, index: nat, timedOut: bool)
    requires Possible(Start(n), run) && index in Run(Start(n), run).alloc
    ensures index < |Run(Start(n), run).ctxs| == n
    ensures var t := Run(Start(n), run);
            var exchange := t.ctxs[index].exchange;
            match Wait(t, index, timedOut).1
            case Some(payload) => Accepted(exchange, payload) in t.taken
            case None => forall i :: 0 <= i < |t.taken| ==> t.taken[i].exchange != exchange
    ensures var t := Run(Start(n), run);
            timedOut ==> Over(Wait(t, index, timedOut).0, t.ctxs[index].exchange)
  {
    StartInv(n);
    RunInv(Start(n), run);
    var t := Run(Start(n), run);
    assert CtxOk(t, t.ctxs[index]);
    forall k | 0 <= k < n ensures t.ctxs[index].exchange == t.ctxs[k].exchange ==> k == index {
      OwnNumber(t, index, k);
    }
  }

  /* ----- a turn of the waiter, and every reply delivered once ----- */

  /** What a turn does: with a reply or out of time the waiter leaves, its slot goes back to the free list without
      a message and its exchange is over; else nothing changes. No other slot ever changes. */
  lemma WaiterLeaves(n: nat, run: seq<Event>, index: nat, timedOut: bool)
    requires Possible(Start(n), run) && index in Run(Start(n), run).alloc
    ensures index < |Run(Start(n), run).ctxs| == n
    ensures
      var t := Run(Start(n), run);
      var (t', msg) := Wait(t, index, timedOut);
      && (msg.Some? <==> t.ctxs[index].state == DONE)
      && (t.ctxs[index].state != DONE && !timedOut ==> t' == t)
      && (t.ctxs[index].state == DONE || timedOut ==> Left(t, t', index, msg))
  {
    StartInv(n);
    RunInv(Start(n), run);
    hide Run, Possible;
    Leaves(Run(Start(n), run), index, timedOut);
  }

  predicate Left(t: Table, t': Table, index: nat, msg: Option<nat>)
    requires index < |t.ctxs|
  {
    && |t'.ctxs| == |t.ctxs|
    && index in t'.free && t'.free[0] == index && index !in t'.alloc
    && t'.ctxs[index].state == FREE && t'.ctxs[index].msg == None
    && Over(t', t.ctxs[index].exchange)
    && t'.delivered == t.delivered + (if msg.Some? then [Accepted(t.ctxs[index].exchange, msg.value)] else [])
    && (forall k :: 0 <= k < |t.ctxs| && k != index ==>
          t'.ctxs[k] == t.ctxs[k] && (k in t'.free <==> k in t.free) && (k in t'.alloc <==> k in t.alloc))
  }

  lemma Leaves(t: Table, index: nat, timedOut: bool)
    requires Inv(t) && index in t.alloc
    ensures index < |t.ctxs|
    ensures
      var (t', msg) := Wait(t, index, timedOut);
      && (msg.Some? <==> t.ctxs[index].state == DONE)
      && (t.ctxs[index].state != DONE && !timedOut ==> t' == t)
      && (t.ctxs[index].state == DONE || timedOut ==> Left(t, t', index, msg))
  {
    assert CtxOk(t, t.ctxs[index]);
    WithoutIs(t.free, index);
    WithoutIs(t.alloc, index);
    forall k | 0 <= k < |t.ctxs| ensures t.ctxs[index].exchange == t.ctxs[k].exchange ==> k == index {
      OwnNumber(t, index, k);
    }
  }

  /** Sending succeeds exactly when some free slot is not locked; the first such slot becomes pending with the
      next exchange and its number, and no other slot changes. */
  lemma SendTakesFree(n: nat, run: seq<Event>, locked: set<nat>)
    requires Possible(Start(n), run)
    ensures |Run(Start(n), run).ctxs| == n
    ensures
      var t := Run(Start(n), run);
      var (t', slot) := Send(t, locked);
      && (slot.None? <==> forall k :: 0 <= k < n && t.ctxs[k].state == FREE ==> k in locked)
      && (slot.None? ==> t' == t)
      && (slot.Some? ==> Begun(t, t', slot.value) && FirstNotIn(t.free, locked, slot.value))
  {
    StartInv(n);
    RunInv(Start(n), run);
    hide Run, Possible;
    Begins(Run(Start(n), run), locked);
  }

  /** The first one of the list outside the set. */
  predicate FirstNotIn(l: seq<nat>, locked: set<nat>, i: nat) {
    exists p :: 0 <= p < |l| && l[p] == i && i !in locked && forall q :: 0 <= q < p ==> l[q] in locked
  }

  lemma {:induction false} FirstIs(free: seq<nat>, locked: set<nat>)
    requires FirstUnlocked(free, locked).Some?
    ensures FirstNotIn(free, locked, FirstUnlocked(free, locked).value)
  {
    if free[0] in locked {
      FirstIs(free[1..], locked);
      var i := FirstUnlocked(free, locked).value;
      var p :| 0 <= p < |free| - 1 && free[1..][p] == i && i !in locked
               && forall q :: 0 <= q < p ==> free[1..][q] in locked;
      assert free[p + 1] == i && forall q :: 0 < q < p + 1 ==> free[q] == free[1..][q - 1];
    }
  }

  predicate Begun(t: Table, t': Table, i: nat) {
    && i < |t.ctxs| == |t'.ctxs| && t.ctxs[i].state == FREE
    && i in t'.alloc && i !in t'.free
    && t'.ctxs[i].state == PENDING && t'.ctxs[i].exchange == t'.sent == t.sent + 1
    && t'.ctxs[i].counter == t'.sent % U32
    && (forall k :: 0 <= k < |t.ctxs| && k != i ==>
          t'.ctxs[k] == t.ctxs[k] && (k in t'.free <==> k in t.free) && (k in t'.alloc <==> k in t.alloc))
  }

  lemma Begins(t: Table, locked: set<nat>)
    requires Inv(t)
    ensures
      var (t', slot) := Send(t, locked);
      && (slot.None? <==> forall k :: 0 <= k < |t.ctxs| && t.ctxs[k].state == FREE ==> k in locked)
      && (slot.None? ==> t' == t)
      && (slot.Some? ==> Begun(t, t', slot.value) && FirstNotIn(t.free, locked, slot.value))
  {
    FirstUnlockedIs(t.free, locked);
    if FirstUnlocked(t.free, locked).Some? {
      WithoutIs(t.free, FirstUnlocked(t.free, locked).value);
      FirstIs(t.free, locked);
      hide FirstNotIn;
      NextCounter(t.sent);
    }
  }

  /** A reply that is taken reaches its waiter: whatever happens until the waiter's next turn, that turn delivers
      it, in time or not. */
  lemma ReplyReachesWaiter(n: nat, run: seq<Event>, index: nat, seqNo: nat, payload: nat, more: seq<Event>,
                          timedOut: bool)
    requires Possible(Start(n), run) && Takes(Run(Start(n), run), index, seqNo)
    requires Possible(Reply(Run(Start(n), run), index, seqNo, payload), more)
    requires forall e :: e in more ==> !(e.DoWait? && e.index == index)
    ensures
      var t := Run(Reply(Run(Start(n), run), index, seqNo, payload), more);
      index < |t.ctxs| && index in t.alloc && Wait(t, index, timedOut).1 == Some(payload)
  {
    StartInv(n);
    RunInv(Start(n), run);
    var t := Run(Start(n), run);
    ReplyInv(t, index, seqNo, payload);
    assert t.ctxs[index].state != FREE;
    hide Run, Possible, Inv;
    Waits(Reply(t, index, seqNo, payload), more, index);
  }

  lemma {:induction false} Waits(t: Table, more: seq<Event>, index: nat)
    requires Inv(t) && Possible(t, more) && index < |t.ctxs| && t.ctxs[index].state == DONE
    requires forall e :: e in more ==> !(e.DoWait? && e.index == index)
    ensures var u := Run(t, more);
            index < |u.ctxs| && u.ctxs[index] == t.ctxs[index] && index in u.alloc
    decreases |more|
  {
    if more != [] {
      StepInv(t, more[0]);
      KeepsDone(t, more[0], index);
      assert more[0] in more;
      assert forall e :: e in more[1..] ==> e in more;
      hide Inv, Step, Enabled;
      Waits(Step(t, more[0]), more[1..], index);
    }
  }

  lemma KeepsDone(t: Table, e: Event, index: nat)
    requires Inv(t) && Enabled(t, e) && index < |t.ctxs| && t.ctxs[index].state == DONE
    requires !(e.DoWait? && e.index == index)
    ensures |Step(t, e).ctxs| == |t.ctxs| && Step(t, e).ctxs[index] == t.ctxs[index]
  {
    if e.DoSend? { FirstUnlockedIs(t.free, e.locked); }
  }

  lemma ReplyDeliveries(t: Table, index: nat, seqNo: nat, payload: nat)
    requires Inv(t) && Deliveries(t) && Takes(t, index, seqNo)
    ensures Deliveries(Reply(t, index, seqNo, payload))
  {
    var t', x := Reply(t, index, seqNo, payload), Accepted(t.ctxs[index].exchange, payload);
    assert CtxOk(t, t.ctxs[index]);
    assert forall a :: a in t'.taken ==> a in t.taken || a == x;
    assert x in t'.taken by { assert t'.taken[|t.taken|] == x; }
    assert forall a :: a in t.taken ==> a in t'.taken && a.exchange != t.ctxs[index].exchange;
    assert Holds(t', index, x);
    forall a | a in t'.taken ensures a in t'.delivered <==> !exists k: nat :: Holds(t', k, a) {
      if a != x {
        forall k: nat ensures Holds(t', k, a) <==> Holds(t, k, a) {}
      }
    }
  }

  lemma WaitDeliveries(t: Table, index: nat, timedOut: bool)
    requires Inv(t) && Deliveries(t) && index < |t.ctxs| && index in t.alloc
    ensures Deliveries(Wait(t, index, timedOut).0)
  {
    var c, t' := t.ctxs[index], Wait(t, index, timedOut).0;
    assert CtxOk(t, c);
    if c.state == DONE {
      var x := Accepted(c.exchange, c.msg.value);
      assert Holds(t, index, x);
      OnlyTaken(t, x);
      assert forall a :: a in t'.delivered <==> a in t.delivered || a == x;
      forall a | a in t'.taken ensures a in t'.delivered <==> !exists k: nat :: Holds(t', k, a) {
        forall k: nat ensures Holds(t', k, a) <==> k != index && Holds(t, k, a) {}
        if k: nat :| Holds(t', k, a) { OwnNumber(t, index, k); }
      }
      forall i | 0 <= i < |t.delivered| ensures t.delivered[i].exchange != x.exchange {
        assert t.delivered[i] in t.delivered;
      }
    } else if timedOut {
      forall a, k: nat ensures Holds(t', k, a) <==> Holds(t, k, a) {}
    }
  }

  /** One reply only was taken for an exchange. */
  lemma OnlyTaken(t: Table, x: Accepted)
    requires Once(t) && x in t.taken
    ensures forall a :: a in t.taken && a.exchange == x.exchange ==> a == x
  {
  }

  lemma SendDeliveries(t: Table, locked: set<nat>)
    requires Inv(t) && Deliveries(t)
    ensures Deliveries(Send(t, locked).0)
  {
    FirstUnlockedIs(t.free, locked);
    var t' := Send(t, locked).0;
    forall a, k: nat ensures Holds(t', k, a) <==> Holds(t, k, a) {}
  }

  lemma {:induction false} RunDeliveries(t: Table, run: seq<Event>)
    requires Inv(t) && Deliveries(t) && Possible(t, run)
    ensures Deliveries(Run(t, run))
    decreases |run|
  {
    if run != [] {
      StepInv(t, run[0]);
      match run[0] {
        case DoSend(locked) => SendDeliveries(t, locked);
        case DoReply(index, seqNo, payload) =>
          if Takes(t, index, seqNo) { ReplyDeliveries(t, index, seqNo, payload); }
        case DoWait(index, timedOut) => WaitDeliveries(t, index, timedOut);
      }
      hide Inv, Deliveries;
      RunDeliveries(Step(t, run[0]), run[1..]);
    }
  }

  /** In every reachable state each reply that was taken has been delivered or waits in a slot, and not both;
      nothing else has been delivered, and nothing twice. */
  lemma DeliveredOnce(n: nat, run: seq<Event>)
    requires Possible(Start(n), run)
    ensures Deliveries(Run(Start(n), run))
  {
    StartInv(n);
    RunDeliveries(Start(n), run);
  }
}
