/**
 The helper's main loop over the whole system (kocl/helper.c:333-347 with kocl/main.c):
 how many passes an offloaded request waits for its callback, wherever it is.

 The loop answers done_reqs, works on the other lists and reads one request. Callers may
 take steps between any two of its own. poll reports the device readable exactly when
 reqs is not empty.
 */
module OffloadLiveness {
  import opened Wrappers
  import opened KoclTypes
  import opened Pipeline
  import opened PipelineSafety
  import opened PipelineLiveness
  import opened OffloadSystem

  /** The system with the helper's place in its loop: `reading` is set behind the work on the lists.
      `base` is what the helper held when the current pass began, `codes` what services return in it,
      `passes` the number of passes completed. */
  datatype Loop = Loop(sys: Sys, reading: bool, passes: nat, base: State, codes: Codes)

  datatype Move = Take(step: Step) | NothingToRead

  ghost predicate CanMove(l: Loop, m: Move) {
    match m
    case NothingToRead => l.reading && l.sys.pc.Idle? && l.sys.reqs == []
    case Take(step) =>
      && Enabled(l.sys, step)
      && match step {
           case WriteFind => !l.reading
           case WriteComplete => !l.reading
           case Work(_) => !l.reading && l.sys.h.done == []
           case ReadTake => l.reading
           case ReadPark => l.reading
           case Accept(_) => l.reading
           case _ => true
         }
  }

  function NextPass(l: Loop, s: Sys): Loop {
    Loop(s, false, l.passes + 1, s.h, l.codes)
  }

  ghost function AfterMove(l: Loop, m: Move): Loop
    requires CanMove(l, m)
  {
    match m
    case NothingToRead => NextPass(l, l.sys)
    case Take(step) =>
      var s := Do(l.sys, step);
      match step
      case Work(codes) => l.(sys := s, reading := true, codes := codes)
      case Accept(_) => NextPass(l, s)
      case _ => l.(sys := s)
  }

  ghost predicate Plays(l: Loop, moves: seq<Move>)
    decreases |moves|
  {
    moves == [] || (CanMove(l, moves[0]) && Plays(AfterMove(l, moves[0]), moves[1..]))
  }

  ghost function Play(l: Loop, moves: seq<Move>): Loop
    requires Plays(l, moves)
    decreases |moves|
  {
    if moves == [] then l else Play(AfterMove(l, moves[0]), moves[1..])
  }

  const NO_CODES := Codes(_ => 0, _ => 0, _ => 0)

  const BOOT_LOOP := Loop(BOOT, false, 0, START, NO_CODES)

  /* ----- a pass of the loop is a pass of the pipeline ----- */

  ghost predicate LoopInv(l: Loop) {
    && SysInv(l.sys) && Inv(l.base)
    && l.base.log <= l.sys.h.log
    && (if l.reading then
          l.sys.h == WorkOn(AnswerAll(l.base), l.codes) && !l.sys.pc.Found?
        else
          AnswerAll(l.sys.h) == AnswerAll(l.base) && (l.sys.pc.Idle? || l.sys.pc.Found?))
  }

  /** What a move does to the passes: none is completed, or one, and it was a pass of the pipeline. */
  ghost predicate OnePassAtMost(l: Loop, l': Loop) {
    || (l'.passes == l.passes && l'.base == l.base)
    || (l'.passes == l.passes + 1 && !l'.reading && l'.sys.pc.Idle? && l'.base == l'.sys.h
        && exists input :: l'.base == Pass(l.base, input))
  }

  lemma PassIsRounds(s: State, input: Input)
    ensures Pass(s, input) == Receive(WorkOn(AnswerAll(s), input.codes), input.arrival)
  {
  }

  lemma AnsweredAlready(h: State)
    requires h.done == []
    ensures AnswerAll(h) == h
  {
  }

  /** Steps of callers and of kocl_read leave the helper alone. */
  lemma OutsideSteps(s: Sys, step: Step)
    requires Enabled(s, step) && !step.Accept? && !step.Work? && !step.WriteComplete?
    ensures Do(s, step).h == s.h
    ensures !step.ReadTake? && !step.ReadPark? && !step.WriteFind? ==> Do(s, step).pc == s.pc
    ensures step.WriteFind? ==> Do(s, step).pc.Found?
    ensures step.ReadTake? || step.ReadPark? ==> !Do(s, step).pc.Found?
  {
  }

  lemma MoveKeeps(l: Loop, m: Move)
    requires LoopInv(l) && CanMove(l, m)
    ensures LoopInv(AfterMove(l, m)) && OnePassAtMost(l, AfterMove(l, m))
  {
    if m.Take? { StepInv(l.sys, m.step); }
    match m
    case NothingToRead =>
      ReadNothing(l);
    case Take(step) =>
      hide SysInv, Inv;
      match step {
        case Work(codes) => WorkMove(l, codes);
        case Accept(found) => AcceptMove(l, found);
        case WriteComplete => CompleteMove(l);
        case _ => OutsideSteps(l.sys, step);
      }
  }

  lemma ReadNothing(l: Loop)
    requires LoopInv(l) && CanMove(l, NothingToRead)
    ensures LoopInv(AfterMove(l, NothingToRead)) && OnePassAtMost(l, AfterMove(l, NothingToRead))
  {
    PassIsRounds(l.base, Input(l.codes, None));
    assert l.sys.h == Pass(l.base, Input(l.codes, None));
    PassInv(l.base, Input(l.codes, None));
    hide SysInv, Inv, Pass, WorkOn, AnswerAll;
  }

  lemma WorkMove(l: Loop, codes: Codes)
    requires LoopInv(l) && CanMove(l, Take(Work(codes))) && SysInv(Do(l.sys, Work(codes)))
    ensures LoopInv(AfterMove(l, Take(Work(codes)))) && OnePassAtMost(l, AfterMove(l, Take(Work(codes))))
  {
    AnsweredAlready(l.sys.h);
    WorkKeeps(l.sys.h, codes);
    hide Inv, WorkOn, AnswerAll;
  }

  lemma AcceptMove(l: Loop, found: bool)
    requires LoopInv(l) && CanMove(l, Take(Accept(found))) && SysInv(Do(l.sys, Accept(found)))
    ensures LoopInv(AfterMove(l, Take(Accept(found)))) && OnePassAtMost(l, AfterMove(l, Take(Accept(found))))
  {
    var input := Input(l.codes, Some(Arrival(KuRequest(l.sys.pc.r.id, l.sys.pc.r.channel), found)));
    PassIsRounds(l.base, input);
    assert Do(l.sys, Accept(found)).h == Pass(l.base, input);
    PassInv(l.base, input);
    hide SysInv, Inv, Pass, WorkOn, AnswerAll;
  }

  lemma CompleteMove(l: Loop)
    requires LoopInv(l) && CanMove(l, Take(WriteComplete)) && SysInv(Do(l.sys, WriteComplete))
    ensures LoopInv(AfterMove(l, Take(WriteComplete))) && OnePassAtMost(l, AfterMove(l, Take(WriteComplete)))
  {
    hide SysInv, Inv;
    assert Do(l.sys, WriteComplete).h == ServiceDone(l.sys.h);
    assert AnswerAll(l.sys.h) == AnswerAll(ServiceDone(l.sys.h));
  }

  /* ----- what only grows ----- */

  ghost predicate Grown(s: Sys, s': Sys) {
    s.offloaded <= s'.offloaded && s.completed <= s'.completed
  }

  lemma StepGrows(s: Sys, step: Step)
    requires Enabled(s, step)
    ensures Grown(s, Do(s, step))
  {
  }

  /** Between two states of a run: passes of the loop are passes of the pipeline. */
  ghost predicate Ran(l: Loop, l': Loop) {
    && LoopInv(l') && Grown(l.sys, l'.sys) && l.passes <= l'.passes
    && exists inputs: seq<Input> :: |inputs| == l'.passes - l.passes && l'.base == Run(l.base, inputs)
  }

  lemma RunOneMore(s: State, input: Input, inputs: seq<Input>)
    ensures Run(Pass(s, input), inputs) == Run(s, [input] + inputs)
  {
    assert ([input] + inputs)[1..] == inputs;
  }

  lemma RanStep(l: Loop, l1: Loop, l2: Loop)
    requires OnePassAtMost(l, l1) && Grown(l.sys, l1.sys) && Ran(l1, l2)
    ensures Ran(l, l2)
  {
    hide LoopInv, Run, Pass;
    var inputs: seq<Input> :| |inputs| == l2.passes - l1.passes && l2.base == Run(l1.base, inputs);
    if l1.passes == l.passes {
      assert l2.base == Run(l.base, inputs);
    } else {
      var input :| l1.base == Pass(l.base, input);
      RunOneMore(l.base, input, inputs);
      assert |[input] + inputs| == l2.passes - l.passes;
    }
  }

  lemma RanNowhere(l: Loop)
    requires LoopInv(l)
    ensures Ran(l, l)
  {
    hide LoopInv;
    var none: seq<Input> := [];
    assert l.base == Run(l.base, none);
  }

  lemma MoveGrows(l: Loop, m: Move)
    requires CanMove(l, m)
    ensures Grown(l.sys, AfterMove(l, m).sys)
  {
    if m.Take? {
      StepGrows(l.sys, m.step);
      hide Do, Grown;
    }
  }

  lemma PlayRan(l: Loop, moves: seq<Move>)
    requires LoopInv(l) && Plays(l, moves)
    ensures Ran(l, Play(l, moves))
    decreases |moves|
  {
    if moves == [] {
      RanNowhere(l);
    } else {
      var l1 := AfterMove(l, moves[0]);
      MoveKeeps(l, moves[0]);
      MoveGrows(l, moves[0]);
      PlayRan(l1, moves[1..]);
      hide LoopInv, Ran, OnePassAtMost, AfterMove, CanMove, Grown;
      RanStep(l, l1, Play(l1, moves[1..]));
    }
  }

  /* ----- until the helper has read the request ----- */

  /** Since a state with `passes` and `read`, the helper has read the first k + 1 requests or one in every pass. */
  ghost predicate Reads(l: Loop, passes: nat, read: nat, k: nat) {
    |l.sys.h.arrived| > k || |l.sys.h.arrived| + passes >= read + l.passes
  }

  lemma MoveReads(l: Loop, m: Move, passes: nat, read: nat, k: nat)
    requires LoopInv(l) && CanMove(l, m) && k < |l.sys.offloaded| && Reads(l, passes, read, k)
    ensures Reads(AfterMove(l, m), passes, read, k)
  {
    match m
    case NothingToRead =>
      assert Numbered(l.sys);
      assert l.sys.offloaded[|l.sys.h.arrived|..] == [];
    case Take(step) =>
      match step {
        case Accept(found) => AcceptShape(l.sys, found);
        case Work(codes) => WorkKeeps(l.sys.h, codes);
        case WriteComplete =>
        case _ => OutsideSteps(l.sys, step);
      }
  }

  lemma PlaySplit(l: Loop, moves: seq<Move>, i: nat)
    requires Plays(l, moves) && i <= |moves|
    ensures Plays(l, moves[..i]) && Plays(Play(l, moves[..i]), moves[i..])
    ensures Play(Play(l, moves[..i]), moves[i..]) == Play(l, moves)
    decreases i
  {
    hide AfterMove, CanMove;
    if i > 0 {
      PlaySplit(AfterMove(l, moves[0]), moves[1..], i - 1);
      assert moves[1..][..i - 1] == moves[..i][1..];
      assert moves[1..][i - 1..] == moves[i..];
    } else {
      assert moves[..0] == [] && moves[0..] == moves;
    }
  }

  /** The n-th pass has just been completed. */
  predicate PassEnds(l: Loop, n: nat) {
    l.passes == n && !l.reading && l.sys.pc.Idle? && l.base == l.sys.h
  }

  lemma PlayFirst(l: Loop, m: Move, moves: seq<Move>)
    requires CanMove(l, m) && Plays(AfterMove(l, m), moves)
    ensures Plays(l, [m] + moves) && Play(l, [m] + moves) == Play(AfterMove(l, m), moves)
  {
    assert ([m] + moves)[1..] == moves;
  }

  /** What a move keeps while looking for the end of a pass. */
  lemma MoveOn(l: Loop, m: Move, passes: nat, read: nat, k: nat)
    requires LoopInv(l) && CanMove(l, m) && k < |l.sys.offloaded| && Reads(l, passes, read, k)
    ensures var l1 := AfterMove(l, m);
            && LoopInv(l1) && k < |l1.sys.offloaded| && Reads(l1, passes, read, k)
            && (l1.passes == l.passes || PassEnds(l1, l.passes + 1))
  {
    MoveKeeps(l, m);
    MoveGrows(l, m);
    MoveReads(l, m, passes, read, k);
    hide LoopInv, Reads, AfterMove, CanMove;
  }

  /** The first i moves end with the n-th pass. */
  ghost predicate EndsAt(l: Loop, moves: seq<Move>, i: nat, n: nat, passes: nat, read: nat, k: nat) {
    && i <= |moves| && Plays(l, moves[..i])
    && PassEnds(Play(l, moves[..i]), n) && Reads(Play(l, moves[..i]), passes, read, k)
  }

  lemma EndsLater(l: Loop, m: Move, moves: seq<Move>, i: nat, n: nat, passes: nat, read: nat, k: nat)
    requires CanMove(l, m) && EndsAt(AfterMove(l, m), moves, i, n, passes, read, k)
    ensures EndsAt(l, [m] + moves, i + 1, n, passes, read, k)
  {
    assert ([m] + moves)[..i + 1] == [m] + moves[..i];
    hide Plays, Play, AfterMove, CanMove, PassEnds, Reads;
    PlayFirst(l, m, moves[..i]);
  }

  lemma EndsNow(l: Loop, moves: seq<Move>, n: nat, passes: nat, read: nat, k: nat)
    requires PassEnds(l, n) && Reads(l, passes, read, k)
    ensures EndsAt(l, moves, 0, n, passes, read, k)
  {
  }

  /** A run that completes n passes has a place where the n-th ends; what holds of reads holds there. */
  lemma CutAt(l: Loop, moves: seq<Move>, n: nat, passes: nat, read: nat, k: nat) returns (i: nat)
    requires LoopInv(l) && Plays(l, moves) && k < |l.sys.offloaded| && Reads(l, passes, read, k)
    requires l.passes < n <= Play(l, moves).passes
    ensures EndsAt(l, moves, i, n, passes, read, k)
    decreases |moves|
  {
    var l1 := AfterMove(l, moves[0]);
    MoveOn(l, moves[0], passes, read, k);
    hide LoopInv, Reads, AfterMove, CanMove, EndsAt;
    if l1.passes < n {
      i := CutAt(l1, moves[1..], n, passes, read, k);
    } else {
      EndsNow(l1, moves[1..], n, passes, read, k);
      i := 0;
    }
    EndsLater(l, moves[0], moves[1..], i, n, passes, read, k);
    i := i + 1;
    assert moves == [moves[0]] + moves[1..];
  }

  /* ----- from the offload to the callback ----- */

  /** The requests up to the k-th that are offloaded and not answered. */
  ghost function Ahead(s: Sys, k: nat): set<nat> {
    set j: nat | j <= k && j < |s.offloaded| && s.offloaded[j] in Flight(s)
  }

  lemma NeverBack(s: Sys, s': Sys, j: nat)
    requires SysInv(s) && SysInv(s') && Grown(s, s') && j < |s.offloaded|
    requires s.offloaded[j] !in Flight(s)
    ensures s'.offloaded[j] !in Flight(s')
  {
    LeftCompleted(s, j);
    var e :| Completion(j, e) in s.completed;
    hide SysInv, Flight;
    CompletedLeft(s', Completion(j, e));
  }

  lemma TicketInFlight(s: Sys, t: Ticket)
    requires SysInv(s) && t in s.h.all
    ensures t.stamp < |s.h.arrived| <= |s.offloaded| && s.offloaded[t.stamp] in Flight(s)
  {
    TicketIds(s.h);
    hide Inv, KernelInv, DistinctIds, StructsInv, CallsInv;
    assert s.offloaded[t.stamp] in s.offloaded && s.offloaded[t.stamp].serial == t.stamp;
  }

  /** As many tickets as stamps. */
  lemma StampsCard(a: set<Ticket>, b: set<nat>)
    requires forall t :: t in a ==> t.stamp in b
    requires forall t, u :: t in a && u in a && t.stamp == u.stamp ==> t == u
    ensures |a| <= |b|
  {
    if a != {} {
      var t :| t in a;
      StampsCard(a - {t}, b - {t.stamp});
    }
  }

  lemma UpToIsAhead(s: Sys, s': Sys, t: Ticket)
    requires SysInv(s) && SysInv(s') && Grown(s, s') && t in s'.h.all && t.stamp < |s.offloaded|
    ensures |UpTo(s'.h, t)| <= |Ahead(s, t.stamp)|
  {
    TicketIds(s'.h);
    assert forall u :: u in s'.h.all ==> u.id == s'.h.arrived[u.stamp].id;
    hide Inv, Numbered, KernelInv, DistinctIds, StructsInv, CallsInv, Flight;
    forall u | u in UpTo(s'.h, t) ensures u.stamp in Ahead(s, t.stamp) {
      TicketInFlight(s', u);
      if s.offloaded[u.stamp] !in Flight(s) { NeverBack(s, s', u.stamp); }
    }
    StampsCard(UpTo(s'.h, t), Ahead(s, t.stamp));
  }

  lemma RangeCard(lo: nat, hi: nat, a: set<nat>)
    requires lo <= hi && forall j :: lo <= j < hi ==> j in a
    ensures hi - lo <= |a|
    decreases hi - lo
  {
    if lo < hi { RangeCard(lo + 1, hi, a - {lo}); }
  }

  /** Requests that the helper has not read are all still ahead. */
  lemma UnreadAhead(s: Sys, k: nat)
    requires SysInv(s) && |s.h.arrived| <= k < |s.offloaded|
    ensures k + 1 - |s.h.arrived| <= |Ahead(s, k)|
  {
    forall j | |s.h.arrived| <= j < k + 1 ensures j in Ahead(s, k) {
      assert s.offloaded[j] in s.offloaded && s.offloaded[j].serial == j;
    }
    RangeCard(|s.h.arrived|, k + 1, Ahead(s, k));
  }

  lemma LoggedCompleted(s: Sys, k: nat)
    requires SysInv(s) && Answered(s.h, k)
    ensures exists e :: Completion(k, e) in s.completed
  {
    var i :| 0 <= i < |s.h.log| && s.h.log[i].stamp == k;
    assert s.completed[i] == Completion(k, s.h.log[i].errcode);
  }

  /** Once the helper has read the request. */
  lemma ReadAnswered(s: Sys, b: Loop, end: Loop, k: nat)
    requires SysInv(s) && Grown(s, b.sys) && LoopInv(b) && b.base == b.sys.h && Ran(b, end)
    requires k < |s.offloaded| && k < |b.sys.h.arrived|
    requires end.passes >= b.passes + LONGEST_WAIT * |Ahead(s, k)|
    ensures Answered(end.sys.h, k)
  {
    hide SysInv, Ahead, Flight, Run, UpTo, WorkOn, AnswerAll;
    var h := b.sys.h;
    var inputs: seq<Input> :| |inputs| == end.passes - b.passes && end.base == Run(h, inputs);
    assert end.base.log <= end.sys.h.log;
    assert Inv(h);
    hide Inv, Grown;
    LiveOrAnswered(h, k);
    if Answered(h, k) {
      AnsweredForGood(h, inputs, k);
    } else {
      var t :| t in h.all && t.stamp == k;
      UpToIsAhead(s, b.sys, t);
      EveryRequestAnswered(h, t, inputs);
    }
    var i :| 0 <= i < |end.base.log| && end.base.log[i].stamp == k;
    assert end.sys.h.log[i].stamp == k;
  }

  /** The pass in which the helper has read the request comes before the bound. */
  lemma ReadInTime(l: Loop, moves: seq<Move>, k: nat) returns (i: nat)
    requires LoopInv(l) && Plays(l, moves) && k < |l.sys.offloaded| && l.sys.offloaded[k] in Flight(l.sys)
    requires Play(l, moves).passes >= l.passes + |Ahead(l.sys, k)|
    ensures i <= |moves| && Plays(l, moves[..i])
    ensures
      var b := Play(l, moves[..i]);
      && b.base == b.sys.h && k < |b.sys.h.arrived| && b.passes <= l.passes + |Ahead(l.sys, k)|
  {
    var read := |l.sys.h.arrived|;
    assert k in Ahead(l.sys, k);
    if read <= k { UnreadAhead(l.sys, k); }
    var n := if read > k then 1 else k - read + 1;
    assert 1 <= n <= |Ahead(l.sys, k)|;
    hide Ahead, LoopInv, Flight;
    i := CutAt(l, moves, l.passes + n, l.passes, read, k);
  }

  lemma RequestCompleted(l: Loop, moves: seq<Move>, k: nat)
    requires LoopInv(l) && Plays(l, moves) && k < |l.sys.offloaded|
    requires Play(l, moves).passes >= l.passes + (LONGEST_WAIT + 1) * |Ahead(l.sys, k)|
    ensures exists e :: Completion(k, e) in Play(l, moves).sys.completed
  {
    PlayRan(l, moves);
    if l.sys.offloaded[k] !in Flight(l.sys) {
      hide SysInv, Flight;
      LeftCompleted(l.sys, k);
    } else {
      var i := ReadInTime(l, moves, k);
      PlaySplit(l, moves, i);
      PlayRan(l, moves[..i]);
      PlayRan(Play(l, moves[..i]), moves[i..]);
      hide SysInv, Flight, Ahead, Play, Plays, Grown;
      ReadAnswered(l.sys, Play(l, moves[..i]), Play(l, moves), k);
      LoggedCompleted(Play(l, moves).sys, k);
    }
  }

  /** The caller of the k-th request has its answer: its callback has run with its own data and the code, or
      its synchronous call may return. */
  ghost predicate Called(s: Sys, k: nat)
    requires k < |s.offloaded|
  {
    var r := s.offloaded[k];
    exists e ::
      && Completion(k, e) in s.completed
      && (!r.sync && r.user.callback.UserCallback? ==> Fired(k, r.user.callback.f, r.user.kdata, e) in s.fired)
      && (r.sync && k in s.calls ==> s.calls[k].done)
  }

  lemma {:induction false} FiredHas(completed: seq<Completion>, o: seq<Request>, c: Completion)
    requires c in completed && c.serial < |o| && !o[c.serial].sync && o[c.serial].user.callback.UserCallback?
    ensures Fired(c.serial, o[c.serial].user.callback.f, o[c.serial].user.kdata, c.errcode) in FiredOf(completed, o)
  {
    var n := |completed| - 1;
    if completed[n] != c { FiredHas(completed[..n], o, c); }
  }

  lemma CompletedCalled(s: Sys, k: nat, e: int)
    requires SysInv(s) && k < |s.offloaded| && Completion(k, e) in s.completed
    ensures Called(s, k)
  {
    var r := s.offloaded[k];
    CompletedLeft(s, Completion(k, e));
    if !r.sync && r.user.callback.UserCallback? { FiredHas(s.completed, s.offloaded, Completion(k, e)); }
    if k in s.calls { assert CallInv(s, k); }
  }

  lemma LoopCalled(l: Loop, moves: seq<Move>, k: nat)
    requires LoopInv(l) && Plays(l, moves) && k < |l.sys.offloaded|
    ensures
      var l' := Play(l, moves);
      && k < |l'.sys.offloaded| && l.sys.offloaded[k] == l'.sys.offloaded[k]
      && (l'.passes >= l.passes + (LONGEST_WAIT + 1) * |Ahead(l.sys, k)| ==> Called(l'.sys, k))
  {
    PlayRan(l, moves);
    var l' := Play(l, moves);
    if l'.passes >= l.passes + (LONGEST_WAIT + 1) * |Ahead(l.sys, k)| {
      RequestCompleted(l, moves, k);
      var e :| Completion(k, e) in l'.sys.completed;
      hide SysInv, Play, Plays, Ahead, Called;
      CompletedCalled(l'.sys, k, e);
    }
  }

  lemma BootLoopInv()
    ensures LoopInv(BOOT_LOOP)
  {
    BootInv();
  }

  /** The loop itself has a move. */
  ghost predicate HelperCanMove(l: Loop, codes: Codes, found: bool) {
    || CanMove(l, NothingToRead) || CanMove(l, Take(ReadTake)) || CanMove(l, Take(ReadPark))
    || CanMove(l, Take(Accept(found))) || CanMove(l, Take(Work(codes)))
    || CanMove(l, Take(WriteFind)) || CanMove(l, Take(WriteComplete))
  }

  lemma WhereItIs(l: Loop)
    requires LoopInv(l)
    ensures if l.reading then !l.sys.pc.Found? else l.sys.pc.Idle? || l.sys.pc.Found?
    ensures l.sys.pc.Found? ==> l.sys.h.done != []
  {
    hide Inv, Numbered, DistinctIds, StructsInv, CallsInv, WorkOn, AnswerAll;
  }

  lemma SomeMove(l: Loop, codes: Codes, found: bool)
    requires if l.reading then !l.sys.pc.Found? else l.sys.pc.Idle? || l.sys.pc.Found?
    requires l.sys.pc.Found? ==> l.sys.h.done != []
    ensures HelperCanMove(l, codes, found)
  {
  }

  /** The helper is never stuck, in whatever state a run has brought it. */
  lemma NeverStuck(moves: seq<Move>, codes: Codes, found: bool)
    requires Plays(BOOT_LOOP, moves)
    ensures HelperCanMove(Play(BOOT_LOOP, moves), codes, found)
  {
    BootLoopInv();
    PlayRan(BOOT_LOOP, moves);
    hide Play, Plays, LoopInv, HelperCanMove;
    WhereItIs(Play(BOOT_LOOP, moves));
    SomeMove(Play(BOOT_LOOP, moves), codes, found);
  }

  /** Whatever callers do, whatever services return and whichever are found: of the requests offloaded after any
      run of the loop, the k-th has reached its caller after LONGEST_WAIT + 1 passes for each one of those up to
      it that were not yet answered. */
  lemma EveryCallAnswered(moves: seq<Move>, more: seq<Move>, k: nat)
    requires Plays(BOOT_LOOP, moves) && Plays(Play(BOOT_LOOP, moves), more)
    requires k < |Play(BOOT_LOOP, moves).sys.offloaded|
    ensures
      var l := Play(BOOT_LOOP, moves);
      var l' := Play(l, more);
      && k < |l'.sys.offloaded| && l.sys.offloaded[k] == l'.sys.offloaded[k]
      && (l'.passes >= l.passes + (LONGEST_WAIT + 1) * |Ahead(l.sys, k)| ==> Called(l'.sys, k))
  {
    BootLoopInv();
    PlayRan(BOOT_LOOP, moves);
    hide Play, Plays, LoopInv, Called, Ahead;
    LoopCalled(Play(BOOT_LOOP, moves), more, k);
  }

  /* ----- the helper's own steps ----- */

  predicate IsOwn(m: Move) {
    m.NothingToRead? || !(m.step.OffloadAsync? || m.step.OffloadSync? || m.step.SyncReturn?)
  }

  function OwnMoves(moves: seq<Move>): nat {
    if moves == [] then 0 else (if IsOwn(moves[0]) then 1 else 0) + OwnMoves(moves[1..])
  }

  /** How far the helper is in its pass, not counting the answers it has finished. */
  function Place(l: Loop): (n: nat)
    ensures n <= 3
  {
    if l.reading then (match l.sys.pc case Taken(_) => 2 case Delivered(_) => 3 case _ => 1)
    else if l.sys.pc.Found? then 1 else 0
  }

  /** The items that the pass has yet to answer. */
  function Todo(l: Loop): nat {
    if l.reading then 0 else |l.sys.h.done|
  }

  /** Four steps a pass and two an answer: what the helper has done is in the passes, the answers and its place. */
  ghost predicate Counts(l: Loop, own: nat, l': Loop) {
    && |l.sys.completed| <= |l'.sys.completed| && l.passes <= l'.passes
    && own + Place(l) <= 4 * (l'.passes - l.passes) + 2 * (|l'.sys.completed| - |l.sys.completed|) + Place(l')
    && (l'.passes == l.passes ==> |l'.sys.completed| - |l.sys.completed| + Todo(l') <= Todo(l))
  }

  lemma CompletesOne(s: Sys)
    requires SysInv(s) && Enabled(s, WriteComplete)
    ensures |Do(s, WriteComplete).completed| == |s.completed| + 1
    ensures |Do(s, WriteComplete).h.done| == |s.h.done| - 1 && Do(s, WriteComplete).pc.Idle?
  {
    CompleteEffect(s);
    hide SysInv, RunCallback;
  }

  lemma OtherSteps(s: Sys, step: Step)
    requires Enabled(s, step) && !step.WriteComplete?
    ensures Do(s, step).completed == s.completed
    ensures step.Accept? || step.Work? ==> Do(s, step).pc.Idle?
    ensures step.ReadTake? ==> Do(s, step).pc.Taken?
    ensures step.ReadPark? ==> Do(s, step).pc.Delivered?
  {
  }

  lemma MoveCounts(l: Loop, m: Move)
    requires LoopInv(l) && CanMove(l, m)
    ensures Counts(l, if IsOwn(m) then 1 else 0, AfterMove(l, m))
  {
    hide SysInv, Inv, WorkOn, AnswerAll, Unused, Flight;
    match m
    case NothingToRead =>
    case Take(step) =>
      if step.WriteComplete? {
        CompletesOne(l.sys);
      } else {
        OtherSteps(l.sys, step);
        if !step.Accept? && !step.Work? { OutsideSteps(l.sys, step); }
      }
      hide Do, Enabled;
  }

  lemma {:induction false} PlayCounts(l: Loop, moves: seq<Move>)
    requires LoopInv(l) && Plays(l, moves)
    ensures Counts(l, OwnMoves(moves), Play(l, moves))
    decreases |moves|
  {
    if moves != [] {
      MoveKeeps(l, moves[0]);
      MoveCounts(l, moves[0]);
      hide LoopInv, CanMove, AfterMove, Place, Todo;
      PlayCounts(AfterMove(l, moves[0]), moves[1..]);
    }
  }

  lemma PassEndsFrom(l: Loop, moves: seq<Move>)
    requires LoopInv(l) && Plays(l, moves) && OwnMoves(moves) > 2 * |l.sys.h.done| + 3
    ensures Play(l, moves).passes > l.passes
  {
    hide Play, OwnMoves, Place;
    PlayCounts(l, moves);
    hide LoopInv, Plays;
  }

  /** A pass ends: from any state that a run reaches, with n items on done_reqs, the helper has completed its pass
      once it has taken more than 2 * n + 3 steps of its own, whatever callers do meanwhile. */
  lemma PassEndsSoon(moves: seq<Move>, more: seq<Move>)
    requires Plays(BOOT_LOOP, moves) && Plays(Play(BOOT_LOOP, moves), more)
    requires OwnMoves(more) > 2 * |Play(BOOT_LOOP, moves).sys.h.done| + 3
    ensures Play(Play(BOOT_LOOP, moves), more).passes > Play(BOOT_LOOP, moves).passes
  {
    BootLoopInv();
    PlayRan(BOOT_LOOP, moves);
    hide LoopInv, Plays, Play, OwnMoves;
    PassEndsFrom(Play(BOOT_LOOP, moves), more);
  }

  /** Four steps for each pass of EveryCallAnswered's bound and two for each answer given between l and l'. */
  ghost function StepsEnough(l: Loop, l': Loop, k: nat): int {
    4 * ((LONGEST_WAIT + 1) * |Ahead(l.sys, k)|) + 2 * (|l'.sys.completed| - |l.sys.completed|) + 3
  }

  lemma StepsArePasses(l: Loop, moves: seq<Move>, k: nat)
    requires LoopInv(l) && Plays(l, moves) && OwnMoves(moves) >= StepsEnough(l, Play(l, moves), k)
    ensures Play(l, moves).passes >= l.passes + (LONGEST_WAIT + 1) * |Ahead(l.sys, k)|
  {
    hide Play, Ahead, OwnMoves, Place, Todo;
    PlayCounts(l, moves);
    hide LoopInv, Plays;
  }

  /** The bound of EveryCallAnswered in the helper's own steps. */
  lemma EveryCallAnsweredInSteps(moves: seq<Move>, more: seq<Move>, k: nat)
    requires Plays(BOOT_LOOP, moves) && Plays(Play(BOOT_LOOP, moves), more)
    requires k < |Play(BOOT_LOOP, moves).sys.offloaded|
    requires OwnMoves(more) >= StepsEnough(Play(BOOT_LOOP, moves), Play(Play(BOOT_LOOP, moves), more), k)
    ensures var l' := Play(Play(BOOT_LOOP, moves), more);
            k < |l'.sys.offloaded| && Called(l'.sys, k)
  {
    BootLoopInv();
    PlayRan(BOOT_LOOP, moves);
    hide LoopInv, Plays, Play, Called, Ahead, OwnMoves, StepsEnough;
    StepsArePasses(Play(BOOT_LOOP, moves), more, k);
    EveryCallAnswered(moves, more, k);
  }
}
