/**
 What every operation of the pipeline keeps, and what follows for whole runs:
 the six lists partition the live items, busy queues are exactly the queues that
 live items hold, and one device's successful requests are answered in arrival order.
 */
module PipelineSafety {
  import opened Wrappers
  import opened KoclTypes
  import opened Lists
  import opened Pipeline

  /* ----- the invariant ----- */

  /** The lists that hold unanswered items, nearest to the answer first. */
  function Live(s: State): seq<Item> {
    s.done + s.post + s.running + s.prepared + s.mem + s.init
  }

  predicate OnList(x: Item, stage: Stage, next: nat) {
    && x.stage == stage
    && x.stamp < next
    && -1 <= x.queue < MAX_QUEUE_NR
    && (stage in {Prepared, Running, Posted} ==> x.queue >= 0)
    && (stage in {Init, MemDone} ==> x.queue == -1)
    && (stage != Done ==> x.errcode == 0)
  }

  ghost predicate AllOn(l: seq<Item>, stage: Stage, next: nat) {
    forall i :: 0 <= i < |l| ==> OnList(l[i], stage, next)
  }

  /** Every item is on the list its state names. */
  ghost predicate Staged(s: State) {
    && AllOn(s.init, Init, |s.arrived|) && AllOn(s.mem, MemDone, |s.arrived|)
    && AllOn(s.prepared, Prepared, |s.arrived|) && AllOn(s.running, Running, |s.arrived|)
    && AllOn(s.post, Posted, |s.arrived|) && AllOn(s.done, Done, |s.arrived|)
    && (forall x :: x in s.log ==> x.queue == -1 && x.stamp < |s.arrived|)
  }

  predicate SameDevice(x: Item, y: Item) { DeviceOf(x.channel) == DeviceOf(y.channel) }

  /** x may stand ahead of y: different requests, different queues, and in arrival
      order when both are successful (so far) and for the same device. */
  predicate Compatible(x: Item, y: Item) {
    && x.stamp != y.stamp
    && (x.errcode == 0 && y.errcode == 0 && SameDevice(x, y) ==> x.stamp < y.stamp)
    && (x.queue >= 0 && y.queue >= 0 ==> SlotOf(x) != SlotOf(y))
  }

  ghost predicate Pairwise(l: seq<Item>) {
    forall i, j :: 0 <= i < j < |l| ==> Compatible(l[i], l[j])
  }

  ghost predicate ByStamp(l: seq<Item>) {
    forall i, j :: 0 <= i < j < |l| ==> l[i].stamp < l[j].stamp
  }

  function Holders(l: seq<Item>): set<Slot> {
    set x | x in l && x.queue >= 0 :: SlotOf(x)
  }

  function Members(all: seq<Ticket>): set<Ticket> {
    set t | t in all
  }

  function Tickets(l: seq<Item>): set<Ticket> {
    set x | x in l :: TicketOf(x)
  }

  /** The requests an item list stems from, each with its place in the arrival order. */
  function Origins(l: seq<Item>): set<(nat, KuRequest)> {
    set x | x in l :: OriginOf(x)
  }

  function OriginOf(x: Item): (nat, KuRequest) { (x.stamp, KuRequest(x.id, x.channel)) }

  function Arrivals(arrived: seq<KuRequest>): set<(nat, KuRequest)> {
    set k: nat | k < |arrived| :: (k, arrived[k])
  }

  ghost predicate TicketsSorted(all: seq<Ticket>, next: nat) {
    && (forall i, j :: 0 <= i < j < |all| ==> all[i].stamp < all[j].stamp)
    && (forall t :: t in all ==> t.stamp < next)
  }

  ghost predicate Inv(s: State) {
    && Staged(s)
    && Pairwise(s.log + Live(s))
    && Origins(s.log + Live(s)) == Arrivals(s.arrived)
    && s.busy == Holders(Live(s))
    && TicketsSorted(s.all, |s.arrived|)
    && Members(s.all) == Tickets(Live(s))
    && ByStamp(s.mem + s.init)
  }

  /* ----- moving one item forward ----- */

  /** The sequence with the i-th item taken out and x put in front of the j-th. */
  function Moved(l: seq<Item>, j: nat, i: nat, x: Item): seq<Item>
    requires j <= i < |l|
  {
    l[..j] + [x] + l[j..i] + l[i + 1..]
  }

  /** Where the item at position m of Moved(l, j, i, x) was in l. */
  function Origin(j: nat, i: nat, m: nat): nat {
    if m < j || i < m then m else if m == j then i else m - 1
  }

  lemma MovedAt(l: seq<Item>, j: nat, i: nat, x: Item, m: nat)
    requires j <= i < |l| && m < |l|
    ensures |Moved(l, j, i, x)| == |l|
    ensures Origin(j, i, m) < |l|
    ensures Moved(l, j, i, x)[m] == if m == j then x else l[Origin(j, i, m)]
  {
  }

  lemma MovedPairwise(l: seq<Item>, j: nat, i: nat, x: Item)
    requires j <= i < |l| && Pairwise(l)
    requires x.stamp == l[i].stamp && x.channel == l[i].channel
    requires
      || x.errcode != 0
      || (l[i].errcode == 0 && forall m :: j <= m < i ==> l[m].errcode != 0 || !SameDevice(l[m], x))
    requires x.queue == l[i].queue || x.queue < 0 || SlotOf(x) !in Holders(l)
    ensures Pairwise(Moved(l, j, i, x))
  {
    var l' := Moved(l, j, i, x);
    forall m, n | 0 <= m < n < |l'| ensures Compatible(l'[m], l'[n]) {
      MovedAt(l, j, i, x, m);
      MovedAt(l, j, i, x, n);
      var m0, n0 := Origin(j, i, m), Origin(j, i, n);
      if m0 < n0 {
        assert Compatible(l[m0], l[n0]);
      } else {
        assert m == j && Compatible(l[n0], l[m0]);
      }
      assert l[n0].queue >= 0 ==> SlotOf(l[n0]) in Holders(l);
      assert l[m0].queue >= 0 ==> SlotOf(l[m0]) in Holders(l);
    }
  }

  lemma MovedMembers(l: seq<Item>, j: nat, i: nat, x: Item)
    requires j <= i < |l|
    ensures forall y :: y in Moved(l, j, i, x) <==> y == x || exists m :: 0 <= m < |l| && m != i && y == l[m]
  {
    var l' := Moved(l, j, i, x);
    forall m | 0 <= m < |l| && m != i ensures l[m] in l' {
      if j <= m < i { assert l'[m + 1] == l[m]; } else { assert l'[m] == l[m]; }
    }
    forall y | y in l' ensures y == x || exists m :: 0 <= m < |l| && m != i && y == l[m] {
      var n :| 0 <= n < |l'| && l'[n] == y;
      MovedAt(l, j, i, x, n);
      assert n == j || l[Origin(j, i, n)] == y;
    }
    assert l'[j] == x;
  }

  function Own(x: Item): set<Slot> {
    if x.queue >= 0 then {SlotOf(x)} else {}
  }

  lemma MovedSets(l: seq<Item>, j: nat, i: nat, x: Item)
    requires j <= i < |l| && Pairwise(l)
    requires TicketOf(x) == TicketOf(l[i])
    ensures Tickets(Moved(l, j, i, x)) == Tickets(l)
    ensures Holders(Moved(l, j, i, x)) == Holders(l) - Own(l[i]) + Own(x)
  {
    var l' := Moved(l, j, i, x);
    MovedMembers(l, j, i, x);
    assert l[i] in l && x in l';
    forall m | 0 <= m < |l| && m != i
      ensures l[m] in l' && (l[m].queue >= 0 && l[i].queue >= 0 ==> SlotOf(l[m]) != SlotOf(l[i]))
    {
      if m < i { assert Compatible(l[m], l[i]); } else { assert Compatible(l[i], l[m]); }
    }
    forall t ensures t in Tickets(l') <==> t in Tickets(l) {
      if t in Tickets(l) {
        var y :| y in l && TicketOf(y) == t;
        var m :| 0 <= m < |l| && l[m] == y;
        assert if m == i then TicketOf(x) == t && x in l' else y in l';
      }
    }
    forall c ensures c in Holders(l') <==> c in Holders(l) - Own(l[i]) + Own(x) {
      if c in Holders(l) - Own(l[i]) {
        var y :| y in l && y.queue >= 0 && SlotOf(y) == c;
        var m :| 0 <= m < |l| && l[m] == y;
        assert m != i;
      }
    }
  }

  lemma MovedBehind(log: seq<Item>, l: seq<Item>, j: nat, i: nat, x: Item)
    requires j <= i < |l|
    ensures log + Moved(l, j, i, x) == Moved(log + l, |log| + j, |log| + i, x)
  {
  }

  lemma PairwiseSuffix(log: seq<Item>, l: seq<Item>)
    requires Pairwise(log + l)
    ensures Pairwise(l)
  {
    forall a, b | 0 <= a < b < |l| ensures Compatible(l[a], l[b]) {
      assert l[a] == (log + l)[|log| + a] && l[b] == (log + l)[|log| + b];
    }
  }

  lemma MovedOrigins(l: seq<Item>, j: nat, i: nat, x: Item)
    requires j <= i < |l| && OriginOf(x) == OriginOf(l[i])
    ensures Origins(Moved(l, j, i, x)) == Origins(l)
  {
    var l' := Moved(l, j, i, x);
    MovedMembers(l, j, i, x);
    forall o ensures o in Origins(l') <==> o in Origins(l) {
      if o in Origins(l) {
        var y :| y in l && OriginOf(y) == o;
        var m :| 0 <= m < |l| && l[m] == y;
        assert if m == i then x in l' && OriginOf(x) == o else y in l';
      }
    }
  }

  /** The part of Inv that speaks of the answered and the live items as one line. */
  ghost predicate LineInv(log: seq<Item>, l: seq<Item>, busy: set<Slot>, all: seq<Ticket>,
                          arrived: seq<KuRequest>) {
    && (forall x :: x in log ==> x.queue == -1)
    && Pairwise(log + l)
    && Origins(log + l) == Arrivals(arrived)
    && busy == Holders(l)
    && Members(all) == Tickets(l)
  }

  lemma MoveBehindLog(log: seq<Item>, l: seq<Item>, j: nat, i: nat, x: Item)
    requires Pairwise(log + l) && j <= i < |l| && (forall y :: y in log ==> y.queue == -1)
    requires TicketOf(x) == TicketOf(l[i]) && x.channel == l[i].channel
    requires
      || x.errcode != 0
      || (l[i].errcode == 0 && forall m :: j <= m < i ==> l[m].errcode != 0 || !SameDevice(l[m], x))
    requires x.queue == l[i].queue || (l[i].queue == -1 && SlotOf(x) !in Holders(l))
    ensures Pairwise(log + Moved(l, j, i, x))
    ensures Origins(log + Moved(l, j, i, x)) == Origins(log + l)
  {
    var n, line := |log|, log + l;
    assert line[n + i] == l[i];
    forall m | n + j <= m < n + i ensures line[m] == l[m - n] {}
    assert SlotOf(x) in Holders(line) ==> SlotOf(x) in Holders(l);
    hide Pairwise, Moved, Origins, Holders;
    MovedBehind(log, l, j, i, x);
    MovedPairwise(line, n + j, n + i, x);
    MovedOrigins(line, n + j, n + i, x);
  }

  lemma MoveInLine(log: seq<Item>, l: seq<Item>, busy: set<Slot>, all: seq<Ticket>,
                   arrived: seq<KuRequest>, j: nat, i: nat, x: Item)
    requires LineInv(log, l, busy, all, arrived) && j <= i < |l|
    requires TicketOf(x) == TicketOf(l[i]) && x.channel == l[i].channel
    requires
      || x.errcode != 0
      || (l[i].errcode == 0 && forall m :: j <= m < i ==> l[m].errcode != 0 || !SameDevice(l[m], x))
    requires x.queue == l[i].queue || (l[i].queue == -1 && SlotOf(x) !in busy)
    ensures LineInv(log, Moved(l, j, i, x), busy + Own(x), all, arrived)
  {
    assert Own(l[i]) <= Own(x) && Own(l[i]) <= busy by { assert l[i] in l; }
    PairwiseSuffix(log, l);
    hide Pairwise, Origins, Moved;
    MoveBehindLog(log, l, j, i, x);
    MovedSets(l, j, i, x);
  }

  /** An operation that only changes the i-th live item and where it stands keeps Inv. */
  lemma Step(s: State, s': State, j: nat, i: nat, x: Item)
    requires Inv(s) && j <= i < |Live(s)|
    requires s'.log == s.log && s'.all == s.all && s'.arrived == s.arrived
    requires Live(s') == Moved(Live(s), j, i, x)
    requires TicketOf(x) == TicketOf(Live(s)[i]) && x.channel == Live(s)[i].channel
    requires
      || x.errcode != 0
      || (Live(s)[i].errcode == 0 && forall m :: j <= m < i ==> Live(s)[m].errcode != 0 || !SameDevice(Live(s)[m], x))
    requires x.queue == Live(s)[i].queue || (Live(s)[i].queue == -1 && SlotOf(x) !in s.busy)
    requires s'.busy == s.busy + Own(x)
    requires Staged(s') && ByStamp(s'.mem + s'.init)
    ensures Inv(s')
  {
    MoveInLine(s.log, Live(s), s.busy, s.all, s.arrived, j, i, x);
  }

  /* ----- every operation keeps the invariant ----- */

  lemma FreeSlotIsLowest(busy: set<Slot>, d: Device, i: nat)
    requires i <= MAX_QUEUE_NR
    ensures match FreeSlotFrom(busy, d, i)
            case None => forall q :: i <= q < MAX_QUEUE_NR ==> Slot(d, q) in busy
            case Some(q) =>
              i <= q < MAX_QUEUE_NR && Slot(d, q) !in busy && forall p :: i <= p < q ==> Slot(d, p) in busy
    decreases MAX_QUEUE_NR - i
  {
    if i < MAX_QUEUE_NR {
      FreeSlotIsLowest(busy, d, i + 1);
    }
  }

  lemma StartInv()
    ensures Inv(START)
  {
  }

  lemma LiveAt(s: State, i: nat)
    requires Inv(s) && i < |Live(s)|
    ensures Own(Live(s)[i]) <= s.busy
  {
    assert Live(s)[i] in Live(s);
  }

  lemma FinishPostMoves(s: State)
    requires s.post != []
    ensures |s.done| < |Live(s)| && Live(s)[|s.done|] == s.post[0]
    ensures Live(FinishPost(s)) == Moved(Live(s), |s.done|, |s.done|, s.post[0].(stage := Done))
  {
  }

  lemma FinishPostStaged(s: State)
    requires Staged(s) && s.post != []
    ensures Staged(FinishPost(s))
  {
  }

  lemma FinishPostInv(s: State)
    requires Inv(s) && s.post != []
    ensures Inv(FinishPost(s))
  {
    hide Live, Pairwise;
    FinishPostMoves(s);
    FinishPostStaged(s);
    LiveAt(s, |s.done|);
    Step(s, FinishPost(s), |s.done|, |s.done|, s.post[0].(stage := Done));
  }

  lemma Regroup(a: seq<Item>, b: seq<Item>, c: seq<Item>, d: seq<Item>)
    ensures a + b + c + d == a + (b + c + d)
    ensures a + b + c == a + (b + c)
  {
  }

  lemma PostExecAt(s: State)
    requires s.running != []
    ensures |s.done| + |s.post| < |Live(s)| && Live(s)[|s.done| + |s.post|] == s.running[0]
  {
  }

  lemma PostExecMovesBack(s: State, code: int)
    requires s.running != [] && code != 0
    ensures Live(PostExec(s, code)) == Moved(Live(s), |s.done|, |s.done| + |s.post|, Failed(s.running[0], code))
  {
    var x, mid := Failed(s.running[0], code), s.post;
    calc {
      Live(PostExec(s, code));
      s.done + [x] + s.post + s.running[1..] + s.prepared + s.mem + s.init;
      { assert s.done + [x] + s.post + s.running[1..] == s.done + [x] + mid + RemoveAt(s.running, 0); }
      s.done + [x] + mid + RemoveAt(s.running, 0) + s.prepared + s.mem + s.init;
      { Regroup(s.done + [x] + mid + RemoveAt(s.running, 0), s.prepared, s.mem, s.init); }
      s.done + [x] + mid + RemoveAt(s.running, 0) + (s.prepared + s.mem + s.init);
      { MovedAcross(s.done, mid, s.running, s.prepared + s.mem + s.init, 0, x); }
      Moved(s.done + mid + s.running + (s.prepared + s.mem + s.init), |s.done|, |s.done| + |s.post|, x);
      { assert s.done + mid == s.done + s.post; Regroup(s.done + mid + s.running, s.prepared, s.mem, s.init); }
      Moved(Live(s), |s.done|, |s.done| + |s.post|, x);
    }
  }

  lemma PostExecMovesOn(s: State)
    requires s.running != []
    ensures Live(PostExec(s, 0))
            == Moved(Live(s), |s.done| + |s.post|, |s.done| + |s.post|, s.running[0].(stage := Posted))
  {
    var x, front := s.running[0].(stage := Posted), s.done + s.post;
    calc {
      Live(PostExec(s, 0));
      s.done + (s.post + [x]) + s.running[1..] + s.prepared + s.mem + s.init;
      { assert s.done + (s.post + [x]) == front + [x] + []; }
      front + [x] + [] + RemoveAt(s.running, 0) + s.prepared + s.mem + s.init;
      { Regroup(front + [x] + [] + RemoveAt(s.running, 0), s.prepared, s.mem, s.init); }
      front + [x] + [] + RemoveAt(s.running, 0) + (s.prepared + s.mem + s.init);
      { MovedAcross(front, [], s.running, s.prepared + s.mem + s.init, 0, x); assert front + [] == front; }
      Moved(front + s.running + (s.prepared + s.mem + s.init), |s.done| + |s.post|, |s.done| + |s.post|, x);
      { Regroup(front + s.running, s.prepared, s.mem, s.init); }
      Moved(Live(s), |s.done| + |s.post|, |s.done| + |s.post|, x);
    }
  }

  lemma PostExecStaged(s: State, code: int)
    requires Staged(s) && s.running != []
    ensures Staged(PostExec(s, code))
  {
  }

  lemma PostExecInv(s: State, code: int)
    requires Inv(s) && s.running != []
    ensures Inv(PostExec(s, code))
  {
    hide Live, Pairwise;
    var i := |s.done| + |s.post|;
    PostExecAt(s);
    PostExecStaged(s, code);
    LiveAt(s, i);
    if code != 0 {
      PostExecMovesBack(s, code);
      Step(s, PostExec(s, code), |s.done|, i, Failed(s.running[0], code));
    } else {
      PostExecMovesOn(s);
      Step(s, PostExec(s, code), i, i, s.running[0].(stage := Posted));
    }
  }

  lemma LaunchExecAt(s: State)
    requires s.prepared != []
    ensures |s.done| + |s.post| + |s.running| < |Live(s)| && Live(s)[|s.done| + |s.post| + |s.running|] == s.prepared[0]
  {
  }

  lemma LaunchExecMovesBack(s: State, code: int)
    requires s.prepared != [] && code != 0
    ensures Live(LaunchExec(s, code))
            == Moved(Live(s), |s.done|, |s.done| + |s.post| + |s.running|, Failed(s.prepared[0], code))
  {
    var x, mid := Failed(s.prepared[0], code), s.post + s.running;
    calc {
      Live(LaunchExec(s, code));
      s.done + [x] + s.post + s.running + s.prepared[1..] + s.mem + s.init;
      { assert s.done + [x] + s.post + s.running + s.prepared[1..] == s.done + [x] + mid + RemoveAt(s.prepared, 0); }
      s.done + [x] + mid + RemoveAt(s.prepared, 0) + s.mem + s.init;
      { Regroup(s.done + [x] + mid + RemoveAt(s.prepared, 0), s.mem, s.init, []); }
      s.done + [x] + mid + RemoveAt(s.prepared, 0) + (s.mem + s.init);
      { MovedAcross(s.done, mid, s.prepared, s.mem + s.init, 0, x); }
      Moved(s.done + mid + s.prepared + (s.mem + s.init), |s.done|, |s.done| + |s.post| + |s.running|, x);
      { assert s.done + mid == s.done + s.post + s.running; Regroup(s.done + mid + s.prepared, s.mem, s.init, []); }
      Moved(Live(s), |s.done|, |s.done| + |s.post| + |s.running|, x);
    }
  }

  lemma LaunchExecMovesOn(s: State)
    requires s.prepared != []
    ensures Live(LaunchExec(s, 0)) == Moved(Live(s), |s.done| + |s.post| + |s.running|,
                                            |s.done| + |s.post| + |s.running|, s.prepared[0].(stage := Running))
  {
    var x, front := s.prepared[0].(stage := Running), s.done + s.post + s.running;
    calc {
      Live(LaunchExec(s, 0));
      s.done + s.post + (s.running + [x]) + s.prepared[1..] + s.mem + s.init;
      { assert s.done + s.post + (s.running + [x]) == front + [x] + []; }
      front + [x] + [] + RemoveAt(s.prepared, 0) + s.mem + s.init;
      { Regroup(front + [x] + [] + RemoveAt(s.prepared, 0), s.mem, s.init, []); }
      front + [x] + [] + RemoveAt(s.prepared, 0) + (s.mem + s.init);
      { MovedAcross(front, [], s.prepared, s.mem + s.init, 0, x); assert front + [] == front; }
      Moved(front + s.prepared + (s.mem + s.init), |s.done| + |s.post| + |s.running|,
            |s.done| + |s.post| + |s.running|, x);
      { Regroup(front + s.prepared, s.mem, s.init, []); }
      Moved(Live(s), |s.done| + |s.post| + |s.running|, |s.done| + |s.post| + |s.running|, x);
    }
  }

  lemma LaunchExecStaged(s: State, code: int)
    requires Staged(s) && s.prepared != []
    ensures Staged(LaunchExec(s, code))
  {
  }

  lemma LaunchExecInv(s: State, code: int)
    requires Inv(s) && s.prepared != []
    ensures Inv(LaunchExec(s, code))
  {
    hide Live, Pairwise;
    var i := |s.done| + |s.post| + |s.running|;
    LaunchExecAt(s);
    LaunchExecStaged(s, code);
    LiveAt(s, i);
    if code != 0 {
      LaunchExecMovesBack(s, code);
      Step(s, LaunchExec(s, code), |s.done|, i, Failed(s.prepared[0], code));
    } else {
      LaunchExecMovesOn(s);
      Step(s, LaunchExec(s, code), i, i, s.prepared[0].(stage := Running));
    }
  }

  /** No item of the k-th item's device stands between it and the front of memdone_reqs. */
  ghost predicate FirstOfDevice(s: State, k: nat)
    requires k < |s.mem|
  {
    forall m :: 0 <= m < k ==> !SameDevice(s.mem[m], s.mem[k])
  }

  function MemAt(s: State): nat { |s.done| + |s.post| + |s.running| + |s.prepared| }

  lemma MovedAcross(front: seq<Item>, mid: seq<Item>, mem: seq<Item>, tail: seq<Item>, k: nat, x: Item)
    requires k < |mem|
    ensures Moved(front + mid + mem + tail, |front|, |front| + |mid| + k, x)
         == front + [x] + mid + RemoveAt(mem, k) + tail
  {
  }

  lemma MemInLive(s: State)
    ensures MemAt(s) + |s.mem| <= |Live(s)|
    ensures forall m :: 0 <= m < |s.mem| ==> Live(s)[MemAt(s) + m] == s.mem[m]
  {
  }

  lemma PrepareExecMovesBack(s: State, k: nat, q: nat, code: int)
    requires k < |s.mem| && FreeSlot(s.busy, DeviceOf(s.mem[k].channel)) == Some(q) && code != 0
    ensures Live(PrepareExec(s, k, code))
         == Moved(Live(s), |s.done|, MemAt(s) + k, Failed(s.mem[k].(queue := q), code))
  {
    var x := Failed(s.mem[k].(queue := q), code);
    var mid := s.post + s.running + s.prepared;
    calc {
      Live(PrepareExec(s, k, code));
      s.done + [x] + s.post + s.running + s.prepared + RemoveAt(s.mem, k) + s.init;
      { assert s.done + [x] + s.post + s.running + s.prepared == s.done + [x] + mid; }
      s.done + [x] + mid + RemoveAt(s.mem, k) + s.init;
      { MovedAcross(s.done, mid, s.mem, s.init, k, x); }
      Moved(s.done + mid + s.mem + s.init, |s.done|, MemAt(s) + k, x);
      { assert s.done + mid == s.done + s.post + s.running + s.prepared; }
      Moved(Live(s), |s.done|, MemAt(s) + k, x);
    }
  }

  lemma PrepareExecMovesOn(s: State, k: nat, q: nat)
    requires k < |s.mem| && FreeSlot(s.busy, DeviceOf(s.mem[k].channel)) == Some(q)
    ensures Live(PrepareExec(s, k, 0))
         == Moved(Live(s), MemAt(s), MemAt(s) + k, s.mem[k].(queue := q, stage := Prepared))
  {
    var x := s.mem[k].(queue := q, stage := Prepared);
    var front := s.done + s.post + s.running + s.prepared;
    calc {
      Live(PrepareExec(s, k, 0));
      s.done + s.post + s.running + (s.prepared + [x]) + RemoveAt(s.mem, k) + s.init;
      { assert s.done + s.post + s.running + (s.prepared + [x]) == front + [x] + []; }
      front + [x] + [] + RemoveAt(s.mem, k) + s.init;
      { MovedAcross(front, [], s.mem, s.init, k, x); assert front + [] == front; }
      Moved(Live(s), MemAt(s), MemAt(s) + k, x);
    }
  }

  lemma PrepareExecStaged(s: State, k: nat, code: int)
    requires Staged(s) && k < |s.mem|
    ensures Staged(PrepareExec(s, k, code))
  {
    FreeSlotIsLowest(s.busy, DeviceOf(s.mem[k].channel), 0);
  }

  lemma PrepareExecByStamp(s: State, k: nat, code: int)
    requires ByStamp(s.mem + s.init) && k < |s.mem|
    ensures ByStamp(PrepareExec(s, k, code).mem + s.init)
  {
    assert RemoveAt(s.mem, k) + s.init == RemoveAt(s.mem + s.init, k);
  }

  lemma PrepareExecInv(s: State, k: nat, code: int)
    requires Inv(s) && k < |s.mem|
    requires FirstOfDevice(s, k) || code != 0
    ensures Inv(PrepareExec(s, k, code))
  {
    hide Live, Pairwise;
    FreeSlotIsLowest(s.busy, DeviceOf(s.mem[k].channel), 0);
    match FreeSlot(s.busy, DeviceOf(s.mem[k].channel))
    case None =>
    case Some(q) =>
      var j, i := MemAt(s), MemAt(s) + k;
      MemInLive(s);
      PrepareExecStaged(s, k, code);
      PrepareExecByStamp(s, k, code);
      if code != 0 {
        PrepareExecMovesBack(s, k, q, code);
        Step(s, PrepareExec(s, k, code), |s.done|, i, Failed(s.mem[k].(queue := q), code));
      } else {
        PrepareExecMovesOn(s, k, q);
        forall m | j <= m < i ensures !SameDevice(Live(s)[m], s.mem[k]) {
          assert Live(s)[MemAt(s) + (m - j)] == s.mem[m - j];
        }
        Step(s, PrepareExec(s, k, code), j, i, s.mem[k].(queue := q, stage := Prepared));
      }
  }

  lemma RequestAllocMemMoves(s: State)
    requires s.init != []
    ensures var i := MemAt(s) + |s.mem|;
      && i < |Live(s)| && Live(s)[i] == s.init[0]
      && Live(RequestAllocMem(s)) == Moved(Live(s), i, i, s.init[0].(stage := MemDone))
  {
  }

  lemma RequestAllocMemStaged(s: State)
    requires Staged(s) && s.init != []
    ensures Staged(RequestAllocMem(s))
  {
  }

  lemma RequestAllocMemByStamp(s: State)
    requires ByStamp(s.mem + s.init) && s.init != []
    ensures ByStamp(RequestAllocMem(s).mem + RequestAllocMem(s).init)
  {
    var a, b := s.mem + s.init, RequestAllocMem(s).mem + RequestAllocMem(s).init;
    assert |a| == |b| && forall m :: 0 <= m < |a| ==> a[m].stamp == b[m].stamp;
  }

  lemma RequestAllocMemInv(s: State)
    requires Inv(s) && s.init != []
    ensures Inv(RequestAllocMem(s))
  {
    hide Live, Pairwise;
    var i := MemAt(s) + |s.mem|;
    RequestAllocMemMoves(s);
    RequestAllocMemStaged(s);
    RequestAllocMemByStamp(s);
    LiveAt(s, i);
    Step(s, RequestAllocMem(s), i, i, s.init[0].(stage := MemDone));
  }

  lemma WithoutIn(all: seq<Ticket>, t: Ticket, next: nat, u: Ticket)
    requires TicketsSorted(all, next)
    ensures u in Without(all, t) <==> u in all && u != t
  {
    if all != [] {
      assert all == [all[0]] + all[1..];
      assert u in all <==> u == all[0] || u in all[1..];
      assert TicketsSorted(all[1..], next);
      if all[0] != t {
        WithoutIn(all[1..], t, next, u);
      }
    }
  }

  lemma WithoutSorted(all: seq<Ticket>, t: Ticket, next: nat)
    requires TicketsSorted(all, next)
    ensures TicketsSorted(Without(all, t), next)
  {
    if all != [] && all[0] != t {
      var rest := all[1..];
      assert TicketsSorted(rest, next);
      WithoutSorted(rest, t, next);
      forall u | u in Without(rest, t) ensures all[0].stamp < u.stamp {
        WithoutIn(rest, t, next, u);
      }
    }
  }

  lemma WithoutMembers(all: seq<Ticket>, t: Ticket, next: nat)
    requires TicketsSorted(all, next)
    ensures Members(Without(all, t)) == Members(all) - {t}
  {
    forall u ensures u in Without(all, t) <==> u in all && u != t {
      WithoutIn(all, t, next, u);
    }
  }

  /** Taking the first item out of the line takes out its ticket and its queue, and no other. */
  lemma FirstLeaves(x: Item, rest: seq<Item>)
    requires Pairwise([x] + rest)
    ensures Tickets(rest) == Tickets([x] + rest) - {TicketOf(x)}
    ensures Holders(rest) == Holders([x] + rest) - Own(x)
  {
    var l := [x] + rest;
    assert forall y :: y in l <==> y == x || y in rest;
    forall y | y in rest ensures Compatible(x, y) {
      var m :| 0 <= m < |rest| && rest[m] == y;
      assert Compatible(l[0], l[m + 1]);
    }
  }

  lemma ServiceDoneMoves(s: State)
    requires s.done != []
    ensures Live(s) == [s.done[0]] + Live(ServiceDone(s))
    ensures ServiceDone(s).log + Live(ServiceDone(s))
         == Moved(s.log + Live(s), |s.log|, |s.log|, s.done[0].(queue := -1))
  {
    assert s.done == [s.done[0]] + s.done[1..];
  }

  lemma ServiceDoneStaged(s: State)
    requires Staged(s) && s.done != []
    ensures Staged(ServiceDone(s))
  {
    assert OnList(s.done[0], Done, |s.arrived|);
  }

  lemma ServiceDoneInv(s: State)
    requires Inv(s) && s.done != []
    ensures Inv(ServiceDone(s))
    ensures TicketOf(s.done[0]) in s.all
    ensures Members(ServiceDone(s).all) == Members(s.all) - {TicketOf(s.done[0])}
  {
    var x, s' := s.done[0], ServiceDone(s);
    ServiceDoneMoves(s);
    ServiceDoneStaged(s);
    assert (s.log + Live(s))[|s.log|] == x;
    assert OnList(x, Done, |s.arrived|);
    PairwiseSuffix(s.log, Live(s));
    MovedPairwise(s.log + Live(s), |s.log|, |s.log|, x.(queue := -1));
    MovedOrigins(s.log + Live(s), |s.log|, |s.log|, x.(queue := -1));
    FirstLeaves(x, Live(s'));
    assert TicketOf(x) in Tickets(Live(s)) by { assert x in Live(s); }
    assert TicketOf(x) in Members(s.all);
    WithoutSorted(s.all, TicketOf(x), |s.arrived|);
    WithoutMembers(s.all, TicketOf(x), |s.arrived|);
  }

  function Inserted(l: seq<Item>, j: nat, x: Item): seq<Item>
    requires j <= |l|
  {
    l[..j] + [x] + l[j..]
  }

  lemma InsertedPairwise(l: seq<Item>, j: nat, x: Item)
    requires Pairwise(l) && j <= |l|
    requires forall y :: y in l ==> y.stamp < x.stamp
    requires x.queue == -1 && (x.errcode != 0 || j == |l|)
    ensures Pairwise(Inserted(l, j, x))
  {
    var l' := Inserted(l, j, x);
    forall a, b | 0 <= a < b < |l'| ensures Compatible(l'[a], l'[b]) {
      var a0, b0 := if a < j then a else a - 1, if b < j then b else b - 1;
      assert a != j ==> l'[a] == l[a0] && l[a0] in l;
      assert b != j ==> l'[b] == l[b0] && l[b0] in l;
      assert a != j && b != j ==> Compatible(l[a0], l[b0]);
    }
  }

  lemma InsertInLine(log: seq<Item>, l: seq<Item>, busy: set<Slot>, all: seq<Ticket>,
                     arrived: seq<KuRequest>, j: nat, x: Item)
    requires LineInv(log, l, busy, all, arrived) && j <= |l|
    requires forall y :: y in log + l ==> y.stamp < x.stamp
    requires x.stamp == |arrived|
    requires x.queue == -1
    requires x.errcode != 0 || j == |l|
    ensures LineInv(log, Inserted(l, j, x), busy, all + [TicketOf(x)], arrived + [KuRequest(x.id, x.channel)])
  {
    var n := |log| + j;
    assert log + Inserted(l, j, x) == Inserted(log + l, n, x);
    InsertedPairwise(log + l, n, x);
    InsertedMembers(l, j, x);
    InsertedMembers(log + l, n, x);
    ArrivalsGrow(arrived, KuRequest(x.id, x.channel));
  }

  lemma ArrivalsGrow(arrived: seq<KuRequest>, r: KuRequest)
    ensures Arrivals(arrived + [r]) == Arrivals(arrived) + {(|arrived|, r)}
  {
    forall o ensures o in Arrivals(arrived + [r]) <==> o in Arrivals(arrived) + {(|arrived|, r)} {
      if o in Arrivals(arrived) { assert (arrived + [r])[o.0] == o.1; }
      if o == (|arrived|, r) { assert (arrived + [r])[|arrived|] == o.1; }
    }
  }

  lemma InsertedMembers(l: seq<Item>, j: nat, x: Item)
    requires j <= |l|
    ensures forall y :: y in Inserted(l, j, x) <==> y == x || y in l
    ensures x.queue == -1 ==> Holders(Inserted(l, j, x)) == Holders(l)
    ensures Tickets(Inserted(l, j, x)) == Tickets(l) + {TicketOf(x)}
    ensures Origins(Inserted(l, j, x)) == Origins(l) + {OriginOf(x)}
  {
    assert l == l[..j] + l[j..];
    assert x in Inserted(l, j, x);
  }

  lemma ReceiveMoves(s: State, a: Arrival)
    ensures |s.done| <= |Live(s)|
    ensures
      var x := NewItem(s, a.request);
      Live(InitServiceRequest(s, a)) ==
      if a.found then Inserted(Live(s), |Live(s)|, x) else Inserted(Live(s), |s.done|, Failed(x, KOCL_NO_SERVICE))
  {
  }

  lemma ReceiveStaged(s: State, a: Arrival)
    requires Staged(s)
    ensures Staged(InitServiceRequest(s, a))
    ensures forall y :: y in s.log + Live(s) ==> y.stamp < |s.arrived|
  {
  }

  lemma InitServiceRequestInv(s: State, a: Arrival)
    requires Inv(s)
    ensures Inv(InitServiceRequest(s, a))
  {
    hide Live, Pairwise;
    var x := NewItem(s, a.request);
    ReceiveMoves(s, a);
    ReceiveStaged(s, a);
    if a.found {
      InsertInLine(s.log, Live(s), s.busy, s.all, s.arrived, |Live(s)|, x);
      assert ByStamp(s.mem + (s.init + [x])) by {
        assert s.mem + (s.init + [x]) == (s.mem + s.init) + [x];
      }
    } else {
      InsertInLine(s.log, Live(s), s.busy, s.all, s.arrived, |s.done|, Failed(x, KOCL_NO_SERVICE));
    }
  }

  /* ----- whole loops, whole passes, whole runs ----- */

  lemma AnswerAllInv(s: State)
    requires Inv(s)
    ensures Inv(AnswerAll(s))
    decreases |s.done|
  {
    if s.done != [] {
      ServiceDoneInv(s);
      AnswerAllInv(ServiceDone(s));
    }
  }

  lemma FinishAllInv(s: State)
    requires Inv(s)
    ensures Inv(FinishAll(s))
    decreases |s.post|
  {
    if s.post != [] {
      FinishPostInv(s);
      FinishAllInv(FinishPost(s));
    }
  }

  lemma PostSomeInv(s: State, codes: Codes)
    requires Inv(s)
    ensures Inv(PostSome(s, codes))
    decreases |s.running|
  {
    if s.running != [] {
      var code := codes.post(s.running[0].stamp);
      PostExecInv(s, code);
      if code != 0 { PostSomeInv(PostExec(s, code), codes); }
    }
  }

  lemma LaunchSomeInv(s: State, codes: Codes)
    requires Inv(s)
    ensures Inv(LaunchSome(s, codes))
  {
    if s.prepared != [] {
      LaunchExecInv(s, codes.launch(s.prepared[0].stamp));
    }
  }

  /** Items that kh_prepare_exec has passed over belong to devices without a free queue. */
  ghost predicate PassedOver(s: State, k: nat)
    requires k <= |s.mem|
  {
    forall m :: 0 <= m < k ==> FreeSlot(s.busy, DeviceOf(s.mem[m].channel)).None?
  }

  lemma PrepareSomeInv(s: State, k: nat, codes: Codes)
    requires Inv(s) && k <= |s.mem| && PassedOver(s, k)
    ensures Inv(PrepareSome(s, k, codes))
    decreases |s.mem| - k
  {
    if k < |s.mem| {
      var code := codes.prepare(s.mem[k].stamp);
      if FreeSlot(s.busy, DeviceOf(s.mem[k].channel)).None? {
        PrepareSomeInv(s, k + 1, codes);
      } else {
        PrepareExecInv(s, k, code);
        if code != 0 {
          PassedOverKept(s, k, code);
          PrepareSomeInv(PrepareExec(s, k, code), k, codes);
        }
      }
    }
  }

  lemma PassedOverKept(s: State, k: nat, code: int)
    requires k < |s.mem| && PassedOver(s, k)
    ensures PassedOver(PrepareExec(s, k, code), k)
  {
    var s' := PrepareExec(s, k, code);
    forall m | 0 <= m < k ensures FreeSlot(s'.busy, DeviceOf(s'.mem[m].channel)).None? {
      var d := DeviceOf(s.mem[m].channel);
      FreeSlotIsLowest(s.busy, d, 0);
      FreeSlotIsLowest(s'.busy, d, 0);
    }
  }

  lemma AllocAllInv(s: State)
    requires Inv(s)
    ensures Inv(AllocAll(s))
    decreases |s.init|
  {
    if s.init != [] {
      RequestAllocMemInv(s);
      AllocAllInv(RequestAllocMem(s));
    }
  }

  lemma PassInv(s: State, input: Input)
    requires Inv(s)
    ensures Inv(Pass(s, input))
  {
    AnswerAllInv(s);
    FinishAllInv(AnswerAll(s));
    var s1 := FinishAll(AnswerAll(s));
    PostSomeInv(s1, input.codes);
    LaunchSomeInv(PostSome(s1, input.codes), input.codes);
    var s2 := LaunchSome(PostSome(s1, input.codes), input.codes);
    PrepareSomeInv(s2, 0, input.codes);
    AllocAllInv(PrepareSome(s2, 0, input.codes));
    if input.arrival.Some? {
      InitServiceRequestInv(AllocAll(PrepareSome(s2, 0, input.codes)), input.arrival.value);
    }
  }

  lemma RunInv(s: State, inputs: seq<Input>)
    requires Inv(s)
    ensures Inv(Run(s, inputs))
    decreases |inputs|
  {
    if inputs != [] {
      PassInv(s, inputs[0]);
      RunInv(Pass(s, inputs[0]), inputs[1..]);
    }
  }

  /* ----- what the invariant says ----- */

  /** Of all the items in l only the i-th one is the k-th arrival. */
  ghost predicate StampOnlyAt(l: seq<Item>, i: nat, k: nat) {
    i < |l| && l[i].stamp == k && forall m :: 0 <= m < |l| && l[m].stamp == k ==> m == i
  }

  predicate Holds(x: Item, c: Slot) { x.queue >= 0 && SlotOf(x) == c }

  /** Of all the items in l only the i-th one holds the queue c. */
  ghost predicate HeldOnlyAt(l: seq<Item>, i: nat, c: Slot) {
    i < |l| && Holds(l[i], c) && forall m :: 0 <= m < |l| && Holds(l[m], c) ==> m == i
  }

  /** Every request ever read is answered or waiting, exactly once, with its own id and
      channel; a waiting one is on the list its state names and on all_reqs. */
  lemma Partition(s: State, k: nat)
    requires Inv(s) && k < |s.arrived|
    ensures Staged(s)
    ensures exists i: nat ::
      && StampOnlyAt(s.log + Live(s), i, k)
      && OriginOf((s.log + Live(s))[i]) == (k, s.arrived[k])
      && (i >= |s.log| <==> Ticket(k, s.arrived[k].id) in s.all)
  {
    var t, line := Ticket(k, s.arrived[k].id), s.log + Live(s);
    assert (k, s.arrived[k]) in Arrivals(s.arrived);
    var x :| x in line && OriginOf(x) == (k, s.arrived[k]);
    var i :| 0 <= i < |line| && line[i] == x;
    OneStamp(line, i);
    assert StampOnlyAt(line, i, k);
    assert t in s.all <==> t in Tickets(Live(s)) by { assert t in s.all <==> t in Members(s.all); }
    hide Live;
    TicketPlace(s.log, Live(s), i, t);
  }

  lemma TicketPlace(log: seq<Item>, l: seq<Item>, i: nat, t: Ticket)
    requires StampOnlyAt(log + l, i, t.stamp) && TicketOf((log + l)[i]) == t
    ensures t in Tickets(l) <==> i >= |log|
  {
    if i >= |log| {
      assert (log + l)[i] == l[i - |log|];
    }
    if t in Tickets(l) {
      var y :| y in l && TicketOf(y) == t;
      var m :| 0 <= m < |l| && l[m] == y;
      assert (log + l)[|log| + m] == y;
    }
  }

  lemma OneStamp(l: seq<Item>, i: nat)
    requires Pairwise(l) && i < |l|
    ensures StampOnlyAt(l, i, l[i].stamp)
  {
    forall m | 0 <= m < |l| && m != i ensures l[m].stamp != l[i].stamp {
      if m < i { assert Compatible(l[m], l[i]); } else { assert Compatible(l[i], l[m]); }
    }
  }

  /** A queue is busy exactly when one live item of its device holds it, and only one does;
      items that are prepared, running or posted hold a queue of their device. */
  lemma QueueOwnership(s: State, c: Slot)
    requires Inv(s)
    ensures c in s.busy <==> exists i: nat :: HeldOnlyAt(Live(s), i, c)
    ensures c in s.busy ==> 0 <= c.index < MAX_QUEUE_NR
    ensures forall x :: x in s.prepared + s.running + s.post ==> x.queue >= 0 && SlotOf(x) in s.busy
  {
    PairwiseSuffix(s.log, Live(s));
    forall x | x in s.prepared + s.running + s.post ensures x.queue >= 0 && x in Live(s) {}
    if c in s.busy {
      var x :| x in Live(s) && x.queue >= 0 && SlotOf(x) == c;
      var i :| 0 <= i < |Live(s)| && Live(s)[i] == x;
      OneHolder(Live(s), i);
      assert HeldOnlyAt(Live(s), i, c);
    }
    forall i: nat | HeldOnlyAt(Live(s), i, c) ensures c in s.busy {
      assert Live(s)[i] in Live(s);
    }
  }

  lemma OneHolder(l: seq<Item>, i: nat)
    requires Pairwise(l) && i < |l| && l[i].queue >= 0
    ensures forall m :: 0 <= m < |l| && l[m].queue >= 0 && SlotOf(l[m]) == SlotOf(l[i]) ==> m == i
  {
    forall m | 0 <= m < |l| && m != i && l[m].queue >= 0 ensures SlotOf(l[m]) != SlotOf(l[i]) {
      if m < i { assert Compatible(l[m], l[i]); } else { assert Compatible(l[i], l[m]); }
    }
  }

  /** Over any run, one device's successful requests are answered in arrival order, and
      none of them is answered while an earlier one that has not failed still waits. */
  lemma DeviceFifo(inputs: seq<Input>, i: nat, j: nat)
    requires i < j < |Run(START, inputs).log| + |Live(Run(START, inputs))|
    ensures
      var s := Run(START, inputs);
      var x, y := (s.log + Live(s))[i], (s.log + Live(s))[j];
      x.errcode == 0 && y.errcode == 0 && SameDevice(x, y) ==> x.stamp < y.stamp
  {
    StartInv();
    RunInv(START, inputs);
    var s := Run(START, inputs);
    assert Compatible((s.log + Live(s))[i], (s.log + Live(s))[j]);
  }
}
