/**
 The circular lists of kocl/list.h at the level of their links, and the loop
 of __kh_process_request over list_for_each_safe while the operation unlinks,
 moves or leaves the node it is given.
 */
module IntrusiveList {
  import opened Lists

  class ListHead {
    var prev: ListHead?
    var next: ListHead?

    /** INIT_LIST_HEAD */
    constructor ()
      ensures Ring(this, [])
    {
      prev, next := this, this;
    }
  }

  /** Following the links from head visits exactly the nodes, in order, and returns to head. */
  ghost predicate Ring(head: ListHead, nodes: seq<ListHead>)
    reads head, nodes
  {
    && Distinct([head] + nodes)
    && Chain([head] + nodes + [head])
  }

  ghost predicate Distinct(l: seq<ListHead>) {
    forall i, j :: 0 <= i < j < |l| ==> l[i] != l[j]
  }

  ghost predicate Chain(l: seq<ListHead>)
    reads l
  {
    forall i :: 0 <= i < |l| - 1 ==> l[i].next == l[i + 1] && l[i + 1].prev == l[i]
  }

  /** What a list stands on. */
  ghost function Footprint(head: ListHead, nodes: seq<ListHead>): set<ListHead> {
    {head} + set x | x in nodes
  }

  /** __list_add; prev and next are the same node when the list is empty */
  method ListAddBetween(node: ListHead, prev: ListHead, next: ListHead)
    requires node != prev && node != next
    modifies node, prev, next
    ensures next.prev == node && node.next == next && node.prev == prev && prev.next == node
    ensures prev != next ==> prev.prev == old(prev.prev) && next.next == old(next.next)
  {
    next.prev := node;
    node.next := next;
    node.prev := prev;
    prev.next := node;
  }

  /** list_add_tail appends and touches the head, the last node and the new one only. */
  method ListAddTail(node: ListHead, head: ListHead, ghost nodes: seq<ListHead>)
    requires Ring(head, nodes) && node !in Footprint(head, nodes)
    modifies node, head, if nodes == [] then head else nodes[|nodes| - 1]
    ensures Ring(head, nodes + [node])
  {
    ghost var l := [head] + nodes + [head];
    assert l[|nodes|].next == l[|nodes| + 1] && head.prev == l[|nodes|];
    var last := head.prev;
    assert last == if nodes == [] then head else nodes[|nodes| - 1];
    ListAddBetween(node, last, head);
    assert [head] + (nodes + [node]) == ([head] + nodes) + [node];
    ghost var l' := [head] + (nodes + [node]) + [head];
    forall i | 0 <= i < |l'| - 1 ensures l'[i].next == l'[i + 1] && l'[i + 1].prev == l'[i] {
      if i < |nodes| {
        assert l'[i] == l[i] && l'[i + 1] == l[i + 1];
      }
    }
  }

  /** list_del takes out its node and touches that node and its two neighbours only. */
  method ListDel(entry: ListHead, ghost head: ListHead, ghost nodes: seq<ListHead>, ghost k: nat)
    requires Ring(head, nodes) && k < |nodes| && nodes[k] == entry
    modifies entry, if k == 0 then head else nodes[k - 1], if k == |nodes| - 1 then head else nodes[k + 1]
    ensures Ring(head, RemoveAt(nodes, k))
    ensures entry.next == null && entry.prev == null
  {
    ghost var l := [head] + nodes + [head];
    assert l[k + 1] == entry && l[k + 1].prev == l[k] && l[k + 1].next == l[k + 2];
    entry.next.prev := entry.prev;
    entry.prev.next := entry.next;
    entry.next := null;
    entry.prev := null;
    assert [head] + RemoveAt(nodes, k) == RemoveAt([head] + nodes, k + 1);
    ghost var l' := [head] + RemoveAt(nodes, k) + [head];
    forall i | 0 <= i < |l'| - 1 ensures l'[i].next == l'[i + 1] && l'[i + 1].prev == l'[i] {
      if i < k {
        assert l'[i] == l[i] && l'[i + 1] == l[i + 1];
      } else if i == k {
        assert l'[i] == l[k] && l'[i + 1] == l[k + 2];
      } else {
        assert l'[i] == l[i + 1] && l'[i + 1] == l[i + 2];
      }
    }
  }

  /* ----- __kh_process_request over list_for_each_safe ----- */

  /** What an operation does to the node it is given: nothing, list_del and free, or list_del and
      list_add_tail onto the next stage's list or onto done_reqs; and what it reports. */
  datatype Act = Stay | Leave | MoveOn | MoveDone
  datatype Outcome = Outcome(act: Act, r: int)

  /** How many nodes the loop visits: it stops behind the first 0 when asked to stop once. */
  function Visits(nodes: seq<ListHead>, op: ListHead -> Outcome, once: bool): (n: nat)
    ensures n <= |nodes|
    ensures forall i :: 0 <= i < n - 1 ==> !once || op(nodes[i]).r != 0
    ensures n < |nodes| ==> n > 0 && once && op(nodes[n - 1]).r == 0
  {
    if nodes == [] then 0
    else if once && op(nodes[0]).r == 0 then 1
    else 1 + Visits(nodes[1..], op, once)
  }

  /** The nodes that the operation answers with a given act, in order. */
  function Those(nodes: seq<ListHead>, op: ListHead -> Outcome, act: Act): seq<ListHead> {
    if nodes == [] then []
    else
      var n := |nodes| - 1;
      Those(nodes[..n], op, act) + if op(nodes[n]).act == act then [nodes[n]] else []
  }

  lemma ThoseIn(nodes: seq<ListHead>, op: ListHead -> Outcome, act: Act)
    ensures forall x :: x in Those(nodes, op, act) <==> x in nodes && op(x).act == act
  {
    if nodes != [] {
      var n := |nodes| - 1;
      ThoseIn(nodes[..n], op, act);
      assert nodes == nodes[..n] + [nodes[n]];
    }
  }

  lemma Follow(head: ListHead, l: seq<ListHead>, k: nat)
    requires Ring(head, l) && k <= |l|
    ensures ([head] + l)[k].next == (l + [head])[k]
  {
    var c := [head] + l + [head];
    assert c[k] == ([head] + l)[k] && c[k + 1] == (l + [head])[k];
    assert c[k].next == c[k + 1];
  }

  /** The nodes whose links list_del writes. */
  ghost function Near(head: ListHead, nodes: seq<ListHead>, k: nat): (near: set<ListHead>)
    requires k < |nodes|
    ensures near <= Footprint(head, nodes)
  {
    {nodes[k], if k == 0 then head else nodes[k - 1], if k == |nodes| - 1 then head else nodes[k + 1]}
  }

  lemma RingDistinct(head: ListHead, nodes: seq<ListHead>)
    requires Ring(head, nodes)
    ensures Distinct([head] + nodes)
    ensures head !in nodes
  {
    forall j | 0 <= j < |nodes| ensures nodes[j] != head {
      assert ([head] + nodes)[j + 1] == nodes[j] && ([head] + nodes)[0] == head;
    }
  }

  /** Three lists without a common node. */
  ghost predicate Apart(head: ListHead, l: seq<ListHead>, next: ListHead, o: seq<ListHead>,
                        done: ListHead, d: seq<ListHead>) {
    && Footprint(head, l) !! Footprint(next, o)
    && Footprint(head, l) !! Footprint(done, d)
    && Footprint(next, o) !! Footprint(done, d)
  }

  /** The three lists are rings with no node in common, on the given nodes. */
  ghost predicate ThreeRings(head: ListHead, l: seq<ListHead>, next: ListHead, o: seq<ListHead>,
                             done: ListHead, d: seq<ListHead>,
                        all: set<ListHead>)
    reads all
  {
    && Footprint(head, l) <= all && Footprint(next, o) <= all && Footprint(done, d) <= all
    && Apart(head, l, next, o, done, d)
    && Ring(head, l) && Ring(next, o) && Ring(done, d)
  }

  lemma RemovedIsOff(head: ListHead, nodes: seq<ListHead>, k: nat)
    requires Distinct([head] + nodes) && k < |nodes|
    ensures nodes[k] !in Footprint(head, RemoveAt(nodes, k))
    ensures Footprint(head, RemoveAt(nodes, k)) <= Footprint(head, nodes) && nodes[k] in Footprint(head, nodes)
  {
    var c, rest := [head] + nodes, RemoveAt(nodes, k);
    assert c[k + 1] == nodes[k] && c[0] == head;
    forall j | 0 <= j < |rest| ensures rest[j] != nodes[k] && rest[j] in nodes {
      assert rest[j] == c[if j < k then j + 1 else j + 2];
    }
  }

  /** Unlinking touches nodes of its own list only. */
  method Unlink(pos: ListHead, ghost head: ListHead, ghost nodes: seq<ListHead>, ghost k: nat)
    requires Ring(head, nodes) && k < |nodes| && nodes[k] == pos
    modifies Footprint(head, nodes)
    ensures Ring(head, RemoveAt(nodes, k)) && pos.next == null && pos.prev == null
  {
    ghost var near := Near(head, nodes, k);
    ListDel(pos, head, nodes, k);
  }

  /** Appending touches the new node and nodes of the list only. */
  method Append(pos: ListHead, other: ListHead, ghost others: seq<ListHead>)
    requires Ring(other, others) && pos !in Footprint(other, others)
    modifies {pos}, Footprint(other, others)
    ensures Ring(other, others + [pos])
  {
    ghost var last := if others == [] then other else others[|others| - 1];
    assert last in Footprint(other, others) && other in Footprint(other, others);
    ListAddTail(pos, other, others);
  }

  lemma Longer(other: ListHead, others: seq<ListHead>, x: ListHead)
    ensures Footprint(other, others + [x]) == Footprint(other, others) + {x}
  {
    assert forall y :: y in others + [x] <==> y in others || y == x;
  }

  function Kept(l: seq<ListHead>, k: nat, act: Act): seq<ListHead>
    requires k < |l|
  {
    if act == Stay then l else RemoveAt(l, k)
  }

  function Grown(l: seq<ListHead>, x: ListHead, moved: bool): seq<ListHead> {
    if moved then l + [x] else l
  }

  /** Off its list, the node belongs to none of the three. */
  method Detach(pos: ListHead, ghost head: ListHead, ghost l: seq<ListHead>, ghost k: nat,
                ghost next: ListHead, ghost o: seq<ListHead>, ghost done: ListHead, ghost d: seq<ListHead>,
                ghost all: set<ListHead>)
    requires ThreeRings(head, l, next, o, done, d, all) && k < |l| && l[k] == pos
    modifies Footprint(head, l)
    ensures ThreeRings(head, RemoveAt(l, k), next, o, done, d, all) && pos in all
    ensures pos !in Footprint(head, RemoveAt(l, k)) + Footprint(next, o) + Footprint(done, d)
    ensures pos.next == null && pos.prev == null
  {
    hide Ring;
    RingDistinct(head, l);
    RemovedIsOff(head, l, k);
    Unlink(pos, head, l, k);
    assert Ring(next, o) && Ring(done, d);
  }

  /** A node of none of the three is put behind one of them. */
  method Attach(pos: ListHead, other: ListHead, ghost others: seq<ListHead>,
                ghost a: ListHead, ghost l: seq<ListHead>, ghost b: ListHead, ghost d: seq<ListHead>,
                ghost all: set<ListHead>)
    requires ThreeRings(other, others, a, l, b, d, all) && pos in all
    requires pos !in Footprint(other, others) + Footprint(a, l) + Footprint(b, d)
    modifies {pos}, Footprint(other, others)
    ensures ThreeRings(other, others + [pos], a, l, b, d, all)
  {
    hide Ring;
    Longer(other, others, pos);
    Append(pos, other, others);
    assert Ring(a, l) && Ring(b, d);
  }

  /** One operation on the node at position k of a list: it may stay, leave, or move to either of two lists. */
  method Apply(pos: ListHead, op: ListHead -> Outcome, next: ListHead, done: ListHead,
               ghost head: ListHead, ghost l: seq<ListHead>, ghost k: nat,
               ghost o: seq<ListHead>, ghost d: seq<ListHead>, ghost all: set<ListHead>)
    returns (r: int)
    requires ThreeRings(head, l, next, o, done, d, all) && k < |l| && l[k] == pos
    modifies all
    ensures r == op(pos).r
    ensures ThreeRings(head, Kept(l, k, op(pos).act), next, Grown(o, pos, op(pos).act == MoveOn),
                  done, Grown(d, pos, op(pos).act == MoveDone), all)
    ensures op(pos).act == Leave ==> pos.next == null && pos.prev == null
  {
    var outcome := op(pos);
    r := outcome.r;
    if outcome.act == Stay {
      return;
    }
    Detach(pos, head, l, k, next, o, done, d, all);
    hide Ring, Footprint, RemoveAt;
    if outcome.act == MoveOn {
      Attach(pos, next, o, head, RemoveAt(l, k), done, d, all);
    } else if outcome.act == MoveDone {
      Attach(pos, done, d, head, RemoveAt(l, k), next, o, all);
    }
  }

  /** The list being walked and the lists being filled after i visits. */
  ghost function Here(nodes: seq<ListHead>, op: ListHead -> Outcome, i: nat): seq<ListHead>
    requires i <= |nodes|
  {
    Those(nodes[..i], op, Stay) + nodes[i..]
  }

  ghost function There(others: seq<ListHead>, nodes: seq<ListHead>, op: ListHead -> Outcome, act: Act, i: nat)
    : seq<ListHead>
    requires i <= |nodes|
  {
    others + Those(nodes[..i], op, act)
  }

  /** The state of the three lists after i visits. */
  ghost predicate After(head: ListHead, nodes: seq<ListHead>, next: ListHead, ons: seq<ListHead>,
                        done: ListHead, dones: seq<ListHead>, op: ListHead -> Outcome, i: nat, all: set<ListHead>)
    requires i <= |nodes|
    reads all
  {
    ThreeRings(head, Here(nodes, op, i), next, There(ons, nodes, op, MoveOn, i),
               done, There(dones, nodes, op, MoveDone, i), all)
  }

  /** How the lists change by one visit. */
  lemma OneVisit(nodes: seq<ListHead>, i: nat, op: ListHead -> Outcome)
    requires i < |nodes|
    ensures var l, k := Here(nodes, op, i), |Those(nodes[..i], op, Stay)|;
            && k < |l| && l[k] == nodes[i]
            && (i + 1 < |nodes| ==> k + 1 < |l| && l[k + 1] == nodes[i + 1])
            && (i + 1 == |nodes| ==> k + 1 == |l|)
            && Here(nodes, op, i + 1) == Kept(l, k, op(nodes[i]).act)
  {
    ThoseNext(nodes, i, op, Stay);
    hide Those;
    assert nodes[i..] == [nodes[i]] + nodes[i + 1..];
  }

  lemma OneMore(others: seq<ListHead>, nodes: seq<ListHead>, i: nat, op: ListHead -> Outcome, act: Act)
    requires i < |nodes|
    ensures There(others, nodes, op, act, i + 1) ==
            Grown(There(others, nodes, op, act, i), nodes[i], op(nodes[i]).act == act)
  {
    ThoseNext(nodes, i, op, act);
    hide Those;
  }

  lemma ThoseNext(nodes: seq<ListHead>, i: nat, op: ListHead -> Outcome, act: Act)
    requires i < |nodes|
    ensures Those(nodes[..i + 1], op, act) ==
            if op(nodes[i]).act == act then Those(nodes[..i], op, act) + [nodes[i]] else Those(nodes[..i], op, act)
  {
    assert nodes[..i + 1][..i] == nodes[..i];
  }

  /** One round of the loop: the successor is read first, then the operation runs. */
  method Round(pos: ListHead, op: ListHead -> Outcome, next: ListHead, done: ListHead,
               ghost head: ListHead, ghost nodes: seq<ListHead>, ghost ons: seq<ListHead>, ghost dones: seq<ListHead>,
               ghost i: nat, ghost all: set<ListHead>)
    returns (n: ListHead, r: int)
    requires i < |nodes| && nodes[i] == pos
    requires After(head, nodes, next, ons, done, dones, op, i, all)
    modifies all
    ensures n == (nodes + [head])[i + 1] && r == op(pos).r
    ensures After(head, nodes, next, ons, done, dones, op, i + 1, all)
  {
    hide Ring, Footprint, RemoveAt, Those, Here, There, Apart;
    ghost var l, k := Here(nodes, op, i), |Those(nodes[..i], op, Stay)|;
    OneVisit(nodes, i, op);
    OneMore(ons, nodes, i, op, MoveOn);
    OneMore(dones, nodes, i, op, MoveDone);
    Follow(head, l, k + 1);
    n := pos.next;
    r := Apply(pos, op, next, done, head, l, k, There(ons, nodes, op, MoveOn, i),
               There(dones, nodes, op, MoveDone, i), all);
  }

  /** The loop starts with all lists as they are. */
  lemma Begin(head: ListHead, nodes: seq<ListHead>, next: ListHead, ons: seq<ListHead>,
              done: ListHead, dones: seq<ListHead>,
              op: ListHead -> Outcome, all: set<ListHead>)
    requires ThreeRings(head, nodes, next, ons, done, dones, all)
    ensures After(head, nodes, next, ons, done, dones, op, 0, all)
    ensures head.next == (nodes + [head])[0] && head !in nodes
  {
    Follow(head, nodes, 0);
    RingDistinct(head, nodes);
    assert nodes[0..] == nodes && nodes[..0] == [];
    assert Here(nodes, op, 0) == nodes;
    assert There(ons, nodes, op, MoveOn, 0) == ons && There(dones, nodes, op, MoveDone, 0) == dones;
  }

  /** The count of the visits, one visit later. */
  lemma VisitsFrom(nodes: seq<ListHead>, i: nat, op: ListHead -> Outcome, once: bool)
    requires i <= |nodes|
    ensures i == |nodes| ==> Visits(nodes[i..], op, once) == 0
    ensures i < |nodes| ==> Visits(nodes[i..], op, once) ==
                            if once && op(nodes[i]).r == 0 then 1 else 1 + Visits(nodes[i + 1..], op, once)
  {
    if i < |nodes| {
      assert nodes[i..][1..] == nodes[i + 1..];
    }
  }

  /** The loop applies op once to each node that is on the list when it starts, in order, up to the
      early stop, although op unlinks, frees or moves the node it is at; what stays, what went to
      the next list and what went to the done list are in the order of the visits, and all three lists
      are rings without a common node. */
  method ProcessRequest(head: ListHead, op: ListHead -> Outcome, once: bool, next: ListHead, done: ListHead,
                        ghost nodes: seq<ListHead>, ghost ons: seq<ListHead>, ghost dones: seq<ListHead>,
                        ghost all: set<ListHead>)
    returns (r: int, ghost trace: seq<ListHead>)
    requires ThreeRings(head, nodes, next, ons, done, dones, all)
    modifies all
    ensures trace == nodes[..Visits(nodes, op, once)]
    ensures ThreeRings(head, Those(trace, op, Stay) + nodes[|trace|..],
                  next, ons + Those(trace, op, MoveOn), done, dones + Those(trace, op, MoveDone), all)
    ensures r == if trace == [] then 0 else op(trace[|trace| - 1]).r
  {
    hide Ring, Footprint, Apart, Those, ThreeRings, Visits;
    ghost var count := 0;
    r, trace := 0, [];
    Begin(head, nodes, next, ons, done, dones, op, all);
    var pos := head.next;
    assert nodes[0..] == nodes;
    while pos != head
      invariant 0 <= count <= |nodes| && trace == nodes[..count]
      invariant pos == (nodes + [head])[count]
      invariant count + Visits(nodes[count..], op, once) == Visits(nodes, op, once)
      invariant After(head, nodes, next, ons, done, dones, op, count, all)
      invariant r == if count == 0 then 0 else op(nodes[count - 1]).r
      decreases |nodes| - count
    {
      VisitsFrom(nodes, count, op, once);
      var n;
      n, r := Round(pos, op, next, done, head, nodes, ons, dones, count, all);
      trace := trace + [pos];
      count := count + 1;
      if r == 0 && once {
        return;
      }
      pos := n;
    }
    VisitsFrom(nodes, count, op, once);
  }

  /** Does an operation report 0 exactly for what it moves on, and move all else to the done list? */
  predicate MovesByResult(nodes: seq<ListHead>, op: ListHead -> Outcome) {
    forall i :: 0 <= i < |nodes| ==> op(nodes[i]).act == if op(nodes[i]).r == 0 then MoveOn else MoveDone
  }

  /** A pass that may stop, of an operation that moves successes on and failures to the done list, as
      kh_post_exec does: it visits up to the first success, of which nothing but that one moves on, and all
      before it are done. */
  lemma {:induction false} StopsBehindFirstSuccess(nodes: seq<ListHead>, op: ListHead -> Outcome)
    requires MovesByResult(nodes, op)
    ensures var n := Visits(nodes, op, true);
            var success := n > 0 && op(nodes[n - 1]).r == 0;
            && (!success ==> n == |nodes|)
            && Those(nodes[..n], op, MoveOn) == (if success then [nodes[n - 1]] else [])
            && Those(nodes[..n], op, MoveDone) == nodes[..if success then n - 1 else n]
            && Those(nodes[..n], op, Stay) == []
  {
    var n := Visits(nodes, op, true);
    var failed := if n > 0 && op(nodes[n - 1]).r == 0 then n - 1 else n;
    AllFail(nodes[..failed], op);
    if failed < n {
      assert nodes[..n][..n - 1] == nodes[..failed];
    }
  }

  lemma {:induction false} AllFail(nodes: seq<ListHead>, op: ListHead -> Outcome)
    requires forall i :: 0 <= i < |nodes| ==> op(nodes[i]).act == MoveDone
    ensures Those(nodes, op, MoveDone) == nodes && Those(nodes, op, MoveOn) == [] && Those(nodes, op, Stay) == []
  {
    if nodes != [] {
      var n := |nodes| - 1;
      AllFail(nodes[..n], op);
      assert nodes == nodes[..n] + [nodes[n]];
    }
  }

  /** An operation that always reports 0, as kh_launch_exec does: a pass that may stop visits exactly the first
      node, which goes where its act says, be it the done list, and all others stay unvisited. */
  lemma TriesFirstOnly(nodes: seq<ListHead>, op: ListHead -> Outcome, act: Act)
    requires nodes != [] && op(nodes[0]).r == 0
    ensures Visits(nodes, op, true) == 1
    ensures Those(nodes[..1], op, act) == if op(nodes[0]).act == act then [nodes[0]] else []
  {
    assert nodes[..1] == [nodes[0]];
  }

  /** Does an operation report 0 exactly for what it moves on, and leave all else or move it to the done list? */
  predicate MovesOnSuccess(nodes: seq<ListHead>, op: ListHead -> Outcome) {
    forall i :: 0 <= i < |nodes| ==>
      op(nodes[i]).act != Leave && (op(nodes[i]).act == MoveOn <==> op(nodes[i]).r == 0)
  }

  /** Do the nodes of the first list stand in the second one, in the same order? */
  predicate InOrder(sub: seq<ListHead>, nodes: seq<ListHead>) {
    if nodes == [] then sub == []
    else
      var n, k := |nodes| - 1, |sub| - 1;
      InOrder(sub, nodes[..n]) || (sub != [] && sub[k] == nodes[n] && InOrder(sub[..k], nodes[..n]))
  }

  lemma {:induction false} ThoseInOrder(nodes: seq<ListHead>, op: ListHead -> Outcome, act: Act)
    ensures InOrder(Those(nodes, op, act), nodes)
  {
    if nodes != [] {
      var rest := Those(nodes[..|nodes| - 1], op, act);
      ThoseInOrder(nodes[..|nodes| - 1], op, act);
      assert (rest + [nodes[|nodes| - 1]])[..|rest|] == rest && rest + [] == rest;
    }
  }

  lemma {:induction false} NoneMovesOn(nodes: seq<ListHead>, op: ListHead -> Outcome)
    requires forall i :: 0 <= i < |nodes| ==> op(nodes[i]).act == Stay || op(nodes[i]).act == MoveDone
    ensures Those(nodes, op, MoveOn) == []
    ensures |Those(nodes, op, Stay)| + |Those(nodes, op, MoveDone)| == |nodes|
  {
    if nodes != [] {
      NoneMovesOn(nodes[..|nodes| - 1], op);
    }
  }

  /** Those that stay and those that are done, each in the order of the nodes, which all are one or the other. */
  ghost predicate Split(nodes: seq<ListHead>, stay: seq<ListHead>, done: seq<ListHead>) {
    && InOrder(stay, nodes) && InOrder(done, nodes) && |stay| + |done| == |nodes|
    && forall x :: x in nodes ==> (x in stay <==> x !in done)
  }

  lemma SplitByAct(nodes: seq<ListHead>, op: ListHead -> Outcome)
    requires forall i :: 0 <= i < |nodes| ==> op(nodes[i]).act == Stay || op(nodes[i]).act == MoveDone
    ensures Those(nodes, op, MoveOn) == []
    ensures Split(nodes, Those(nodes, op, Stay), Those(nodes, op, MoveDone))
  {
    NoneMovesOn(nodes, op);
    ThoseInOrder(nodes, op, Stay);
    ThoseInOrder(nodes, op, MoveDone);
    ThoseIn(nodes, op, Stay);
    ThoseIn(nodes, op, MoveDone);
    hide Those, InOrder;
  }

  /** What one more node, which moves on, changes. */
  lemma Success(nodes: seq<ListHead>, op: ListHead -> Outcome, m: nat)
    requires m < |nodes| && op(nodes[m]).act == MoveOn
    ensures Those(nodes[..m + 1], op, MoveOn) == Those(nodes[..m], op, MoveOn) + [nodes[m]]
    ensures Those(nodes[..m + 1], op, Stay) == Those(nodes[..m], op, Stay)
    ensures Those(nodes[..m + 1], op, MoveDone) == Those(nodes[..m], op, MoveDone)
  {
    ThoseNext(nodes, m, op, Stay);
    ThoseNext(nodes, m, op, MoveOn);
    ThoseNext(nodes, m, op, MoveDone);
    hide Those;
  }

  /** How many of the visited nodes reported a failure: all, or all but the last. */
  function Failing(nodes: seq<ListHead>, op: ListHead -> Outcome): (m: nat)
    ensures m <= Visits(nodes, op, true) <= m + 1
    ensures m == Visits(nodes, op, true) ==> m == |nodes|
    ensures m < Visits(nodes, op, true) ==> op(nodes[m]).r == 0
    ensures forall i :: 0 <= i < m ==> op(nodes[i]).r != 0
  {
    var n := Visits(nodes, op, true);
    if n > 0 && op(nodes[n - 1]).r == 0 then n - 1 else n
  }

  /** A pass that may stop, of an operation that may also leave a node and report that, as kh_prepare_exec does
      without a free queue: of the nodes visited the last alone moves on, if any does, and the others split into
      those that stay and those that are done, in their order. */
  lemma PassesOverAndStops(nodes: seq<ListHead>, op: ListHead -> Outcome)
    requires MovesOnSuccess(nodes, op)
    ensures var m, n := Failing(nodes, op), Visits(nodes, op, true);
            && (m == n ==> n == |nodes|)
            && Those(nodes[..n], op, MoveOn) == nodes[m..n]
            && Split(nodes[..m], Those(nodes[..n], op, Stay), Those(nodes[..n], op, MoveDone))
  {
    var m, n := Failing(nodes, op), Visits(nodes, op, true);
    ActsAre(nodes, op, m);
    hide *;
    SplitVisited(nodes, op, m, n);
  }

  lemma SplitVisited(nodes: seq<ListHead>, op: ListHead -> Outcome, m: nat, n: nat)
    requires m <= n <= m + 1 && n <= |nodes|
    requires forall i :: 0 <= i < m ==> op(nodes[..m][i]).act == Stay || op(nodes[..m][i]).act == MoveDone
    requires m < n ==> op(nodes[m]).act == MoveOn
    ensures Those(nodes[..n], op, MoveOn) == nodes[m..n]
    ensures Split(nodes[..m], Those(nodes[..n], op, Stay), Those(nodes[..n], op, MoveDone))
  {
    hide Those, Split, InOrder;
    SplitByAct(nodes[..m], op);
    if m < n {
      Success(nodes, op, m);
      assert nodes[m..n] == [nodes[m]];
    } else {
      assert nodes[m..n] == [];
    }
  }

  lemma ActsAre(nodes: seq<ListHead>, op: ListHead -> Outcome, m: nat)
    requires MovesOnSuccess(nodes, op) && m <= |nodes| && forall i :: 0 <= i < m ==> op(nodes[i]).r != 0
    ensures forall i :: 0 <= i < m ==> op(nodes[..m][i]).act == Stay || op(nodes[..m][i]).act == MoveDone
    ensures m < |nodes| && op(nodes[m]).r == 0 ==> op(nodes[m]).act == MoveOn
  {
  }
}
