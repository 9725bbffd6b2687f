/** The functions of gaes/ecryptfs_4.7_kocl/messaging.c on the array of contexts and the two lists. */
module MsgCtxTable {
  import opened Wrappers
  import opened Kernel
  import opened Lists
  import opened MsgCtx

  class Messaging {
    var ctxs: array<Ctx>
    var freeList: seq<nat>
    var allocList: seq<nat>
    var counter: nat
    var sent: nat
    var taken: seq<Accepted>
    var delivered: seq<Accepted>

    ghost function State(): Table
      reads this, ctxs
    {
      Table(ctxs[..], freeList, allocList, counter, sent, taken, delivered)
    }

    /** ecryptfs_init_messaging */
    constructor (bufLen: nat)
      ensures fresh(ctxs) && State() == Start(bufLen)
    {
      ctxs := new Ctx[bufLen](_ => Ctx(FREE, 0, None, 0));
      freeList, allocList, counter := [], [], 0;
      sent, taken, delivered := 0, [], [];
      new;
      var i := 0;
      while i < bufLen
        invariant 0 <= i <= bufLen && freeList == seq(i, k => k)
        invariant allocList == [] && counter == 0 && sent == 0 && taken == delivered == []
        invariant fresh(ctxs) && ctxs.Length == bufLen
        invariant forall k :: 0 <= k < i ==> ctxs[k] == Ctx(FREE, 0, None, 0)
        modifies ctxs, this`freeList
      {
        ctxs[i] := Ctx(FREE, 0, None, 0);
        freeList := freeList + [i];
        i := i + 1;
      }
      assert ctxs[..] == Start(bufLen).ctxs;
    }

    /** ecryptfs_acquire_free_msg_ctx; `locked` are the contexts whose mutex someone holds. */
    method AcquireFreeMsgCtx(locked: set<nat>) returns (rc: int, index: nat)
      ensures match FirstUnlocked(freeList, locked)
              case Some(i) => rc == 0 && index == i
              case None => rc == -ENOMEM
    {
      index := 0;
      if freeList == [] {
        return -ENOMEM, 0;
      }
      var p := 0;
      assert freeList[0..] == freeList;
      while p < |freeList|
        invariant 0 <= p <= |freeList|
        invariant FirstUnlocked(freeList, locked) == FirstUnlocked(freeList[p..], locked)
      {
        if freeList[p] !in locked {
          return 0, freeList[p];
        }
        assert freeList[p..][1..] == freeList[p + 1..];
        p := p + 1;
      }
      rc := -ENOMEM;
    }

    /** ecryptfs_msg_ctx_free_to_alloc; list_move puts the node at the front of the other list. */
    method FreeToAlloc(index: nat)
      requires index < ctxs.Length
      modifies this, ctxs
      ensures ctxs == old(ctxs)
      ensures var t := old(State());
              var counter := (t.counter + 1) % U32;
              State() == t.(ctxs := t.ctxs[index := Ctx(PENDING, counter, t.ctxs[index].msg, t.sent + 1)],
                            free := Without(t.free, index), alloc := [index] + t.alloc,
                            counter := counter, sent := t.sent + 1)
    {
      freeList := Remove(freeList, index);
      allocList := [index] + allocList;
      counter := (counter + 1) % U32;
      sent := sent + 1;
      ctxs[index] := ctxs[index].(state := PENDING, counter := counter, exchange := sent);
    }

    /** The slot of ecryptfs_send_message_locked: a free context, moved to the other list. */
    method SendMessage(locked: set<nat>) returns (rc: int, index: nat)
      requires ListsOk(State())
      modifies this, ctxs
      ensures ctxs == old(ctxs) && State() == Send(old(State()), locked).0
      ensures rc == if Send(old(State()), locked).1.Some? then 0 else -ENOMEM
      ensures rc == 0 ==> Send(old(State()), locked).1 == Some(index)
    {
      FirstUnlockedIs(freeList, locked);
      rc, index := AcquireFreeMsgCtx(locked);
      if rc == 0 {
        FreeToAlloc(index);
      }
    }

    /** ecryptfs_process_response */
    method ProcessResponse(index: nat, seqNo: nat, payload: nat) returns (rc: int)
      modifies this, ctxs
      ensures ctxs == old(ctxs) && State() == Reply(old(State()), index, seqNo, payload)
      ensures rc == if Takes(old(State()), index, seqNo) then 0 else -EINVAL
    {
      if index >= ctxs.Length {
        return -EINVAL;
      }
      if ctxs[index].state != PENDING {
        return -EINVAL;
      } else if ctxs[index].counter != seqNo {
        return -EINVAL;
      }
      taken := taken + [Accepted(ctxs[index].exchange, payload)];
      ctxs[index] := ctxs[index].(msg := Some(payload), state := DONE);
      rc := 0;
    }

    /** ecryptfs_msg_ctx_alloc_to_free; list_move unlinks the node wherever it is. */
    method AllocToFree(index: nat)
      requires index < ctxs.Length
      modifies this, ctxs
      ensures ctxs == old(ctxs)
      ensures var t := old(State());
              State() == t.(ctxs := t.ctxs[index := t.ctxs[index].(state := FREE, msg := None)],
                            free := [index] + Without(t.free, index), alloc := Without(t.alloc, index))
    {
      allocList := Remove(allocList, index);
      var others := Remove(freeList, index);
      freeList := [index] + others;
      ctxs[index] := ctxs[index].(msg := None);
      ctxs[index] := ctxs[index].(state := FREE);
    }

    /** A turn of ecryptfs_wait_for_response; -EAGAIN stands for sleeping on. */
    method WaitForResponse(index: nat, timedOut: bool) returns (rc: int, msg: Option<nat>)
      requires index < ctxs.Length
      modifies this, ctxs
      ensures ctxs == old(ctxs) && State() == Wait(old(State()), index, timedOut).0
      ensures msg == Wait(old(State()), index, timedOut).1
      ensures rc == if old(ctxs[index].state) == DONE then 0 else if timedOut then -ENOMSG else -EAGAIN
    {
      rc, msg := 0, None;
      if ctxs[index].state != DONE {
        if !timedOut {
          return -EAGAIN, None;
        }
        rc := -ENOMSG;
      } else {
        msg := ctxs[index].msg;
        if msg.Some? {
          delivered := delivered + [Accepted(ctxs[index].exchange, msg.value)];
        }
        ctxs[index] := ctxs[index].(msg := None);
      }
      AllocToFree(index);
    }
  }

  /** The first node of the index unlinked. */
  method Remove(l: seq<nat>, i: nat) returns (r: seq<nat>)
    ensures r == Without(l, i)
  {
    var p := 0;
    assert l[..0] + Without(l[0..], i) == Without(l, i) by {
      assert l[0..] == l;
    }
    while p < |l|
      invariant 0 <= p <= |l| && l[..p] + Without(l[p..], i) == Without(l, i)
    {
      if l[p] == i {
        assert l[p..][1..] == l[p + 1..];
        return l[..p] + l[p + 1..];
      }
      assert l[p..][1..] == l[p + 1..];
      assert l[..p] + ([l[p]] + Without(l[p + 1..], i)) == l[..p + 1] + Without(l[p + 1..], i);
      p := p + 1;
    }
    return l;
  }
}
