/** The pending-event queue of the debugger module (`eventlist_t`): a deque of
    debug events with insertion at either end and removal at the front. */
module EventQueue {
  import opened Events

  datatype QueuePos = InFront | InBack

  class EventList {
    var q: seq<DebugEvent>

    constructor ()
      ensures q == []
    {
      q := [];
    }

    predicate Empty()
      reads this
    {
      q == []
    }

    /** enqueue: IN_BACK appends; any other position pushes at the front. */
    method Enqueue(ev: DebugEvent, pos: QueuePos)
      modifies this
      ensures pos == InBack ==> q == old(q) + [ev]
      ensures pos != InBack ==> q == [ev] + old(q)
    {
      if pos != InBack {
        q := [ev] + q;
      } else {
        q := q + [ev];
      }
    }

    /** retrieve: `prev` is what `*event` held before the call and `event` what
        it holds afterwards. On an empty queue nothing changes and the answer is
        false; otherwise the head is handed out and removed. */
    method Retrieve(prev: DebugEvent) returns (ok: bool, event: DebugEvent)
      modifies this
      ensures ok == (old(q) != [])
      ensures !ok ==> q == old(q) && event == prev
      ensures ok ==> event == old(q)[0] && q == old(q)[1..] && |q| == |old(q)| - 1
    {
      if q == [] {
        return false, prev;
      }
      event := q[0];
      q := q[1..];
      ok := true;
    }
  }

  /** One call on the queue, for reasoning about sequences of calls. */
  datatype QueueOp = Push(ev: DebugEvent, pos: QueuePos) | Pop

  /** The queue and the events handed out after running `ops` on `q`. Run
      proves that Enqueue and Retrieve have exactly this effect. */
  datatype Outcome = Outcome(q: seq<DebugEvent>, delivered: seq<DebugEvent>)

  function Replay(q: seq<DebugEvent>, ops: seq<QueueOp>): Outcome
    decreases |ops|
  {
    if ops == [] then Outcome(q, [])
    else
      match ops[0]
      case Push(ev, pos) =>
        Replay(if pos == InBack then q + [ev] else [ev] + q, ops[1..])
      case Pop =>
        if q == [] then Replay(q, ops[1..])
        else var rest := Replay(q[1..], ops[1..]); Outcome(rest.q, [q[0]] + rest.delivered)
  }

  /** Run a sequence of calls on a queue: each Push is an Enqueue and each
      Pop a Retrieve into a buffer that starts as `prev`. The queue ends and
      the events handed out are as Replay says, so the properties proved
      about Replay below hold of Enqueue and Retrieve. */
  method Run(list: EventList, ops: seq<QueueOp>, prev: DebugEvent) returns (delivered: seq<DebugEvent>)
    modifies list
    ensures list.q == Replay(old(list.q), ops).q
    ensures delivered == Replay(old(list.q), ops).delivered
  {
    delivered := [];
    var buffer := prev;
    var i := 0;
    while i < |ops|
      invariant 0 <= i <= |ops|
      invariant Replay(old(list.q), ops) ==
        Outcome(Replay(list.q, ops[i..]).q, delivered + Replay(list.q, ops[i..]).delivered)
    {
      assert ops[i..][1..] == ops[i + 1..];
      match ops[i] {
        case Push(ev, pos) =>
          list.Enqueue(ev, pos);
        case Pop =>
          var ok;
          ok, buffer := list.Retrieve(buffer);
          if ok {
            delivered := delivered + [buffer];
          }
      }
      i := i + 1;
    }
    assert ops[i..] == [];
  }

  /** The events pushed by `ops`, in order. */
  function Pushed(ops: seq<QueueOp>): seq<DebugEvent> {
    if ops == [] then [] else (if ops[0].Push? then [ops[0].ev] else []) + Pushed(ops[1..])
  }

  predicate OnlyBack(ops: seq<QueueOp>) {
    forall k :: 0 <= k < |ops| && ops[k].Push? ==> ops[k].pos == InBack
  }

  /** FIFO: when every insertion is IN_BACK, the events handed out followed by
      those still queued are exactly the initial queue followed by the pushed
      events, so retrieval order is insertion order. */
  lemma {:induction false} FifoWhenOnlyBack(q: seq<DebugEvent>, ops: seq<QueueOp>)
    requires OnlyBack(ops)
    ensures Replay(q, ops).delivered + Replay(q, ops).q == q + Pushed(ops)
    decreases |ops|
  {
    if ops != [] {
      var tail := ops[1..];
      assert OnlyBack(tail) by {
        forall k | 0 <= k < |tail| && tail[k].Push? ensures tail[k].pos == InBack {
          assert tail[k] == ops[k + 1];
        }
      }
      if ops[0].Push? {
        var ev := ops[0].ev;
        assert ops[0].pos == InBack;
        assert Replay(q, ops) == Replay(q + [ev], tail);
        assert Pushed(ops) == [ev] + Pushed(tail);
        FifoWhenOnlyBack(q + [ev], tail);
        assert q + [ev] + Pushed(tail) == q + ([ev] + Pushed(tail));
      } else if q == [] {
        assert Replay(q, ops) == Replay(q, tail);
        assert Pushed(ops) == Pushed(tail);
        FifoWhenOnlyBack(q, tail);
      } else {
        var rest := Replay(q[1..], tail);
        assert Replay(q, ops) == Outcome(rest.q, [q[0]] + rest.delivered);
        assert Pushed(ops) == Pushed(tail);
        FifoWhenOnlyBack(q[1..], tail);
        calc {
          Replay(q, ops).delivered + Replay(q, ops).q;
          [q[0]] + (rest.delivered + rest.q);
          [q[0]] + (q[1..] + Pushed(tail));
          { assert [q[0]] + q[1..] == q; }
          q + Pushed(ops);
        }
      }
    }
  }

  /** Consequence: the i-th event handed out is the i-th of the initial queue
      followed by the pushed events. */
  lemma DeliveredInOrder(q: seq<DebugEvent>, ops: seq<QueueOp>, i: nat)
    requires OnlyBack(ops) && i < |Replay(q, ops).delivered|
    ensures i < |q + Pushed(ops)| && Replay(q, ops).delivered[i] == (q + Pushed(ops))[i]
  {
    FifoWhenOnlyBack(q, ops);
  }

  /** A front insertion jumps the queue: it is the next event handed out. */
  lemma FrontInsertIsNext(q: seq<DebugEvent>, ev: DebugEvent, pos: QueuePos)
    requires pos != InBack
    ensures Replay(q, [Push(ev, pos), Pop]).delivered == [ev]
    ensures Replay(q, [Push(ev, pos), Pop]).q == q
  {
    assert [Push(ev, pos), Pop][1..] == [Pop];
    assert [Pop][1..] == [];
  }
}
