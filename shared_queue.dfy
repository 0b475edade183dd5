// The builder's event queue: an unbounded first-in first-out queue that
// several threads push to and one thread pops from. The mutex and the
// condition variable only serialise access; what is modelled here is the
// queue discipline itself.

module Queue {

  class SharedQueue<T> {
    /** The queued values, front first. */
    var items: seq<T>

    constructor ()
      ensures items == []
    {
      items := [];
    }

    /** push: appends the value at the back. */
    method Push(value: T)
      modifies this
      ensures items == old(items) + [value]
      ensures |items| == |old(items)| + 1
    {
      items := items + [value];
    }

    /** tryAndPop: on an empty queue reports false and leaves both the queue and
        the caller's variable (`returnValue`, handed back as `value`) as they were;
        otherwise hands back the front and leaves exactly the old tail. */
    method TryAndPop(returnValue: T) returns (ok: bool, value: T)
      modifies this
      ensures ok <==> old(items) != []
      ensures !ok ==> items == old(items) && value == returnValue
      ensures ok ==> value == old(items)[0] && items == old(items)[1..]
    {
      if items == [] {
        return false, returnValue;
      }
      value := items[0];
      items := items[1..];
      ok := true;
    }

    /** waitAndPop: blocks until the queue is non-empty, then takes the front.
        The blocking wait is the precondition here. */
    method WaitAndPop() returns (value: T)
      requires items != []
      modifies this
      ensures value == old(items)[0] && items == old(items)[1..]
    {
      value := items[0];
      items := items[1..];
    }

    /** empty: changes nothing, true exactly when nothing is queued. */
    method Empty() returns (e: bool)
      ensures e <==> |items| == 0
    {
      e := items == [];
    }

    /** size: changes nothing, the number of queued values. */
    method Size() returns (n: nat)
      ensures n == |items|
    {
      n := |items|;
    }
  }

  /** A history of queue operations, as seen by the queue. A pop on an empty
      queue (tryAndPop returning false) changes nothing. */
  datatype Op<T> = PushOp(value: T) | PopOp

  /** The values a history pushes, in order. */
  function Pushed<T>(ops: seq<Op<T>>): seq<T>
  {
    if ops == [] then []
    else (if ops[0].PushOp? then [ops[0].value] else []) + Pushed(ops[1..])
  }

  /** Replays a history from queue contents `q`: the final contents and the
      values the pops returned, in the order they were returned. */
  function Replay<T>(q: seq<T>, ops: seq<Op<T>>): (r: (seq<T>, seq<T>))
    decreases ops
  {
    if ops == [] then (q, [])
    else match ops[0]
      case PushOp(v) => Replay(q + [v], ops[1..])
      case PopOp =>
        if q == [] then Replay(q, ops[1..])
        else
          var rest := Replay(q[1..], ops[1..]);
          (rest.0, [q[0]] + rest.1)
  }

  /** FIFO: the values popped, followed by what is still queued, are exactly the
      values that were queued at the start followed by the values pushed, in
      order. So values leave the queue in the order they entered it. */
  lemma {:induction false} FifoOrder<T>(q: seq<T>, ops: seq<Op<T>>)
    ensures Replay(q, ops).1 + Replay(q, ops).0 == q + Pushed(ops)
    ensures Replay(q, ops).1 <= q + Pushed(ops)
    decreases ops
  {
    if ops != [] {
      match ops[0]
      case PushOp(v) =>
        FifoOrder(q + [v], ops[1..]);
        assert Pushed(ops) == [v] + Pushed(ops[1..]);
      case PopOp =>
        assert Pushed(ops) == Pushed(ops[1..]);
        if q == [] {
          FifoOrder(q, ops[1..]);
        } else {
          FifoOrder(q[1..], ops[1..]);
          var rest := Replay(q[1..], ops[1..]);
          assert Replay(q, ops) == (rest.0, [q[0]] + rest.1);
          assert [q[0]] + rest.1 + rest.0 == [q[0]] + (rest.1 + rest.0);
          assert q == [q[0]] + q[1..];
        }
    }
  }
}
