/** The bounded queues with a `closed` flag: an abstract FIFO and the ring buffer that implements it.

    Source: src/task_queue.c and src/merge_queue.c, which differ only in their item type. A call of
    push or pop makes one or more passes through its critical section: from acquiring the mutex (on
    entry, or on return from pthread_cond_wait) to releasing it (on return, or in the next wait). One
    pass is one atomic step; module Pipeline interleaves the passes of all threads. */
module Queues {
  datatype Queue<T> = Queue(items: seq<T>, capacity: nat, closed: bool)

  /** How a pass ends: asleep on the condition variable, return 0, or return 1. */
  datatype Pass = Waits | Refused | Done

  function PushPass<T>(q: Queue<T>, x: T): (Queue<T>, Pass) {
    if !q.closed && |q.items| == q.capacity then (q, Waits)
    else if q.closed then (q, Refused)
    else (q.(items := q.items + [x]), Done)
  }

  function PopPass<T>(q: Queue<T>): (Queue<T>, Pass) {
    if !q.closed && q.items == [] then (q, Waits)
    else if q.items == [] then (q, Refused)
    else (q.(items := q.items[1..]), Done)
  }

  function AfterClose<T>(q: Queue<T>): Queue<T> { q.(closed := true) }

  // ----- The FIFO discipline over whole histories -----

  datatype Op<T> = PushOp(x: T) | PopOp | CloseOp

  /** A queue with the items accepted and the items handed out so far. */
  datatype History<T> = History(queue: Queue<T>, accepted: seq<T>, popped: seq<T>)

  function Perform<T>(h: History<T>, op: Op<T>): History<T> {
    match op
    case PushOp(x) =>
      var (q, pass) := PushPass(h.queue, x);
      History(q, if pass.Done? then h.accepted + [x] else h.accepted, h.popped)
    case PopOp =>
      var (q, pass) := PopPass(h.queue);
      History(q, h.accepted, if pass.Done? && h.queue.items != [] then h.popped + [h.queue.items[0]] else h.popped)
    case CloseOp => h.(queue := AfterClose(h.queue))
  }

  function PerformAll<T>(h: History<T>, ops: seq<Op<T>>): History<T> {
    if ops == [] then h else Perform(PerformAll(h, ops[..|ops| - 1]), ops[|ops| - 1])
  }

  /** Whatever the order of pushes, pops and closes: items leave in the order in which they were
      accepted, none is lost or duplicated, and the capacity is never exceeded. */
  lemma {:induction false} FifoHistory<T>(capacity: nat, ops: seq<Op<T>>)
    ensures var h := PerformAll(History(Queue([], capacity, false), [], []), ops);
      && h.accepted == h.popped + h.queue.items
      && |h.queue.items| <= h.queue.capacity == capacity
      && (h.queue.closed <==> CloseOp in ops)
  {
    if ops != [] {
      FifoHistory(capacity, ops[..|ops| - 1]);
      assert ops == ops[..|ops| - 1] + [ops[|ops| - 1]];
    }
  }

  /** Once closed, a queue hands out exactly its remaining items, in order, and then refuses. */
  lemma {:induction false} DrainsAfterClose<T>(h: History<T>, n: nat)
    requires h.queue.closed && n <= |h.queue.items|
    ensures var d := PerformAll(h, seq(n, _ => PopOp));
      && d.popped == h.popped + h.queue.items[..n]
      && d.queue == h.queue.(items := h.queue.items[n..])
      && (n == |h.queue.items| ==> PopPass(d.queue).1 == Refused)
  {
    var pops: seq<Op<T>> := seq(n, _ => PopOp);
    if n == 0 {
      assert h.queue.items[0..] == h.queue.items;
    } else {
      assert pops[..n - 1] == seq(n - 1, _ => PopOp);
      DrainsAfterClose(h, n - 1);
      assert h.queue.items[n - 1..][1..] == h.queue.items[n..];
      assert h.queue.items[..n - 1] + [h.queue.items[n - 1]] == h.queue.items[..n];
    }
  }

  // ----- The ring buffer -----

  /** Advancing an index around a ring of size c. */
  lemma RingStep(i: nat, c: nat)
    requires i < c
    ensures (i + 1) % c == if i + 1 == c then 0 else i + 1
  {
    if i + 1 < c {
      assert (i + 1) / c == 0;
    }
  }

  class RingBuffer<T(0)> {
    const buffer: array<T>
    const capacity: nat
    var head: nat
    var tail: nat
    var count: nat
    var closed: bool

    // The slot of the k-th oldest item.
    ghost function Slot(k: nat): nat
      reads this
    {
      if head + k < capacity then head + k else head + k - capacity
    }

    ghost predicate Valid()
      reads this
    {
      && 0 < capacity == buffer.Length
      && head < capacity && count <= capacity
      && tail == (if head + count < capacity then head + count else head + count - capacity)
    }

    ghost function Model(): (q: Queue<T>)
      requires Valid()
      reads this, buffer
    {
      Queue(seq(count, k requires 0 <= k < count && Valid() reads this, buffer => buffer[Slot(k)]), capacity, closed)
    }

    constructor (capacity: nat)
      requires 0 < capacity
      ensures Valid() && fresh(buffer) && Model() == Queue([], capacity, false)
    {
      this.capacity := capacity;
      buffer := new T[capacity];
      head, tail, count, closed := 0, 0, 0, false;
    }

    /** One pass of push through the critical section. */
    method Push(item: T) returns (pass: Pass)
      requires Valid()
      modifies this, buffer
      ensures Valid() && (Model(), pass) == PushPass(old(Model()), item)
    {
      ghost var before := Model();
      if !closed && count == capacity {
        return Waits;
      }
      if closed {
        return Refused;
      }
      RingStep(tail, capacity);
      buffer[tail] := item;
      tail := (tail + 1) % capacity;
      count := count + 1;
      assert forall k :: 0 <= k < |before.items| ==> Model().items[k] == before.items[k];
      assert Model().items == before.items + [item];
      return Done;
    }

    /** One pass of pop through the critical section; `item` is meaningful when it is `Done`. */
    method Pop() returns (item: T, pass: Pass)
      requires Valid()
      modifies this
      ensures Valid() && (Model(), pass) == PopPass(old(Model()))
      ensures pass.Done? ==> old(Model()).items != [] && item == old(Model()).items[0]
    {
      ghost var before := Model();
      item := buffer[head];
      if !closed && count == 0 {
        return item, Waits;
      }
      if count == 0 && closed {
        return item, Refused;
      }
      RingStep(head, capacity);
      assert item == before.items[0];
      head := (head + 1) % capacity;
      count := count - 1;
      assert forall k :: 0 <= k < count ==> Model().items[k] == before.items[k + 1];
      assert Model().items == before.items[1..];
      return item, Done;
    }

    method Close()
      requires Valid()
      modifies this
      ensures Valid() && Model() == AfterClose(old(Model()))
    {
      ghost var before := Model();
      closed := true;
      assert Model().items == before.items;
    }
  }

  /** Source: task_queue_init and merge_queue_init. No queue for a non-positive capacity. */
  method InitQueue<T(0)>(capacity: int) returns (q: RingBuffer?<T>)
    ensures q == null <==> capacity <= 0
    ensures q != null ==> fresh(q) && fresh(q.buffer) && q.Valid() && q.Model() == Queue([], capacity, false)
  {
    if capacity <= 0 {
      return null;
    }
    q := new RingBuffer<T>(capacity);
  }
}
