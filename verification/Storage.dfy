/** Pool, queue and storage worker, each as it changes its own state. A call that has to wait is
    reported as such, with nothing changed: it is the call again once the other threads have moved on. */
module Storage {
  import opened Options

  class BlockingQueue<T> {
    const maxSize: nat
    var buffer: seq<T>

    ghost predicate Valid()
      reads this
    {
      |buffer| <= maxSize
    }

    constructor (maxSize: nat)
      ensures Valid() && buffer == [] && this.maxSize == maxSize
    {
      this.maxSize := maxSize;
      buffer := [];
    }

    /** Waits when the queue is full. */
    method PushBlocking(item: T) returns (waits: bool)
      requires Valid()
      modifies this
      ensures Valid() && (waits <==> |old(buffer)| == maxSize)
      ensures buffer == if waits then old(buffer) else old(buffer) + [item]
    {
      if |buffer| == maxSize {
        return true;
      }
      buffer := buffer + [item];
      return false;
    }

    /** Waits, and returns nothing, when the queue is empty. */
    method PopBlocking() returns (item: Option<T>)
      requires Valid()
      modifies this
      ensures Valid() && (item.None? <==> old(buffer) == [])
      ensures old(buffer) == if item.Some? then [item.value] + buffer else buffer
    {
      if buffer == [] {
        return None;
      }
      item := Some(buffer[0]);
      buffer := buffer[1..];
    }
  }

  /** Buffers are numbered; `held` are those that have not come back. */
  class MemoryPool {
    const poolSize: nat
    var buffers: seq<nat>
    ghost var held: set<nat>

    ghost predicate Valid()
      reads this
    {
      && (forall i, j :: 0 <= i < j < |buffers| ==> buffers[i] != buffers[j])
      && (forall b :: b in buffers ==> b !in held)
      && (forall b: nat :: b < poolSize <==> b in buffers || b in held)
    }

    constructor (poolSize: nat)
      requires poolSize > 0
      ensures Valid() && this.poolSize == poolSize && held == {} && |buffers| == poolSize
    {
      this.poolSize := poolSize;
      buffers := seq(poolSize, i requires 0 <= i < poolSize => i);
      held := {};
      new;
      forall b: nat ensures b < poolSize <==> b in buffers {
        if b < poolSize {
          assert buffers[b] == b;
        }
      }
    }

    /** There is no empty pool. */
    static method Create(poolSize: nat) returns (r: MemoryPool?)
      ensures r == null <==> poolSize == 0
      ensures r != null ==> fresh(r) && r.Valid() && r.poolSize == |r.buffers| == poolSize
    {
      if poolSize == 0 {
        return null;
      }
      r := new MemoryPool(poolSize);
    }

    /** The buffer that has been free for longest; waits, and returns nothing, when none is. */
    method Acquire() returns (b: Option<nat>)
      requires Valid()
      modifies this
      ensures Valid() && (b.None? <==> old(buffers) == [])
      ensures b.None? ==> buffers == old(buffers) && held == old(held)
      ensures b.Some? ==> [b.value] + buffers == old(buffers) && held == old(held) + {b.value}
    {
      if buffers == [] {
        return None;
      }
      b := Some(buffers[0]);
      ghost var before := buffers;
      buffers := buffers[1..];
      held := held + {b.value};
      assert forall c :: c in before <==> c == b.value || c in buffers;
    }

    method ReturnBuffer(b: nat)
      requires Valid() && b in held
      modifies this
      ensures Valid() && buffers == old(buffers) + [b] && held == old(held) - {b}
    {
      buffers := buffers + [b];
      held := held - {b};
    }
  }

  /** The items before the first sentinel. */
  function BeforeSentinel<T>(items: seq<Option<T>>): (r: seq<T>) {
    if items == [] || items[0].None? then [] else [items[0].value] + BeforeSentinel(items[1..])
  }

  /** The items after the first sentinel. */
  function AfterSentinel<T>(items: seq<Option<T>>): seq<Option<T>> {
    if items == [] then [] else if items[0].None? then items[1..] else AfterSentinel(items[1..])
  }

  function Wrapped<T>(xs: seq<T>): seq<Option<T>> { seq(|xs|, i requires 0 <= i < |xs| => Some(xs[i])) }

  /** A sequence with a sentinel is what comes before the first one, the sentinel, and the rest. */
  lemma {:induction false} SentinelSplits<T>(items: seq<Option<T>>)
    requires None in items
    ensures items == Wrapped(BeforeSentinel(items)) + [None] + AfterSentinel(items)
  {
    if items[0].Some? {
      assert items == [items[0]] + items[1..];
      SentinelSplits(items[1..]);
      assert Wrapped(BeforeSentinel(items)) == [items[0]] + Wrapped(BeforeSentinel(items[1..]));
    } else {
      assert items == [items[0]] + items[1..];
    }
  }

  class QueueStorageWorker<T(==)> {
    const queue: BlockingQueue<Option<T>>
    var saved: seq<T>

    constructor (queue: BlockingQueue<Option<T>>)
      ensures this.queue == queue && saved == []
    {
      this.queue := queue;
      saved := [];
    }

    /** Saves what it pops, until it pops a sentinel or has to wait for more. */
    method Run() returns (finished: bool)
      requires queue.Valid()
      modifies this, queue
      ensures queue.Valid() && (finished <==> None in old(queue.buffer))
      ensures saved == old(saved) + BeforeSentinel(old(queue.buffer))
      ensures queue.buffer == AfterSentinel(old(queue.buffer))
    {
      while true
        invariant queue.Valid()
        invariant None in queue.buffer <==> None in old(queue.buffer)
        invariant saved + BeforeSentinel(queue.buffer) == old(saved) + BeforeSentinel(old(queue.buffer))
        invariant AfterSentinel(queue.buffer) == AfterSentinel(old(queue.buffer))
        decreases |queue.buffer|
      {
        ghost var before := queue.buffer;
        var snapshot := queue.PopBlocking();
        if snapshot.None? {
          return false;
        }
        assert before == [snapshot.value] + queue.buffer;
        if snapshot.value.None? {
          return true;
        }
        SaveOne(snapshot.value.value, queue.buffer);
        saved := saved + [snapshot.value.value];
      }
    }

    lemma SaveOne(x: T, rest: seq<Option<T>>)
      ensures saved + BeforeSentinel([Some(x)] + rest) == (saved + [x]) + BeforeSentinel(rest)
      ensures AfterSentinel([Some(x)] + rest) == AfterSentinel(rest)
      ensures None in [Some(x)] + rest <==> None in rest
    {
      assert ([Some(x)] + rest)[1..] == rest;
    }

    /** A sentinel behind everything that waits in the queue; waits itself when the queue is full. */
    method Abort() returns (waits: bool)
      requires queue.Valid()
      modifies queue
      ensures queue.Valid() && (waits <==> |old(queue.buffer)| == queue.maxSize)
      ensures queue.buffer == if waits then old(queue.buffer) else old(queue.buffer) + [None]
    {
      waits := queue.PushBlocking(None);
    }
  }
}
