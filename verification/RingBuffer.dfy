/** Baby-Rabbit's bounded queue on a circular array. Each method is what runs
    under the queue's mutex; the reading of the clock is a parameter. */
module RingBuffer {
  import opened Wrappers
  import Q = Queue

  /** Position of the k-th message of a window that starts at `head`. */
  function Slot(head: int, k: int, capacity: int): (pos: int)
    requires 0 <= head < capacity && 0 <= k <= capacity
    ensures 0 <= pos < capacity && pos == (head + k) % capacity
  {
    SlotIsModulo(head + k, capacity);
    if head + k < capacity then head + k else head + k - capacity
  }

  lemma SlotIsModulo(n: int, capacity: int)
    requires 0 < capacity && 0 <= n < 2 * capacity
    ensures n % capacity == if n < capacity then n else n - capacity
  {
  }

  lemma NextSlot(head: int, k: int, capacity: int)
    requires 0 <= head < capacity && 0 <= k < capacity
    ensures (Slot(head, k, capacity) + 1) % capacity == Slot(head, k + 1, capacity)
    ensures Slot(Slot(head, 1, capacity), k, capacity) == Slot(head, k + 1, capacity)
  {
    SlotIsModulo(Slot(head, k, capacity) + 1, capacity);
  }

  /** The window of `size` slots from head, wrapping around. */
  function Window(slots: seq<Q.Message>, head: int, size: int): (q: seq<Q.Message>)
    requires 0 <= size <= |slots| && (size > 0 ==> 0 <= head < |slots|)
    ensures |q| == size
  {
    seq(size, k requires 0 <= k < size => slots[Slot(head, k, |slots|)])
  }

  predicate ZeroOutside(slots: seq<Q.Message>, head: int, size: int)
    requires 0 <= size <= |slots| && (size < |slots| ==> 0 <= head < |slots|)
  {
    forall k :: size <= k < |slots| ==> slots[Slot(head, k, |slots|)] == Q.ZERO_MESSAGE
  }

  lemma PushWindow(slots: seq<Q.Message>, head: int, size: int, msg: Q.Message)
    requires 0 <= size < |slots| && 0 <= head < |slots| && ZeroOutside(slots, head, size)
    ensures var slots' := slots[Slot(head, size, |slots|) := msg];
            Window(slots', head, size + 1) == Window(slots, head, size) + [msg] && ZeroOutside(slots', head, size + 1)
  {
  }

  lemma AdvanceWindow(slots: seq<Q.Message>, head: int, size: int)
    requires 0 < size <= |slots| && 0 <= head < |slots| && ZeroOutside(slots, head, size)
    ensures var slots', head' := slots[head := Q.ZERO_MESSAGE], Slot(head, 1, |slots|);
            && Window(slots, head, size) == [slots[head]] + Window(slots', head', size - 1)
            && ZeroOutside(slots', head', size - 1)
  {
    var n := |slots|;
    var slots', head' := slots[head := Q.ZERO_MESSAGE], Slot(head, 1, n);
    forall k | 0 <= k < n ensures Slot(head', k, n) == Slot(head, k + 1, n) {
      NextSlot(head, k, n);
    }
    assert Slot(head, n, n) == head && Slot(head, 0, n) == head;
  }

  class RingBufferQueue {
    var buffer: array<Q.Message>
    var head: int
    var tail: int
    var size: int
    const capacity: int

    /** The window of `size` slots from head; every slot outside it holds the zero message. */
    ghost predicate Valid()
      reads this, buffer
    {
      && 0 <= size <= capacity == buffer.Length
      && (capacity == 0 ==> head == tail == 0)
      && (capacity > 0 ==>
            0 <= head < capacity && tail == (head + size) % capacity && ZeroOutside(buffer[..], head, size))
    }

    /** The queue from its head on. */
    ghost function Contents(): (q: seq<Q.Message>)
      requires Valid()
      reads this, buffer
      ensures |q| == size
    {
      Window(buffer[..], head, size)
    }

    constructor (capacity: int)
      requires 0 <= capacity
      ensures Valid() && fresh(buffer) && this.capacity == capacity && Contents() == []
    {
      this.capacity := capacity;
      buffer := new Q.Message[capacity](_ => Q.ZERO_MESSAGE);
      head, tail, size := 0, 0, 0;
    }

    method Push(msg: Q.Message) returns (r: Result<(), Q.QueueError>)
      requires Valid()
      modifies this`tail, this`size, buffer
      ensures Valid() && buffer == old(buffer)
      ensures r == if |old(Contents())| == capacity then Err(Q.QueueFull) else Ok(())
      ensures Contents() == if r.Ok? then old(Contents()) + [msg] else old(Contents())
    {
      if size == capacity {
        return Err(Q.QueueFull);
      }
      PushWindow(buffer[..], head, size, msg);
      NextSlot(head, size, capacity);
      buffer[tail] := msg;
      assert buffer[..] == old(buffer[..])[Slot(head, size, capacity) := msg];
      tail := (tail + 1) % capacity;
      size := size + 1;
      return Ok(());
    }

    /** Drops the first message. */
    method Advance() returns (msg: Q.Message)
      requires Valid() && size > 0
      modifies this`head, this`size, buffer
      ensures Valid() && buffer == old(buffer)
      ensures old(Contents()) == [msg] + Contents()
    {
      AdvanceWindow(buffer[..], head, size);
      NextSlot(head, 0, capacity);
      NextSlot(head, size - 1, capacity);
      msg := buffer[head];
      buffer[head] := Q.ZERO_MESSAGE;
      assert buffer[..] == old(buffer[..])[head := Q.ZERO_MESSAGE];
      head := (head + 1) % capacity;
      size := size - 1;
    }

    /** Never blocks; expired messages at the head are skipped and dropped. */
    method Pop(now: int) returns (r: Result<Q.Message, Q.QueueError>)
      requires Valid()
      modifies this`head, this`size, buffer
      ensures Valid() && buffer == old(buffer)
      ensures Contents() == Q.Pop(old(Contents()), now).0
      ensures r == match Q.Pop(old(Contents()), now).1 case Some(m) => Ok(m) case None => Err(Q.QueueEmpty)
      ensures r.Ok? ==> r.value.ttl <= 0 || now < r.value.createdAt + r.value.ttl
      ensures forall m :: m in old(Contents()) && m !in Contents() && r != Ok(m) ==>
                m.ttl > 0 && m.createdAt + m.ttl <= now
    {
      Q.PopMembers(Contents(), now);
      while size > 0
        invariant Valid() && buffer == old(buffer)
        invariant Q.DropExpired(Contents(), now) == Q.DropExpired(old(Contents()), now)
        decreases size
      {
        ghost var before := Contents();
        var msg := Advance();
        assert before[1..] == Contents();
        if !msg.ExpiredAt(now) {
          return Ok(msg);
        }
      }
      return Err(Q.QueueEmpty);
    }

    method Size() returns (n: int)
      requires Valid()
      ensures n == |Contents()|
    {
      return size;
    }

    /** The live messages, moved to the front of a fresh buffer. */
    method Compact(now: int) returns (newBuffer: array<Q.Message>, index: int, removed: int)
      requires Valid() && capacity > 0
      ensures fresh(newBuffer) && newBuffer.Length == capacity && 0 <= index <= capacity
      ensures newBuffer[..index] == Q.Live(Contents(), now) && removed == size - index
      ensures forall k :: index <= k < capacity ==> newBuffer[k] == Q.ZERO_MESSAGE
    {
      removed := 0;
      newBuffer := new Q.Message[capacity](_ => Q.ZERO_MESSAGE);
      index := 0;
      ghost var q := Contents();
      for i := 0 to size
        invariant 0 <= index <= i && removed == i - index
        invariant newBuffer[..index] == Q.LiveUpTo(q, i, now)
        invariant forall k :: index <= k < capacity ==> newBuffer[k] == Q.ZERO_MESSAGE
        modifies newBuffer
      {
        var pos := (head + i) % capacity;
        assert pos == Slot(head, i, capacity);
        var msg := buffer[pos];
        assert msg == q[i];
        if msg.ExpiredAt(now) {
          removed := removed + 1;
        } else {
          newBuffer[index] := msg;
          index := index + 1;
          assert newBuffer[..index] == newBuffer[..index - 1] + [msg];
        }
      }
      Q.LiveUpToAll(q, size, now);
    }

    /** Drops every expired message, wherever it is in the window, and returns how
        many. With capacity 0 the source divides by zero here. */
    method RemoveExpired(now: int) returns (removed: int)
      requires Valid() && capacity > 0
      modifies this`buffer, this`head, this`tail, this`size
      ensures Valid() && fresh(buffer)
      ensures Contents() == Q.Live(old(Contents()), now)
      ensures forall m :: m in Contents() <==> m in old(Contents()) && (m.ttl <= 0 || now < m.createdAt + m.ttl)
      ensures removed == |old(Contents())| - |Contents()|
    {
      Q.LiveMembers(Contents(), now);
      var newBuffer, index;
      newBuffer, index, removed := Compact(now);
      buffer := newBuffer;
      head := 0;
      tail := index % capacity;
      size := index;
      assert Contents() == newBuffer[..index];
    }
  }
}
