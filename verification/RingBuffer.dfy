/** The fixed-capacity event buffers of core/ring_buffer.py.

    Both synchronous buffers carry the ghost history of everything ever written; `Valid` ties their
    fields to it. What a reader sees is stated as a function of that history alone, so the two
    implementations are interchangeable. */
module RingBuffer {
  import opened Prelude

  /** What `read_latest(n)` must return for a buffer that shows `view`. */
  function Latest<T>(view: seq<T>, n: int): seq<T> {
    if n <= 0 then [] else LastN(view, n)
  }

  class DequeRingBuffer<T> {
    const capacity: nat
    var buf: seq<T>
    ghost var history: seq<T>

    ghost predicate Valid()
      reads this
    {
      0 < capacity && buf == LastN(history, capacity)
    }

    constructor (capacity: nat)
      requires capacity > 0
      ensures Valid() && history == [] && this.capacity == capacity
    {
      this.capacity := capacity;
      buf := [];
      history := [];
    }

    /** Refuses a non-positive capacity, as the initializer's ValueError does. */
    static method Create(capacity: int) returns (r: Option<DequeRingBuffer<T>>)
      ensures r.Some? <==> capacity > 0
      ensures r.Some? ==> fresh(r.value) && r.value.Valid()
                          && r.value.capacity == capacity && r.value.history == []
    {
      if capacity <= 0 {
        return None;
      }
      var b := new DequeRingBuffer<T>(capacity);
      return Some(b);
    }

    method Write(event: T)
      requires Valid()
      modifies this
      ensures Valid()
      ensures history == old(history) + [event]
    {
      LastNAppend(history, event, capacity);
      if |buf| == capacity {
        buf := buf[1..];
      }
      buf := buf + [event];
      history := history + [event];
    }

    method ReadAll() returns (events: seq<T>)
      requires Valid()
      ensures events == LastN(history, capacity)
    {
      events := buf;
    }

    method ReadLatest(n: int) returns (events: seq<T>)
      requires Valid()
      ensures events == Latest(LastN(history, capacity), n)
    {
      if n <= 0 {
        return [];
      }
      events := if n < |buf| then buf[|buf| - n..] else buf;
    }

    method Len() returns (size: nat)
      requires Valid()
      ensures size == Min(capacity, |history|)
    {
      size := |buf|;
    }
  }

  /** Two positions less than a full turn apart never share a slot of the circular array. */
  lemma SlotsDistinct(a: nat, b: nat, capacity: nat)
    requires a < b < a + capacity
    ensures a % capacity != b % capacity
  {
    if a % capacity == b % capacity {
      var qa, qb := a / capacity, b / capacity;
      assert b - a == capacity * (qb - qa) by {
        assert a == capacity * qa + a % capacity && b == capacity * qb + b % capacity;
      }
      if qb - qa >= 1 {
        MultipleTooBig(capacity, qb - qa);
      } else if qb - qa < 0 {
        MultipleTooBig(capacity, qa - qb);
      }
    }
  }

  lemma MultipleTooBig(c: nat, q: int)
    requires q >= 1
    ensures c * q >= c
  {
    assert c * q == c + c * (q - 1);
  }

  /** A slot index advanced by less than a turn, as `(start + i) % capacity` computes it. */
  lemma SlotAdvance(head: nat, i: nat, capacity: nat)
    requires capacity > 0
    ensures (head % capacity + i) % capacity == (head + i) % capacity
  {
    var q := head / capacity;
    assert head + i == capacity * q + (head % capacity + i);
    ModAddMultiple(head % capacity + i, q, capacity);
  }

  lemma {:induction false} ModAddMultiple(x: nat, q: nat, c: nat)
    requires c > 0
    ensures (c * q + x) % c == x % c
    decreases q
  {
    if q > 0 {
      ModAddMultiple(x, q - 1, c);
      var y := c * (q - 1) + x;
      assert c * q + x == y + c;
      assert y >= 0 by { NonNegProduct(c, q - 1); }
      AddOneTurn(y, c);
    } else {
      assert c * q + x == x;
    }
  }

  lemma NonNegProduct(a: nat, b: nat)
    ensures a * b >= 0
  {
  }

  lemma AddOneTurn(y: nat, c: nat)
    requires c > 0
    ensures (y + c) % c == y % c
  {
    var d := (y + c) / c - y / c;
    assert (y + c) % c - y % c == c * (1 - d) by {
      assert y == c * (y / c) + y % c;
      assert y + c == c * ((y + c) / c) + (y + c) % c;
    }
    if 1 - d >= 1 {
      MultipleTooBig(c, 1 - d);
    } else if 1 - d <= -1 {
      MultipleTooBig(c, d - 1);
    }
  }

  class NumpyRingBuffer<T(0)> {
    const capacity: nat
    const buf: array<T>
    var head: nat
    var size: nat
    ghost var history: seq<T>

    ghost predicate Valid()
      reads this, buf
    {
      && 0 < capacity == buf.Length
      && head == |history|
      && size == Min(capacity, head)
      && forall k: nat :: head - capacity <= k < head ==> buf[k % capacity] == history[k]
    }

    constructor (capacity: nat)
      requires capacity > 0
      ensures Valid() && history == [] && this.capacity == capacity && fresh(buf)
    {
      this.capacity := capacity;
      buf := new T[capacity];
      head, size := 0, 0;
      history := [];
    }

    static method Create(capacity: int) returns (r: Option<NumpyRingBuffer<T>>)
      ensures r.Some? <==> capacity > 0
      ensures r.Some? ==> fresh(r.value) && r.value.Valid()
                          && r.value.capacity == capacity && r.value.history == []
    {
      if capacity <= 0 {
        return None;
      }
      var b := new NumpyRingBuffer<T>(capacity);
      return Some(b);
    }

    /** The head only ever grows; the slot is taken modulo the capacity. */
    method Write(event: T)
      requires Valid()
      modifies this, buf
      ensures Valid()
      ensures history == old(history) + [event]
    {
      forall k: nat | head - capacity < k < head
        ensures k % capacity != head % capacity
      {
        SlotsDistinct(k, head, capacity);
      }
      buf[head % capacity] := event;
      history := history + [event];
      head := head + 1;
      if size < capacity {
        size := size + 1;
      }
    }

    method ReadAll() returns (events: seq<T>)
      requires Valid()
      ensures events == LastN(history, capacity)
    {
      hide Valid, LastN;
      Sizes();
      if size == 0 {
        return [];
      }
      if size < capacity {
        events := buf[..size];
        UnwrappedIs();
        return;
      }
      var start := head % capacity;
      events := seq(capacity, i requires 0 <= i < capacity reads this, buf =>
          buf[(start + i) % capacity]);
      RotatedIs(events);
    }

    lemma Sizes()
      requires Valid()
      ensures size <= capacity == buf.Length && capacity > 0
      ensures size == 0 ==> LastN(history, capacity) == []
    {
    }

    lemma UnwrappedIs()
      requires Valid() && size < capacity
      ensures buf[..size] == LastN(history, capacity)
    {
      forall k: nat | k < size ensures buf[k] == history[k] {
        assert k % capacity == k;
        assert buf[k % capacity] == history[k];
      }
    }

    lemma RotatedIs(events: seq<T>)
      requires Valid() && size == capacity && |events| == capacity
      requires forall i: nat :: i < capacity ==> events[i] == buf[(head % capacity + i) % capacity]
      ensures events == LastN(history, capacity)
    {
      forall i: nat | i < capacity ensures events[i] == history[head - capacity + i] {
        RotatedAt(i);
      }
    }

    lemma RotatedAt(i: nat)
      requires Valid() && size == capacity && i < capacity
      ensures buf[(head % capacity + i) % capacity] == history[head - capacity + i]
    {
      SlotAdvance(head, i, capacity);
      AddOneTurn(head - capacity + i, capacity);
    }

    method ReadLatest(n: int) returns (events: seq<T>)
      requires Valid()
      ensures events == Latest(LastN(history, capacity), n)
    {
      if n <= 0 {
        return [];
      }
      var all := ReadAll();
      events := if n < |all| then all[|all| - n..] else all;
    }

    method Len() returns (len: nat)
      requires Valid()
      ensures len == Min(capacity, |history|)
    {
      len := size;
    }
  }

  /** The refinement itself: any writes whatsoever, then any query, answered alike by both buffers. */
  method BothBuffersAgree<T(0)>(capacity: nat, writes: seq<T>, n: int)
    returns (deque: seq<T>, numpy: seq<T>, dequeLatest: seq<T>, numpyLatest: seq<T>)
    requires capacity > 0
    ensures deque == numpy == LastN(writes, capacity)
    ensures dequeLatest == numpyLatest == Latest(LastN(writes, capacity), n)
  {
    var d := new DequeRingBuffer<T>(capacity);
    var c := new NumpyRingBuffer<T>(capacity);
    for i := 0 to |writes|
      invariant d.Valid() && c.Valid() && d.capacity == c.capacity == capacity
      invariant d.history == c.history == writes[..i]
      invariant fresh(d) && fresh(c) && fresh(c.buf)
    {
      d.Write(writes[i]);
      c.Write(writes[i]);
    }
    assert writes[..|writes|] == writes;
    deque := d.ReadAll();
    numpy := c.ReadAll();
    dequeLatest := d.ReadLatest(n);
    numpyLatest := c.ReadLatest(n);
  }
}
