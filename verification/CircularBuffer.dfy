/** circularbuffer.h: a ring of `capacity` slots, one of which always stays empty. */
module CircularBuffers {
  import opened Common

  /** A position up to one turn past the end wraps by one subtraction. */
  lemma Wrap(x: nat, capacity: nat)
    requires x < 2 * capacity
    ensures x % capacity == if x < capacity then x else x - capacity
  {
    if x >= capacity {
      assert x == capacity * 1 + (x - capacity);
    }
  }

  class CircularBuffer<T(0)> {
    var buffer: array<T>
    var capacity: nat
    var readPos: nat
    var writePos: nat
    // The function-local static that `front` returns for an empty buffer.
    const nothing: T

    ghost predicate Valid()
      reads this
    {
      capacity >= 1 && buffer.Length == capacity && readPos < capacity && writePos < capacity
    }

    /** The items from the read position to the write position, around the end if need be. */
    ghost function Contents(): seq<T>
      reads this, buffer
      requires Valid()
    {
      if readPos <= writePos then buffer[readPos..writePos] else buffer[readPos..] + buffer[..writePos]
    }

    /** The constructor proper; `Create` below is the one that checks the capacity. */
    constructor (capacity: nat)
      requires capacity >= 1
      ensures Valid() && fresh(buffer) && this.capacity == capacity && Contents() == []
    {
      buffer := new T[capacity];
      this.capacity := capacity;
      readPos, writePos := 0, 0;
      nothing := *;
    }

    /** A capacity below 1 is refused with length_error. */
    static method Create(capacity: int) returns (r: Option<CircularBuffer<T>>)
      ensures r.Some? <==> capacity >= 1
      ensures r.Some? ==> fresh(r.value) && fresh(r.value.buffer) && r.value.Valid()
                          && r.value.capacity == capacity && r.value.Contents() == []
    {
      if capacity < 1 {
        return None;
      }
      var c := new CircularBuffer<T>(capacity);
      r := Some(c);
    }

    /** The copy constructor: the same contents in a buffer of its own. */
    constructor Copy(rhs: CircularBuffer<T>)
      requires rhs.Valid()
      ensures Valid() && fresh(buffer) && capacity == rhs.capacity && Contents() == rhs.Contents()
    {
      var b := new T[rhs.capacity];
      forall i | 0 <= i < rhs.capacity {
        b[i] := rhs.buffer[i];
      }
      buffer := b;
      capacity, readPos, writePos := rhs.capacity, rhs.readPos, rhs.writePos;
      nothing := rhs.nothing;
      new;
      assert buffer[..] == rhs.buffer[..];
    }

    /** swap exchanges the contents. */
    method Swap(rhs: CircularBuffer<T>)
      requires Valid() && rhs.Valid()
      modifies this, rhs
      ensures Valid() && rhs.Valid()
      ensures Contents() == old(rhs.Contents()) && rhs.Contents() == old(Contents())
      ensures capacity == old(rhs.capacity) && rhs.capacity == old(capacity)
      ensures buffer == old(rhs.buffer) && rhs.buffer == old(buffer)
    {
      buffer, rhs.buffer := rhs.buffer, buffer;
      capacity, rhs.capacity := rhs.capacity, capacity;
      readPos, rhs.readPos := rhs.readPos, readPos;
      writePos, rhs.writePos := rhs.writePos, writePos;
    }

    function Size(): nat
      reads this
      requires Valid()
    {
      (writePos + capacity - readPos) % capacity
    }

    predicate Empty()
      reads this
    {
      readPos == writePos
    }

    predicate Full()
      reads this
      requires Valid()
    {
      (writePos + 1) % capacity == readPos
    }

    /** size, empty and full speak of the contents; at most `capacity - 1` items fit. */
    lemma SizeExact()
      requires Valid()
      ensures Size() == |Contents()| <= capacity - 1
      ensures Empty() <==> Contents() == []
      ensures Full() <==> |Contents()| == capacity - 1
    {
      Wrap(writePos + capacity - readPos, capacity);
      Wrap(writePos + 1, capacity);
    }

    method PushBack(item: T) returns (ok: bool)
      requires Valid()
      modifies this`writePos, buffer
      ensures Valid()
      ensures ok == (|old(Contents())| < capacity - 1)
      ensures Contents() == if ok then old(Contents()) + [item] else old(Contents())
    {
      SizeExact();
      Wrap(writePos + 1, capacity);
      if Full() {
        return false;
      }
      ghost var before := buffer[..];
      buffer[writePos] := item;
      assert buffer[..] == before[writePos := item];
      writePos := (writePos + 1) % capacity;
      return true;
    }

    method Front() returns (item: T)
      requires Valid()
      ensures Contents() != [] ==> item == Contents()[0]
      ensures Contents() == [] ==> item == nothing
    {
      SizeExact();
      if Empty() {
        return nothing;
      }
      return buffer[readPos];
    }

    method PopFront()
      requires Valid()
      modifies this`readPos
      ensures Valid()
      ensures Contents() == if old(Contents()) == [] then [] else old(Contents())[1..]
    {
      SizeExact();
      Wrap(readPos + 1, capacity);
      if Empty() {
        return;
      }
      readPos := (readPos + 1) % capacity;
    }
  }

  /** Assignment takes its argument by value and swaps with the copy. */
  method Assign<T(0)>(lhs: CircularBuffer<T>, rhs: CircularBuffer<T>)
    requires lhs.Valid() && rhs.Valid()
    modifies lhs
    ensures lhs.Valid() && lhs.Contents() == old(rhs.Contents()) && lhs.capacity == old(rhs.capacity)
    ensures lhs != rhs ==> rhs.Valid() && rhs.Contents() == old(rhs.Contents())
    ensures fresh(lhs.buffer)
  {
    var copy := new CircularBuffer<T>.Copy(rhs);
    lhs.Swap(copy);
  }
}
