/**
 A ring buffer of fixed capacity.
 */
module RingBuffers {
  import opened Bits

  lemma Wrap(i: nat, n: nat)
    requires i < n
    ensures (i + 1) % n == if i + 1 == n then 0 else i + 1
  {
    if i + 1 < n { QuotientUnique(i + 1, 0, n); } else { QuotientUnique(n, 1, n); }
  }

  class RingBuffer {
    const buffer: array<nat>
    var head: nat
    var tail: nat
    var len: nat

    /** Where the element `i` places behind the head is stored. */
    function Place(i: nat): nat
      reads this
    {
      if head + i < buffer.Length then head + i else head + i - buffer.Length
    }

    ghost predicate Valid()
      reads this, buffer
    {
      && 0 < buffer.Length && head < buffer.Length && tail < buffer.Length && len <= buffer.Length
      && tail == Place(len)
    }

    /** The elements, oldest first. */
    ghost function Contents(): (s: seq<nat>)
      requires Valid()
      reads this, buffer
      ensures |s| == len
    {
      seq(len, i requires 0 <= i < len <= buffer.Length && head < buffer.Length reads this, buffer => buffer[Place(i)])
    }

    constructor (capacity: nat)
      requires capacity > 0
      ensures Valid() && fresh(buffer) && buffer.Length == capacity && Contents() == []
    {
      buffer := new nat[capacity](_ => 0);
      head, tail, len := 0, 0, 0;
    }

    /** Appends unless the buffer is full. */
    method Push(item: nat) returns (ok: bool)
      requires Valid()
      modifies this`tail, this`len, buffer
      ensures Valid() && ok == (old(len) < buffer.Length)
      ensures Contents() == if ok then old(Contents()) + [item] else old(Contents())
    {
      if len == buffer.Length {
        return false;
      }
      buffer[tail] := item;
      Wrap(tail, buffer.Length);
      tail := (tail + 1) % buffer.Length;
      len := len + 1;
      assert Contents()[..len - 1] == old(Contents());
      return true;
    }

    /** Takes the oldest element, if there is one. */
    method Pop() returns (r: Option<nat>)
      requires Valid()
      modifies this`head, this`len
      ensures Valid()
      ensures r == if old(Contents()) == [] then None else Some(old(Contents())[0])
      ensures Contents() == if old(Contents()) == [] then [] else old(Contents())[1..]
    {
      if len == 0 {
        return None;
      }
      var oldHead := head;
      Wrap(head, buffer.Length);
      head := (head + 1) % buffer.Length;
      len := len - 1;
      return Some(buffer[oldHead]);
    }

    method IsEmpty() returns (empty: bool)
      requires Valid()
      ensures empty <==> Contents() == []
    {
      return len == 0;
    }
  }
}
