/**
 * The cyclic buffer of buffer.h and, as its specification, a bounded sequence from which
 * a push drops the oldest item when it is full.
 */
module Buffer {
  import opened Wrappers

  datatype OutOfRange = OutOfRange

  /** The contents after a push. */
  function Pushed<T>(contents: seq<T>, capacity: nat, item: T): seq<T>
    requires capacity > 0
  {
    (if |contents| == capacity then contents[1..] else contents) + [item]
  }

  lemma CyclicIndex(start: nat, index: nat, capacity: nat)
    requires start < capacity && index <= capacity
    ensures (start + index) % capacity == if start + index < capacity then start + index else start + index - capacity
  {
    if start + index >= capacity {
      assert start + index == capacity * 1 + (start + index - capacity);
    }
  }

  class Buffer<T(0)> {
    const data: array<T>
    var start: nat
    var length: nat

    ghost predicate Valid()
      reads this
    {
      start < data.Length && length <= data.Length
    }

    ghost function Contents(): (s: seq<T>)
      requires Valid()
      reads this, data
      ensures |s| == length
    {
      seq(length, i requires 0 <= i < length reads this, data requires Valid() => data[GetIndex(i)])
    }

    constructor (capacity: nat)
      requires capacity > 0
      ensures Valid() && fresh(data) && data.Length == capacity && Contents() == []
    {
      data := new T[capacity];
      start, length := 0, 0;
    }

    function GetIndex(index: nat): (k: nat)
      requires Valid() && index <= data.Length
      reads this
      ensures k < data.Length
      ensures k == if start + index < data.Length then start + index else start + index - data.Length
    {
      CyclicIndex(start, index, data.Length);
      (start + index) % data.Length
    }

    method IncreaseIndex()
      requires Valid()
      modifies this`start
      ensures Valid()
      ensures start == if old(start) + 1 < data.Length then old(start) + 1 else 0
    {
      CyclicIndex(start, 1, data.Length);
      start := (start + 1) % data.Length;
    }

    method Get(index: nat) returns (r: Result<T, OutOfRange>)
      requires Valid()
      ensures r == if index < length then Success(Contents()[index]) else Failure(OutOfRange)
    {
      if index >= length {
        return Failure(OutOfRange);
      }
      return Success(data[GetIndex(index)]);
    }

    method Push(item: T)
      requires Valid()
      modifies this, data
      ensures Valid()
      ensures Contents() == Pushed(old(Contents()), data.Length, item)
    {
      if length == data.Length {
        IncreaseIndex();
      } else {
        length := length + 1;
      }
      data[GetIndex(length - 1)] := item;
    }

    method Pop() returns (r: Result<T, OutOfRange>)
      requires Valid()
      modifies this
      ensures Valid()
      ensures old(length) == 0 ==> r == Failure(OutOfRange) && Contents() == []
      ensures old(length) > 0 ==> r == Success(old(Contents())[0]) && Contents() == old(Contents())[1..]
    {
      if length == 0 {
        return Failure(OutOfRange);
      }
      r := Get(0);
      IncreaseIndex();
      length := length - 1;
    }

    /** A range-based for loop: the iterator's index runs from begin to end. */
    method Items() returns (items: seq<T>)
      requires Valid()
      ensures items == Contents()
    {
      items := [];
      var index := 0;
      while index != length
        invariant 0 <= index <= length
        invariant items == Contents()[..index]
      {
        var item := Get(index);
        items := items + [item.value];
        index := index + 1;
      }
    }
  }
}
