/** SimpleVector: a growable contiguous array. The live elements are the
    first `size` slots of an owned buffer of `capacity` slots. Iterators
    (`Type*` in the original) are modelled as indices into [0, size]. */
module SimpleVectors {
  import opened Wrappers
  import opened Growth
  import opened Algorithms

  /** The tag object produced by Reserve: it carries only the capacity to reserve. */
  datatype ReserveProxyObj = ReserveProxyObj(size: nat)

  /** Wraps a capacity in the tag that selects the reserving constructor. */
  function Reserve(capacityToReserve: nat): (r: ReserveProxyObj)
    ensures r.size == capacityToReserve
  {
    ReserveProxyObj(capacityToReserve)
  }

  /** The message of the out_of_range error raised by the checked accessors. */
  const OutOfRangeMessage: string := "Out of range. Index >= size!"

  datatype AccessError = OutOfRange(message: string)

  /** A vector of elements of type T. `defaultValue` plays the part of the
      value-initialised element `Type{}`; slots outside [0, size) hold
      unspecified values, as a freshly allocated buffer does. */
  class SimpleVector<T(0)> {
    const defaultValue: T
    var size: nat
    var capacity: nat
    var head: array<T>

    /** The object invariant: the buffer has capacity slots, of which the first size are live. */
    ghost predicate Valid()
      reads this
    {
      size <= capacity && capacity == head.Length
    }

    /** The live elements, in order: the range [begin(), end()). */
    function Elements(): (s: seq<T>)
      reads this, head
      requires Valid()
    {
      head[..size]
    }

    /** The default constructor: no elements and no allocation. */
    constructor (defaultValue: T)
      ensures Valid() && fresh(head)
      ensures this.defaultValue == defaultValue
      ensures Elements() == [] && capacity == 0
    {
      this.defaultValue := defaultValue;
      size := 0;
      capacity := 0;
      head := new T[0];
    }

    /** SimpleVector(size): size default elements, capacity equal to size. */
    constructor OfSize(defaultValue: T, n: nat)
      ensures Valid() && fresh(head)
      ensures this.defaultValue == defaultValue
      ensures Elements() == Repeat(defaultValue, n) && capacity == n
    {
      var temp := new T[n];
      Fill(temp, 0, n, defaultValue);
      this.defaultValue := defaultValue;
      head := temp;
      size := n;
      capacity := n;
    }

    /** SimpleVector(size, value): size copies of value, capacity equal to size. */
    constructor Filled(defaultValue: T, n: nat, value: T)
      ensures Valid() && fresh(head)
      ensures this.defaultValue == defaultValue
      ensures Elements() == Repeat(value, n) && capacity == n
    {
      var temp := new T[n];
      Fill(temp, 0, n, value);
      this.defaultValue := defaultValue;
      head := temp;
      size := n;
      capacity := n;
    }

    /** SimpleVector(initializer_list): the listed elements in order, capacity equal to their number. */
    constructor FromList(defaultValue: T, init: seq<T>)
      ensures Valid() && fresh(head)
      ensures this.defaultValue == defaultValue
      ensures Elements() == init && capacity == |init|
    {
      var temp := new T[|init|];
      CopyInto(init, temp);
      this.defaultValue := defaultValue;
      head := temp;
      size := |init|;
      capacity := |init|;
    }

    /** SimpleVector(Reserve(n)): no elements, a default-filled buffer of n slots. */
    constructor Reserving(defaultValue: T, obj: ReserveProxyObj)
      ensures Valid() && fresh(head)
      ensures this.defaultValue == defaultValue
      ensures Elements() == [] && capacity == obj.size
      ensures head[..] == Repeat(defaultValue, obj.size)
    {
      var temp := new T[obj.size];
      Fill(temp, 0, obj.size, defaultValue);
      this.defaultValue := defaultValue;
      head := temp;
      size := 0;
      capacity := obj.size;
    }

    /** The copy constructor: an independent buffer holding exactly other's elements. */
    constructor Copy(other: SimpleVector<T>)
      requires other.Valid()
      ensures Valid() && fresh(head)
      ensures defaultValue == other.defaultValue
      ensures Elements() == other.Elements() && capacity == other.size
    {
      var temp := new T[other.size];
      CopyInto(other.head[..other.size], temp);
      defaultValue := other.defaultValue;
      head := temp;
      size := other.size;
      capacity := other.size;
    }

    /** The move constructor: starts empty and swaps with other, which is
        left with no elements and no capacity. */
    constructor Move(other: SimpleVector<T>)
      requires other.Valid()
      modifies other
      ensures Valid() && other.Valid()
      ensures defaultValue == other.defaultValue
      ensures head == old(other.head)
      ensures Elements() == old(other.Elements()) && capacity == old(other.capacity)
      ensures other.Elements() == [] && other.capacity == 0
    {
      defaultValue := other.defaultValue;
      size := 0;
      capacity := 0;
      head := new T[0];
      new;
      Swap(other);
    }

    /** Copy assignment. From a non-empty rhs: a fresh copy of rhs with
        capacity rhs.size is swapped in. From an empty rhs only the size is
        reset and the buffer is kept. Self-assignment changes nothing. */
    method Assign(rhs: SimpleVector<T>)
      requires Valid() && rhs.Valid()
      modifies this
      ensures Valid() && rhs.Valid()
      ensures rhs == this ==> size == old(size) && capacity == old(capacity) && head == old(head)
      ensures rhs != this && old(rhs.size) > 0 ==>
        Elements() == old(rhs.Elements()) && capacity == old(rhs.size) && fresh(head)
      ensures rhs != this && old(rhs.size) == 0 ==>
        Elements() == [] && capacity == old(capacity) && head == old(head)
    {
      if this != rhs {
        if rhs.size != 0 {
          var temp := new SimpleVector.Copy(rhs);
          Swap(temp);
        } else {
          size := 0;
        }
      }
    }

    /** Appends item. A full vector first moves its elements into a new
        buffer of twice the capacity (1 when it had none). */
    method PushBack(item: T)
      requires Valid()
      modifies this, head
      ensures Valid()
      ensures Elements() == old(Elements()) + [item]
      ensures capacity == CapacityAfterPush(old(size), old(capacity))
      ensures old(size) < old(capacity) ==> head == old(head)
      ensures old(size) < old(capacity) ==> head[old(size) + 1..] == old(head[size + 1..])
      ensures old(size) == old(capacity) ==> fresh(head)
    {
      if size < capacity {
        head[size] := item;
        size := size + 1;
      } else {
        var newCapacity := NextCapacity(capacity);
        var temp := new T[newCapacity];
        CopyInto(head[..size], temp);
        temp[size] := item;
        head := temp;
        size := size + 1;
        capacity := newCapacity;
      }
    }

    /** Inserts value before position index and returns the position of the
        inserted element; grows by the same rule as PushBack. */
    method Insert(index: nat, value: T) returns (pos: nat)
      requires Valid() && index <= size
      modifies this, head
      ensures Valid()
      ensures pos == index
      ensures Elements() == old(Elements())[..index] + [value] + old(Elements())[index..]
      ensures capacity == CapacityAfterPush(old(size), old(capacity))
      ensures old(size) < old(capacity) ==> head == old(head)
      ensures old(size) < old(capacity) ==> head[old(size) + 1..] == old(head[size + 1..])
      ensures old(size) == old(capacity) ==> fresh(head)
    {
      if size < capacity {
        InsertInto(head, index, size, value);
      } else {
        var newCapacity := NextCapacity(capacity);
        var temp := new T[newCapacity];
        CopyInto(head[..size], temp);
        InsertInto(temp, index, size, value);
        head := temp;
        capacity := newCapacity;
      }
      size := size + 1;
      pos := index;
    }

    /** Removes the last element; the vector must not be empty. */
    method PopBack()
      requires Valid() && size > 0
      modifies this
      ensures Valid()
      ensures Elements() == old(Elements())[..old(size) - 1]
      ensures capacity == old(capacity) && head == old(head)
    {
      size := size - 1;
    }

    /** Removes the element at index and returns index, the position of the
        element that followed it. On an empty vector nothing is removed. */
    method Erase(index: nat) returns (pos: nat)
      requires Valid()
      requires index < size || (index == 0 && size == 0)
      modifies this, head
      ensures Valid()
      ensures pos == index
      ensures Elements() ==
        if old(size) == 0 then old(Elements())
        else old(Elements())[..index] + old(Elements())[index + 1..]
      ensures capacity == old(capacity) && head == old(head)
      ensures head[old(size)..] == old(head[size..])
    {
      ghost var before := Elements();
      if size != 0 {
        ShiftLeft(head, index, size);
        size := size - 1;
        assert Elements() == before[..index] + before[index + 1..] by {
          assert forall k :: 0 <= k < index ==> Elements()[k] == before[k];
          assert forall k :: index <= k < size ==> Elements()[k] == before[k + 1];
        }
      }
      pos := index;
    }

    /** Exchanges elements, size and capacity (buffers included) with other. */
    method Swap(other: SimpleVector<T>)
      requires Valid() && other.Valid()
      modifies this, other
      ensures Valid() && other.Valid()
      ensures head == old(other.head) && other.head == old(head)
      ensures size == old(other.size) && other.size == old(size)
      ensures capacity == old(other.capacity) && other.capacity == old(capacity)
      ensures Elements() == old(other.Elements()) && other.Elements() == old(Elements())
    {
      var h, s, c := head, size, capacity;
      head, size, capacity := other.head, other.size, other.capacity;
      other.head, other.size, other.capacity := h, s, c;
    }

    /** The number of live elements. */
    function GetSize(): (n: nat)
      reads this, head
      requires Valid()
      ensures n == |Elements()|
    {
      size
    }

    /** The number of allocated slots, never fewer than the elements. */
    function GetCapacity(): (c: nat)
      reads this, head
      requires Valid()
      ensures c == head.Length && |Elements()| <= c
    {
      capacity
    }

    /** Whether there are no live elements. */
    function IsEmpty(): (b: bool)
      reads this, head
      requires Valid()
      ensures b <==> Elements() == []
    {
      GetSize() == 0
    }

    /** Checked read access (operator[] and At), with the documented bound:
        an index that is not below the size is an out_of_range error. */
    function At(index: nat): (r: Result<T, AccessError>)
      reads this, head
      requires Valid()
      ensures r.Ok? <==> index < |Elements()|
      ensures r.Ok? ==> r.value == Elements()[index]
      ensures r.Err? ==> r.error == OutOfRange(OutOfRangeMessage)
    {
      if index >= size then Err(OutOfRange(OutOfRangeMessage)) else Ok(head[index])
    }

    /** Checked write access through the reference operator[] and At return,
        with the documented bound. */
    method SetAt(index: nat, value: T) returns (r: Outcome<AccessError>)
      requires Valid()
      modifies head
      ensures Valid()
      ensures r.Pass? <==> index < size
      ensures r.Fail? ==> r.error == OutOfRange(OutOfRangeMessage)
      ensures Elements() ==
        if index < size then old(Elements())[index := value] else old(Elements())
      ensures head[..] == if index < size then old(head[..])[index := value] else old(head[..])
    {
      if index >= size {
        r := Fail(OutOfRange(OutOfRangeMessage));
      } else {
        head[index] := value;
        r := Pass;
      }
    }

    /** Write access with the bound the accessors actually test (index > size
        is rejected): a write at index == size is accepted and lands in the
        unused slot after the elements, which stay as they were. When that
        slot lies outside the buffer (size == capacity) the original writes
        to unallocated memory, which is excluded here. */
    method SetAtAsWritten(index: nat, value: T) returns (r: Outcome<AccessError>)
      requires Valid()
      requires index == size ==> size < capacity
      modifies head
      ensures Valid()
      ensures r.Pass? <==> index <= size
      ensures r.Fail? ==> r.error == OutOfRange(OutOfRangeMessage)
      ensures Elements() ==
        if index < size then old(Elements())[index := value] else old(Elements())
      ensures head[..] == if index <= size then old(head[..])[index := value] else old(head[..])
    {
      if index > size {
        r := Fail(OutOfRange(OutOfRangeMessage));
      } else {
        head[index] := value;
        r := Pass;
      }
    }

    /** Read access with the bound the accessors actually test (index > size
        is rejected): index == size is accepted and yields the slot just past
        the live elements. When that slot lies outside the buffer
        (size == capacity) the original reads unallocated memory, which is
        excluded here. */
    function AtAsWritten(index: nat): (r: Result<T, AccessError>)
      reads this, head
      requires Valid()
      requires index == size ==> size < capacity
      ensures r.Ok? <==> index <= size
      ensures index < size ==> r == Ok(Elements()[index])
      ensures index == size ==> r == Ok(head[size])
    {
      if index > size then Err(OutOfRange(OutOfRangeMessage)) else Ok(head[index])
    }

    /** Sets the size to 0 without touching the buffer. */
    method Clear()
      requires Valid()
      modifies this
      ensures Valid()
      ensures Elements() == []
      ensures capacity == old(capacity) && head == old(head)
    {
      size := 0;
    }

    /** Changes the number of elements to newSize. Beyond the capacity a
        buffer of exactly newSize slots takes the elements and the default
        tail; within it the tail is default-filled in place; below the size
        the elements are truncated. */
    method Resize(newSize: nat)
      requires Valid()
      modifies this, head
      ensures Valid()
      ensures Elements() ==
        if newSize <= old(size) then old(Elements())[..newSize]
        else old(Elements()) + Repeat(defaultValue, newSize - old(size))
      ensures capacity == if newSize > old(capacity) then newSize else old(capacity)
      ensures newSize > old(capacity) ==> fresh(head)
      ensures newSize <= old(capacity) ==> head == old(head)
      ensures newSize < old(size) ==> head[..] == old(head[..])
      ensures old(size) <= newSize <= old(capacity) ==> head[newSize..] == old(head[newSize..])
    {
      ghost var before := Elements();
      if newSize > capacity {
        var temp := new T[newSize];
        CopyInto(head[..size], temp);
        Fill(temp, size, newSize, defaultValue);
        head := temp;
        capacity := newSize;
        size := newSize;
        assert Elements() == before + Repeat(defaultValue, newSize - |before|) by {
          assert Elements() == temp[..|before|] + temp[|before|..newSize];
        }
      } else if newSize < size {
        size := newSize;
      } else {
        Fill(head, size, newSize, defaultValue);
        size := newSize;
        assert Elements() == before + Repeat(defaultValue, newSize - |before|) by {
          assert Elements() == head[..|before|] + head[|before|..newSize];
        }
      }
    }

    /** Ensures room for newCapacity elements: a larger request moves the
        elements into a buffer of exactly newCapacity slots. */
    method Reserve(newCapacity: nat)
      requires Valid()
      modifies this
      ensures Valid()
      ensures Elements() == old(Elements())
      ensures capacity == if newCapacity > old(capacity) then newCapacity else old(capacity)
      ensures newCapacity > old(capacity) ==> fresh(head)
      ensures newCapacity <= old(capacity) ==> head == old(head)
    {
      if newCapacity > capacity {
        var temp := new T[newCapacity];
        CopyInto(head[..size], temp);
        head := temp;
        capacity := newCapacity;
      }
    }
  }
}
