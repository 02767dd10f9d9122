/** Usage scenarios of SimpleVector: what a caller can conclude from the
    contracts alone about sequences of operations. */
module Scenarios {
  import opened Wrappers
  import opened Growth
  import opened SimpleVectors
  import opened Comparisons

  /** Appending the elements of xs one by one to an empty vector: the vector
      holds xs in order, and its capacity is the least power of two that is
      at least |xs|. */
  method PushBackEach<T(0)>(defaultValue: T, xs: seq<T>) returns (elements: seq<T>, capacity: nat)
    ensures elements == xs
    ensures capacity == CapacityAfterPushes(0, 0, |xs|)
    ensures |xs| >= 1 ==> IsPowerOfTwo(capacity) && |xs| <= capacity && capacity / 2 < |xs|
  {
    var v := new SimpleVector<T>(defaultValue);
    var i := 0;
    while i < |xs|
      invariant 0 <= i <= |xs|
      invariant v.Valid() && fresh(v.head)
      invariant v.Elements() == xs[..i]
      invariant CapacityAfterPushes(i, v.capacity, |xs| - i) == CapacityAfterPushes(0, 0, |xs|)
    {
      v.PushBack(xs[i]);
      assert xs[..i + 1] == xs[..i] + [xs[i]];
      i := i + 1;
    }
    assert xs[..i] == xs;
    elements, capacity := v.Elements(), v.GetCapacity();
    if |xs| >= 1 {
      PushesFromEmpty(|xs|);
    }
  }

  /** Reserve(4) and four appends fit without reallocation; the fifth doubles the capacity. */
  method ReserveThenPush() returns (capacityAfterFour: nat, size: nat, capacity: nat, elements: seq<int>)
    ensures capacityAfterFour == 4
    ensures size == 5 && capacity == 8 && elements == [1, 2, 3, 4, 5]
  {
    var v := new SimpleVector<int>(0);
    v.Reserve(4);
    v.PushBack(1);
    v.PushBack(2);
    v.PushBack(3);
    v.PushBack(4);
    capacityAfterFour := v.GetCapacity();
    v.PushBack(5);
    size, capacity, elements := v.GetSize(), v.GetCapacity(), v.Elements();
  }

  /** Erasing begin() + 1 from {10, 20, 30} leaves {10, 30}. */
  method EraseSecond() returns (pos: nat, size: nat, elements: seq<int>)
    ensures pos == 1 && size == 2 && elements == [10, 30]
  {
    var v := new SimpleVector<int>.FromList(0, [10, 20, 30]);
    pos := v.Erase(1);
    size, elements := v.GetSize(), v.Elements();
  }

  /** Inserting at a position puts the value there and shifts the rest right. */
  method InsertFront() returns (pos: nat, read: Result<int, AccessError>, elements: seq<int>)
    ensures pos == 0 && read == Ok(5) && elements == [5, 10, 20]
  {
    var v := new SimpleVector<int>.FromList(0, [10, 20]);
    pos := v.Insert(0, 5);
    read := v.At(pos);
    elements := v.Elements();
  }

  /** A copy compares equal to its source, and changing the copy leaves the source alone. */
  method CopyIsolation() returns (equalAfterCopy: bool, original: seq<int>, copy: seq<int>)
    ensures equalAfterCopy
    ensures original == [1, 2, 3] && copy == [1, 2, 3, 4]
  {
    var a := new SimpleVector<int>.FromList(0, [1, 2, 3]);
    var b := new SimpleVector<int>.Copy(a);
    equalAfterCopy := Equal(a.Elements(), b.Elements());
    b.PushBack(4);
    original, copy := a.Elements(), b.Elements();
  }

  /** Moving out of a vector leaves it with no elements and no capacity. */
  method MoveLeavesEmpty() returns (moved: seq<int>, sourceSize: nat, sourceCapacity: nat)
    ensures moved == [7, 8] && sourceSize == 0 && sourceCapacity == 0
  {
    var a := new SimpleVector<int>.FromList(0, [7, 8]);
    var b := new SimpleVector<int>.Move(a);
    moved, sourceSize, sourceCapacity := b.Elements(), a.GetSize(), a.GetCapacity();
  }

  /** Two vectors built from the same list compare equal; after appending
      to the right-hand one, operator== as written still answers true
      while element-wise equality answers false. */
  method EqualityAfterAppend() returns (equalBefore: bool, asWrittenAfter: bool, equalAfter: bool)
    ensures equalBefore && asWrittenAfter && !equalAfter
  {
    var a := new SimpleVector<int>.FromList(0, [1, 2, 3]);
    var b := new SimpleVector<int>.FromList(0, [1, 2, 3]);
    equalBefore := Equal(a.Elements(), b.Elements());
    b.PushBack(4);
    asWrittenAfter := EqualAsWritten(a.Elements(), b.head[..]);
    equalAfter := Equal(a.Elements(), b.Elements());
  }

  /** After PopBack on the right-hand one of two vectors built from the same
      list, operator== and operator!= as written read the popped value from
      the dead slot and still report equality; the intended operators do not. */
  method EqualityAfterPopBack() returns (asWrittenEqual: bool, asWrittenNotEqual: bool, equal: bool, notEqual: bool)
    ensures asWrittenEqual && !asWrittenNotEqual && !equal && notEqual
  {
    var a := new SimpleVector<int>.FromList(0, [1, 2, 3]);
    var b := new SimpleVector<int>.FromList(0, [1, 2, 3]);
    b.PopBack();
    asWrittenEqual := EqualAsWritten(a.Elements(), b.head[..]);
    asWrittenNotEqual := NotEqualAsWritten(a.Elements(), b.head[..]);
    equal := Equal(a.Elements(), b.Elements());
    notEqual := NotEqual(a.Elements(), b.Elements());
  }

  /** One past the last element: the documented check rejects index == size
      for reads and writes; the check as written accepts both, reading the
      default the reserving constructor left in the slot and writing there
      without changing the elements. */
  method OnePastEnd() returns (checked: Result<int, AccessError>, asWritten: Result<int, AccessError>,
                               checkedWrite: Outcome<AccessError>, asWrittenWrite: Outcome<AccessError>,
                               elements: seq<int>, readBack: Result<int, AccessError>)
    ensures checked == Err(OutOfRange(OutOfRangeMessage))
    ensures asWritten == Ok(0)
    ensures checkedWrite == Fail(OutOfRange(OutOfRangeMessage))
    ensures asWrittenWrite == Pass
    ensures elements == [7] && readBack == Ok(9)
  {
    var v := new SimpleVector<int>.Reserving(0, Reserve(4));
    v.PushBack(7);
    checked := v.At(1);
    asWritten := v.AtAsWritten(1);
    checkedWrite := v.SetAt(1, 9);
    asWrittenWrite := v.SetAtAsWritten(1, 9);
    elements := v.Elements();
    readBack := v.AtAsWritten(1);
  }

  /** Resizing up pads with the default value; resizing down truncates and keeps the capacity. */
  method ResizeUpThenDown() returns (grown: seq<int>, shrunk: seq<int>, capacity: nat)
    ensures grown == [1, 2, 0, 0] && shrunk == [1] && capacity == 4
  {
    var v := new SimpleVector<int>.FromList(0, [1, 2]);
    v.Resize(4);
    grown := v.Elements();
    v.Resize(1);
    shrunk, capacity := v.Elements(), v.GetCapacity();
  }
}
