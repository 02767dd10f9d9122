/** The growth rule of the vector: a full vector that must take one more
    element reallocates to twice its capacity, or to 1 when it had none. */
module Growth {

  /** n is one of 1, 2, 4, 8, ... */
  predicate IsPowerOfTwo(n: nat)
    decreases n
  {
    n == 1 || (n > 1 && n % 2 == 0 && IsPowerOfTwo(n / 2))
  }

  /** Capacity of the buffer allocated when a full vector grows. */
  function NextCapacity(capacity: nat): (r: nat)
    ensures r > capacity
    ensures capacity == 0 || IsPowerOfTwo(capacity) ==> IsPowerOfTwo(r)
  {
    if capacity > 0 then capacity * 2 else 1
  }

  /** Capacity after appending one element to a vector of the given size
      and capacity (PushBack and Insert share this rule). */
  function CapacityAfterPush(size: nat, capacity: nat): (r: nat)
    requires size <= capacity
    ensures size < r && capacity <= r
    ensures size < capacity ==> r == capacity
  {
    if size < capacity then capacity else NextCapacity(capacity)
  }

  /** Capacity after k successive appends starting from the given size and capacity. */
  function CapacityAfterPushes(size: nat, capacity: nat, k: nat): (r: nat)
    requires size <= capacity
    ensures size + k <= r
    decreases k
  {
    if k == 0 then capacity
    else CapacityAfterPushes(size + 1, CapacityAfterPush(size, capacity), k - 1)
  }

  /** The state reached by appends alone from an empty, unallocated vector:
      the capacity is the least power of two holding the elements. */
  ghost predicate Tight(size: nat, capacity: nat)
  {
    (size == 0 && capacity == 0) ||
    (IsPowerOfTwo(capacity) && size <= capacity && capacity < 2 * size)
  }

  /** One append keeps the capacity tight. */
  lemma {:induction false} PushKeepsTight(size: nat, capacity: nat)
    requires size <= capacity && Tight(size, capacity)
    ensures Tight(size + 1, CapacityAfterPush(size, capacity))
  {
    if size == capacity && capacity > 0 {
      assert IsPowerOfTwo(capacity);
      assert (capacity * 2) / 2 == capacity;
      assert IsPowerOfTwo(capacity * 2);
    }
  }

  /** Any number of appends keeps the capacity tight. */
  lemma {:induction false} PushesKeepTight(size: nat, capacity: nat, k: nat)
    requires size <= capacity && Tight(size, capacity)
    ensures Tight(size + k, CapacityAfterPushes(size, capacity, k))
    decreases k
  {
    if k > 0 {
      PushKeepsTight(size, capacity);
      PushesKeepTight(size + 1, CapacityAfterPush(size, capacity), k - 1);
    }
  }

  /** Starting empty, after k >= 1 appends the capacity is the smallest value
      of the sequence 1, 2, 4, 8, ... that is at least k. */
  lemma PushesFromEmpty(k: nat)
    requires k >= 1
    ensures IsPowerOfTwo(CapacityAfterPushes(0, 0, k))
    ensures k <= CapacityAfterPushes(0, 0, k)
    ensures CapacityAfterPushes(0, 0, k) / 2 < k
  {
    PushesKeepTight(0, 0, k);
  }
}
