/** The free comparison operators over two vectors. The intended operators
    take the live elements (Elements()) of both; the as-written equality
    takes lhs's live elements and the slots of rhs's buffer from cbegin()
    on, because the three-iterator std::equal reads rhs without regard to
    its size. The ordering operators are generic in the element order `lt`,
    which plays the part of Type's operator<. */
module Comparisons {

  /** operator== as written: std::equal(lhs.cbegin(), lhs.cend(), rhs.cbegin())
      compares lhs with the first |lhs| slots of rhs's buffer, live or not.
      Sizes are not compared. */
  function EqualAsWritten<T(==)>(lhs: seq<T>, rhsSlots: seq<T>): (r: bool)
    requires |lhs| <= |rhsSlots|
    ensures r <==> lhs == rhsSlots[..|lhs|]
    decreases |lhs|
  {
    if |lhs| == 0 then true
    else
      assert rhsSlots[1..][..|lhs| - 1] == rhsSlots[1..|lhs|];
      lhs[0] == rhsSlots[0] && EqualAsWritten(lhs[1..], rhsSlots[1..])
  }

  /** operator!= as written: the negation of operator== as written. */
  function NotEqualAsWritten<T(==)>(lhs: seq<T>, rhsSlots: seq<T>): (r: bool)
    requires |lhs| <= |rhsSlots|
    ensures r <==> lhs != rhsSlots[..|lhs|]
  {
    !EqualAsWritten(lhs, rhsSlots)
  }

  /** A shorter lhs compares equal, as written, to itself with any element appended. */
  lemma EqualAsWrittenIgnoresTail<T>(lhs: seq<T>, extra: T)
    ensures EqualAsWritten(lhs, lhs + [extra])
    ensures !NotEqualAsWritten(lhs, lhs + [extra])
    ensures lhs != lhs + [extra]
  {
    assert (lhs + [extra])[..|lhs|] == lhs;
    assert |lhs + [extra]| != |lhs|;
  }

  /** A vector whose last element was popped still compares equal, as
      written, to a vector holding that element: the read of rhs runs into
      its dead slot, which holds the popped value. */
  lemma EqualAsWrittenReadsDeadSlots<T>(lhs: seq<T>)
    requires |lhs| > 0
    ensures EqualAsWritten(lhs, lhs)
    ensures lhs != lhs[..|lhs| - 1]
  {
    assert |lhs[..|lhs| - 1]| != |lhs|;
  }

  /** operator== as intended: equal sizes, then element-wise equality. */
  function Equal<T(==)>(lhs: seq<T>, rhs: seq<T>): (r: bool)
    ensures r <==> lhs == rhs
  {
    |lhs| == |rhs| && EqualAsWritten(lhs, rhs)
  }

  /** operator!= as intended: the negation of the intended operator==. */
  function NotEqual<T(==)>(lhs: seq<T>, rhs: seq<T>): (r: bool)
    ensures r <==> lhs != rhs
  {
    !Equal(lhs, rhs)
  }

  /** Neither element is below the other. */
  predicate Equivalent<T>(x: T, y: T, lt: (T, T) -> bool)
  {
    !lt(x, y) && !lt(y, x)
  }

  /** The first k positions of lhs and rhs hold equivalent elements. */
  ghost predicate EquivalentPrefix<T>(lhs: seq<T>, rhs: seq<T>, k: nat, lt: (T, T) -> bool)
    requires k <= |lhs| && k <= |rhs|
  {
    forall j :: 0 <= j < k ==> Equivalent(lhs[j], rhs[j], lt)
  }

  /** The textbook definition of lexicographic order: after a common
      (equivalent) prefix of length k, either lhs ends while rhs goes on, or
      lhs's next element is below rhs's. */
  ghost predicate LexicographicallyBefore<T>(lhs: seq<T>, rhs: seq<T>, lt: (T, T) -> bool)
  {
    exists k: nat :: k <= |lhs| && k < |rhs| && EquivalentPrefix(lhs, rhs, k, lt) &&
      (k == |lhs| || lt(lhs[k], rhs[k]))
  }

  /** How lexicographic order is decided by the first elements: an empty
      rhs is never after lhs, an empty lhs is before any other, the first
      elements decide when one is below the other, and otherwise the rests do. */
  lemma {:induction false} LexicographicallyBeforeCases<T>(lhs: seq<T>, rhs: seq<T>, lt: (T, T) -> bool)
    ensures |rhs| == 0 ==> !LexicographicallyBefore(lhs, rhs, lt)
    ensures |rhs| > 0 && |lhs| == 0 ==> LexicographicallyBefore(lhs, rhs, lt)
    ensures |rhs| > 0 && |lhs| > 0 && lt(lhs[0], rhs[0]) ==> LexicographicallyBefore(lhs, rhs, lt)
    ensures |rhs| > 0 && |lhs| > 0 && !lt(lhs[0], rhs[0]) && lt(rhs[0], lhs[0]) ==>
      !LexicographicallyBefore(lhs, rhs, lt)
    ensures |rhs| > 0 && |lhs| > 0 && Equivalent(lhs[0], rhs[0], lt) ==>
      (LexicographicallyBefore(lhs, rhs, lt) <==> LexicographicallyBefore(lhs[1..], rhs[1..], lt))
  {
    if |rhs| == 0 {
    } else if |lhs| == 0 || lt(lhs[0], rhs[0]) {
      assert EquivalentPrefix(lhs, rhs, 0, lt);
    } else if lt(rhs[0], lhs[0]) {
      // a common prefix of length > 0 would need lhs[0] and rhs[0] equivalent
    } else {
      var l, r := lhs[1..], rhs[1..];
      if LexicographicallyBefore(l, r, lt) {
        var k: nat :| k <= |l| && k < |r| && EquivalentPrefix(l, r, k, lt) &&
          (k == |l| || lt(l[k], r[k]));
        assert EquivalentPrefix(lhs, rhs, k + 1, lt) by {
          forall j | 0 <= j < k + 1 ensures Equivalent(lhs[j], rhs[j], lt) {
            if j > 0 { assert lhs[j] == l[j - 1] && rhs[j] == r[j - 1]; }
          }
        }
        assert k + 1 == |lhs| || lt(lhs[k + 1], rhs[k + 1]);
      }
      if LexicographicallyBefore(lhs, rhs, lt) {
        var k: nat :| k <= |lhs| && k < |rhs| && EquivalentPrefix(lhs, rhs, k, lt) &&
          (k == |lhs| || lt(lhs[k], rhs[k]));
        assert k != 0;
        assert EquivalentPrefix(l, r, k - 1, lt) by {
          forall j | 0 <= j < k - 1 ensures Equivalent(l[j], r[j], lt) {
            assert Equivalent(lhs[j + 1], rhs[j + 1], lt);
          }
        }
        assert k - 1 == |l| || lt(l[k - 1], r[k - 1]);
      }
    }
  }

  /** operator<: std::lexicographical_compare over the two ranges, which is
      exactly the lexicographic order. */
  function Less<T>(lhs: seq<T>, rhs: seq<T>, lt: (T, T) -> bool): (r: bool)
    ensures r <==> LexicographicallyBefore(lhs, rhs, lt)
    decreases |rhs|
  {
    LexicographicallyBeforeCases(lhs, rhs, lt);
    if |rhs| == 0 then false
    else if |lhs| == 0 then true
    else if lt(lhs[0], rhs[0]) then true
    else if lt(rhs[0], lhs[0]) then false
    else Less(lhs[1..], rhs[1..], lt)
  }

  /** lt is irreflexive, transitive and relates any two distinct elements. */
  ghost predicate StrictTotalOrder<T(!new)>(lt: (T, T) -> bool)
  {
    (forall x :: !lt(x, x)) &&
    (forall x, y, z :: lt(x, y) && lt(y, z) ==> lt(x, z)) &&
    (forall x, y :: x != y ==> lt(x, y) || lt(y, x))
  }

  /** Over a strict total element order, exactly one of lhs < rhs,
      lhs == rhs and rhs < lhs holds. */
  lemma {:induction false} LessTrichotomy<T(!new)>(lhs: seq<T>, rhs: seq<T>, lt: (T, T) -> bool)
    ensures StrictTotalOrder(lt) ==>
      (Less(lhs, rhs, lt) || lhs == rhs || Less(rhs, lhs, lt)) &&
      !(Less(lhs, rhs, lt) && Less(rhs, lhs, lt)) &&
      (lhs == rhs ==> !Less(lhs, rhs, lt))
    decreases |lhs|
  {
    if StrictTotalOrder(lt) && |lhs| > 0 && |rhs| > 0 && !lt(lhs[0], rhs[0]) && !lt(rhs[0], lhs[0]) {
      LessTrichotomy(lhs[1..], rhs[1..], lt);
      assert lhs[0] == rhs[0];
      if lhs[1..] == rhs[1..] {
        assert lhs == [lhs[0]] + lhs[1..] && rhs == [rhs[0]] + rhs[1..];
      }
    }
  }

  /** Over a strict total element order, operator< is transitive. */
  lemma {:induction false} LessTransitive<T(!new)>(a: seq<T>, b: seq<T>, c: seq<T>, lt: (T, T) -> bool)
    requires StrictTotalOrder(lt)
    requires Less(a, b, lt) && Less(b, c, lt)
    ensures Less(a, c, lt)
    decreases |a|
  {
    if |a| > 0 {
      assert |b| > 0 && |c| > 0;
      if !lt(a[0], b[0]) && !lt(b[0], c[0]) {
        assert a[0] == b[0] && b[0] == c[0];
        LessTransitive(a[1..], b[1..], c[1..], lt);
      }
    }
  }

  /** operator<=: rhs is not below lhs; over a strict total element order,
      lhs < rhs or lhs == rhs. */
  function LessEq<T(!new)>(lhs: seq<T>, rhs: seq<T>, lt: (T, T) -> bool): (r: bool)
    ensures StrictTotalOrder(lt) ==> (r <==> Less(lhs, rhs, lt) || lhs == rhs)
  {
    LessTrichotomy(lhs, rhs, lt);
    !Less(rhs, lhs, lt)
  }

  /** operator>: rhs is below lhs; over a strict total element order, lhs is
      neither below nor equal to rhs. */
  function Greater<T(!new)>(lhs: seq<T>, rhs: seq<T>, lt: (T, T) -> bool): (r: bool)
    ensures StrictTotalOrder(lt) ==> (r <==> !Less(lhs, rhs, lt) && lhs != rhs)
  {
    LessTrichotomy(lhs, rhs, lt);
    Less(rhs, lhs, lt)
  }

  /** operator>=: lhs is not below rhs; over a strict total element order,
      rhs < lhs or lhs == rhs. */
  function GreaterEq<T(!new)>(lhs: seq<T>, rhs: seq<T>, lt: (T, T) -> bool): (r: bool)
    ensures StrictTotalOrder(lt) ==> (r <==> Less(rhs, lhs, lt) || lhs == rhs)
  {
    LessTrichotomy(lhs, rhs, lt);
    !Less(lhs, rhs, lt)
  }
}
