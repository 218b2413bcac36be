/** Range and array helpers of the kernel core library (Core::Memory). */
module Memory {

  /** A range [start, end) is usable when it is non-empty. */
  function CheckRange(start: int, end: int): (ok: bool)
    ensures ok <==> start < end
  {
    if end <= start then false else true
  }

  /** Point x lies in the half-open range [start, end). */
  ghost predicate InRange(x: int, start: int, end: int)
  {
    start <= x < end
  }

  /** CheckRange accepts exactly the ranges that contain at least one point. */
  lemma CheckRangeHasPoint(start: int, end: int)
    ensures CheckRange(start, end) <==> exists x :: InRange(x, start, end)
  {
    if start < end {
      assert InRange(start, start, end);
    }
  }

  /** Do the half-open ranges [start1, end1) and [start2, end2) overlap?
      Checked in the source's order: both ranges valid, then the two separations. */
  function CheckIntersection(start1: int, end1: int, start2: int, end2: int): (ok: bool)
    ensures ok <==> start1 < end1 && start2 < end2 && start2 < end1 && start1 < end2
  {
    if !CheckRange(start1, end1) then false
    else if !CheckRange(start2, end2) then false
    else if start2 >= end1 then false
    else if end2 <= start1 then false
    else true
  }

  /** The reference meaning of an overlap: some point lies in both ranges. */
  ghost predicate SharePoint(start1: int, end1: int, start2: int, end2: int)
  {
    exists x :: InRange(x, start1, end1) && InRange(x, start2, end2)
  }

  lemma {:induction false} IntersectionIffSharedPoint(start1: int, end1: int, start2: int, end2: int)
    ensures CheckIntersection(start1, end1, start2, end2) <==> SharePoint(start1, end1, start2, end2)
  {
    if CheckIntersection(start1, end1, start2, end2) {
      var x := Max(start1, start2);
      assert InRange(x, start1, end1) && InRange(x, start2, end2);
    }
  }

  /** The overlap test does not depend on which range is given first,
      and an empty range overlaps nothing. */
  lemma IntersectionSymmetricAndEmpty(start1: int, end1: int, start2: int, end2: int)
    ensures CheckIntersection(start1, end1, start2, end2) == CheckIntersection(start2, end2, start1, end1)
    ensures end1 <= start1 || end2 <= start2 ==> !CheckIntersection(start1, end1, start2, end2)
  {
  }

  /** Min returns one of its arguments, no greater than either (b when they tie). */
  function Min(a: int, b: int): (m: int)
    ensures m == a || m == b
    ensures m <= a && m <= b
  {
    if a < b then a else b
  }

  /** Max returns one of its arguments, no smaller than either (b when they tie). */
  function Max(a: int, b: int): (m: int)
    ensures m == a || m == b
    ensures m >= a && m >= b
  {
    if a > b then a else b
  }

  /** Compare two arrays of the same static size element by element. */
  method ArrayEqual<T(==)>(s1: array<T>, s2: array<T>) returns (equal: bool)
    requires s1.Length == s2.Length
    ensures equal <==> forall i :: 0 <= i < s1.Length ==> s1[i] == s2[i]
  {
    var i := 0;
    while i < s1.Length
      invariant 0 <= i <= s1.Length
      invariant forall j :: 0 <= j < i ==> s1[j] == s2[j]
    {
      if s1[i] != s2[i] {
        return false;
      }
      i := i + 1;
    }
    return true;
  }

  /** Length of a zero-terminated string: the index of the first NUL. The string must
      contain a terminator; without one the source reads past the buffer. */
  method StrLen(s: array<char>) returns (len: nat)
    requires exists k :: 0 <= k < s.Length && s[k] == '\0'
    ensures len < s.Length && s[len] == '\0'
    ensures forall j :: 0 <= j < len ==> s[j] != '\0'
  {
    ghost var k :| 0 <= k < s.Length && s[k] == '\0';
    len := 0;
    while s[len] != '\0'
      invariant len <= k
      invariant forall j :: 0 <= j < len ==> s[j] != '\0'
      decreases k - len
    {
      len := len + 1;
    }
  }

  /** A mutable location, standing for a C++ reference `T&`. */
  class Cell<T> {
    var value: T

    constructor (v: T)
      ensures value == v
    {
      value := v;
    }
  }

  /** Exchange the values held by two locations. */
  method Swap<T>(a: Cell<T>, b: Cell<T>)
    modifies a, b
    ensures a.value == old(b.value) && b.value == old(a.value)
  {
    var c := a.value;
    a.value := b.value;
    b.value := c;
  }
}
