/** Numeric helpers of the fuzzy-inference engine (fuzzy/util.py): the search
    for the greatest grid value at or below a target, the clamp into a range,
    and the list maximum / minimum with their first-arg variants. */
module Util {

  /** The values a running maximum or minimum can hold: Python's -inf and
      +inf starting values, or an ordinary number. */
  datatype ExtReal = NegInf | Finite(r: real) | PosInf

  /** `n > e` over the extended reals. */
  predicate Exceeds(n: real, e: ExtReal) {
    match e
    case NegInf => true
    case Finite(r) => n > r
    case PosInf => false
  }

  /** `n < e` over the extended reals. */
  predicate Undercuts(n: real, e: ExtReal) {
    match e
    case NegInf => false
    case Finite(r) => n < r
    case PosInf => true
  }

  predicate StrictlyIncreasing(s: seq<real>) {
    forall i, j :: 0 <= i < j < |s| ==> s[i] < s[j]
  }

  // ---------------------------------------------------------------------------
  // Search for the greatest grid value at or below a target
  // ---------------------------------------------------------------------------

  /** The index of the last element of `arr` that is at most `t`, or 0 when
      every element exceeds `t`. On a strictly increasing grid this is the
      greatest grid point at or below `t`. */
  function FloorIndex(arr: seq<real>, t: real): (k: nat)
    requires |arr| > 0
    ensures k < |arr|
    ensures forall j :: k < j < |arr| ==> t < arr[j]
    ensures arr[k] <= t || k == 0
  {
    if |arr| == 1 || arr[|arr| - 1] <= t then |arr| - 1
    else FloorIndex(arr[..|arr| - 1], t)
  }

  /** On a strictly increasing sequence the floor index is the unique `k`
      with `arr[k] <= t` and `t` below the next element. */
  lemma {:induction false} FloorIndexUnique(arr: seq<real>, t: real, k: nat)
    requires StrictlyIncreasing(arr)
    requires k < |arr| && arr[k] <= t
    requires k + 1 == |arr| || t < arr[k + 1]
    ensures FloorIndex(arr, t) == k
  {
  }

  /** A grid point is its own floor. */
  lemma {:induction false} FloorIndexOfElement(arr: seq<real>, k: nat)
    requires StrictlyIncreasing(arr)
    requires k < |arr|
    ensures FloorIndex(arr, arr[k]) == k
  {
    FloorIndexUnique(arr, arr[k], k);
  }

  /** get_closest_value: binary search for the greatest element at or below
      `target`. Besides the value it returns the index it was read from, which
      is what callers recover with an exact-equality lookup. */
  method GetClosestValue(arr: seq<real>, target: real) returns (r: real, k: nat)
    requires |arr| > 0
    ensures k < |arr| && r == arr[k]
    ensures arr[|arr| - 1] <= target ==> k == |arr| - 1
    ensures target < arr[|arr| - 1] && target <= arr[0] ==> k == 0
    ensures StrictlyIncreasing(arr) ==> k == FloorIndex(arr, target)
  {
    var n := |arr|;
    var left, right, mid := 0, n - 1, 0;
    if target >= arr[n - 1] {
      if StrictlyIncreasing(arr) { FloorIndexUnique(arr, target, n - 1); }
      return arr[n - 1], n - 1;
    }
    if target <= arr[0] {
      if StrictlyIncreasing(arr) && target == arr[0] { FloorIndexUnique(arr, target, 0); }
      return arr[0], 0;
    }
    while left < right
      invariant 0 <= left <= right <= n - 1
      invariant 0 <= mid < n
      invariant mid == right || mid + 1 == left || (left == 0 && right == n - 1)
      invariant StrictlyIncreasing(arr) ==> forall j :: 0 <= j < left ==> arr[j] < target
      invariant StrictlyIncreasing(arr) ==> forall j :: right <= j < n ==> target < arr[j]
      decreases right - left
    {
      mid := (left + right) / 2;
      if target < arr[mid] {
        right := mid;
      } else if target > arr[mid] {
        left := mid + 1;
      } else {
        if StrictlyIncreasing(arr) { FloorIndexOfElement(arr, mid); }
        return arr[mid], mid;
      }
    }
    if target < arr[mid] {
      if StrictlyIncreasing(arr) { FloorIndexUnique(arr, target, mid - 1); }
      r, k := arr[mid - 1], mid - 1;
    } else {
      if StrictlyIncreasing(arr) { FloorIndexUnique(arr, target, mid); }
      r, k := arr[mid], mid;
    }
  }

  // ---------------------------------------------------------------------------
  // Clamp
  // ---------------------------------------------------------------------------

  /** into_range: `x` itself when strictly inside `(lo, hi)`, `hi` when
      `x >= hi`, otherwise `lo`. */
  function IntoRange(lo: real, hi: real, x: real): (r: real)
    ensures lo <= hi ==> lo <= r <= hi
    ensures lo <= hi ==> (r == x <==> lo <= x <= hi)
    ensures hi <= x ==> r == hi
  {
    if x < hi && x > lo then x else if x >= hi then hi else lo
  }

  /** Clamping twice is clamping once. */
  lemma {:induction false} IntoRangeIdempotent(lo: real, hi: real, x: real)
    requires lo <= hi
    ensures IntoRange(lo, hi, IntoRange(lo, hi, x)) == IntoRange(lo, hi, x)
  {
  }

  // ---------------------------------------------------------------------------
  // List maximum and minimum
  // ---------------------------------------------------------------------------

  /** The maximum of a non-empty list, folded left to right as the source's
      loop does (a later element replaces the running value only when it is
      strictly greater). */
  function SeqMax(s: seq<real>): (m: real)
    requires |s| > 0
    ensures m in s
    ensures forall i :: 0 <= i < |s| ==> s[i] <= m
  {
    if |s| == 1 then s[0]
    else
      var m := SeqMax(s[..|s| - 1]);
      assert m in s[..|s| - 1];
      if s[|s| - 1] > m then s[|s| - 1] else m
  }

  /** The minimum of a non-empty list, folded like SeqMax. */
  function SeqMin(s: seq<real>): (m: real)
    requires |s| > 0
    ensures m in s
    ensures forall i :: 0 <= i < |s| ==> m <= s[i]
  {
    if |s| == 1 then s[0]
    else
      var m := SeqMin(s[..|s| - 1]);
      assert m in s[..|s| - 1];
      if s[|s| - 1] < m then s[|s| - 1] else m
  }

  /** max over a list: -inf for the empty list, otherwise its greatest element. */
  method ListMax(x: seq<real>) returns (m: ExtReal)
    ensures x == [] <==> m == NegInf
    ensures x != [] ==> m == Finite(SeqMax(x))
  {
    m := NegInf;
    for i := 0 to |x|
      invariant m == if i == 0 then NegInf else Finite(SeqMax(x[..i]))
    {
      assert x[..i + 1][..i] == x[..i];
      if Exceeds(x[i], m) {
        m := Finite(x[i]);
      }
    }
    assert x[..|x|] == x;
  }

  /** min over a list: +inf for the empty list, otherwise its least element. */
  method ListMin(x: seq<real>) returns (m: ExtReal)
    ensures x == [] <==> m == PosInf
    ensures x != [] ==> m == Finite(SeqMin(x))
  {
    m := PosInf;
    for i := 0 to |x|
      invariant m == if i == 0 then PosInf else Finite(SeqMin(x[..i]))
    {
      assert x[..i + 1][..i] == x[..i];
      if Undercuts(x[i], m) {
        m := Finite(x[i]);
      }
    }
    assert x[..|x|] == x;
  }

  /** The lowest index holding the maximum (0 for an empty list). */
  function FirstArgMax(s: seq<real>): (k: nat)
    ensures |s| > 0 ==> k < |s|
    ensures |s| > 0 ==> forall j :: 0 <= j < |s| ==> s[j] <= s[k]
    ensures |s| > 0 ==> forall j :: 0 <= j < k ==> s[j] < s[k]
    ensures |s| == 0 ==> k == 0
  {
    if |s| <= 1 then 0
    else
      var k := FirstArgMax(s[..|s| - 1]);
      if s[|s| - 1] > s[k] then |s| - 1 else k
  }

  /** The lowest index holding the minimum (0 for an empty list). */
  function FirstArgMin(s: seq<real>): (k: nat)
    ensures |s| > 0 ==> k < |s|
    ensures |s| > 0 ==> forall j :: 0 <= j < |s| ==> s[k] <= s[j]
    ensures |s| > 0 ==> forall j :: 0 <= j < k ==> s[k] < s[j]
    ensures |s| == 0 ==> k == 0
  {
    if |s| <= 1 then 0
    else
      var k := FirstArgMin(s[..|s| - 1]);
      if s[|s| - 1] < s[k] then |s| - 1 else k
  }

  /** max_array_idx: a strict `>` comparison against a running maximum that
      starts at -inf, so ties keep the earliest index. */
  method MaxArrayIdx(x: seq<real>) returns (idx: nat)
    ensures idx == FirstArgMax(x)
    ensures x != [] ==> idx < |x| && SeqMax(x) == x[idx]
  {
    idx := 0;
    var best := NegInf;
    for i := 0 to |x|
      invariant i == 0 ==> idx == 0 && best == NegInf
      invariant i > 0 ==> idx < i && idx == FirstArgMax(x[..i]) && best == Finite(x[idx])
    {
      assert x[..i + 1][..i] == x[..i];
      if Exceeds(x[i], best) {
        best := Finite(x[i]);
        idx := i;
      }
    }
    assert x[..|x|] == x;
  }

  /** min_array_idx: the mirror image of MaxArrayIdx. */
  method MinArrayIdx(x: seq<real>) returns (idx: nat)
    ensures idx == FirstArgMin(x)
    ensures x != [] ==> idx < |x| && SeqMin(x) == x[idx]
  {
    idx := 0;
    var best := PosInf;
    for i := 0 to |x|
      invariant i == 0 ==> idx == 0 && best == PosInf
      invariant i > 0 ==> idx < i && idx == FirstArgMin(x[..i]) && best == Finite(x[idx])
    {
      assert x[..i + 1][..i] == x[..i];
      if Undercuts(x[i], best) {
        best := Finite(x[i]);
        idx := i;
      }
    }
    assert x[..|x|] == x;
  }

  /** The maximum of two values as the source computes it, `max([a, b])`. */
  lemma {:induction false} SeqMaxPair(a: real, b: real)
    ensures SeqMax([a, b]) == (if b > a then b else a)
  {
    assert [a, b][..1] == [a];
  }

  /** The minimum of two values as the source computes it, `min([a, b])`. */
  lemma {:induction false} SeqMinPair(a: real, b: real)
    ensures SeqMin([a, b]) == (if b < a then b else a)
  {
    assert [a, b][..1] == [a];
  }
}
