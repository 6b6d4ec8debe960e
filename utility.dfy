/**
 * The generic algorithms of libMesh::Utility (include/utils/utility.h):
 * checked lookups, iota, is_sorted, binary_find, integer powers,
 * factorial, binomial coefficients and byte reversal.
 */
module Utility {
  import opened Errors

  // ------------------------------------------------------------------
  // Checked lookups
  // ------------------------------------------------------------------

  /** map_find: the mapped value when the key is present, an error otherwise. */
  function MapFind<K, V>(m: map<K, V>, key: K): (r: Result<V>)
    ensures r.Ok? <==> key in m
    ensures r.Ok? ==> r.value == m[key]
    ensures r.Err? ==> r.error == KeyNotFound
  {
    if key in m then Ok(m[key]) else Err(KeyNotFound)
  }

  /** A key written into a map is found again, and no other key's lookup changes. */
  lemma MapFindAfterInsert<K, V>(m: map<K, V>, k: K, v: V, other: K)
    ensures MapFind(m[k := v], k) == Ok(v)
    ensures other != k ==> MapFind(m[k := v], other) == MapFind(m, other)
  {
  }

  /** vector_at: vec[i] when i < size, an error naming the index otherwise. */
  function VectorAt<T>(vec: seq<T>, i: nat): (r: Result<T>)
    ensures r.Err? <==> i >= |vec|
    ensures r.Ok? ==> r.value == vec[i]
    ensures r.Err? ==> r.error == IndexPastEnd(i, |vec|)
  {
    if i >= |vec| then Err(IndexPastEnd(i, |vec|)) else Ok(vec[i])
  }

  // ------------------------------------------------------------------
  // iota
  // ------------------------------------------------------------------

  /** iota over the range [first, last) of a: position k receives value + (k - first). */
  method Iota(a: array<int>, first: nat, last: nat, value: int)
    requires first <= last <= a.Length
    modifies a
    ensures forall k :: first <= k < last ==> a[k] == value + (k - first)
    ensures forall k :: 0 <= k < a.Length && !(first <= k < last) ==> a[k] == old(a[k])
  {
    var it := first;
    var v := value;
    while it != last
      invariant first <= it <= last
      invariant v == value + (it - first)
      invariant forall k :: first <= k < it ==> a[k] == value + (k - first)
      invariant forall k :: 0 <= k < a.Length && !(first <= k < it) ==> a[k] == old(a[k])
      decreases last - it
    {
      a[it] := v;
      v := v + 1;
      it := it + 1;
    }
  }

  // ------------------------------------------------------------------
  // Orderings: is_sorted and binary_find
  // ------------------------------------------------------------------

  /** No adjacent pair is out of order: !(a[k] < a[k-1]) for every k. */
  ghost predicate AdjacentInOrder<T>(a: seq<T>, less: (T, T) -> bool) {
    forall k :: 0 < k < |a| ==> !less(a[k], a[k - 1])
  }

  /** No pair, adjacent or not, is out of order. */
  ghost predicate SortedBy<T>(a: seq<T>, less: (T, T) -> bool) {
    forall i, j :: 0 <= i < j < |a| ==> !less(a[j], a[i])
  }

  /**
   * The part of a strict weak ordering the algorithms rely on: if x < z then
   * every y lies above x or below z.
   */
  ghost predicate NegativelyTransitive<T(!new)>(less: (T, T) -> bool) {
    forall x, y, z :: less(x, z) ==> less(x, y) || less(y, z)
  }

  /** x and y are equivalent: neither is less than the other. */
  predicate Equivalent<T>(x: T, y: T, less: (T, T) -> bool) {
    !less(x, y) && !less(y, x)
  }

  /** is_sorted: walks the range with a pair of iterators and stops at the first pair out of order. */
  method IsSorted<T>(a: seq<T>, less: (T, T) -> bool) returns (sorted: bool)
    ensures sorted <==> AdjacentInOrder(a, less)
  {
    if |a| == 0 {
      return true;
    }
    var prev, first := 0, 1;
    while first != |a|
      invariant 1 <= first <= |a| && prev == first - 1
      invariant forall k :: 0 < k < first ==> !less(a[k], a[k - 1])
      decreases |a| - first
    {
      if less(a[first], a[prev]) {
        return false;
      }
      prev, first := prev + 1, first + 1;
    }
    return true;
  }

  /** Under a negatively transitive order, checking adjacent pairs suffices. */
  lemma {:induction false} AdjacentInOrderAt<T(!new)>(a: seq<T>, less: (T, T) -> bool, i: nat, j: nat)
    requires NegativelyTransitive(less) && AdjacentInOrder(a, less)
    requires i < j < |a|
    ensures !less(a[j], a[i])
    decreases j - i
  {
    if i + 1 < j {
      AdjacentInOrderAt(a, less, i, j - 1);
      var x, y, z := a[j], a[j - 1], a[i];
      assert !less(x, y);
      assert !less(y, z);
    }
  }

  /** is_sorted's adjacent-pair test decides full sortedness, for every negatively transitive order. */
  lemma AdjacentInOrderIffSorted<T(!new)>(a: seq<T>, less: (T, T) -> bool)
    requires NegativelyTransitive(less)
    ensures AdjacentInOrder(a, less) <==> SortedBy(a, less)
  {
    if AdjacentInOrder(a, less) {
      forall i, j | 0 <= i < j < |a| ensures !less(a[j], a[i]) {
        AdjacentInOrderAt(a, less, i, j);
      }
    }
  }

  /** For integers under <, is_sorted returns true exactly on non-decreasing sequences. */
  lemma IsSortedInts(a: seq<int>)
    ensures AdjacentInOrder(a, (x: int, y: int) => x < y) <==> forall i, j :: 0 <= i < j < |a| ==> a[i] <= a[j]
  {
    AdjacentInOrderIffSorted(a, (x: int, y: int) => x < y);
  }

  /** The precondition of std::lower_bound: the elements below value come first. */
  ghost predicate Partitioned<T>(a: seq<T>, value: T, comp: (T, T) -> bool) {
    forall i, j :: 0 <= i < j < |a| && comp(a[j], value) ==> comp(a[i], value)
  }

  /**
   * std::lower_bound on a[lo..hi]: the first position whose element is not below value,
   * found by bisection.
   */
  function LowerBoundIn<T>(a: seq<T>, value: T, comp: (T, T) -> bool, lo: nat, hi: nat): (r: nat)
    requires lo <= hi <= |a|
    requires Partitioned(a, value, comp)
    ensures lo <= r <= hi
    ensures forall i :: lo <= i < r ==> comp(a[i], value)
    ensures forall i :: r <= i < hi ==> !comp(a[i], value)
    decreases hi - lo
  {
    if lo == hi then lo
    else
      var mid := lo + (hi - lo) / 2;
      if comp(a[mid], value) then LowerBoundIn(a, value, comp, mid + 1, hi)
      else LowerBoundIn(a, value, comp, lo, mid)
  }

  /** std::lower_bound(first, last, value, comp) over the whole range. */
  function LowerBound<T>(a: seq<T>, value: T, comp: (T, T) -> bool): (r: nat)
    requires Partitioned(a, value, comp)
    ensures r <= |a|
    ensures forall i :: 0 <= i < r ==> comp(a[i], value)
    ensures forall i :: r <= i < |a| ==> !comp(a[i], value)
  {
    LowerBoundIn(a, value, comp, 0, |a|)
  }

  /**
   * binary_find with a comparison object: the lower-bound position when the element
   * there is equivalent to value, |a| (the iterator last) otherwise.
   */
  function BinaryFindBy<T>(a: seq<T>, value: T, comp: (T, T) -> bool): (r: nat)
    requires Partitioned(a, value, comp)
    ensures r <= |a|
    ensures r < |a| ==> Equivalent(a[r], value, comp)
    ensures r < |a| ==> forall i :: 0 <= i < r ==> comp(a[i], value)
  {
    var it := LowerBound(a, value, comp);
    if it == |a| || comp(value, a[it]) then |a| else it
  }

  /** A sorted range is partitioned with respect to every value. */
  lemma SortedIsPartitioned<T(!new)>(a: seq<T>, value: T, comp: (T, T) -> bool)
    requires NegativelyTransitive(comp) && SortedBy(a, comp)
    ensures Partitioned(a, value, comp)
  {
    forall i, j | 0 <= i < j < |a| && comp(a[j], value) ensures comp(a[i], value) {
      assert comp(a[j], a[i]) || comp(a[i], value);
    }
  }

  /** On a sorted range, binary_find returns last exactly when no element is equivalent to value. */
  lemma BinaryFindByAbsent<T(!new)>(a: seq<T>, value: T, comp: (T, T) -> bool)
    requires NegativelyTransitive(comp) && SortedBy(a, comp)
    ensures Partitioned(a, value, comp)
    ensures BinaryFindBy(a, value, comp) == |a| <==> forall i :: 0 <= i < |a| ==> !Equivalent(a[i], value, comp)
  {
    SortedIsPartitioned(a, value, comp);
    var lb := LowerBound(a, value, comp);
    if BinaryFindBy(a, value, comp) == |a| && lb < |a| {
      assert comp(value, a[lb]);
      forall i | lb <= i < |a| ensures comp(value, a[i]) {
        if i > lb {
          var y, z := a[i], a[lb];
          assert !comp(y, z);
        }
      }
    }
  }

  /**
   * binary_find on a non-decreasing sequence of integers (operator<): the position of the
   * first occurrence of value, or |a| exactly when value does not occur.
   */
  function BinaryFind(a: seq<int>, value: int): (r: nat)
    requires forall i, j :: 0 <= i < j < |a| ==> a[i] <= a[j]
    ensures r <= |a|
    ensures r == |a| <==> value !in a
    ensures r < |a| ==> a[r] == value && forall i :: 0 <= i < r ==> a[i] < value
  {
    var less := (x: int, y: int) => x < y;
    assert SortedBy(a, less);
    BinaryFindByAbsent(a, value, less);
    BinaryFindBy(a, value, less)
  }

  // ------------------------------------------------------------------
  // Integer powers
  // ------------------------------------------------------------------

  /** x^n by its definition, the reference for do_pow. */
  function Power(x: real, n: nat): real {
    if n == 0 then 1.0 else x * Power(x, n - 1)
  }

  lemma {:induction false} PowerAdd(x: real, a: nat, b: nat)
    ensures Power(x, a + b) == Power(x, a) * Power(x, b)
    decreases a
  {
    if a > 0 {
      PowerAdd(x, a - 1, b);
      calc {
        Power(x, a + b);
        x * Power(x, a - 1 + b);
        x * (Power(x, a - 1) * Power(x, b));
        (x * Power(x, a - 1)) * Power(x, b);
      }
    }
  }

  /**
   * do_pow<N,T>::apply: squaring for even N, one extra factor for odd N, and the
   * specialisations N = 0 (1), N = 1 (x) and N = 6 (three multiplications).
   */
  function DoPow(n: nat, x: real): (r: real)
    ensures r == Power(x, n)
  {
    if n == 0 then 1.0
    else if n == 1 then x
    else if n == 6 then
      var x2 := x * x;
      var x4 := x2 * x2;
      PowerAdd(x, 1, 1); PowerAdd(x, 2, 2); PowerAdd(x, 4, 2);
      x4 * x2
    else if n % 2 == 1 then x * DoPow(n - 1, x)
    else
      var half := DoPow(n / 2, x);
      PowerAdd(x, n / 2, n / 2);
      half * half
  }

  /** pow<N>(x) == x^N. */
  function Pow(n: nat, x: real): (r: real)
    ensures r == Power(x, n)
  {
    DoPow(n, x)
  }

  // ------------------------------------------------------------------
  // factorial and binomial
  // ------------------------------------------------------------------

  /** n! by its recurrence. */
  function Fact(n: nat): nat {
    if n == 0 then 1 else n * Fact(n - 1)
  }

  /** 2^32: unsigned int arithmetic is modulo this. */
  const UintModulus: nat := 0x1_0000_0000

  /** (m * k + y) % m == y % m for m > 0. */
  lemma ModShift(k: int, y: int, m: int)
    requires m > 0
    ensures (m * k + y) % m == y % m
  {
    var z := m * k + y;
    var t, s := z / m, z % m;
    var u, v := y / m, y % m;
    assert z == m * t + s && y == m * u + v;
    assert m * (k + u - t) == s - v;
    assert k + u - t >= 1 ==> m * (k + u - t) >= m * 1;
    assert k + u - t <= -1 ==> m * (k + u - t) <= m * -1;
  }

  /** Reducing a factor before multiplying does not change the product modulo m. */
  lemma ModMul(a: nat, b: nat, m: nat)
    requires m > 0
    ensures ((a % m) * b) % m == (a * b) % m
  {
    var q, r := a / m, a % m;
    assert a == m * q + r;
    assert a * b == m * (q * b) + r * b by {
      assert a * b == (m * q + r) * b;
    }
    ModShift(q * b, r * b, m);
  }

  /**
   * factorial: an unsigned int accumulator, so each product wraps modulo 2^32; the
   * accumulator holds i! mod 2^32 after the iteration that multiplies in i.
   */
  method Factorial(n: nat) returns (r: nat)
    ensures r == Fact(n) % UintModulus
  {
    var factorialN := 1;
    if n == 0 {
      return factorialN;
    }
    var i := 1;
    while i < n
      invariant 1 <= i <= n
      invariant factorialN == Fact(i) % UintModulus
    {
      ModMul(Fact(i), i + 1, UintModulus);
      assert Fact(i + 1) == Fact(i) * (i + 1);
      factorialN := (factorialN * (i + 1)) % UintModulus;
      i := i + 1;
    }
    return factorialN;
  }

  lemma {:induction false} FactMonotone(a: nat, b: nat)
    requires a <= b
    ensures Fact(a) <= Fact(b)
    decreases b - a
  {
    if a < b {
      FactMonotone(a, b - 1);
      var f, c := Fact(b - 1), b - 1;
      assert Fact(b) == (1 + c) * f;
      MulAddRight(1, c, f);
      assert c * f >= 0;
    }
  }

  /** factorial is exact up to 12!; 13! is the first value the unsigned accumulator wraps. */
  lemma FactorialExactRange(n: nat)
    ensures n <= 12 ==> Fact(n) % UintModulus == Fact(n)
    ensures Fact(13) % UintModulus != Fact(13)
  {
    assert Fact(12) == 479001600 by {
      assert Fact(1) == 1; assert Fact(2) == 2; assert Fact(3) == 6; assert Fact(4) == 24;
      assert Fact(5) == 120; assert Fact(6) == 720; assert Fact(7) == 5040; assert Fact(8) == 40320;
      assert Fact(9) == 362880; assert Fact(10) == 3628800; assert Fact(11) == 39916800;
    }
    assert Fact(13) == 6227020800;
    if n <= 12 {
      FactMonotone(n, 12);
    }
  }

  /** C(n, k) by Pascal's rule: the number of k-element subsets of an n-element set. */
  function Choose(n: nat, k: nat): nat {
    if k == 0 then 1
    else if n == 0 then 0
    else Choose(n - 1, k - 1) + Choose(n - 1, k)
  }

  lemma {:induction false} ChooseAbove(n: nat, k: nat)
    requires k > n
    ensures Choose(n, k) == 0
  {
    if n > 0 {
      ChooseAbove(n - 1, k - 1);
      ChooseAbove(n - 1, k);
    }
  }

  lemma {:induction false} ChooseAll(n: nat)
    ensures Choose(n, n) == 1
  {
    if n > 0 {
      ChooseAll(n - 1);
      ChooseAbove(n - 1, n);
    }
  }

  /** C(n, k) == C(n, n - k): the symmetry binomial uses to shorten its loop. */
  lemma {:induction false} ChooseSymmetric(n: nat, k: nat)
    requires k <= n
    ensures Choose(n, k) == Choose(n, n - k)
  {
    if k == 0 {
      ChooseAll(n);
    } else if k == n {
      ChooseAll(n);
    } else {
      ChooseSymmetric(n - 1, k - 1);
      ChooseSymmetric(n - 1, k);
      assert n - 1 - (k - 1) == n - k;
      assert Choose(n, n - k) == Choose(n - 1, n - k - 1) + Choose(n - 1, n - k);
    }
  }

  lemma MulAddLeft(a: int, b: int, c: int)
    ensures a * (b + c) == a * b + a * c
  {
  }

  lemma MulAddRight(a: int, b: int, c: int)
    ensures (a + b) * c == a * c + b * c
  {
  }

  /** (i + 1) * C(n, i + 1) == (n - i) * C(n, i), which makes every division in binomial exact. */
  lemma {:induction false} ChooseStep(n: nat, i: nat)
    ensures (i + 1) * Choose(n, i + 1) == (n - i) * Choose(n, i)
  {
    if n == 0 {
      if i > 0 {
        ChooseAbove(0, i);
      }
    } else {
      ChooseStep(n - 1, i);
      var c, c1 := Choose(n - 1, i), Choose(n - 1, i + 1);
      assert Choose(n, i + 1) == c + c1;
      MulAddLeft(i + 1, c, c1);
      MulAddRight(i + 1, n - 1 - i, c);
      assert (i + 1) * Choose(n, i + 1) == n * c;
      if i > 0 {
        ChooseStep(n - 1, i - 1);
        var cm := Choose(n - 1, i - 1);
        assert Choose(n, i) == cm + c;
        MulAddLeft(n - i, cm, c);
        MulAddRight(i, n - i, c);
      }
    }
  }

  /** (q * d) / d == q for d > 0. */
  lemma DivExact(q: int, d: int)
    requires d > 0
    ensures (q * d) / d == q && (q * d) % d == 0
  {
    var x := q * d;
    var t, s := x / d, x % d;
    assert x == d * t + s && 0 <= s < d;
    assert d * (q - t) == s;
    assert q - t >= 1 ==> d * (q - t) >= d * 1;
    assert q - t <= -1 ==> d * (q - t) <= d * -1;
  }

  /**
   * binomial(n, k) for an unsigned T: after replacing k by n - k when that is smaller,
   * the accumulator equals C(n, i) before iteration i, so it ends at C(n, k).
   */
  method Binomial(n: nat, k: nat) returns (r: nat)
    ensures r == Choose(n, k)
  {
    var ret: int := 1;
    var kk := k;
    // For k > n the unsigned difference n - k wraps. Either it stays above k and no swap
    // happens, or (k near the type's maximum) the swap yields a k that is still above n.
    // In both cases the loop multiplies by n - n = 0 and returns 0, which is C(n, k), so
    // the swap is taken here only for k <= n.
    if kk <= n && kk > n - kk {
      ChooseSymmetric(n, kk);
      kk := n - kk;
    }
    var i := 0;
    while i < kk
      invariant 0 <= i <= kk
      invariant ret == Choose(n, i)
    {
      ChooseStep(n, i);
      var next := Choose(n, i + 1);
      ret := ret * (n - i);
      assert ret == next * (i + 1);
      DivExact(next, i + 1);
      ret := ret / (i + 1);
      i := i + 1;
    }
    return ret;
  }

  lemma Regroup(x: int, k: int, f: int, g: int, m: int, c: int)
    requires k * x == m * c
    ensures x * (k * f) * g == c * f * (m * g)
  {
    calc {
      x * (k * f) * g;
      (k * x) * f * g;
      (m * c) * f * g;
      c * f * (m * g);
    }
  }

  /** C(n, k) * k! * (n - k)! == n!: binomial and factorial agree. */
  lemma {:induction false} ChooseFactorials(n: nat, k: nat)
    requires k <= n
    ensures Choose(n, k) * Fact(k) * Fact(n - k) == Fact(n)
    decreases k
  {
    if k > 0 {
      ChooseFactorials(n, k - 1);
      ChooseStep(n, k - 1);
      var x, c, f, g := Choose(n, k), Choose(n, k - 1), Fact(k - 1), Fact(n - k);
      assert Fact(k) == k * f;
      assert Fact(n - (k - 1)) == (n - k + 1) * g;
      Regroup(x, k, f, g, n - k + 1, c);
    }
  }

  // ------------------------------------------------------------------
  // ReverseBytes
  // ------------------------------------------------------------------

  /** The sequence read back to front. */
  function Reversed<T>(s: seq<T>): (r: seq<T>)
    ensures |r| == |s|
    ensures forall k :: 0 <= k < |s| ==> r[k] == s[|s| - 1 - k]
  {
    if s == [] then [] else [s[|s| - 1]] + Reversed(s[..|s| - 1])
  }

  /** Reversing twice gives back the original. */
  lemma ReversedTwice<T>(s: seq<T>)
    ensures Reversed(Reversed(s)) == s
  {
  }

  /** The functor ReverseBytes: reverses the byte representation of a value when its flag is set. */
  class ReverseBytes {
    const doReverse: bool

    constructor (dr: bool)
      ensures doReverse == dr
    {
      doReverse := dr;
    }

    /**
     * operator(): swaps b[i] and b[j] while i < j, moving the two indices towards each
     * other; returns the (possibly reversed) data.
     */
    method Apply(data: array<bv8>) returns (r: seq<bv8>)
      modifies data
      ensures data[..] == if doReverse then Reversed(old(data[..])) else old(data[..])
      ensures r == data[..]
    {
      if doReverse {
        var i: int := 0;
        var j: int := data.Length - 1;
        while i < j
          invariant 0 <= i && i + j == data.Length - 1
          invariant i <= j + 1
          invariant forall k :: 0 <= k < i ==> data[k] == old(data[data.Length - 1 - k])
          invariant forall k :: j < k < data.Length ==> data[k] == old(data[data.Length - 1 - k])
          invariant forall k :: i <= k <= j ==> data[k] == old(data[k])
        {
          data[i], data[j] := data[j], data[i];
          i := i + 1;
          j := j - 1;
        }
      }
      r := data[..];
    }
  }

  /** Applying the same ReverseBytes functor twice leaves the bytes as they were. */
  method ApplyTwice(rb: ReverseBytes, data: array<bv8>)
    modifies data
    ensures data[..] == old(data[..])
  {
    var once := rb.Apply(data);
    var twice := rb.Apply(data);
    ReversedTwice(old(data[..]));
  }
}
