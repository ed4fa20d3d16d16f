/** Facts about finite sums, decimal lengths and sorting that the spool arithmetic relies on. */
module Finite {

  datatype Option<+T> = None | Some(value: T)

  const U64_MAX: nat := 0xFFFF_FFFF_FFFF_FFFF
  const I64_MAX: int := 0x7FFF_FFFF_FFFF_FFFF
  const I64_MIN: int := -0x8000_0000_0000_0000

  predicate InI64(i: int) { I64_MIN <= i <= I64_MAX }

  /** `i64::saturating_add`. */
  function SaturatingAddI64(a: int, b: int): (r: int)
    requires InI64(a) && InI64(b)
    ensures InI64(r)
    ensures 0 <= b ==> a <= r <= a + b
  {
    if a + b > I64_MAX then I64_MAX else if a + b < I64_MIN then I64_MIN else a + b
  }

  /** `u64::saturating_add`. */
  function SaturatingAddU64(a: nat, b: nat): nat {
    if a + b > U64_MAX then U64_MAX else a + b
  }

  /** `u64::saturating_sub`. */
  function SaturatingSub(a: nat, b: nat): nat {
    if b <= a then a - b else 0
  }

  function Max(a: nat, b: nat): nat { if a < b then b else a }

  // ---------------------------------------------------------------------------
  // Sums over finite maps
  // ---------------------------------------------------------------------------

  /** The sum of the values of a finite map. */
  ghost function Total<K>(m: map<K, nat>): nat {
    if m == map[] then 0 else var k :| k in m; m[k] + Total(m - {k})
  }

  /** Any element can be taken out of a sum, so a sum does not depend on enumeration order. */
  lemma {:induction false} TotalSplit<K>(m: map<K, nat>, k: K)
    requires k in m
    ensures Total(m) == m[k] + Total(m - {k})
    decreases |m|
  {
    var j :| j in m && Total(m) == m[j] + Total(m - {j});
    if j != k {
      TotalSplit(m - {j}, k);
      TotalSplit(m - {k}, j);
      assert (m - {j}) - {k} == (m - {k}) - {j};
    }
  }

  lemma TotalAdd<K>(m: map<K, nat>, k: K, v: nat)
    requires k !in m
    ensures Total(m[k := v]) == Total(m) + v
  {
    TotalSplit(m[k := v], k);
    assert m[k := v] - {k} == m;
  }

  /** A part of a map never sums to more than the whole. */
  lemma {:induction false} TotalPart<K>(part: map<K, nat>, whole: map<K, nat>)
    requires part.Keys <= whole.Keys && forall k :: k in part ==> part[k] == whole[k]
    ensures Total(part) <= Total(whole)
    decreases |part|
  {
    if part != map[] {
      var k :| k in part;
      TotalSplit(part, k);
      TotalSplit(whole, k);
      TotalPart(part - {k}, whole - {k});
    }
  }

  /** A set of numbers between 1 and n has at most n members. */
  lemma {:induction false} IntervalSize(s: set<nat>, n: nat)
    requires forall x :: x in s ==> 1 <= x <= n
    ensures |s| <= n
  {
    if n == 0 {
      assert s == {};
    } else {
      IntervalSize(s - {n}, n - 1);
      assert |s| <= |s - {n}| + 1;
    }
  }

  lemma SubsetOfSameSize<T>(a: set<T>, b: set<T>)
    requires a <= b && |a| == |b|
    ensures a == b
  {
    assert b == a + (b - a);
    assert |b| == |a| + |b - a|;
  }

  lemma SubsetSize<T>(a: set<T>, b: set<T>)
    requires a <= b
    ensures |a| <= |b|
  {
    assert b == a + (b - a);
    assert |b| == |a| + |b - a|;
  }

  lemma DifferenceSize<T>(a: set<T>, b: set<T>)
    requires a <= b
    ensures |b - a| == |b| - |a|
  {
    assert b == a + (b - a);
  }

  lemma KeysSize<K, V>(m: map<K, V>)
    ensures |m.Keys| == |m|
  {
  }

  // ---------------------------------------------------------------------------
  // Decimal text
  // ---------------------------------------------------------------------------

  /** The number of decimal digits of `n`. */
  function DigitCount(n: nat): (r: nat)
    ensures 1 <= r
  {
    if n < 10 then 1 else 1 + DigitCount(n / 10)
  }

  function IntLength(i: int): nat {
    if i < 0 then 1 + DigitCount(-i) else DigitCount(i)
  }

  function Pow10(k: nat): (r: nat)
    ensures 1 <= r
  {
    if k == 0 then 1 else 10 * Pow10(k - 1)
  }

  lemma {:induction false} DigitCountBelow(n: nat, k: nat)
    requires n < Pow10(k) && 1 <= k
    ensures DigitCount(n) <= k
    decreases k
  {
    if n >= 10 {
      assert Pow10(1) == 10;
      assert n / 10 < Pow10(k - 1);
      DigitCountBelow(n / 10, k - 1);
    }
  }

  lemma U64Digits(n: nat)
    requires n <= U64_MAX
    ensures DigitCount(n) <= 20
  {
    assert Pow10(4) == 10000 by {
      assert Pow10(2) == 100;
    }
    assert Pow10(8) == 1_0000_0000 by {
      assert Pow10(6) == 100_0000;
    }
    assert Pow10(12) == 1_0000_0000_0000 by {
      assert Pow10(10) == 100_0000_0000;
    }
    assert Pow10(16) == 1_0000_0000_0000_0000 by {
      assert Pow10(14) == 100_0000_0000_0000;
    }
    assert Pow10(20) == 1_0000_0000_0000_0000_0000 by {
      assert Pow10(18) == 100_0000_0000_0000_0000;
    }
    DigitCountBelow(n, 20);
  }

  // ---------------------------------------------------------------------------
  // Sorting by key
  // ---------------------------------------------------------------------------

  /** A value with its sort key, compared by `major` and then by `minor`. */
  datatype Keyed<T> = Keyed(major: int, minor: int, value: T)

  predicate Before(aMajor: int, aMinor: int, bMajor: int, bMinor: int) {
    aMajor < bMajor || (aMajor == bMajor && aMinor < bMinor)
  }

  predicate Ascending<T>(xs: seq<Keyed<T>>) {
    forall i, j :: 0 <= i < j < |xs| ==> !Before(xs[j].major, xs[j].minor, xs[i].major, xs[i].minor)
  }

  predicate StrictlyAscending<T>(xs: seq<Keyed<T>>) {
    forall i, j :: 0 <= i < j < |xs| ==> Before(xs[i].major, xs[i].minor, xs[j].major, xs[j].minor)
  }

  function Insert<T(!new)>(x: Keyed<T>, xs: seq<Keyed<T>>): (r: seq<Keyed<T>>)
    requires Ascending(xs)
    ensures Ascending(r)
    ensures forall y :: y in r <==> y == x || y in xs
  {
    if xs == [] || !Before(xs[0].major, xs[0].minor, x.major, x.minor) then
      [x] + xs
    else
      assert xs == [xs[0]] + xs[1..];
      var rest := Insert(x, xs[1..]);
      assert forall j :: 0 <= j < |rest| ==> rest[j] in rest;
      [xs[0]] + rest
  }

  /** A stable sort, as the library's `sort_by_key` is. */
  function Sort<T(!new)>(xs: seq<Keyed<T>>): (r: seq<Keyed<T>>)
    ensures Ascending(r)
    ensures forall y :: y in r <==> y in xs
  {
    if xs == [] then []
    else
      assert xs == [xs[0]] + xs[1..];
      Insert(xs[0], Sort(xs[1..]))
  }

  predicate SameKey<T>(a: Keyed<T>, b: Keyed<T>) { a.major == b.major && a.minor == b.minor }

  predicate DifferentKeys<T>(xs: seq<Keyed<T>>) {
    forall i, j :: 0 <= i < j < |xs| ==> !SameKey(xs[i], xs[j])
  }

  lemma {:induction false} InsertStrictly<T(!new)>(x: Keyed<T>, xs: seq<Keyed<T>>)
    requires StrictlyAscending(xs) && (forall y :: y in xs ==> !SameKey(x, y))
    ensures Ascending(xs) && StrictlyAscending(Insert(x, xs))
  {
    if xs == [] || !Before(xs[0].major, xs[0].minor, x.major, x.minor) {
      assert xs != [] ==> xs[0] in xs;
    } else {
      assert xs == [xs[0]] + xs[1..];
      InsertStrictly(x, xs[1..]);
      var rest := Insert(x, xs[1..]);
      assert forall j :: 0 <= j < |rest| ==> rest[j] in rest;
    }
  }

  /** Sorting values with different keys gives a strictly ascending sequence. */
  lemma {:induction false} SortStrictly<T(!new)>(xs: seq<Keyed<T>>)
    requires DifferentKeys(xs)
    ensures StrictlyAscending(Sort(xs))
  {
    if xs != [] {
      SortStrictly(xs[1..]);
      forall y | y in Sort(xs[1..])
        ensures !SameKey(xs[0], y)
      {
        assert y in xs[1..];
        var j :| 0 <= j < |xs[1..]| && xs[1..][j] == y;
        assert y == xs[j + 1];
      }
      InsertStrictly(xs[0], Sort(xs[1..]));
    }
  }

  /** Strictly ascending sequences with the same elements are the same sequence. */
  lemma {:induction false} StrictOrderIsUnique<T>(xs: seq<Keyed<T>>, ys: seq<Keyed<T>>)
    requires StrictlyAscending(xs) && StrictlyAscending(ys)
    requires forall x :: x in xs <==> x in ys
    ensures xs == ys
    decreases |xs|
  {
    assert ys == [] || ys[0] in xs;
    if xs != [] {
      assert xs[0] in ys;
      assert ys[0] in xs;
      var i :| 0 <= i < |ys| && ys[i] == xs[0];
      var j :| 0 <= j < |xs| && xs[j] == ys[0];
      assert xs[0] == ys[0];
      forall x
        ensures x in xs[1..] <==> x in ys[1..]
      {
        if x in xs[1..] {
          var a :| 1 <= a < |xs| && xs[a] == x;
          assert xs[a] in ys;
          var b :| 0 <= b < |ys| && ys[b] == x;
          assert b != 0;
          assert x == ys[1..][b - 1];
        }
        if x in ys[1..] {
          var a :| 1 <= a < |ys| && ys[a] == x;
          assert ys[a] in xs;
          var b :| 0 <= b < |xs| && xs[b] == x;
          assert b != 0;
          assert x == xs[1..][b - 1];
        }
      }
      StrictOrderIsUnique(xs[1..], ys[1..]);
    }
  }
}
