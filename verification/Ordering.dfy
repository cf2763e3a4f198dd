/** Sorting and sums over sequences, as the pipeline's scripts use them. */
module Ordering {

  datatype Option<+T> = None | Some(value: T)

  datatype Result<+T, +E> = Ok(value: T) | Err(error: E)

  /** The largest integer up to which every integer is a number of the source language. */
  const MAX_SAFE_INTEGER := 0x1F_FFFF_FFFF_FFFF

  // ---------- orders ----------

  ghost predicate TotalPreorder<T(!new)>(le: (T, T) -> bool) {
    && (forall x, y :: le(x, y) || le(y, x))
    && (forall x, y, z :: le(x, y) && le(y, z) ==> le(x, z))
  }

  ghost predicate TotalOrder<T(!new)>(le: (T, T) -> bool) {
    && TotalPreorder(le)
    && (forall x, y :: le(x, y) && le(y, x) ==> x == y)
  }

  ghost predicate SortedBy<T>(s: seq<T>, le: (T, T) -> bool) {
    forall i, j | 0 <= i < j < |s| :: le(s[i], s[j])
  }

  predicate Distinct<T(==)>(s: seq<T>) {
    forall i, j | 0 <= i < j < |s| :: s[i] != s[j]
  }

  /** Inserts `x` after every element that is not greater: the stable position. */
  function Insert<T>(s: seq<T>, x: T, le: (T, T) -> bool): (r: seq<T>)
    ensures multiset(r) == multiset(s) + multiset{x}
  {
    if s == [] then [x]
    else
      var n := |s| - 1;
      assert s == s[..n] + [s[n]];
      if le(s[n], x) then s + [x] else Insert(s[..n], x, le) + [s[n]]
  }

  /** A stable sort, the contract of the array sort of the source language. */
  function SortBy<T>(s: seq<T>, le: (T, T) -> bool): (r: seq<T>)
    ensures multiset(r) == multiset(s) && |r| == |s|
  {
    if s == [] then []
    else
      var n := |s| - 1;
      assert s == s[..n] + [s[n]];
      var r := Insert(SortBy(s[..n], le), s[n], le);
      assert |multiset(r)| == |multiset(s)|;
      r
  }

  lemma InsertMembers<T(!new)>(s: seq<T>, x: T, le: (T, T) -> bool)
    ensures forall y | y in Insert(s, x, le) :: y in s || y == x
  {
    forall y | y in Insert(s, x, le) ensures y in s || y == x {
      assert y in multiset(Insert(s, x, le));
    }
  }

  lemma AppendLargest<T(!new)>(s: seq<T>, x: T, le: (T, T) -> bool)
    requires SortedBy(s, le) && forall y | y in s :: le(y, x)
    ensures SortedBy(s + [x], le)
  {
  }

  lemma {:induction false} InsertKeepsOrder<T(!new)>(s: seq<T>, x: T, le: (T, T) -> bool)
    requires TotalPreorder(le) && SortedBy(s, le)
    ensures SortedBy(Insert(s, x, le), le)
  {
    if s != [] {
      var n := |s| - 1;
      if !le(s[n], x) {
        InsertKeepsOrder(s[..n], x, le);
        InsertMembers(s[..n], x, le);
        AppendLargest(Insert(s[..n], x, le), s[n], le);
      }
    }
  }

  lemma {:induction false} SortByOrders<T(!new)>(s: seq<T>, le: (T, T) -> bool)
    requires TotalPreorder(le)
    ensures SortedBy(SortBy(s, le), le)
  {
    if s != [] {
      var n := |s| - 1;
      SortByOrders(s[..n], le);
      InsertKeepsOrder(SortBy(s[..n], le), s[n], le);
    }
  }

  lemma SameMultisetSameLength<T>(a: seq<T>, b: seq<T>)
    requires multiset(a) == multiset(b)
    ensures |a| == |b|
  {
    assert |multiset(a)| == |a| && |multiset(b)| == |b|;
  }

  /** Code-unit order on strings, the default order of the source language's sort. */
  predicate LexLe(a: string, b: string) {
    a == [] || (b != [] && (a[0] < b[0] || (a[0] == b[0] && LexLe(a[1..], b[1..]))))
  }

  lemma {:induction false} LexTotal(a: string, b: string)
    ensures LexLe(a, b) || LexLe(b, a)
  {
    if a != [] && b != [] { LexTotal(a[1..], b[1..]); }
  }

  lemma {:induction false} LexTransitive(a: string, b: string, c: string)
    requires LexLe(a, b) && LexLe(b, c)
    ensures LexLe(a, c)
  {
    if a != [] && a[0] == b[0] == c[0] { LexTransitive(a[1..], b[1..], c[1..]); }
  }

  lemma {:induction false} LexAntisymmetric(a: string, b: string)
    requires LexLe(a, b) && LexLe(b, a)
    ensures a == b
  {
    if a != [] {
      LexAntisymmetric(a[1..], b[1..]);
      assert a == [a[0]] + a[1..] && b == [b[0]] + b[1..];
    }
  }

  lemma LexIsTotalOrder()
    ensures TotalOrder(LexLe)
  {
    forall a, b ensures LexLe(a, b) || LexLe(b, a) { LexTotal(a, b); }
    forall a, b, c | LexLe(a, b) && LexLe(b, c) ensures LexLe(a, c) { LexTransitive(a, b, c); }
    forall a, b | LexLe(a, b) && LexLe(b, a) ensures a == b { LexAntisymmetric(a, b); }
  }

  ghost predicate InOrder(s: seq<string>) {
    forall i, j | 0 <= i < j < |s| :: LexLe(s[i], s[j])
  }

  function Sorted(s: seq<string>): (r: seq<string>)
    ensures multiset(r) == multiset(s) && |r| == |s|
  {
    SortBy(s, LexLe)
  }

  lemma SortedOrders(s: seq<string>)
    ensures InOrder(Sorted(s))
  {
    LexIsTotalOrder();
    SortByOrders(s, LexLe);
  }

  lemma SameLast(a: seq<string>, b: seq<string>)
    requires InOrder(a) && InOrder(b) && a != [] && b != []
    requires a[|a|-1] in b && b[|b|-1] in a
    ensures a[|a|-1] == b[|b|-1]
  {
    var x, y := a[|a|-1], b[|b|-1];
    assert LexLe(x, y) || x == y;
    assert LexLe(y, x) || x == y;
    if x != y { LexAntisymmetric(x, y); }
  }

  lemma DropSameLast<T>(a: seq<T>, b: seq<T>)
    requires a != [] && b != [] && a[|a|-1] == b[|b|-1] && multiset(a) == multiset(b)
    ensures multiset(a[..|a|-1]) == multiset(b[..|b|-1])
  {
    MultisetWithoutLast(a);
    MultisetWithoutLast(b);
  }

  lemma MultisetWithoutLast<T>(a: seq<T>)
    requires a != []
    ensures multiset(a[..|a|-1]) == multiset(a) - multiset{a[|a|-1]}
  {
    assert a == a[..|a|-1] + [a[|a|-1]];
  }

  lemma {:induction false} InOrderIsUnique(a: seq<string>, b: seq<string>)
    requires InOrder(a) && InOrder(b) && multiset(a) == multiset(b)
    ensures a == b
  {
    SameMultisetSameLength(a, b);
    if a != [] {
      var n := |a| - 1;
      assert a[n] in multiset(b) && b[n] in multiset(a);
      SameLast(a, b);
      DropSameLast(a, b);
      var shortA, shortB := a[..n], b[..n];
      assert InOrder(shortA) && InOrder(shortB);
      InOrderIsUnique(shortA, shortB);
      SameInitAndLast(a, b);
    }
  }

  lemma SameInitAndLast<T>(a: seq<T>, b: seq<T>)
    requires a != [] && b != [] && a[..|a|-1] == b[..|b|-1] && a[|a|-1] == b[|b|-1]
    ensures a == b
  {
    assert a == a[..|a|-1] + [a[|a|-1]] && b == b[..|b|-1] + [b[|b|-1]];
  }

  /** Two lists have equal sorted copies exactly when one permutes the other. */
  lemma SortedEqualIffPermutation(a: seq<string>, b: seq<string>)
    ensures Sorted(a) == Sorted(b) <==> multiset(a) == multiset(b)
  {
    if multiset(a) == multiset(b) {
      SortedOrders(a);
      SortedOrders(b);
      InOrderIsUnique(Sorted(a), Sorted(b));
    }
  }

  lemma SortedIsIdentity(s: seq<string>)
    requires InOrder(s)
    ensures Sorted(s) == s
  {
    SortedOrders(s);
    InOrderIsUnique(Sorted(s), s);
  }

  // ---------- distinctness and multisets ----------

  lemma {:induction false} DistinctMultiplicity<T>(s: seq<T>, x: T)
    requires Distinct(s)
    ensures multiset(s)[x] == if x in s then 1 else 0
  {
    if s != [] {
      var n := |s| - 1;
      assert s == s[..n] + [s[n]];
      DistinctMultiplicity(s[..n], x);
    }
  }

  lemma EqualPositionsCountTwice<T>(s: seq<T>, i: nat, j: nat)
    requires i < j < |s|
    ensures s[i] == s[j] ==> multiset(s)[s[i]] >= 2
  {
    assert s == s[..j] + [s[j]] + s[j+1..];
    assert s[..j][i] in s[..j];
  }

  lemma MultiplicityDistinct<T>(s: seq<T>)
    requires forall x :: x in s ==> multiset(s)[x] == 1
    ensures Distinct(s)
  {
    forall i, j | 0 <= i < j < |s| ensures s[i] != s[j] {
      EqualPositionsCountTwice(s, i, j);
      assert s[i] in s;
    }
  }

  lemma ConcatAssociates<T>(a: seq<T>, b: seq<T>, c: seq<T>)
    ensures (a + b) + c == a + (b + c)
  {
  }

  lemma DistinctConcat<T>(a: seq<T>, b: seq<T>)
    requires Distinct(a) && Distinct(b) && forall x | x in b :: x !in a
    ensures Distinct(a + b)
  {
    forall i, j | 0 <= i < j < |a + b| ensures (a + b)[i] != (a + b)[j] {
      if i < |a| <= j { assert b[j - |a|] in b && a[i] in a; }
    }
  }

  /** A permutation of a distinct list is distinct. */
  lemma PermutationKeepsDistinct<T>(a: seq<T>, b: seq<T>)
    requires Distinct(a) && multiset(a) == multiset(b)
    ensures Distinct(b)
  {
    forall x | x in b ensures multiset(b)[x] == 1 {
      assert x in multiset(b);
      assert x in a;
      DistinctMultiplicity(a, x);
    }
    MultiplicityDistinct(b);
  }

  // ---------- sums ----------

  function Sum<T>(s: seq<T>, w: T -> real): real {
    if s == [] then 0.0 else Sum(s[..|s|-1], w) + w(s[|s|-1])
  }

  lemma {:induction false} SumAppend<T>(a: seq<T>, b: seq<T>, w: T -> real)
    ensures Sum(a + b, w) == Sum(a, w) + Sum(b, w)
  {
    if b == [] {
      assert a + b == a;
    } else {
      assert (a + b)[..|a + b| - 1] == a + b[..|b| - 1];
      SumAppend(a, b[..|b| - 1], w);
    }
  }

  lemma SumOne<T>(x: T, w: T -> real)
    ensures Sum([x], w) == w(x)
  {
    assert Sum([x][..0], w) == 0.0;
  }

  lemma SplitAround<T>(s: seq<T>, k: nat)
    requires k < |s|
    ensures s == s[..k] + ([s[k]] + s[k+1..])
  {
  }

  lemma SumOfThree<T>(a: seq<T>, x: T, b: seq<T>, w: T -> real)
    ensures Sum(a + ([x] + b), w) == Sum(a + b, w) + w(x)
  {
    SumAppend(a, [x] + b, w);
    SumAppend([x], b, w);
    SumAppend(a, b, w);
    SumOne(x, w);
  }

  /** Taking one element out of the middle lowers the sum by its weight. */
  lemma SumWithout<T>(s: seq<T>, k: nat, w: T -> real)
    requires k < |s|
    ensures Sum(s, w) == Sum(s[..k] + s[k+1..], w) + w(s[k])
  {
    SplitAround(s, k);
    SumOfThree(s[..k], s[k], s[k+1..], w);
  }

  lemma MultisetWithout<T>(s: seq<T>, k: nat)
    requires k < |s|
    ensures multiset(s[..k] + s[k+1..]) == multiset(s) - multiset{s[k]}
  {
    assert s == s[..k] + ([s[k]] + s[k+1..]);
  }

  lemma {:induction false} SumPermutation<T>(a: seq<T>, b: seq<T>, w: T -> real)
    requires multiset(a) == multiset(b)
    ensures Sum(a, w) == Sum(b, w)
  {
    SameMultisetSameLength(a, b);
    if a != [] {
      var n := |a| - 1;
      assert a == a[..n] + [a[n]];
      assert a[n] in multiset(b);
      var k :| 0 <= k < |b| && b[k] == a[n];
      SumWithout(b, k, w);
      MultisetWithout(b, k);
      assert multiset(a[..n]) == multiset(a) - multiset{a[n]};
      SumPermutation(a[..n], b[..k] + b[k+1..], w);
    }
  }

  lemma {:induction false} SumNonNegative<T>(s: seq<T>, w: T -> real)
    requires forall x | x in s :: w(x) >= 0.0
    ensures Sum(s, w) >= 0.0
  {
    if s != [] { SumNonNegative(s[..|s|-1], w); }
  }

  function Flatten<T>(groups: seq<seq<T>>): seq<T> {
    if groups == [] then [] else Flatten(groups[..|groups|-1]) + groups[|groups|-1]
  }

  lemma {:induction false} FlattenUpdate<T>(groups: seq<seq<T>>, k: nat, x: T)
    requires k < |groups|
    ensures multiset(Flatten(groups[k := groups[k] + [x]])) == multiset(Flatten(groups)) + multiset{x}
  {
    var n := |groups| - 1;
    var updated := groups[k := groups[k] + [x]];
    if k == n {
      assert updated[..n] == groups[..n];
    } else {
      assert updated[..n] == groups[..n][k := groups[..n][k] + [x]];
      FlattenUpdate(groups[..n], k, x);
    }
  }

  lemma {:induction false} FlattenContains<T>(groups: seq<seq<T>>, g: seq<T>, x: T)
    requires g in groups && x in g
    ensures x in Flatten(groups)
  {
    var n := |groups| - 1;
    if g != groups[n] {
      assert g in groups[..n];
      FlattenContains(groups[..n], g, x);
    }
  }

  lemma {:induction false} FlattenOrigin<T>(groups: seq<seq<T>>, x: T) returns (g: seq<T>)
    requires x in Flatten(groups)
    ensures g in groups && x in g
  {
    var n := |groups| - 1;
    if x in groups[n] {
      g := groups[n];
    } else {
      g := FlattenOrigin(groups[..n], x);
    }
  }

  // ---------- repeated addition ----------

  function Times(n: nat, x: real): real {
    if n == 0 then 0.0 else Times(n - 1, x) + x
  }

  lemma {:induction false} TimesIsProduct(n: nat, x: real)
    ensures Times(n, x) == n as real * x
  {
    if n > 0 {
      TimesIsProduct(n - 1, x);
      assert n as real * x == (n - 1) as real * x + x;
    }
  }
}
