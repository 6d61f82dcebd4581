/** Sequence operations the system performs with `Set`, `filter`, `includes`
    and `Array.prototype.sort`, with the facts the models rely on. */
module Seqs {

  predicate NoDup<T(==)>(s: seq<T>)
  {
    forall i, j :: 0 <= i < j < |s| ==> s[i] != s[j]
  }

  /** Index of the first occurrence of `x` in `s`. */
  function FirstIndex<T(==)>(s: seq<T>, x: T): (k: nat)
    requires x in s
    ensures k < |s| && s[k] == x && x !in s[..k]
  {
    if s[0] == x then 0 else 1 + FirstIndex(s[1..], x)
  }

  /** The distinct elements of `s` in order of first occurrence: what
      `Array.from(new Set(s))` and a `Set`/`Map` filled in order give. */
  function Distinct<T(==)>(s: seq<T>): seq<T>
  {
    if s == [] then []
    else
      var d := Distinct(s[..|s| - 1]);
      if s[|s| - 1] in d then d else d + [s[|s| - 1]]
  }

  lemma {:induction false} DistinctElements<T>(s: seq<T>)
    ensures NoDup(Distinct(s))
    ensures forall x {:trigger x in Distinct(s)} {:trigger x in s} :: x in Distinct(s) <==> x in s
  {
    if s != [] {
      var p := s[..|s| - 1];
      DistinctElements(p);
      assert s == p + [s[|s| - 1]];
    }
  }

  lemma DistinctMember<T>(s: seq<T>, x: T)
    requires x in Distinct(s)
    ensures x in s
  {
    DistinctElements(s);
  }

  lemma {:induction false} DistinctSnoc<T>(s: seq<T>, x: T)
    ensures Distinct(s + [x]) == if x in Distinct(s) then Distinct(s) else Distinct(s) + [x]
  {
    assert (s + [x])[..|s + [x]| - 1] == s;
  }

  /** Distinct lists the elements in the order of their first occurrence in `s`. */
  lemma {:induction false} DistinctFirstOccurrenceOrder<T>(s: seq<T>, i: nat, j: nat)
    requires i < j < |Distinct(s)|
    ensures Distinct(s)[i] in s && Distinct(s)[j] in s
    ensures FirstIndex(s, Distinct(s)[i]) < FirstIndex(s, Distinct(s)[j])
  {
    DistinctElements(s);
    var p := s[..|s| - 1];
    var last := s[|s| - 1];
    assert s == p + [last];
    DistinctElements(p);
    var d := Distinct(p);
    var a, b := Distinct(s)[i], Distinct(s)[j];
    if j < |d| {
      assert a == d[i] && b == d[j];
      DistinctFirstOccurrenceOrder(p, i, j);
      FirstIndexPrefix(p, last, a);
      FirstIndexPrefix(p, last, b);
    } else {
      // b is the last element of s and does not occur earlier
      assert Distinct(s) == d + [last];
      assert b == last && last !in d && last !in p;
      assert a == d[i] && a in d;
      DistinctMember(p, a);
      FirstIndexPrefix(p, last, a);
      assert FirstIndex(s, b) >= |p| by {
        var k := FirstIndex(s, b);
        assert s[k] == b;
      }
    }
  }

  lemma {:induction false} FirstIndexPrefix<T>(p: seq<T>, y: T, x: T)
    requires x in p
    ensures x in p + [y] && FirstIndex(p + [y], x) == FirstIndex(p, x)
  {
    if p[0] != x {
      assert (p + [y])[1..] == p[1..] + [y];
      FirstIndexPrefix(p[1..], y, x);
    }
  }

  /** `s.filter(y => y !== x)`. */
  function Without<T(==)>(s: seq<T>, x: T): (r: seq<T>)
    ensures x !in r
    ensures forall i :: 0 <= i < |r| ==> r[i] in s
    ensures forall i :: 0 <= i < |s| && s[i] != x ==> s[i] in r
    ensures |r| <= |s|
    ensures x !in s ==> r == s
  {
    if s == [] then []
    else if s[0] == x then Without(s[1..], x)
    else [s[0]] + Without(s[1..], x)
  }

  lemma {:induction false} WithoutKeepsNoDup<T>(s: seq<T>, x: T)
    requires NoDup(s)
    ensures NoDup(Without(s, x))
  {
    if s != [] {
      WithoutKeepsNoDup(s[1..], x);
      assert s[0] !in s[1..];
    }
  }

  /** `s.filter(p)`: the elements of `s` satisfying `p`, in order. */
  function Filter<T>(s: seq<T>, p: T -> bool): (r: seq<T>)
    ensures |r| <= |s|
    ensures forall i :: 0 <= i < |r| ==> r[i] in s && p(r[i])
    ensures forall i :: 0 <= i < |s| && p(s[i]) ==> s[i] in r
  {
    if s == [] then []
    else if p(s[0]) then [s[0]] + Filter(s[1..], p)
    else Filter(s[1..], p)
  }

  lemma {:induction false} FilterAppend<T>(a: seq<T>, b: seq<T>, p: T -> bool)
    ensures Filter(a + b, p) == Filter(a, p) + Filter(b, p)
  {
    if a != [] {
      assert (a + b)[1..] == a[1..] + b;
      assert (a + b)[0] == a[0];
      FilterAppend(a[1..], b, p);
      assert a + b != [];
      if p(a[0]) {
        calc {
          Filter(a + b, p);
          [a[0]] + Filter(a[1..] + b, p);
          [a[0]] + (Filter(a[1..], p) + Filter(b, p));
          ([a[0]] + Filter(a[1..], p)) + Filter(b, p);
        }
      }
    } else {
      assert a + b == b;
    }
  }

  lemma {:induction false} FilterAll<T>(s: seq<T>, p: T -> bool)
    requires forall i :: 0 <= i < |s| ==> p(s[i])
    ensures Filter(s, p) == s
  {
    if s != [] {
      FilterAll(s[1..], p);
    }
  }

  /** `s.filter(p).length`. */
  function Count<T>(s: seq<T>, p: T -> bool): (n: nat)
    ensures n <= |s|
  {
    |Filter(s, p)|
  }

  /** The positions of the elements satisfying `p`, in increasing order:
      a `findMany` over a table whose rows are identified by position. */
  function Positions<T>(s: seq<T>, p: T -> bool): (r: seq<nat>)
    ensures forall k :: 0 <= k < |r| ==> r[k] < |s| && p(s[r[k]])
    ensures forall i :: 0 <= i < |s| && p(s[i]) ==> i in r
    ensures forall k, l :: 0 <= k < l < |r| ==> r[k] < r[l]
  {
    if s == [] then []
    else
      var init := Positions(s[..|s| - 1], p);
      if p(s[|s| - 1]) then init + [|s| - 1] else init
  }

  // ---------------------------------------------------------------
  // Sorting by a comparator (JavaScript's `sort` on a copy)
  // ---------------------------------------------------------------

  ghost predicate Total<T(!new)>(le: (T, T) -> bool)
  {
    forall a, b :: le(a, b) || le(b, a)
  }

  ghost predicate Transitive<T(!new)>(le: (T, T) -> bool)
  {
    forall a, b, c :: le(a, b) && le(b, c) ==> le(a, c)
  }

  ghost predicate Sorted<T>(s: seq<T>, le: (T, T) -> bool)
  {
    forall i, j :: 0 <= i < j < |s| ==> le(s[i], s[j])
  }

  function Insert<T>(x: T, s: seq<T>, le: (T, T) -> bool): (r: seq<T>)
    ensures multiset(r) == multiset(s) + multiset{x}
    ensures |r| == |s| + 1
  {
    if s == [] then [x]
    else if le(x, s[0]) then [x] + s
    else
      assert s == [s[0]] + s[1..];
      [s[0]] + Insert(x, s[1..], le)
  }

  /** Insertion sort: a permutation of `s` that is ordered by `le`. */
  function SortBy<T>(s: seq<T>, le: (T, T) -> bool): (r: seq<T>)
    ensures multiset(r) == multiset(s)
    ensures |r| == |s|
  {
    if s == [] then []
    else
      assert s == [s[0]] + s[1..];
      Insert(s[0], SortBy(s[1..], le), le)
  }

  lemma {:induction false} InsertSorted<T(!new)>(x: T, s: seq<T>, le: (T, T) -> bool)
    requires Total(le) && Transitive(le) && Sorted(s, le)
    ensures Sorted(Insert(x, s, le), le)
  {
    if s != [] && !le(x, s[0]) {
      InsertSorted(x, s[1..], le);
      var r := Insert(x, s, le);
      var t := Insert(x, s[1..], le);
      assert r == [s[0]] + t;
      assert le(s[0], x);
      forall j | 0 < j < |r| ensures le(s[0], r[j]) {
        assert r[j] in multiset(t);
        assert r[j] in multiset(s[1..]) + multiset{x};
        if r[j] != x {
          assert r[j] in s[1..];
          var k :| 0 <= k < |s[1..]| && s[1..][k] == r[j];
          assert s[k + 1] == r[j];
        }
      }
    }
  }

  lemma {:induction false} SortBySorted<T(!new)>(s: seq<T>, le: (T, T) -> bool)
    requires Total(le) && Transitive(le)
    ensures Sorted(SortBy(s, le), le)
  {
    if s != [] {
      SortBySorted(s[1..], le);
      InsertSorted(s[0], SortBy(s[1..], le), le);
    }
  }

  /** Sorting depends on the comparator only through the pairs it compares. */
  lemma {:induction false} InsertCongruent<T>(x: T, s: seq<T>, le1: (T, T) -> bool, le2: (T, T) -> bool)
    requires forall a, b :: a in [x] + s && b in [x] + s ==> le1(a, b) == le2(a, b)
    ensures Insert(x, s, le1) == Insert(x, s, le2)
  {
    if s != [] {
      assert x in [x] + s && s[0] in [x] + s;
      InsertCongruent(x, s[1..], le1, le2);
    }
  }

  lemma {:induction false} SortByCongruent<T>(s: seq<T>, le1: (T, T) -> bool, le2: (T, T) -> bool)
    requires forall a, b :: a in s && b in s ==> le1(a, b) == le2(a, b)
    ensures SortBy(s, le1) == SortBy(s, le2)
  {
    if s != [] {
      SortByCongruent(s[1..], le1, le2);
      var t := SortBy(s[1..], le1);
      forall a | a in [s[0]] + t
        ensures a in s
      {
        if a != s[0] {
          assert a in multiset(t);
        }
      }
      InsertCongruent(s[0], t, le1, le2);
    }
  }

  /** Insertion places `x` before the first element it is `le` to. */
  lemma {:induction false} InsertShape<T>(x: T, s: seq<T>, le: (T, T) -> bool) returns (k: nat)
    ensures k <= |s| && Insert(x, s, le) == s[..k] + [x] + s[k..]
    ensures forall p :: 0 <= p < k ==> !le(x, s[p])
  {
    if s == [] || le(x, s[0]) {
      k := 0;
    } else {
      var k' := InsertShape(x, s[1..], le);
      k := k' + 1;
      calc {
        Insert(x, s, le);
        [s[0]] + Insert(x, s[1..], le);
        [s[0]] + (s[1..][..k'] + [x] + s[1..][k'..]);
        { assert [s[0]] + s[1..][..k'] == s[..k]; assert s[1..][k'..] == s[k..]; }
        s[..k] + [x] + s[k..];
      }
    }
  }

  /** Two elements each `le` the other are equivalent under `le`. */
  ghost predicate Stable<T>(s: seq<T>, r: seq<T>, le: (T, T) -> bool)
  {
    forall i, j :: 0 <= i < j < |r| && le(r[i], r[j]) && le(r[j], r[i]) ==>
      r[i] in s && r[j] in s && FirstIndex(s, r[i]) < FirstIndex(s, r[j])
  }

  /** Insertion sort is stable: equivalent elements keep their order. */
  lemma {:induction false} SortByStable<T>(s: seq<T>, le: (T, T) -> bool)
    requires NoDup(s)
    ensures Stable(s, SortBy(s, le), le)
  {
    if s != [] {
      var t := SortBy(s[1..], le);
      SortByStable(s[1..], le);
      forall y | y in t
        ensures y in s[1..]
      {
        assert y in multiset(t);
      }
      InsertStable(s, t, le);
    }
  }

  lemma InsertStable<T>(s: seq<T>, t: seq<T>, le: (T, T) -> bool)
    requires s != [] && NoDup(s) && Stable(s[1..], t, le)
    requires forall y :: y in t ==> y in s[1..]
    ensures Stable(s, Insert(s[0], t, le), le)
  {
    var x := s[0];
    var k := InsertShape(x, t, le);
    var r := Insert(x, t, le);
    assert forall p :: 0 <= p < k ==> r[p] == t[p];
    assert r[k] == x;
    assert forall p :: k < p < |r| ==> r[p] == t[p - 1];
    forall i, j | 0 <= i < j < |r| && le(r[i], r[j]) && le(r[j], r[i])
      ensures r[i] in s && r[j] in s && FirstIndex(s, r[i]) < FirstIndex(s, r[j])
    {
      if i == k {
        FirstIndexTail(s, r[j]);
      } else if j == k {
        assert false;
      } else {
        var i', j' := if i < k then i else i - 1, if j < k then j else j - 1;
        assert r[i] == t[i'] && r[j] == t[j'];
        FirstIndexTail(s, r[i]);
        FirstIndexTail(s, r[j]);
      }
    }
  }

  lemma FirstIndexTail<T>(s: seq<T>, y: T)
    requires s != [] && NoDup(s) && y in s[1..]
    ensures y != s[0] && y in s && FirstIndex(s, y) == 1 + FirstIndex(s[1..], y)
  {
  }

  /** A permutation of a duplicate-free sequence is duplicate-free. */
  lemma {:induction false} NoDupPermutation<T>(d: seq<T>, r: seq<T>)
    requires NoDup(d) && multiset(r) == multiset(d)
    ensures NoDup(r)
  {
    forall i, j | 0 <= i < j < |r|
      ensures r[i] != r[j]
    {
      if r[i] == r[j] {
        assert multiset(r)[r[i]] >= 2 by {
          var rest := r[..i] + r[i + 1..];
          assert r == r[..i] + [r[i]] + r[i + 1..];
          assert r[j] in rest by {
            assert rest[j - 1] == r[j];
          }
          assert multiset(r) == multiset(rest) + multiset{r[i]};
        }
        var k := FirstIndex(d, r[i]);
        NoDupCountsOne(d, r[i]);
      }
    }
  }

  lemma {:induction false} NoDupCountsOne<T>(d: seq<T>, x: T)
    requires NoDup(d)
    ensures multiset(d)[x] <= 1
  {
    if d != [] {
      NoDupCountsOne(d[1..], x);
      assert d == [d[0]] + d[1..];
      assert d[0] !in d[1..];
    }
  }

  /** The set of the elements of `s`. */
  function Elems<T(!new)>(s: seq<T>): (r: set<T>)
    ensures forall x :: x in r <==> x in s
  {
    set x | x in s
  }

  /** `s.slice(0, n)`. */
  function Take<T>(s: seq<T>, n: nat): (r: seq<T>)
    ensures |r| == if |s| < n then |s| else n
    ensures r == s[..|r|]
  {
    if |s| <= n then s else s[..n]
  }

  /** Lists the elements of `s`, each once, in no particular order: the
      order in which the store returns the rows of a relation. */
  method Enumerate<T>(s: set<T>) returns (r: seq<T>)
    ensures NoDup(r)
    ensures forall x :: x in r <==> x in s
  {
    r := [];
    var rest := s;
    while rest != {}
      invariant rest <= s
      invariant NoDup(r)
      invariant forall x :: x in r <==> x in s && x !in rest
      decreases |rest|
    {
      var x :| x in rest;
      r := r + [x];
      rest := rest - {x};
    }
  }

  /** A non-empty sequence is its head followed by its tail. */
  lemma HeadTail<T>(s: seq<T>)
    requires s != []
    ensures [s[0]] + s[1..] == s
  {
  }

  /** A sequence is its prefix, the element at `k` and the rest. */
  lemma SplitAround<T>(s: seq<T>, k: nat)
    requires k < |s|
    ensures s[..k] + [s[k]] + s[k + 1..] == s
  {
  }

  lemma AppendAssoc<T>(a: seq<T>, b: seq<T>, c: seq<T>)
    ensures a + b + c == a + (b + c)
  {
  }
}
