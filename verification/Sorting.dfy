/**
Sorting as the library sort does it: stable, by a total preorder. A list without ties has one
sorted arrangement, whatever order it was given in.
*/
module Sorting {

  // ---------------------------------------------------------------- strings by code unit

  predicate LexLe(a: string, b: string) {
    a == [] || (b != [] && (a[0] < b[0] || (a[0] == b[0] && LexLe(a[1..], b[1..]))))
  }

  lemma {:induction false} LexTotal(a: string, b: string)
    ensures LexLe(a, b) || LexLe(b, a)
    ensures LexLe(a, b) && LexLe(b, a) ==> a == b
  {
    if a != [] && b != [] {
      LexTotal(a[1..], b[1..]);
      if a[0] == b[0] && a[1..] == b[1..] { assert a == [a[0]] + a[1..] == b; }
    }
  }

  lemma {:induction false} LexTransitive(a: string, b: string, c: string)
    requires LexLe(a, b) && LexLe(b, c)
    ensures LexLe(a, c)
  {
    if a != [] && a[0] == b[0] && b[0] == c[0] { LexTransitive(a[1..], b[1..], c[1..]); }
  }

  // ---------------------------------------------------------------- insertion

  function Insert<T>(s: seq<T>, x: T, le: (T, T) -> bool): seq<T> {
    if s == [] then [x]
    else if le(s[|s| - 1], x) then s + [x]
    else Insert(s[..|s| - 1], x, le) + [s[|s| - 1]]
  }

  function Sort<T>(s: seq<T>, le: (T, T) -> bool): seq<T> {
    if s == [] then [] else Insert(Sort(s[..|s| - 1], le), s[|s| - 1], le)
  }

  ghost predicate Total<T(!new)>(le: (T, T) -> bool) {
    && (forall a, b :: le(a, b) || le(b, a))
    && (forall a, b, c :: le(a, b) && le(b, c) ==> le(a, c))
  }

  ghost predicate Sorted<T>(s: seq<T>, le: (T, T) -> bool) {
    forall i, j | 0 <= i < j < |s| :: le(s[i], s[j])
  }

  lemma {:induction false} InsertKeeps<T>(s: seq<T>, x: T, le: (T, T) -> bool)
    ensures multiset(Insert(s, x, le)) == multiset(s) + multiset{x}
  {
    if s != [] {
      assert s == s[..|s| - 1] + [s[|s| - 1]];
      if !le(s[|s| - 1], x) { InsertKeeps(s[..|s| - 1], x, le); }
    }
  }

  lemma SortNext<T>(s: seq<T>, x: T, le: (T, T) -> bool)
    ensures Sort(s + [x], le) == Insert(Sort(s, le), x, le)
  {
    hide Insert;
    assert (s + [x])[..|s|] == s;
  }

  lemma {:induction false} SortBag<T>(s: seq<T>, le: (T, T) -> bool)
    ensures multiset(Sort(s, le)) == multiset(s)
  {
    if s != [] {
      hide Insert, Sort;
      var before, x := s[..|s| - 1], s[|s| - 1];
      assert s == before + [x];
      SortBag(before, le);
      SortNext(before, x, le);
      InsertKeeps(Sort(before, le), x, le);
    }
  }

  lemma SortKeeps<T>(s: seq<T>, le: (T, T) -> bool)
    ensures multiset(Sort(s, le)) == multiset(s) && |Sort(s, le)| == |s|
    ensures forall x :: x in Sort(s, le) <==> x in s
  {
    hide Sort;
    SortBag(s, le);
    SameBag(Sort(s, le), s);
  }

  lemma SameBag<T>(a: seq<T>, b: seq<T>)
    requires multiset(a) == multiset(b)
    ensures |a| == |b| && forall x :: x in a <==> x in b
  {
    assert |a| == |multiset(a)| && |b| == |multiset(b)|;
    forall x ensures x in a <==> x in b { assert x in multiset(a) <==> x in multiset(b); }
  }

  lemma {:induction false} InsertSorts<T(!new)>(s: seq<T>, x: T, le: (T, T) -> bool)
    requires Total(le) && Sorted(s, le)
    ensures Sorted(Insert(s, x, le), le)
  {
    if s != [] {
      var before, last := s[..|s| - 1], s[|s| - 1];
      if !le(last, x) {
        InsertSorts(before, x, le);
        InsertKeeps(before, x, le);
        var r := Insert(before, x, le);
        forall i | 0 <= i < |r| ensures le(r[i], last) {
          assert r[i] in multiset(r);
          assert r[i] == x || r[i] in before;
        }
      }
    }
  }

  lemma {:induction false} SortSorts<T(!new)>(s: seq<T>, le: (T, T) -> bool)
    requires Total(le)
    ensures Sorted(Sort(s, le), le)
  {
    if s != [] {
      SortSorts(s[..|s| - 1], le);
      InsertSorts(Sort(s[..|s| - 1], le), s[|s| - 1], le);
    }
  }

  /** The order tells any two different members apart. */
  ghost predicate Strict<T>(s: seq<T>, le: (T, T) -> bool) {
    forall i, j | 0 <= i < j < |s| :: le(s[i], s[j]) && !le(s[j], s[i])
  }

  lemma SameLast<T>(a: seq<T>, b: seq<T>, le: (T, T) -> bool)
    requires Strict(a, le) && Strict(b, le) && a != [] && b != []
    requires a[|a| - 1] in b && b[|b| - 1] in a
    ensures a[|a| - 1] == b[|b| - 1]
  {
    var i :| 0 <= i < |b| && b[i] == a[|a| - 1];
    var j :| 0 <= j < |a| && a[j] == b[|b| - 1];
  }

  lemma BeforeLast<T(!new)>(a: seq<T>, before: seq<T>, x: T, le: (T, T) -> bool)
    requires Strict(a, le) && a == before + [x]
    ensures Strict(before, le)
    ensures forall z :: z in before <==> z in a && z != x
  {
    forall i, j | 0 <= i < j < |before| ensures le(before[i], before[j]) && !le(before[j], before[i]) {
      assert a[i] == before[i] && a[j] == before[j];
    }
    forall k | 0 <= k < |before| ensures before[k] != x { assert a[k] == before[k] && a[|before|] == x; }
  }

  /** Strictly sorted lists with the same members are the same list. */
  lemma {:induction false} StrictUnique<T(!new)>(a: seq<T>, b: seq<T>, le: (T, T) -> bool)
    requires Strict(a, le) && Strict(b, le)
    requires forall x :: x in a <==> x in b
    ensures a == b
  {
    if a == [] {
      if b != [] { FirstMember(b); }
    } else {
      FirstMember(a);
      var x, y := a[|a| - 1], b[|b| - 1];
      assert x in a && y in b;
      SameLast(a, b, le);
      assert a == a[..|a| - 1] + [x] && b == b[..|b| - 1] + [y];
      BeforeLast(a, a[..|a| - 1], x, le);
      BeforeLast(b, b[..|b| - 1], y, le);
      StrictUnique(a[..|a| - 1], b[..|b| - 1], le);
    }
  }

  lemma FirstMember<T>(s: seq<T>)
    requires s != []
    ensures s[0] in s
  {
  }

  // ---------------------------------------------------------------- elementwise

  function Map<T, U>(s: seq<T>, f: T -> U): seq<U> {
    if s == [] then [] else Map(s[..|s| - 1], f) + [f(s[|s| - 1])]
  }

  lemma {:induction false} MapAt<T, U>(s: seq<T>, f: T -> U)
    ensures |Map(s, f)| == |s| && forall i | 0 <= i < |s| :: Map(s, f)[i] == f(s[i])
  {
    if s != [] { MapAt(s[..|s| - 1], f); }
  }

  lemma {:induction false} MapJoin<T, U>(a: seq<T>, b: seq<T>, f: T -> U)
    ensures Map(a + b, f) == Map(a, f) + Map(b, f)
  {
    MapAt(a + b, f);
    MapAt(a, f);
    MapAt(b, f);
  }

  lemma SplitAt<T>(s: seq<T>, i: nat)
    requires i < |s|
    ensures multiset(s) == multiset(s[..i] + s[i + 1..]) + multiset{s[i]}
  {
    assert s == s[..i] + [s[i]] + s[i + 1..];
  }

  lemma MapWithout<T, U>(b: seq<T>, i: nat, f: T -> U)
    requires i < |b|
    ensures multiset(Map(b, f)) == multiset(Map(b[..i] + b[i + 1..], f)) + multiset{f(b[i])}
  {
    hide Map;
    MapAt(b, f);
    MapAt(b[..i] + b[i + 1..], f);
    assert Map(b[..i] + b[i + 1..], f) == Map(b, f)[..i] + Map(b, f)[i + 1..];
    SplitAt(Map(b, f), i);
  }

  lemma Cancel<T>(m: multiset<T>, n: multiset<T>, x: T)
    requires m + multiset{x} == n + multiset{x}
    ensures m == n
  {
    assert m == m + multiset{x} - multiset{x};
    assert n == n + multiset{x} - multiset{x};
  }

  /** Rearranging a list rearranges its image. */
  lemma {:induction false} MapKeeps<T, U>(a: seq<T>, b: seq<T>, f: T -> U)
    requires multiset(a) == multiset(b)
    ensures multiset(Map(a, f)) == multiset(Map(b, f))
  {
    if a == [] {
      assert |multiset(b)| == 0;
    } else {
      hide Map;
      var k := |a| - 1;
      assert a[k] in multiset(b);
      var i :| 0 <= i < |b| && b[i] == a[k];
      MapWithout(a, k, f);
      MapWithout(b, i, f);
      SplitAt(a, k);
      SplitAt(b, i);
      Cancel(multiset(a[..k] + a[k + 1..]), multiset(b[..i] + b[i + 1..]), a[k]);
      MapKeeps(a[..k] + a[k + 1..], b[..i] + b[i + 1..], f);
    }
  }

  // ---------------------------------------------------------------- without repetition

  /** The distinct members, each where it first stands. */
  function Distinct<T(==)>(s: seq<T>): seq<T> {
    if s == [] then []
    else
      var before := Distinct(s[..|s| - 1]);
      if s[|s| - 1] in before then before else before + [s[|s| - 1]]
  }

  lemma {:induction false} DistinctMembers<T>(s: seq<T>)
    ensures forall x :: x in Distinct(s) <==> x in s
    ensures forall i, j | 0 <= i < j < |Distinct(s)| :: Distinct(s)[i] != Distinct(s)[j]
  {
    if s != [] {
      DistinctMembers(s[..|s| - 1]);
      assert s == s[..|s| - 1] + [s[|s| - 1]];
    }
  }

  // ---------------------------------------------------------------- sorted sets of strings

  function SortedSet(s: seq<string>): seq<string> {
    Sort(Distinct(s), LexLe)
  }

  lemma LexIsTotal()
    ensures Total(LexLe)
  {
    forall a, b ensures LexLe(a, b) || LexLe(b, a) { LexTotal(a, b); }
    forall a, b, c | LexLe(a, b) && LexLe(b, c) ensures LexLe(a, c) { LexTransitive(a, b, c); }
  }

  lemma MultisetDistinct<T>(s: seq<T>, t: seq<T>)
    requires multiset(s) == multiset(t)
    requires forall i, j | 0 <= i < j < |s| :: s[i] != s[j]
    ensures forall i, j | 0 <= i < j < |t| :: t[i] != t[j]
  {
    forall i, j | 0 <= i < j < |t| ensures t[i] != t[j] {
      if t[i] == t[j] {
        assert t == t[..i] + [t[i]] + t[i + 1..j] + [t[j]] + t[j + 1..];
        assert multiset(t)[t[i]] >= 2;
        CountDistinct(s, t[i]);
      }
    }
  }

  lemma {:induction false} CountDistinct<T>(s: seq<T>, x: T)
    requires forall i, j | 0 <= i < j < |s| :: s[i] != s[j]
    ensures multiset(s)[x] <= 1
  {
    if s != [] {
      CountDistinct(s[..|s| - 1], x);
      assert s == s[..|s| - 1] + [s[|s| - 1]];
      if s[|s| - 1] == x {
        assert x !in s[..|s| - 1];
        assert multiset(s[..|s| - 1])[x] == 0;
      }
    }
  }

  lemma SortedSetShape(s: seq<string>)
    ensures Strict(SortedSet(s), LexLe)
    ensures forall x :: x in SortedSet(s) <==> x in s
  {
    LexIsTotal();
    DistinctMembers(s);
    var d, r := Distinct(s), SortedSet(s);
    SortKeeps(d, LexLe);
    SortSorts(d, LexLe);
    MultisetDistinct(d, r);
    forall i, j | 0 <= i < j < |r| ensures !LexLe(r[j], r[i]) { LexTotal(r[i], r[j]); }
  }

  /** A set of strings has one sorted spelling. */
  lemma SortedSetUnique(s: seq<string>, t: seq<string>)
    requires forall x :: x in s <==> x in t
    ensures SortedSet(s) == SortedSet(t)
  {
    SortedSetShape(s);
    SortedSetShape(t);
    StrictUnique(SortedSet(s), SortedSet(t), LexLe);
  }
}
