/**
 Lexicographic string order (code points, as Python compares `str`) and a stable
 sort by an arbitrary comparison, standing in for Python's built-in `sorted`.
 */
module Ordering {

  predicate StrLeq(a: string, b: string) {
    a == [] || (b != [] && (a[0] < b[0] || (a[0] == b[0] && StrLeq(a[1..], b[1..]))))
  }

  /** The order, character by character: a prefix, or smaller where the two first differ. */
  lemma {:induction false} StrLeqExactly(a: string, b: string)
    ensures StrLeq(a, b) <==> a <= b || exists k :: DiffersAt(a, b, k) && a[k] < b[k]
  {
    if a != [] && b != [] && a[0] == b[0] {
      StrLeqExactly(a[1..], b[1..]);
      SmallerBehind(a, b);
      assert a == [a[0]] + a[1..] && b == [b[0]] + b[1..];
    } else if a != [] && b != [] && a[0] < b[0] {
      assert DiffersAt(a, b, 0);
    }
  }

  lemma SmallerBehind(a: string, b: string)
    requires a != [] && b != [] && a[0] == b[0]
    ensures (exists k :: DiffersAt(a, b, k) && a[k] < b[k]) <==>
      exists k :: DiffersAt(a[1..], b[1..], k) && a[1..][k] < b[1..][k]
  {
    if k :| DiffersAt(a[1..], b[1..], k) && a[1..][k] < b[1..][k] {
      assert a[..k + 1] == [a[0]] + a[1..][..k] && b[..k + 1] == [b[0]] + b[1..][..k];
      assert DiffersAt(a, b, k + 1);
    }
    if k :| DiffersAt(a, b, k) && a[k] < b[k] {
      assert a[1..][..k - 1] == a[..k][1..] && b[1..][..k - 1] == b[..k][1..];
      assert DiffersAt(a[1..], b[1..], k - 1);
    }
  }

  /** The first position where they differ. */
  predicate DiffersAt(a: string, b: string, k: int) {
    0 <= k < |a| && k < |b| && a[..k] == b[..k] && a[k] != b[k]
  }

  lemma {:induction false} StrLeqTotal(a: string, b: string)
    ensures StrLeq(a, b) || StrLeq(b, a)
  {
    if a != [] && b != [] && a[0] == b[0] {
      StrLeqTotal(a[1..], b[1..]);
    }
  }

  lemma {:induction false} StrLeqAntisymmetric(a: string, b: string)
    requires StrLeq(a, b) && StrLeq(b, a)
    ensures a == b
  {
    if a != [] && b != [] {
      StrLeqAntisymmetric(a[1..], b[1..]);
      assert a == [a[0]] + a[1..];
      assert b == [b[0]] + b[1..];
    }
  }

  lemma {:induction false} StrLeqTransitive(a: string, b: string, c: string)
    requires StrLeq(a, b) && StrLeq(b, c)
    ensures StrLeq(a, c)
  {
    if a != [] && a[0] == b[0] == c[0] {
      StrLeqTransitive(a[1..], b[1..], c[1..]);
    }
  }

  // ----- comparisons on the elements of one sequence

  ghost predicate TotalPreorderOn<T>(leq: (T, T) -> bool, s: seq<T>) {
    && (forall x, y | x in s && y in s :: leq(x, y) || leq(y, x))
    && (forall x, y, z | x in s && y in s && z in s && leq(x, y) && leq(y, z) :: leq(x, z))
  }

  ghost predicate AntisymmetricOn<T>(leq: (T, T) -> bool, s: seq<T>) {
    forall x, y | x in s && y in s && leq(x, y) && leq(y, x) :: x == y
  }

  ghost predicate Among<T>(s: seq<T>, u: seq<T>) {
    forall x | x in s :: x in u
  }

  ghost predicate SortedBy<T>(leq: (T, T) -> bool, s: seq<T>) {
    forall i, j | 0 <= i < j < |s| :: leq(s[i], s[j])
  }

  function Insert<T>(leq: (T, T) -> bool, x: T, s: seq<T>): seq<T> {
    if s == [] then [x]
    else if leq(x, s[0]) then [x] + s
    else [s[0]] + Insert(leq, x, s[1..])
  }

  /** Python's `sorted(s, key=...)`: stable insertion sort. */
  function Sort<T>(leq: (T, T) -> bool, s: seq<T>): (r: seq<T>)
    ensures |r| == |s|
    ensures multiset(r) == multiset(s)
  {
    if s == [] then []
    else
      InsertKeepsElements(leq, s[0], Sort(leq, s[1..]));
      assert s == [s[0]] + s[1..];
      Insert(leq, s[0], Sort(leq, s[1..]))
  }

  lemma {:induction false} InsertKeepsElements<T>(leq: (T, T) -> bool, x: T, s: seq<T>)
    ensures multiset(Insert(leq, x, s)) == multiset(s) + multiset{x}
    ensures |Insert(leq, x, s)| == |s| + 1
  {
    if s != [] && !leq(x, s[0]) {
      InsertKeepsElements(leq, x, s[1..]);
      assert s == [s[0]] + s[1..];
    }
  }

  lemma SameElements<T>(s: seq<T>, t: seq<T>)
    requires multiset(s) == multiset(t)
    ensures |s| == |t|
    ensures forall x :: x in s <==> x in t
  {
    assert |s| == |multiset(s)| && |t| == |multiset(t)|;
    forall x ensures x in s <==> x in t {
      assert x in s <==> x in multiset(s);
      assert x in t <==> x in multiset(t);
    }
  }

  lemma Rearranged<T>(s: seq<T>, t: seq<T>, x: T)
    requires multiset(s) == multiset(t)
    ensures x in s <==> x in t
  {
    assert x in s <==> x in multiset(s);
    assert x in t <==> x in multiset(t);
  }

  lemma {:induction false} InsertSorted<T>(leq: (T, T) -> bool, x: T, s: seq<T>, u: seq<T>)
    requires TotalPreorderOn(leq, u) && x in u && Among(s, u)
    requires SortedBy(leq, s)
    ensures SortedBy(leq, Insert(leq, x, s))
  {
    if s == [] {
    } else if leq(x, s[0]) {
      assert s[0] in u;
      forall j | 0 <= j < |s| ensures leq(x, s[j]) {
        assert s[j] in u;
        assert j == 0 || leq(s[0], s[j]);
      }
    } else {
      var r := Insert(leq, x, s[1..]);
      InsertSorted(leq, x, s[1..], u);
      assert leq(s[0], x) by { assert s[0] in u; }
      InsertKeepsElements(leq, x, s[1..]);
      forall j | 0 <= j < |r| ensures leq(s[0], r[j]) {
        assert r[j] in multiset(r);
        if r[j] != x {
          assert r[j] in multiset(s[1..]);
          var k :| 0 <= k < |s[1..]| && s[1..][k] == r[j];
          assert leq(s[0], s[k + 1]);
        }
      }
    }
  }

  lemma {:induction false} SortSortsAmong<T>(leq: (T, T) -> bool, s: seq<T>, u: seq<T>)
    requires TotalPreorderOn(leq, u) && Among(s, u)
    ensures SortedBy(leq, Sort(leq, s))
  {
    if s != [] {
      SortSortsAmong(leq, s[1..], u);
      var t := Sort(leq, s[1..]);
      SameElements(t, s[1..]);
      assert s[0] in u;
      forall x | x in t ensures x in u {
        assert x in multiset(t);
        assert x in multiset(s[1..]);
        assert x in s[1..];
        assert x in s;
      }
      InsertSorted(leq, s[0], t, u);
    }
  }

  lemma SortSorts<T>(leq: (T, T) -> bool, s: seq<T>)
    requires TotalPreorderOn(leq, s)
    ensures SortedBy(leq, Sort(leq, s))
  {
    SortSortsAmong(leq, s, s);
  }

  lemma HeadsAgree<T>(leq: (T, T) -> bool, s: seq<T>, t: seq<T>, u: seq<T>)
    requires s != [] && t != [] && s[0] in t && t[0] in s
    requires SortedBy(leq, s) && SortedBy(leq, t)
    requires AntisymmetricOn(leq, u) && s[0] in u && t[0] in u
    ensures s[0] == t[0]
  {
    var i :| 0 <= i < |t| && t[i] == s[0];
    var j :| 0 <= j < |s| && s[j] == t[0];
  }

  lemma TailElements<T>(s: seq<T>)
    requires s != []
    ensures multiset(s[1..]) == multiset(s) - multiset{s[0]}
  {
    assert s == [s[0]] + s[1..];
  }

  /** A sorted arrangement is unique when ties are equalities. */
  lemma {:induction false} SortedIsUnique<T>(leq: (T, T) -> bool, s: seq<T>, t: seq<T>, u: seq<T>)
    requires multiset(s) == multiset(t)
    requires SortedBy(leq, s) && SortedBy(leq, t)
    requires AntisymmetricOn(leq, u) && Among(s, u)
    ensures s == t
  {
    SameElements(s, t);
    if s != [] {
      assert s[0] in s && t[0] in t;
      HeadsAgree(leq, s, t, u);
      TailElements(s);
      TailElements(t);
      SortedIsUnique(leq, s[1..], t[1..], u);
      assert s == [s[0]] + s[1..] && t == [t[0]] + t[1..];
    }
  }

  /** Sorting forgets the order its input came in. */
  lemma SortForgetsOrder<T>(leq: (T, T) -> bool, s: seq<T>, t: seq<T>)
    requires multiset(s) == multiset(t)
    requires TotalPreorderOn(leq, s) && AntisymmetricOn(leq, s)
    ensures Sort(leq, s) == Sort(leq, t)
  {
    SameElements(s, t);
    SortSortsAmong(leq, s, s);
    SortSortsAmong(leq, t, s);
    SameElements(Sort(leq, s), s);
    forall x | x in Sort(leq, s) ensures x in s { assert x in multiset(Sort(leq, s)); }
    SortedIsUnique(leq, Sort(leq, s), Sort(leq, t), s);
  }

  // ----- sequences of strings

  function Strings(): (string, string) -> bool {
    (a, b) => StrLeq(a, b)
  }

  lemma StringsAreOrdered(s: seq<string>)
    ensures TotalPreorderOn(Strings(), s) && AntisymmetricOn(Strings(), s)
  {
    forall x: string, y: string ensures StrLeq(x, y) || StrLeq(y, x) { StrLeqTotal(x, y); }
    forall x: string, y: string, z: string | StrLeq(x, y) && StrLeq(y, z) ensures StrLeq(x, z) {
      StrLeqTransitive(x, y, z);
    }
    forall x: string, y: string | StrLeq(x, y) && StrLeq(y, x) ensures x == y {
      StrLeqAntisymmetric(x, y);
    }
  }
}
