/** `Array.prototype.sort` with a comparator, as section 23.1.3.30 of
    ECMA-262 (2023 edition) requires it: a stable sort. The comparator is
    represented by `le(a, b)`, "the comparator returns a value <= 0 for
    (a, b)", which for every comparator the application passes is a total
    preorder. */
module Sorting {
  import opened Seqs

  ghost predicate TotalPreorder<T(!new)>(le: (T, T) -> bool) {
    && (forall a, b :: le(a, b) || le(b, a))
    && (forall a, b, c :: le(a, b) && le(b, c) ==> le(a, c))
  }

  ghost predicate SortedBy<T>(s: seq<T>, le: (T, T) -> bool) {
    forall i, j :: 0 <= i < j < |s| ==> le(s[i], s[j])
  }

  /** The elements of `s` that `le` ranks equal to `x`, in their order in `s`. */
  function Equivalents<T(!new)>(s: seq<T>, le: (T, T) -> bool, x: T): (r: seq<T>)
    ensures forall y :: y in r ==> y in s && le(x, y) && le(y, x)
  {
    if s == [] then []
    else (if le(x, s[0]) && le(s[0], x) then [s[0]] else []) + Equivalents(s[1..], le, x)
  }

  /** Places `x` in front of the first element it does not rank after. */
  function Insert<T>(x: T, s: seq<T>, le: (T, T) -> bool): (r: seq<T>)
    ensures multiset(r) == multiset(s) + multiset{x}
  {
    if s == [] then [x]
    else if le(x, s[0]) then [x] + s
    else
      assert s == [s[0]] + s[1..];
      [s[0]] + Insert(x, s[1..], le)
  }

  /** Insertion sort; inserting each element in front of its equals keeps
      equal elements in their input order. */
  function SortBy<T>(s: seq<T>, le: (T, T) -> bool): (r: seq<T>)
    ensures multiset(r) == multiset(s)
    ensures |r| == |s|
  {
    if s == [] then []
    else
      assert s == [s[0]] + s[1..];
      Insert(s[0], SortBy(s[1..], le), le)
  }

  /** Sorting neither adds nor drops an element. */
  lemma SortByMembers<T>(s: seq<T>, le: (T, T) -> bool)
    ensures forall x :: x in SortBy(s, le) <==> x in s
  {
    var r := SortBy(s, le);
    forall x ensures x in r <==> x in s {
      assert x in r <==> x in multiset(r);
      assert x in s <==> x in multiset(s);
    }
  }

  lemma {:induction false} InsertSorted<T(!new)>(x: T, s: seq<T>, le: (T, T) -> bool)
    requires TotalPreorder(le) && SortedBy(s, le)
    ensures SortedBy(Insert(x, s, le), le)
  {
    if s != [] && !le(x, s[0]) {
      var t := Insert(x, s[1..], le);
      InsertSorted(x, s[1..], le);
      assert le(s[0], x);
      forall y | y in t ensures le(s[0], y) {
        assert y in multiset(t);
        if y != x {
          assert y in multiset(s[1..]);
          var j :| 0 <= j < |s[1..]| && s[1..][j] == y;
          assert s[j + 1] == y;
        }
      }
      var r := [s[0]] + t;
      forall i, j | 0 <= i < j < |r| ensures le(r[i], r[j]) {
        assert r[j] == t[j - 1];
        if i > 0 {
          assert r[i] == t[i - 1];
        }
      }
    }
  }

  /** The result is ordered under `le`. */
  lemma {:induction false} SortBySorted<T(!new)>(s: seq<T>, le: (T, T) -> bool)
    requires TotalPreorder(le)
    ensures SortedBy(SortBy(s, le), le)
  {
    if s != [] {
      SortBySorted(s[1..], le);
      InsertSorted(s[0], SortBy(s[1..], le), le);
    }
  }

  lemma Transitive<T(!new)>(le: (T, T) -> bool, a: T, b: T, c: T)
    requires TotalPreorder(le)
    ensures le(a, b) && le(b, c) ==> le(a, c)
  {
  }

  lemma PrependEither<T>(a: seq<T>, b: seq<T>, c: seq<T>)
    requires a == [] || b == []
    ensures a + (b + c) == b + (a + c)
  {
  }

  lemma {:induction false} InsertEquivalents<T(!new)>(y: T, t: seq<T>, le: (T, T) -> bool, x: T)
    requires TotalPreorder(le)
    ensures Equivalents(Insert(y, t, le), le, x)
         == (if le(x, y) && le(y, x) then [y] else []) + Equivalents(t, le, x)
  {
    if t == [] {
    } else if le(y, t[0]) {
      assert ([y] + t)[1..] == t;
    } else {
      var h0 := if le(x, t[0]) && le(t[0], x) then [t[0]] else [];
      var hy := if le(x, y) && le(y, x) then [y] else [];
      var rest := Insert(y, t[1..], le);
      assert ([t[0]] + rest)[1..] == rest;
      Transitive(le, y, x, t[0]);
      calc {
        Equivalents(Insert(y, t, le), le, x);
        Equivalents([t[0]] + rest, le, x);
        h0 + Equivalents(rest, le, x);
        { InsertEquivalents(y, t[1..], le, x); }
        h0 + (hy + Equivalents(t[1..], le, x));
        { PrependEither(h0, hy, Equivalents(t[1..], le, x)); }
        hy + (h0 + Equivalents(t[1..], le, x));
        hy + Equivalents(t, le, x);
      }
    }
  }

  /** Stability: the elements ranked equal to any `x` appear in the result in
      exactly their input order. */
  lemma {:induction false} SortByStable<T(!new)>(s: seq<T>, le: (T, T) -> bool, x: T)
    requires TotalPreorder(le)
    ensures Equivalents(SortBy(s, le), le, x) == Equivalents(s, le, x)
  {
    if s != [] {
      SortByStable(s[1..], le, x);
      SortBySorted(s[1..], le);
      InsertEquivalents(s[0], SortBy(s[1..], le), le, x);
    }
  }

  lemma {:induction false} EquivalentsHead<T(!new)>(s: seq<T>, le: (T, T) -> bool)
    requires TotalPreorder(le) && s != []
    ensures Equivalents(s, le, s[0]) == [s[0]] + Equivalents(s[1..], le, s[0])
  {
    assert le(s[0], s[0]);
  }

  /** Only the empty sequence has no class of equals at all. */
  lemma EquivalentsEmpty<T(!new)>(b: seq<T>, le: (T, T) -> bool)
    requires TotalPreorder(le)
    requires forall x :: Equivalents(b, le, x) == []
    ensures b == []
  {
    if b != [] {
      EquivalentsHead(b, le);
      assert false;
    }
  }

  /** Two ordered arrangements of the same classes of equals start alike. */
  lemma StableArrangementHeads<T(!new)>(a: seq<T>, b: seq<T>, le: (T, T) -> bool)
    requires TotalPreorder(le) && SortedBy(a, le) && SortedBy(b, le)
    requires a != [] && b != []
    requires forall x :: Equivalents(a, le, x) == Equivalents(b, le, x)
    ensures a[0] == b[0]
  {
    var x, y := a[0], b[0];
    EquivalentsHead(a, le);
    EquivalentsHead(b, le);
    // some element of b is equivalent to x, and y is ranked no later than it
    var ex := Equivalents(b, le, x);
    assert ex == Equivalents(a, le, x) && ex != [] && ex[0] in ex;
    var jb :| 0 <= jb < |b| && b[jb] == ex[0];
    assert jb == 0 || le(y, b[jb]);
    assert le(y, x);
    var ey := Equivalents(a, le, y);
    assert ey == Equivalents(b, le, y) && ey != [] && ey[0] in ey;
    var ja :| 0 <= ja < |a| && a[ja] == ey[0];
    assert ja == 0 || le(x, a[ja]);
    assert le(x, y);
    assert Equivalents(b, le, x) == [y] + Equivalents(b[1..], le, x);
  }

  /** An ordered arrangement that keeps every class of equals in input order
      is unique: two such arrangements of the same classes coincide. */
  lemma {:induction false} StableArrangementUnique<T(!new)>(a: seq<T>, b: seq<T>, le: (T, T) -> bool)
    requires TotalPreorder(le) && SortedBy(a, le) && SortedBy(b, le)
    requires forall x :: Equivalents(a, le, x) == Equivalents(b, le, x)
    ensures a == b
    decreases |a| + |b|
  {
    if a == [] {
      EquivalentsEmpty(b, le);
    } else if b == [] {
      EquivalentsEmpty(a, le);
    } else {
      StableArrangementHeads(a, b, le);
      var x := a[0];
      forall w ensures Equivalents(a[1..], le, w) == Equivalents(b[1..], le, w) {
        var h := if le(w, x) && le(x, w) then [x] else [];
        assert Equivalents(a, le, w) == h + Equivalents(a[1..], le, w);
        assert Equivalents(b, le, w) == h + Equivalents(b[1..], le, w);
        assert Equivalents(a[1..], le, w) == Equivalents(a, le, w)[|h|..];
        assert Equivalents(b[1..], le, w) == Equivalents(b, le, w)[|h|..];
      }
      StableArrangementUnique(a[1..], b[1..], le);
      assert a == [x] + a[1..] && b == [x] + b[1..];
    }
  }

  /** `SortBy` is the stable sort: it is the only ordered arrangement of `s`
      that keeps every class of equals in input order. */
  lemma SortByIsTheStableSort<T(!new)>(s: seq<T>, r: seq<T>, le: (T, T) -> bool)
    requires TotalPreorder(le) && SortedBy(r, le)
    requires forall x :: Equivalents(r, le, x) == Equivalents(s, le, x)
    ensures r == SortBy(s, le)
  {
    SortBySorted(s, le);
    forall x ensures Equivalents(SortBy(s, le), le, x) == Equivalents(r, le, x) {
      SortByStable(s, le, x);
    }
    StableArrangementUnique(SortBy(s, le), r, le);
  }

  /** Sorting never lets two keys collide that were distinct in the input. */
  lemma {:induction false} SortByDistinct<T(!new), K>(s: seq<T>, le: (T, T) -> bool, key: T -> K)
    requires DistinctBy(s, key)
    ensures DistinctBy(SortBy(s, le), key)
  {
    if s != [] {
      assert DistinctBy(s[1..], key) by {
        forall i, j | 0 <= i < j < |s| - 1 ensures key(s[1..][i]) != key(s[1..][j]) {
          assert s[1..][i] == s[i + 1] && s[1..][j] == s[j + 1];
        }
      }
      SortByDistinct(s[1..], le, key);
      var t := SortBy(s[1..], le);
      forall y | y in t ensures key(y) != key(s[0]) {
        assert y in multiset(s[1..]);
        var j :| 0 <= j < |s[1..]| && s[1..][j] == y;
        assert s[j + 1] == y;
      }
      InsertDistinct(s[0], t, le, key);
    }
  }

  lemma {:induction false} InsertDistinct<T(!new), K>(x: T, t: seq<T>, le: (T, T) -> bool, key: T -> K)
    requires DistinctBy(t, key)
    requires forall y :: y in t ==> key(y) != key(x)
    ensures DistinctBy(Insert(x, t, le), key)
  {
    if t == [] {
    } else if le(x, t[0]) {
      DistinctByCons(x, t, key);
    } else {
      assert DistinctBy(t[1..], key) by {
        forall i, j | 0 <= i < j < |t| - 1 ensures key(t[1..][i]) != key(t[1..][j]) {
          assert t[1..][i] == t[i + 1] && t[1..][j] == t[j + 1];
        }
      }
      InsertDistinct(x, t[1..], le, key);
      var u := Insert(x, t[1..], le);
      forall y | y in u ensures key(y) != key(t[0]) {
        assert y in multiset(u);
        if y != x {
          assert y in multiset(t[1..]);
          var j :| 0 <= j < |t[1..]| && t[1..][j] == y;
          assert t[j + 1] == y;
        }
      }
      DistinctByCons(t[0], u, key);
    }
  }
}
