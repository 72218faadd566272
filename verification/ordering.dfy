/** The order results are listed in: by date, then by miles, the way Python
    compares the tuples `(date, miles)`; and the stable sort that uses it. */
module Ordering {
  import opened Strings
  import opened Records

  /** `(a.date, a.miles) <= (b.date, b.miles)` as Python compares tuples. */
  predicate KeyLe(a: MatchResult, b: MatchResult) {
    StrLess(a.date, b.date) || (a.date == b.date && a.miles <= b.miles)
  }

  lemma KeyLeTotal(a: MatchResult, b: MatchResult)
    ensures KeyLe(a, b) || KeyLe(b, a)
  {
    StrLessTotal(a.date, b.date);
  }

  lemma KeyLeTransitive(a: MatchResult, b: MatchResult, c: MatchResult)
    requires KeyLe(a, b) && KeyLe(b, c)
    ensures KeyLe(a, c)
  {
    if StrLess(a.date, b.date) && StrLess(b.date, c.date) {
      StrLessTransitive(a.date, b.date, c.date);
    }
  }

  /** Ascending by `(date, miles)`. */
  ghost predicate Sorted(s: seq<MatchResult>) {
    forall i, j :: 0 <= i < j < |s| ==> KeyLe(s[i], s[j])
  }

  /** Inserts `x` after every element whose key is not greater than its own,
      so equal keys keep their arrival order. */
  function Insert(s: seq<MatchResult>, x: MatchResult): (r: seq<MatchResult>)
    ensures |r| == |s| + 1
    decreases |s|
  {
    if s == [] then [x]
    else if KeyLe(s[0], x) then [s[0]] + Insert(s[1..], x)
    else [x] + s
  }

  lemma {:induction false} InsertPermutes(s: seq<MatchResult>, x: MatchResult)
    ensures multiset(Insert(s, x)) == multiset(s) + multiset{x}
    decreases |s|
  {
    if s != [] && KeyLe(s[0], x) {
      InsertPermutes(s[1..], x);
      assert s == [s[0]] + s[1..];
    }
  }

  lemma {:induction false} InsertSorted(s: seq<MatchResult>, x: MatchResult)
    requires Sorted(s)
    ensures Sorted(Insert(s, x))
    decreases |s|
  {
    if s == [] {
    } else if KeyLe(s[0], x) {
      var rest := Insert(s[1..], x);
      InsertSorted(s[1..], x);
      InsertPermutes(s[1..], x);
      forall k | 0 <= k < |rest| ensures KeyLe(s[0], rest[k]) {
        assert rest[k] in multiset(rest);
        if rest[k] != x {
          assert rest[k] in multiset(s[1..]);
          var m :| 0 <= m < |s[1..]| && s[1..][m] == rest[k];
          assert s[m + 1] == rest[k];
        }
      }
    } else {
      KeyLeTotal(s[0], x);
      forall k | 1 <= k < |s| ensures KeyLe(x, s[k]) {
        KeyLeTransitive(x, s[0], s[k]);
      }
    }
  }

  /** The stable sort applied to each group: insertion of each element in turn. */
  function SortByDateMiles(s: seq<MatchResult>): seq<MatchResult>
    decreases |s|
  {
    if s == [] then [] else Insert(SortByDateMiles(s[..|s| - 1]), s[|s| - 1])
  }

  /** Sorting one more element inserts it into the sorted prefix. */
  lemma SortStep(init: seq<MatchResult>, x: MatchResult)
    requires Sorted(SortByDateMiles(init)) && multiset(SortByDateMiles(init)) == multiset(init)
    ensures Sorted(SortByDateMiles(init + [x]))
    ensures multiset(SortByDateMiles(init + [x])) == multiset(init + [x])
  {
    var t := init + [x];
    assert t[..|t| - 1] == init && t[|t| - 1] == x;
    InsertSorted(SortByDateMiles(init), x);
    InsertPermutes(SortByDateMiles(init), x);
  }

  /** The sorted group is ascending by `(date, miles)` and holds exactly the
      elements of the input, each as often as before. */
  lemma {:induction false} SortByDateMilesCorrect(s: seq<MatchResult>)
    ensures Sorted(SortByDateMiles(s))
    ensures multiset(SortByDateMiles(s)) == multiset(s)
    ensures |SortByDateMiles(s)| == |s|
    decreases |s|
  {
    if s != [] {
      var init := s[..|s| - 1];
      SortByDateMilesCorrect(init);
      SortStep(init, s[|s| - 1]);
      assert s == init + [s[|s| - 1]];
    }
  }

  /** `x` has the key `(d, m)`. */
  predicate HasKey(x: MatchResult, d: string, m: int) {
    x.date == d && x.miles == m
  }

  /** The elements of `s` whose key is `(d, m)`, in their order in `s`. */
  function WithKey(s: seq<MatchResult>, d: string, m: int): seq<MatchResult>
    decreases |s|
  {
    if s == [] then []
    else (if HasKey(s[0], d, m) then [s[0]] else []) + WithKey(s[1..], d, m)
  }

  lemma {:induction false} WithKeyAppend(a: seq<MatchResult>, b: seq<MatchResult>, d: string, m: int)
    ensures WithKey(a + b, d, m) == WithKey(a, d, m) + WithKey(b, d, m)
    decreases |a|
  {
    if a == [] {
      assert a + b == b;
    } else {
      var ab := a + b;
      assert ab[0] == a[0] && ab[1..] == a[1..] + b;
      WithKeyAppend(a[1..], b, d, m);
      var head := if HasKey(a[0], d, m) then [a[0]] else [];
      assert WithKey(ab, d, m) == head + WithKey(a[1..] + b, d, m);
      assert WithKey(a, d, m) == head + WithKey(a[1..], d, m);
    }
  }

  lemma {:induction false} WithKeyNone(s: seq<MatchResult>, d: string, m: int)
    requires forall j :: 0 <= j < |s| ==> !HasKey(s[j], d, m)
    ensures WithKey(s, d, m) == []
    decreases |s|
  {
    if s != [] {
      WithKeyNone(s[1..], d, m);
    }
  }

  /** In a sorted list whose first element is above `x`, no element shares
      `x`'s key. */
  lemma NoneAfterGreater(t: seq<MatchResult>, x: MatchResult)
    requires Sorted(t) && t != [] && !KeyLe(t[0], x)
    ensures forall j :: 0 <= j < |t| ==> !HasKey(t[j], x.date, x.miles)
  {
    forall j | 0 <= j < |t| ensures !HasKey(t[j], x.date, x.miles) {
      if j > 0 {
        assert KeyLe(t[0], t[j]);
      }
    }
  }

  lemma SortedTail(t: seq<MatchResult>)
    requires Sorted(t) && t != []
    ensures Sorted(t[1..])
  {
    forall i, j | 0 <= i < j < |t| - 1 ensures KeyLe(t[1..][i], t[1..][j]) {
      assert t[1..][i] == t[i + 1] && t[1..][j] == t[j + 1];
    }
  }

  /** Inserting into a sorted list puts the new element after every element
      with the same key. */
  lemma {:induction false} InsertStable(t: seq<MatchResult>, x: MatchResult, d: string, m: int)
    requires Sorted(t)
    ensures WithKey(Insert(t, x), d, m) == WithKey(t, d, m) + (if HasKey(x, d, m) then [x] else [])
    decreases |t|
  {
    if t == [] {
      assert WithKey([x], d, m) == (if HasKey(x, d, m) then [x] else []) + WithKey([], d, m);
    } else {
      var r := Insert(t, x);
      var h := if HasKey(t[0], d, m) then [t[0]] else [];
      var hx := if HasKey(x, d, m) then [x] else [];
      assert WithKey(t, d, m) == h + WithKey(t[1..], d, m);
      if KeyLe(t[0], x) {
        assert r == [t[0]] + Insert(t[1..], x);
        assert r[0] == t[0] && r[1..] == Insert(t[1..], x);
        SortedTail(t);
        InsertStable(t[1..], x, d, m);
        assert WithKey(r, d, m) == h + WithKey(r[1..], d, m);
      } else {
        assert r == [x] + t;
        assert r[0] == x && r[1..] == t;
        assert WithKey(r, d, m) == hx + WithKey(t, d, m);
        if HasKey(x, d, m) {
          NoneAfterGreater(t, x);
          WithKeyNone(t, d, m);
        }
      }
    }
  }

  /** The sort is stable: the results that share a `(date, miles)` key come
      out in the order they went in. */
  lemma {:induction false} SortStable(s: seq<MatchResult>, d: string, m: int)
    ensures WithKey(SortByDateMiles(s), d, m) == WithKey(s, d, m)
    decreases |s|
  {
    if s != [] {
      var init, last := s[..|s| - 1], s[|s| - 1];
      SortStable(init, d, m);
      SortByDateMilesCorrect(init);
      InsertStable(SortByDateMiles(init), last, d, m);
      WithKeyAppend(init, [last], d, m);
      assert s == init + [last];
      assert [last][1..] == [];
    }
  }

  /** Worked example: two results with equal miles dated 2025-12-10 and
      2025-12-06 come out with 2025-12-06 first. */
  lemma EarlierDateFirst(a: MatchResult, b: MatchResult)
    requires a.date == "2025-12-10" && b.date == "2025-12-06" && a.miles == b.miles
    ensures SortByDateMiles([a, b]) == [b, a]
  {
    assert a.date[..8] == b.date[..8] && b.date[8] < a.date[8];
    StrLessAt(b.date, a.date, 8);
    StrLessAsymmetric(b.date, a.date);
    assert a.date != b.date;
    assert !KeyLe(a, b);
    assert [a, b][..1] == [a];
    assert [a][..0] == [];
    assert SortByDateMiles([a]) == [a];
    assert Insert([a], b) == [b, a];
  }
}
