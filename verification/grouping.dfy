/** Grouping of results by period, program or route name, keeping groups in
    the order their keys first appear, as Python's insertion-ordered dicts do. */
module Grouping {
  import opened Records

  /** The field results are grouped by. */
  datatype GroupKey = ByPeriod | ByProgram | ByRoute

  function KeyOf(m: MatchResult, g: GroupKey): string {
    match g
    case ByPeriod => m.period
    case ByProgram => m.program
    case ByRoute => m.routeName
  }

  /** The results whose key is `k`, in their original order (one dict entry's list). */
  function Select(rs: seq<MatchResult>, g: GroupKey, k: string): seq<MatchResult>
    decreases |rs|
  {
    if rs == [] then []
    else Select(rs[..|rs| - 1], g, k) + (if KeyOf(rs[|rs| - 1], g) == k then [rs[|rs| - 1]] else [])
  }

  /** The distinct keys in order of first appearance (the dict's keys). */
  function Keys(rs: seq<MatchResult>, g: GroupKey): seq<string>
    decreases |rs|
  {
    if rs == [] then []
    else
      var ks := Keys(rs[..|rs| - 1], g);
      var k := KeyOf(rs[|rs| - 1], g);
      if k in ks then ks else ks + [k]
  }

  ghost predicate Distinct(ks: seq<string>) {
    forall i, j :: 0 <= i < j < |ks| ==> ks[i] != ks[j]
  }

  lemma SelectSnoc(rs: seq<MatchResult>, m: MatchResult, g: GroupKey, k: string)
    ensures Select(rs + [m], g, k) == Select(rs, g, k) + (if KeyOf(m, g) == k then [m] else [])
  {
    assert (rs + [m])[..|rs|] == rs;
  }

  lemma KeysSnoc(rs: seq<MatchResult>, m: MatchResult, g: GroupKey)
    ensures Keys(rs + [m], g) ==
      if KeyOf(m, g) in Keys(rs, g) then Keys(rs, g) else Keys(rs, g) + [KeyOf(m, g)]
  {
    assert (rs + [m])[..|rs|] == rs;
  }

  /** A group holds exactly the results with its key, each as often as in the input. */
  lemma {:induction false} SelectCounts(rs: seq<MatchResult>, g: GroupKey, k: string)
    ensures forall x :: multiset(Select(rs, g, k))[x] == if KeyOf(x, g) == k then multiset(rs)[x] else 0
    decreases |rs|
  {
    if rs != [] {
      var init := rs[..|rs| - 1];
      SelectCounts(init, g, k);
      assert rs == init + [rs[|rs| - 1]];
    }
  }

  /** A group only holds results of the input. */
  lemma SelectMembers(rs: seq<MatchResult>, g: GroupKey, k: string)
    ensures forall x :: x in Select(rs, g, k) ==> x in rs
  {
    SelectCounts(rs, g, k);
    forall x | x in Select(rs, g, k) ensures x in rs {
      assert x in multiset(Select(rs, g, k));
    }
  }

  /** A key is listed exactly when some result has it. */
  lemma {:induction false} KeysExact(rs: seq<MatchResult>, g: GroupKey)
    ensures forall k :: k in Keys(rs, g) <==> Select(rs, g, k) != []
    ensures forall k :: k in Keys(rs, g) <==> exists m :: m in rs && KeyOf(m, g) == k
    decreases |rs|
  {
    if rs != [] {
      var init := rs[..|rs| - 1];
      var m := rs[|rs| - 1];
      KeysExact(init, g);
      assert rs == init + [m];
      forall k ensures k in Keys(rs, g) <==> Select(rs, g, k) != [] {
        SelectSnoc(init, m, g, k);
      }
    }
  }

  /** No key is listed twice. */
  lemma {:induction false} KeysDistinct(rs: seq<MatchResult>, g: GroupKey)
    ensures Distinct(Keys(rs, g))
    decreases |rs|
  {
    if rs != [] {
      KeysDistinct(rs[..|rs| - 1], g);
    }
  }

  /** Total size of the groups of `ks`. */
  function SumSizes(rs: seq<MatchResult>, g: GroupKey, ks: seq<string>): nat
    decreases |ks|
  {
    if ks == [] then 0
    else SumSizes(rs, g, ks[..|ks| - 1]) + |Select(rs, g, ks[|ks| - 1])|
  }

  /** Occurrences of `k` in `ks`. */
  function Occurrences(ks: seq<string>, k: string): nat
    decreases |ks|
  {
    if ks == [] then 0
    else Occurrences(ks[..|ks| - 1], k) + (if ks[|ks| - 1] == k then 1 else 0)
  }

  lemma {:induction false} OccurrencesDistinct(ks: seq<string>, k: string)
    requires Distinct(ks)
    ensures Occurrences(ks, k) == if k in ks then 1 else 0
    decreases |ks|
  {
    if ks != [] {
      var init := ks[..|ks| - 1];
      assert Distinct(init);
      OccurrencesDistinct(init, k);
      assert ks == init + [ks[|ks| - 1]];
    }
  }

  lemma {:induction false} SumSizesSnoc(rs: seq<MatchResult>, m: MatchResult, g: GroupKey, ks: seq<string>)
    ensures SumSizes(rs + [m], g, ks) == SumSizes(rs, g, ks) + Occurrences(ks, KeyOf(m, g))
    decreases |ks|
  {
    if ks != [] {
      SumSizesSnoc(rs, m, g, ks[..|ks| - 1]);
      SelectSnoc(rs, m, g, ks[|ks| - 1]);
    }
  }

  lemma SumSizesAppendKey(rs: seq<MatchResult>, g: GroupKey, ks: seq<string>, k: string)
    ensures SumSizes(rs, g, ks + [k]) == SumSizes(rs, g, ks) + |Select(rs, g, k)|
  {
    assert (ks + [k])[..|ks|] == ks;
  }

  /** Adding one result adds one to the total size of the groups. */
  lemma PartitionStep(init: seq<MatchResult>, m: MatchResult, g: GroupKey)
    requires SumSizes(init, g, Keys(init, g)) == |init|
    ensures SumSizes(init + [m], g, Keys(init + [m], g)) == |init| + 1
  {
    var ks, k := Keys(init, g), KeyOf(m, g);
    KeysSnoc(init, m, g);
    KeysDistinct(init, g);
    OccurrencesDistinct(ks, k);
    SumSizesSnoc(init, m, g, ks);
    if k !in ks {
      SumSizesAppendKey(init + [m], g, ks, k);
      KeysExact(init, g);
      SelectSnoc(init, m, g, k);
    }
  }

  /** The groups partition the input: their sizes add up to its length. */
  lemma {:induction false} PartitionSize(rs: seq<MatchResult>, g: GroupKey)
    ensures SumSizes(rs, g, Keys(rs, g)) == |rs|
    decreases |rs|
  {
    if rs != [] {
      var init := rs[..|rs| - 1];
      PartitionSize(init, g);
      PartitionStep(init, rs[|rs| - 1], g);
      assert rs == init + [rs[|rs| - 1]];
    }
  }

  lemma {:induction false} SelectAppend(a: seq<MatchResult>, b: seq<MatchResult>, g: GroupKey, k: string)
    ensures Select(a + b, g, k) == Select(a, g, k) + Select(b, g, k)
    decreases |b|
  {
    if b == [] {
      assert a + b == a;
    } else {
      var b', last := b[..|b| - 1], b[|b| - 1];
      var ab := a + b;
      var tail := if KeyOf(last, g) == k then [last] else [];
      assert ab[..|ab| - 1] == a + b' && ab[|ab| - 1] == last;
      assert Select(ab, g, k) == Select(a + b', g, k) + tail;
      assert Select(b, g, k) == Select(b', g, k) + tail;
      SelectAppend(a, b', g, k);
    }
  }

  /** The result at index `i` sits in its group right after the group's
      results from before `i`. */
  lemma SelectPosition(rs: seq<MatchResult>, g: GroupKey, k: string, i: nat)
    requires i < |rs| && KeyOf(rs[i], g) == k
    ensures |Select(rs[..i], g, k)| < |Select(rs, g, k)|
    ensures Select(rs, g, k)[|Select(rs[..i], g, k)|] == rs[i]
  {
    assert rs == rs[..i] + ([rs[i]] + rs[i + 1..]);
    SelectAppend(rs[..i], [rs[i]] + rs[i + 1..], g, k);
    SelectAppend([rs[i]], rs[i + 1..], g, k);
    SelectSnoc([], rs[i], g, k);
    assert [] + [rs[i]] == [rs[i]];
  }

  /** A group keeps the input order: of two results with its key, the
      earlier one in the input comes earlier in the group. */
  lemma SelectKeepsOrder(rs: seq<MatchResult>, g: GroupKey, k: string, i: nat, j: nat)
    requires i < j < |rs| && KeyOf(rs[i], g) == k && KeyOf(rs[j], g) == k
    ensures exists p, q ::
              0 <= p < q < |Select(rs, g, k)| && Select(rs, g, k)[p] == rs[i] && Select(rs, g, k)[q] == rs[j]
  {
    SelectPosition(rs, g, k, i);
    SelectPosition(rs, g, k, j);
    SelectPrefixGrows(rs, g, k, i, j);
  }

  /** A prefix that takes in one more result with key `k` has a longer group. */
  lemma SelectPrefixGrows(rs: seq<MatchResult>, g: GroupKey, k: string, i: nat, j: nat)
    requires i < j <= |rs| && KeyOf(rs[i], g) == k
    ensures |Select(rs[..i], g, k)| < |Select(rs[..j], g, k)|
  {
    var mid := rs[i..j];
    assert rs[..j] == rs[..i] + mid;
    SelectAppend(rs[..i], mid, g, k);
    assert mid[0] == rs[i] && mid[..0] == [];
    SelectPosition(mid, g, k, 0);
  }

  /** The keys of a prefix of the results are a prefix of the keys. */
  lemma {:induction false} KeysPrefix(rs: seq<MatchResult>, g: GroupKey, n: nat)
    requires n <= |rs|
    ensures Keys(rs[..n], g) <= Keys(rs, g)
    decreases |rs|
  {
    if n < |rs| {
      var init := rs[..|rs| - 1];
      assert rs[..n] == init[..n];
      KeysPrefix(init, g, n);
      assert rs == init + [rs[|rs| - 1]];
      KeysSnoc(init, rs[|rs| - 1], g);
    } else {
      assert rs[..n] == rs;
    }
  }

  lemma {:induction false} KeyListed(rs: seq<MatchResult>, g: GroupKey, i: nat)
    requires i < |rs|
    ensures KeyOf(rs[i], g) in Keys(rs, g)
    decreases |rs|
  {
    var init := rs[..|rs| - 1];
    assert rs == init + [rs[|rs| - 1]];
    KeysSnoc(init, rs[|rs| - 1], g);
    if i < |init| {
      KeyListed(init, g, i);
    }
  }

  lemma {:induction false} KeyUnlisted(rs: seq<MatchResult>, g: GroupKey, k: string)
    requires forall l :: 0 <= l < |rs| ==> KeyOf(rs[l], g) != k
    ensures k !in Keys(rs, g)
    decreases |rs|
  {
    if rs != [] {
      var init := rs[..|rs| - 1];
      assert rs == init + [rs[|rs| - 1]];
      KeysSnoc(init, rs[|rs| - 1], g);
      KeyUnlisted(init, g, k);
    }
  }

  /** Keys are listed in order of first appearance: when the key of `rs[j]`
      first appears at `j`, the key of any earlier result comes before it. */
  lemma KeysFirstAppearanceOrder(rs: seq<MatchResult>, g: GroupKey, i: nat, j: nat)
    requires i < j < |rs|
    requires forall l :: 0 <= l < j ==> KeyOf(rs[l], g) != KeyOf(rs[j], g)
    ensures exists p, q ::
              0 <= p < q < |Keys(rs, g)| && Keys(rs, g)[p] == KeyOf(rs[i], g) && Keys(rs, g)[q] == KeyOf(rs[j], g)
  {
    var pre := rs[..j];
    var ks := Keys(pre, g);
    KeyListed(pre, g, i);
    KeyUnlisted(pre, g, KeyOf(rs[j], g));
    assert rs[..j + 1] == pre + [rs[j]];
    KeysSnoc(pre, rs[j], g);
    KeysPrefix(rs, g, j + 1);
    var p :| 0 <= p < |ks| && ks[p] == KeyOf(rs[i], g);
    var all := Keys(rs, g);
    assert all[..|ks| + 1] == ks + [KeyOf(rs[j], g)];
    assert all[p] == ks[p] && all[|ks|] == KeyOf(rs[j], g);
  }
}
