/**
 * The list operations the order pages and the statistics share:
 * `OrderByDescending(...).ThenByDescending(...)` (a stable sort on a pair
 * key), `Take(n)`, and `GroupBy(name)` with a count and a sum per group.
 */
module Ranking {

  /** The pair `a` ranks at or before the pair `b`: the first component
      descending, then the second component descending. */
  predicate AtLeast(a: (int, int), b: (int, int)) {
    a.0 > b.0 || (a.0 == b.0 && a.1 >= b.1)
  }

  predicate SortedDesc<T>(s: seq<T>, key: T -> (int, int)) {
    forall i, j :: 0 <= i < j < |s| ==> AtLeast(key(s[i]), key(s[j]))
  }

  /** Put `x`, which came before every element of `s`, ahead of the first
      element it ranks at or before. */
  function Insert<T>(x: T, s: seq<T>, key: T -> (int, int)): (r: seq<T>)
    ensures |r| == |s| + 1
  {
    if s == [] || AtLeast(key(x), key(s[0])) then [x] + s
    else [s[0]] + Insert(x, s[1..], key)
  }

  /** Inserting keeps the elements, with `x` once more. */
  lemma {:induction false} InsertPermutes<T>(x: T, s: seq<T>, key: T -> (int, int))
    ensures multiset(Insert(x, s, key)) == multiset(s) + multiset{x}
    decreases |s|
  {
    if s != [] && !AtLeast(key(x), key(s[0])) {
      InsertPermutes(x, s[1..], key);
      assert s == [s[0]] + s[1..];
    }
  }

  /** A pair ranking at or before `x` and every element of `s` ranks at or
      before every element of their insertion. */
  lemma {:induction false} InsertBounded<T>(b: (int, int), x: T, s: seq<T>, key: T -> (int, int))
    requires AtLeast(b, key(x))
    requires forall i :: 0 <= i < |s| ==> AtLeast(b, key(s[i]))
    ensures forall i :: 0 <= i < |Insert(x, s, key)| ==> AtLeast(b, key(Insert(x, s, key)[i]))
    decreases |s|
  {
    if s != [] && !AtLeast(key(x), key(s[0])) {
      assert forall i :: 0 <= i < |s[1..]| ==> s[1..][i] == s[i + 1];
      InsertBounded(b, x, s[1..], key);
    }
  }

  lemma {:induction false} InsertSorted<T>(x: T, s: seq<T>, key: T -> (int, int))
    requires SortedDesc(s, key)
    ensures SortedDesc(Insert(x, s, key), key)
    decreases |s|
  {
    if s != [] && !AtLeast(key(x), key(s[0])) {
      var tail := s[1..];
      assert SortedDesc(tail, key) by {
        forall i, j | 0 <= i < j < |tail| ensures AtLeast(key(tail[i]), key(tail[j])) {
          assert tail[i] == s[i + 1] && tail[j] == s[j + 1];
        }
      }
      InsertSorted(x, tail, key);
      assert forall i :: 0 <= i < |tail| ==> AtLeast(key(s[0]), key(tail[i])) by {
        forall i | 0 <= i < |tail| ensures AtLeast(key(s[0]), key(tail[i])) {
          assert tail[i] == s[i + 1];
        }
      }
      InsertBounded(key(s[0]), x, tail, key);
    }
  }

  /** `OrderByDescending(k1).ThenByDescending(k2)` on a list in memory. */
  function SortDesc<T>(xs: seq<T>, key: T -> (int, int)): (r: seq<T>)
    ensures |r| == |xs|
  {
    if xs == [] then [] else Insert(xs[0], SortDesc(xs[1..], key), key)
  }

  /** The sort orders its input and keeps every element, as often as it occurs. */
  lemma {:induction false} SortDescSpec<T>(xs: seq<T>, key: T -> (int, int))
    ensures SortedDesc(SortDesc(xs, key), key)
    ensures multiset(SortDesc(xs, key)) == multiset(xs)
    decreases |xs|
  {
    if xs != [] {
      SortDescSpec(xs[1..], key);
      InsertSorted(xs[0], SortDesc(xs[1..], key), key);
      InsertPermutes(xs[0], SortDesc(xs[1..], key), key);
      assert xs == [xs[0]] + xs[1..];
    }
  }

  /** The elements of `s` whose key is `v`, in order. */
  function WithKey<T>(s: seq<T>, key: T -> (int, int), v: (int, int)): (r: seq<T>)
    ensures |r| <= |s|
  {
    if s == [] then []
    else (if key(s[0]) == v then [s[0]] else []) + WithKey(s[1..], key, v)
  }

  lemma {:induction false} InsertStable<T>(x: T, s: seq<T>, key: T -> (int, int), v: (int, int))
    requires SortedDesc(s, key)
    ensures WithKey(Insert(x, s, key), key, v) == (if key(x) == v then [x] else []) + WithKey(s, key, v)
    decreases |s|
  {
    if s == [] || AtLeast(key(x), key(s[0])) {
      assert Insert(x, s, key)[1..] == s;
    } else {
      assert SortedDesc(s[1..], key) by {
        forall i, j | 0 <= i < j < |s[1..]| ensures AtLeast(key(s[1..][i]), key(s[1..][j])) {
          assert s[1..][i] == s[i + 1] && s[1..][j] == s[j + 1];
        }
      }
      InsertStable(x, s[1..], key, v);
      assert Insert(x, s, key)[1..] == Insert(x, s[1..], key);
    }
  }

  /** The sort is stable: elements with equal keys keep their input order. */
  lemma {:induction false} SortStable<T>(xs: seq<T>, key: T -> (int, int), v: (int, int))
    ensures WithKey(SortDesc(xs, key), key, v) == WithKey(xs, key, v)
    decreases |xs|
  {
    if xs != [] {
      SortDescSpec(xs[1..], key);
      SortStable(xs[1..], key, v);
      InsertStable(xs[0], SortDesc(xs[1..], key), key, v);
    }
  }

  /** `Take(n)`. */
  function Take<T>(s: seq<T>, n: nat): (r: seq<T>)
    ensures |r| == if |s| < n then |s| else n
    ensures r == s[..|r|]
  {
    if |s| < n then s else s[..n]
  }

  /** The first `n` of a sorted list are the top `n`: none of the elements
      left out ranks strictly before any that was kept. */
  lemma TopN<T>(s: seq<T>, key: T -> (int, int), n: nat)
    requires SortedDesc(s, key)
    ensures var kept := Take(s, n);
      forall i, j :: 0 <= i < |kept| <= j < |s| ==> AtLeast(key(kept[i]), key(s[j]))
  {
  }

  /** The first `n` of the sorted input are elements of the input, in
      ranking order, and no element left out ranks before one kept. */
  lemma TopOfSort<T>(xs: seq<T>, key: T -> (int, int), n: nat)
    ensures var kept := Take(SortDesc(xs, key), n);
      && (forall x :: x in kept ==> x in xs)
      && SortedDesc(kept, key)
      && (forall x :: x in xs && x !in kept ==> forall k :: 0 <= k < |kept| ==> AtLeast(key(kept[k]), key(x)))
  {
    var sorted := SortDesc(xs, key);
    var kept := Take(sorted, n);
    SortDescSpec(xs, key);
    TopN(sorted, key, n);
    forall x | x in kept ensures x in xs {
      assert x in multiset(sorted);
    }
    forall x | x in xs && x !in kept ensures forall k :: 0 <= k < |kept| ==> AtLeast(key(kept[k]), key(x)) {
      assert x in multiset(sorted);
      var j :| 0 <= j < |sorted| && sorted[j] == x;
    }
  }

  /** A rearrangement of a list whose elements have distinct names still
      has distinct names. */
  lemma PermutationKeepsNamesDistinct<T>(xs: seq<T>, ys: seq<T>, name: T -> string)
    requires forall i, j :: 0 <= i < j < |xs| ==> name(xs[i]) != name(xs[j])
    requires multiset(ys) == multiset(xs)
    ensures forall i, j :: 0 <= i < j < |ys| ==> name(ys[i]) != name(ys[j])
  {
    forall i, j | 0 <= i < j < |ys| ensures name(ys[i]) != name(ys[j]) {
      if name(ys[i]) == name(ys[j]) {
        assert ys[i] in multiset(xs) && ys[j] in multiset(xs);
        var a :| 0 <= a < |xs| && xs[a] == ys[i];
        var b :| 0 <= b < |xs| && xs[b] == ys[j];
        assert a == b;
        assert multiset(ys)[ys[i]] >= 2 by {
          assert ys == ys[..j] + ys[j..];
          assert ys[..j][i] == ys[i];
          assert ys[j..][0] == ys[j];
        }
        OccursOnce(xs, a, name);
      }
    }
  }

  lemma OccursOnce<T>(xs: seq<T>, a: int, name: T -> string)
    requires forall i, j :: 0 <= i < j < |xs| ==> name(xs[i]) != name(xs[j])
    requires 0 <= a < |xs|
    ensures multiset(xs)[xs[a]] == 1
  {
    var x := xs[a];
    var before, after := xs[..a], xs[a + 1..];
    assert xs == before + [x] + after;
    assert x !in before by {
      forall k | 0 <= k < |before| ensures before[k] != x { assert before[k] == xs[k]; }
    }
    assert x !in after by {
      forall k | 0 <= k < |after| ensures after[k] != x { assert after[k] == xs[a + 1 + k]; }
    }
  }

  // ---------------------------------------------------------------------
  // GroupBy

  /** A group: its key, how many items it holds, and the sum of their amounts. */
  datatype Group = Group(name: string, count: int, total: int)

  function CountOf(items: seq<(string, int)>, name: string): (n: nat)
    ensures n <= |items|
  {
    if items == [] then 0
    else CountOf(items[..|items| - 1], name) + (if items[|items| - 1].0 == name then 1 else 0)
  }

  function SumOf(items: seq<(string, int)>, name: string): int {
    if items == [] then 0
    else SumOf(items[..|items| - 1], name) + (if items[|items| - 1].0 == name then items[|items| - 1].1 else 0)
  }

  predicate DistinctNames(groups: seq<Group>) {
    forall i, j :: 0 <= i < j < |groups| ==> groups[i].name != groups[j].name
  }

  /** The position of the group named `name`, or -1. */
  function GroupIndex(groups: seq<Group>, name: string): (r: int)
    ensures -1 <= r < |groups|
    ensures r >= 0 ==> groups[r].name == name
    ensures r == -1 <==> forall k :: 0 <= k < |groups| ==> groups[k].name != name
  {
    if groups == [] then -1
    else if groups[|groups| - 1].name == name then |groups| - 1
    else GroupIndex(groups[..|groups| - 1], name)
  }

  /** `GroupBy(item => item.name)` with `Count()` and `Sum(amount)` per
      group; groups appear in the order their names first occur. */
  function GroupBy(items: seq<(string, int)>): seq<Group> {
    if items == [] then []
    else
      var groups := GroupBy(items[..|items| - 1]);
      var item := items[|items| - 1];
      var k := GroupIndex(groups, item.0);
      if k == -1 then groups + [Group(item.0, 1, item.1)]
      else groups[k := Group(item.0, groups[k].count + 1, groups[k].total + item.1)]
  }

  /** `groups` has one group per distinct name of `items`, holding the count
      and the sum of the items with that name. */
  ghost predicate GroupsOf(items: seq<(string, int)>, groups: seq<Group>) {
    && DistinctNames(groups)
    && (forall i :: 0 <= i < |groups| ==>
          groups[i].count == CountOf(items, groups[i].name) && groups[i].total == SumOf(items, groups[i].name))
    && (forall name :: GroupIndex(groups, name) >= 0 <==> CountOf(items, name) > 0)
  }

  lemma CountSnoc(init: seq<(string, int)>, item: (string, int), name: string)
    ensures CountOf(init + [item], name) == CountOf(init, name) + (if item.0 == name then 1 else 0)
    ensures SumOf(init + [item], name) == SumOf(init, name) + (if item.0 == name then item.1 else 0)
  {
    assert (init + [item])[..|init|] == init;
  }

  /** Lists of groups with the same names, position by position, find a name at the same place. */
  lemma {:induction false} GroupIndexSameNames(a: seq<Group>, b: seq<Group>, name: string)
    requires |a| == |b| && forall i :: 0 <= i < |a| ==> a[i].name == b[i].name
    ensures GroupIndex(a, name) == GroupIndex(b, name)
    decreases |a|
  {
    if a != [] {
      GroupIndexSameNames(a[..|a| - 1], b[..|b| - 1], name);
    }
  }

  /** An item with a new name opens a group of its own at the end. */
  lemma NewGroup(init: seq<(string, int)>, item: (string, int), groups: seq<Group>)
    requires GroupsOf(init, groups) && GroupIndex(groups, item.0) == -1
    ensures GroupsOf(init + [item], groups + [Group(item.0, 1, item.1)])
  {
    var items := init + [item];
    var after := groups + [Group(item.0, 1, item.1)];
    assert after[..|groups|] == groups;
    NoCountNoSum(init, item.0);
    forall i | 0 <= i < |after|
      ensures after[i].count == CountOf(items, after[i].name) && after[i].total == SumOf(items, after[i].name)
    {
      CountSnoc(init, item, after[i].name);
    }
    forall name ensures GroupIndex(after, name) >= 0 <==> CountOf(items, name) > 0 {
      CountSnoc(init, item, name);
    }
  }

  /** An item with a known name is counted and summed into its group. */
  lemma BumpGroup(init: seq<(string, int)>, item: (string, int), groups: seq<Group>, k: int)
    requires GroupsOf(init, groups) && k == GroupIndex(groups, item.0) && k >= 0
    ensures GroupsOf(init + [item], groups[k := Group(item.0, groups[k].count + 1, groups[k].total + item.1)])
  {
    var items := init + [item];
    var after := groups[k := Group(item.0, groups[k].count + 1, groups[k].total + item.1)];
    BumpKeepsNames(groups, k, after);
    forall i | 0 <= i < |after|
      ensures after[i].count == CountOf(items, after[i].name) && after[i].total == SumOf(items, after[i].name)
    {
      CountSnoc(init, item, after[i].name);
      if i != k {
        assert after[i] == groups[i];
      }
    }
    forall name ensures GroupIndex(after, name) >= 0 <==> CountOf(items, name) > 0 {
      CountSnoc(init, item, name);
    }
  }

  /** Replacing a group by one of the same name keeps the names distinct and every name's position. */
  lemma BumpKeepsNames(groups: seq<Group>, k: int, after: seq<Group>)
    requires 0 <= k < |groups| && DistinctNames(groups)
    requires |after| == |groups| && after[k].name == groups[k].name
    requires forall i :: 0 <= i < |groups| && i != k ==> after[i] == groups[i]
    ensures DistinctNames(after)
    ensures forall name :: GroupIndex(after, name) == GroupIndex(groups, name)
  {
    assert forall i :: 0 <= i < |after| ==> after[i].name == groups[i].name;
    forall name ensures GroupIndex(after, name) == GroupIndex(groups, name) {
      GroupIndexSameNames(after, groups, name);
    }
  }

  lemma {:induction false} GroupByGroups(items: seq<(string, int)>)
    ensures GroupsOf(items, GroupBy(items))
    decreases |items|
  {
    if items != [] {
      var init := items[..|items| - 1];
      var item := items[|items| - 1];
      assert items == init + [item];
      GroupByGroups(init);
      var groups := GroupBy(init);
      var k := GroupIndex(groups, item.0);
      if k == -1 {
        assert GroupBy(items) == groups + [Group(item.0, 1, item.1)];
        NewGroup(init, item, groups);
      } else {
        assert GroupBy(items) == groups[k := Group(item.0, groups[k].count + 1, groups[k].total + item.1)];
        BumpGroup(init, item, groups, k);
      }
    }
  }

  /** There is one group per distinct name, holding the count and the sum
      of the items with that name. */
  lemma GroupBySpec(items: seq<(string, int)>)
    ensures DistinctNames(GroupBy(items))
    ensures forall g :: g in GroupBy(items) ==> g.count == CountOf(items, g.name) && g.total == SumOf(items, g.name)
    ensures forall name :: (exists g :: g in GroupBy(items) && g.name == name) <==> CountOf(items, name) > 0
  {
    var groups := GroupBy(items);
    GroupByGroups(items);
    forall name | exists g :: g in groups && g.name == name ensures CountOf(items, name) > 0 {
      var g :| g in groups && g.name == name;
      var m :| 0 <= m < |groups| && groups[m] == g;
    }
    forall name | CountOf(items, name) > 0 ensures exists g :: g in groups && g.name == name {
      assert groups[GroupIndex(groups, name)] in groups;
    }
  }

  lemma {:induction false} NoCountNoSum(items: seq<(string, int)>, name: string)
    requires CountOf(items, name) == 0
    ensures SumOf(items, name) == 0
    decreases |items|
  {
    if items != [] {
      NoCountNoSum(items[..|items| - 1], name);
    }
  }
}
