/**
  The timestamp-method ordering: `pluginComparator` puts masters before
  non-masters and, within a group, earlier modification times first. The
  comparator's cache only memoises `IsMasterFile` and `GetModTime`, so the
  order is stated on the game's answers directly.
*/
module PluginSort {
  import opened Plugins
  import opened Orders
  import opened Restamp

  /**
    `pluginComparator(a, b)`: `a` goes before `b`. Masters go before
    non-masters whatever their times; within each kind the earlier time goes
    first.
  */
  predicate Before(g: Game, a: string, b: string)
    ensures g.isMaster(a) != g.isMaster(b) ==> (Before(g, a, b) <==> g.isMaster(a))
    ensures g.isMaster(a) == g.isMaster(b) ==> (Before(g, a, b) <==> g.modTime(a) < g.modTime(b))
  {
    if g.isMaster(a) && !g.isMaster(b) then true
    else if !g.isMaster(a) && g.isMaster(b) then false
    else g.modTime(a) < g.modTime(b)
  }

  /** Neither plugin goes before the other. */
  predicate Tied(g: Game, a: string, b: string) {
    !Before(g, a, b) && !Before(g, b, a)
  }

  /**
    The comparator is a strict weak order, as `std::sort` requires:
    irreflexive, transitive, and ties are exactly equal master flag and
    equal time, which makes them an equivalence.
  */
  lemma BeforeIsStrictWeakOrder(g: Game, a: string, b: string, c: string)
    ensures !Before(g, a, a)
    ensures Before(g, a, b) && Before(g, b, c) ==> Before(g, a, c)
    ensures Tied(g, a, b) <==> g.isMaster(a) == g.isMaster(b) && g.modTime(a) == g.modTime(b)
    ensures Tied(g, a, b) && Tied(g, b, c) ==> Tied(g, a, c)
    ensures Before(g, a, c) ==> Before(g, a, b) || Before(g, b, c)
  {
  }

  /** No entry goes before an earlier one. */
  predicate SortedBy(g: Game, s: seq<string>) {
    forall i, j :: 0 <= i < j < |s| ==> !Before(g, s[j], s[i])
  }

  /** Inserts `x` into the sorted `r` after every entry it does not go before. */
  method InsertPlugin(g: Game, r: seq<string>, x: string) returns (t: seq<string>)
    requires SortedBy(g, r)
    ensures SortedBy(g, t)
    ensures multiset(t) == multiset(r) + multiset{x}
  {
    var j := |r|;
    while j > 0 && Before(g, x, r[j - 1])
      invariant 0 <= j <= |r|
      invariant forall k :: j <= k < |r| ==> Before(g, x, r[k])
    {
      j := j - 1;
    }
    t := r[..j] + [x] + r[j..];
    forall a, b | 0 <= a < b < |t|
      ensures !Before(g, t[b], t[a])
    {
      if a < j && b == j {
        BeforeIsStrictWeakOrder(g, x, r[j - 1], r[a]);
      } else if a == j && b > j {
        assert t[b] == r[b - 1];
        BeforeIsStrictWeakOrder(g, r[b - 1], x, r[b - 1]);
      } else if a < j && b > j {
        assert t[b] == r[b - 1];
      } else if a > j {
        assert t[a] == r[a - 1] && t[b] == r[b - 1];
      }
    }
    assert r == r[..j] + r[j..];
  }

  /**
    The sort `Load` applies to timestamp-method orders. `std::sort` is not
    stable, so only its result's order and contents are stated.
  */
  method SortPlugins(g: Game, s: seq<string>) returns (r: seq<string>)
    ensures SortedBy(g, r)
    ensures multiset(r) == multiset(s)
  {
    r := [];
    var i := 0;
    while i < |s|
      invariant i <= |s|
      invariant SortedBy(g, r)
      invariant multiset(r) == multiset(s[..i])
    {
      r := InsertPlugin(g, r, s[i]);
      assert s[..i + 1] == s[..i] + [s[i]];
      i := i + 1;
    }
    assert s[..i] == s;
  }

  /**
    A sorted order has masters first and, within each group, times that
    never decrease.
  */
  lemma SortedIsGrouped(g: Game, s: seq<string>)
    requires SortedBy(g, s)
    ensures IsPartitioned(g, s)
    ensures forall i, j :: 0 <= i < j < |s| && g.isMaster(s[i]) == g.isMaster(s[j]) ==>
      g.modTime(s[i]) <= g.modTime(s[j])
  {
    forall i, j | 0 <= i < j < |s| && !g.isMaster(s[i])
      ensures !g.isMaster(s[j])
    {
      assert !Before(g, s[j], s[i]);
    }
    forall i, j | 0 <= i < j < |s| && g.isMaster(s[i]) == g.isMaster(s[j])
      ensures g.modTime(s[i]) <= g.modTime(s[j])
    {
      assert !Before(g, s[j], s[i]);
    }
  }

  /** Any two different entries are ordered one way or the other. */
  predicate Comparable(g: Game, s: seq<string>) {
    forall i, j :: 0 <= i < |s| && 0 <= j < |s| && s[i] != s[j] ==> Before(g, s[i], s[j]) || Before(g, s[j], s[i])
  }

  /**
    Without ties there is only one sorted order of a given collection of
    plugins, whatever order the folder listing produced them in.
  */
  lemma {:induction false} SortedIsUnique(g: Game, a: seq<string>, b: seq<string>)
    requires SortedBy(g, a) && SortedBy(g, b)
    requires multiset(a) == multiset(b)
    requires Comparable(g, a)
    ensures a == b
    decreases |a|
  {
    if a != [] {
      HeadsAgree(g, a, b);
      TailFits(g, a);
      TailFits(g, b);
      assert multiset(a) == multiset{a[0]} + multiset(a[1..]) by {
        assert a == [a[0]] + a[1..];
      }
      assert multiset(b) == multiset{b[0]} + multiset(b[1..]) by {
        assert b == [b[0]] + b[1..];
      }
      assert multiset(a[1..]) == multiset(a) - multiset{a[0]};
      assert multiset(b[1..]) == multiset(b) - multiset{b[0]};
      SortedIsUnique(g, a[1..], b[1..]);
      assert a == [a[0]] + a[1..] && b == [b[0]] + b[1..];
    } else {
      assert |multiset(b)| == 0;
    }
  }

  /** Two sorted arrangements of the same tie-free plugins start alike. */
  lemma HeadsAgree(g: Game, a: seq<string>, b: seq<string>)
    requires SortedBy(g, a) && SortedBy(g, b)
    requires multiset(a) == multiset(b)
    requires Comparable(g, a) && a != []
    ensures b != [] && a[0] == b[0]
  {
    assert a[0] in multiset(b);
    assert b != [];
    assert b[0] in multiset(a);
    var i :| 0 <= i < |a| && a[i] == b[0];
    var j :| 0 <= j < |b| && b[j] == a[0];
    assert i == 0 || !Before(g, a[i], a[0]);
    assert j == 0 || !Before(g, b[j], b[0]);
  }

  lemma TailFits(g: Game, a: seq<string>)
    requires SortedBy(g, a) && a != []
    ensures SortedBy(g, a[1..])
    ensures Comparable(g, a) ==> Comparable(g, a[1..])
  {
    assert forall p :: 0 <= p < |a[1..]| ==> a[1..][p] == a[p + 1];
  }

  /**
    Saving a timestamp-method order and loading it back gives the same
    order: once a partitioned, duplicate-free list has been given strictly
    increasing times in list order, any sorted arrangement of its plugins is
    the list itself.
  */
  lemma SaveThenSortRestores(g: Game, names: seq<string>, stamps: seq<int>, listed: seq<string>)
    requires IsPartitioned(g, names) && NoDupes(names)
    requires |stamps| == |names| && StrictlyIncreasing(stamps)
    requires multiset(listed) == multiset(names)
    requires SortedBy(Restamped(g, names, stamps), listed)
    ensures listed == names
  {
    var h := Restamped(g, names, stamps);
    StampedInOrder(g, h, names, stamps);
    SortedIsUnique(h, names, listed);
  }

  /** Entries stamped with increasing times in list order are sorted and comparable. */
  lemma StampedInOrder(g: Game, h: Game, names: seq<string>, stamps: seq<int>)
    requires IsPartitioned(g, names) && h.isMaster == g.isMaster
    requires |stamps| == |names| && StrictlyIncreasing(stamps)
    requires forall k :: 0 <= k < |names| ==> h.modTime(names[k]) == stamps[k]
    ensures SortedBy(h, names) && Comparable(h, names)
  {
    forall i, j | 0 <= i < j < |names|
      ensures Before(h, names[i], names[j])
    {
      assert h.modTime(names[i]) == stamps[i] && h.modTime(names[j]) == stamps[j];
    }
    forall i, j | 0 <= i < j < |names|
      ensures !Before(h, names[j], names[i])
    {
      BeforeIsStrictWeakOrder(h, names[i], names[j], names[i]);
    }
  }
}
