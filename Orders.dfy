/**
  Read-only views of a load order: the master/non-master partition, the
  partition point, and the position and index queries.
*/
module Orders {
  import opened Wrappers
  import opened Plugins

  /** Every master entry precedes every non-master entry. */
  predicate IsPartitioned(g: Game, s: seq<string>) {
    forall i, j :: 0 <= i < j < |s| && !g.isMaster(s[i]) ==> !g.isMaster(s[j])
  }

  /** The master entries of `s`, in order. */
  function Masters(g: Game, s: seq<string>): (r: seq<string>)
    ensures |r| <= |s|
    ensures forall x :: x in r <==> x in s && g.isMaster(x)
  {
    if s == [] then []
    else (if g.isMaster(s[0]) then [s[0]] else []) + Masters(g, s[1..])
  }

  /** The non-master entries of `s`, in order. */
  function NonMasters(g: Game, s: seq<string>): (r: seq<string>)
    ensures |r| <= |s|
    ensures forall x :: x in r <==> x in s && !g.isMaster(x)
  {
    if s == [] then []
    else (if g.isMaster(s[0]) then [] else [s[0]]) + NonMasters(g, s[1..])
  }

  lemma MastersAppend(g: Game, a: seq<string>, b: seq<string>)
    ensures Masters(g, a + b) == Masters(g, a) + Masters(g, b)
    ensures NonMasters(g, a + b) == NonMasters(g, a) + NonMasters(g, b)
  {
    MastersOfAppend(g, a, b);
    NonMastersOfAppend(g, a, b);
  }

  lemma {:induction false} MastersOfAppend(g: Game, a: seq<string>, b: seq<string>)
    ensures Masters(g, a + b) == Masters(g, a) + Masters(g, b)
  {
    if a == [] {
      assert a + b == b;
    } else {
      var t := a[1..];
      assert (a + b)[0] == a[0] && (a + b)[1..] == t + b;
      MastersOfAppend(g, t, b);
      var h := if g.isMaster(a[0]) then [a[0]] else [];
      assert Masters(g, a + b) == h + (Masters(g, t) + Masters(g, b));
      assert h + (Masters(g, t) + Masters(g, b)) == (h + Masters(g, t)) + Masters(g, b);
    }
  }

  lemma {:induction false} NonMastersOfAppend(g: Game, a: seq<string>, b: seq<string>)
    ensures NonMasters(g, a + b) == NonMasters(g, a) + NonMasters(g, b)
  {
    if a == [] {
      assert a + b == b;
    } else {
      var t := a[1..];
      assert (a + b)[0] == a[0] && (a + b)[1..] == t + b;
      NonMastersOfAppend(g, t, b);
      var h := if g.isMaster(a[0]) then [] else [a[0]];
      assert NonMasters(g, a + b) == h + (NonMasters(g, t) + NonMasters(g, b));
      assert h + (NonMasters(g, t) + NonMasters(g, b)) == (h + NonMasters(g, t)) + NonMasters(g, b);
    }
  }

  /** One more entry joins the group its flag picks. */
  lemma GroupsStep(g: Game, s: seq<string>, i: nat)
    requires i < |s|
    ensures g.isMaster(s[i]) ==>
      (Masters(g, s[..i + 1]) == Masters(g, s[..i]) + [s[i]] && NonMasters(g, s[..i + 1]) == NonMasters(g, s[..i]))
    ensures !g.isMaster(s[i]) ==>
      (Masters(g, s[..i + 1]) == Masters(g, s[..i]) && NonMasters(g, s[..i + 1]) == NonMasters(g, s[..i]) + [s[i]])
  {
    assert s[..i + 1] == s[..i] + [s[i]];
    MastersOfAppend(g, s[..i], [s[i]]);
    NonMastersOfAppend(g, s[..i], [s[i]]);
    assert [s[i]][1..] == [];
    assert Masters(g, s[..i]) + [] == Masters(g, s[..i]);
    assert NonMasters(g, s[..i]) + [] == NonMasters(g, s[..i]);
  }

  /** Splitting into the two groups loses and duplicates nothing. */
  lemma {:induction false} GroupsArePermutation(g: Game, s: seq<string>)
    ensures multiset(Masters(g, s)) + multiset(NonMasters(g, s)) == multiset(s)
  {
    if s != [] {
      var x, t := s[0], s[1..];
      GroupsArePermutation(g, t);
      assert s == [x] + t;
      if g.isMaster(x) {
        assert Masters(g, s) == [x] + Masters(g, t);
        assert NonMasters(g, s) == NonMasters(g, t);
      } else {
        assert Masters(g, s) == Masters(g, t);
        assert NonMasters(g, s) == [x] + NonMasters(g, t);
      }
    }
  }

  lemma {:induction false} AllMasters(g: Game, s: seq<string>)
    requires forall k :: 0 <= k < |s| ==> g.isMaster(s[k])
    ensures Masters(g, s) == s && NonMasters(g, s) == []
  {
    if s != [] {
      AllMasters(g, s[1..]);
    }
  }

  lemma {:induction false} NoMasters(g: Game, s: seq<string>)
    requires forall k :: 0 <= k < |s| ==> !g.isMaster(s[k])
    ensures Masters(g, s) == [] && NonMasters(g, s) == s
  {
    if s != [] {
      NoMasters(g, s[1..]);
    }
  }

  lemma PartitionedIsGrouped(g: Game, s: seq<string>)
    requires IsPartitioned(g, s)
    ensures s == Masters(g, s) + NonMasters(g, s)
  {
    var p := BoundaryOf(g, s);
    assert s == s[..p] + s[p..];
    AllMasters(g, s[..p]);
    NoMasters(g, s[p..]);
    MastersAppend(g, s[..p], s[p..]);
  }

  lemma GroupedIsPartitioned(g: Game, s: seq<string>)
    requires s == Masters(g, s) + NonMasters(g, s)
    ensures IsPartitioned(g, s)
  {
    var m, n := Masters(g, s), NonMasters(g, s);
    forall i, j | 0 <= i < j < |s| && !g.isMaster(s[i])
      ensures !g.isMaster(s[j])
    {
      assert s[j] == n[j - |m|] && n[j - |m|] in n;
    }
  }

  /** A list is partitioned exactly when it is its masters followed by its non-masters. */
  lemma PartitionedIffGrouped(g: Game, s: seq<string>)
    ensures IsPartitioned(g, s) <==> s == Masters(g, s) + NonMasters(g, s)
  {
    if IsPartitioned(g, s) {
      PartitionedIsGrouped(g, s);
    }
    if s == Masters(g, s) + NonMasters(g, s) {
      GroupedIsPartitioned(g, s);
    }
  }

  /** The index of the first non-master of a partitioned list. */
  function BoundaryOf(g: Game, s: seq<string>): (p: nat)
    requires IsPartitioned(g, s)
    ensures p <= |s|
    ensures forall k :: 0 <= k < p ==> g.isMaster(s[k])
    ensures forall k :: p <= k < |s| ==> !g.isMaster(s[k])
  {
    if s == [] || !g.isMaster(s[0]) then 0 else 1 + BoundaryOf(g, s[1..])
  }

  /**
    `std::partition_point` as libstdc++ runs it: a binary search over
    `[first, first + len)` for the first entry that is not a master.
  */
  function PartitionPointFrom(g: Game, s: seq<string>, first: nat, len: nat): (r: nat)
    requires first + len <= |s|
    ensures first <= r <= first + len
    decreases len
  {
    if len == 0 then first
    else
      var half := len / 2;
      var middle := first + half;
      if g.isMaster(s[middle]) then PartitionPointFrom(g, s, middle + 1, len - half - 1)
      else PartitionPointFrom(g, s, first, half)
  }

  /** `getMasterPartitionPoint`. */
  function PartitionPoint(g: Game, s: seq<string>): (r: nat)
    ensures r <= |s|
  {
    PartitionPointFrom(g, s, 0, |s|)
  }

  /** Only one index has masters before it and non-masters from it onward. */
  lemma BoundaryUnique(g: Game, s: seq<string>, q: nat)
    requires IsPartitioned(g, s) && q <= |s|
    requires forall k :: 0 <= k < q ==> g.isMaster(s[k])
    requires forall k :: q <= k < |s| ==> !g.isMaster(s[k])
    ensures q == BoundaryOf(g, s)
  {
    var p := BoundaryOf(g, s);
    assert p < |s| ==> !g.isMaster(s[p]);
    assert q < |s| ==> !g.isMaster(s[q]);
  }

  lemma {:induction false} SearchFindsBoundary(g: Game, s: seq<string>, first: nat, len: nat)
    requires IsPartitioned(g, s) && first + len <= |s|
    requires forall k :: 0 <= k < first ==> g.isMaster(s[k])
    requires forall k :: first + len <= k < |s| ==> !g.isMaster(s[k])
    ensures PartitionPointFrom(g, s, first, len) == BoundaryOf(g, s)
    decreases len
  {
    if len == 0 {
      BoundaryUnique(g, s, first);
    } else {
      var half := len / 2;
      var middle := first + half;
      if g.isMaster(s[middle]) {
        SearchFindsBoundary(g, s, middle + 1, len - half - 1);
      } else {
        SearchFindsBoundary(g, s, first, half);
      }
    }
  }

  /**
    On a partitioned list the partition point is the number of masters: all
    entries before it are masters and none from it onward is.
  */
  lemma PartitionPointOfPartitioned(g: Game, s: seq<string>)
    requires IsPartitioned(g, s)
    ensures PartitionPoint(g, s) == |Masters(g, s)|
    ensures forall k :: 0 <= k < PartitionPoint(g, s) ==> g.isMaster(s[k])
    ensures forall k :: PartitionPoint(g, s) <= k < |s| ==> !g.isMaster(s[k])
  {
    SearchFindsBoundary(g, s, 0, |s|);
    MastersBeforeBoundary(g, s, BoundaryOf(g, s));
  }

  /** A list of `p` masters followed by non-masters has exactly `p` masters. */
  lemma MastersBeforeBoundary(g: Game, s: seq<string>, p: nat)
    requires p <= |s|
    requires forall k :: 0 <= k < p ==> g.isMaster(s[k])
    requires forall k :: p <= k < |s| ==> !g.isMaster(s[k])
    ensures |Masters(g, s)| == p
  {
    var front, back := s[..p], s[p..];
    assert s == front + back;
    assert forall k :: 0 <= k < |front| ==> front[k] == s[k];
    assert forall k :: 0 <= k < |back| ==> back[k] == s[p + k];
    AllMasters(g, front);
    NoMasters(g, back);
    MastersOfAppend(g, front, back);
    assert Masters(g, s) == front + [];
  }

  /** The search steps past a master at the start of its range, partitioned or not. */
  lemma {:induction false} SearchPassesFirstMaster(g: Game, s: seq<string>, first: nat, len: nat)
    requires first + len <= |s| && len > 0 && g.isMaster(s[first])
    ensures PartitionPointFrom(g, s, first, len) > first
    decreases len
  {
    var half := len / 2;
    var middle := first + half;
    if !g.isMaster(s[middle]) {
      assert half > 0;
      SearchPassesFirstMaster(g, s, first, half);
    }
  }

  /** A list that starts with a master has its partition point past the start. */
  lemma LeadingMasterBeforePartitionPoint(g: Game, s: seq<string>)
    requires s != [] && g.isMaster(s[0])
    ensures PartitionPoint(g, s) >= 1
  {
    SearchPassesFirstMaster(g, s, 0, |s|);
  }

  /** `getPosition`: index of the first entry naming `name`, or `|s|` when none does. */
  function Position(s: seq<string>, name: string): (r: nat)
    ensures r <= |s|
    ensures r < |s| ==> Same(s[r], name)
    ensures forall k :: 0 <= k < r ==> !Same(s[k], name)
  {
    if s == [] then 0
    else if Same(s[0], name) then 0
    else 1 + Position(s[1..], name)
  }

  /** The position sentinel `|s|` means exactly that the name is absent. */
  lemma PositionOfAbsent(s: seq<string>, name: string)
    ensures Position(s, name) == |s| <==> !Contains(s, name)
  {
    if Position(s, name) < |s| {
      assert s[Position(s, name)] in s;
    }
  }

  /** `getPluginAtPosition`: `vector::at` fails on an index past the end. */
  function PluginAt(s: seq<string>, index: nat): (r: Option<string>)
    ensures r.Some? <==> index < |s|
    ensures r.Some? ==> r.value == s[index]
  {
    if index < |s| then Some(s[index]) else None
  }

  /** Looking up a present name's position returns an entry naming it. */
  lemma PositionThenPluginAt(s: seq<string>, name: string)
    requires Contains(s, name)
    ensures PluginAt(s, Position(s, name)).Some?
    ensures Same(PluginAt(s, Position(s, name)).value, name)
  {
    PositionOfAbsent(s, name);
  }

  /** In a duplicate-free list, each entry's position is its own index. */
  lemma PluginAtThenPosition(s: seq<string>, index: nat)
    requires NoDupes(s) && index < |s|
    ensures Position(s, PluginAt(s, index).value) == index
  {
  }
}
