/**
  The timestamp half of `LoadOrder::Save`: the modification times currently
  held by the listed plugins are collected into an ordered set, the set is
  padded with one-minute steps past its largest value until it holds one
  time per plugin, and the i-th smallest time goes to the i-th plugin.
*/
module Restamp {
  import opened Plugins
  import opened Orders

  /** One minute, the padding step. */
  const Step: int := 60

  predicate StrictlyIncreasing(ts: seq<int>) {
    forall i, j :: 0 <= i < j < |ts| ==> ts[i] < ts[j]
  }

  /** Insertion into an ordered set of times, kept as an increasing sequence. */
  function InsertSorted(ts: seq<int>, x: int): (r: seq<int>)
    requires StrictlyIncreasing(ts)
    ensures StrictlyIncreasing(r)
    ensures |r| == if x in ts then |ts| else |ts| + 1
    ensures r[0] == x || (ts != [] && r[0] == ts[0])
  {
    if ts == [] then [x]
    else
      if x < ts[0] then [x] + ts
      else if x == ts[0] then ts
      else
        var rest := InsertSorted(ts[1..], x);
        assert ts[1..] != [] ==> ts[0] < ts[1..][0];
        ConsIncreasing(ts[0], rest);
        [ts[0]] + rest
  }

  /** Insertion adds the time and nothing else. */
  lemma {:induction false} InsertSortedMembers(ts: seq<int>, x: int)
    requires StrictlyIncreasing(ts)
    ensures forall y :: y in InsertSorted(ts, x) <==> y in ts || y == x
  {
    if ts != [] && x > ts[0] {
      InsertSortedMembers(ts[1..], x);
      assert ts == [ts[0]] + ts[1..];
    }
  }

  /** A time above every held one goes last. */
  lemma {:induction false} InsertAboveAll(ts: seq<int>, x: int)
    requires StrictlyIncreasing(ts)
    requires ts != [] ==> ts[|ts| - 1] < x
    ensures InsertSorted(ts, x) == ts + [x]
  {
    if ts != [] {
      var t := ts[1..];
      assert ts[0] < x by {
        if |ts| > 1 {
          assert ts[0] < ts[|ts| - 1];
        }
      }
      assert StrictlyIncreasing(t) by {
        forall i, j | 0 <= i < j < |t|
          ensures t[i] < t[j]
        {
          assert t[i] == ts[i + 1] && t[j] == ts[j + 1];
        }
      }
      assert t != [] ==> t[|t| - 1] == ts[|ts| - 1];
      InsertAboveAll(t, x);
      assert InsertSorted(ts, x) == [ts[0]] + (t + [x]);
      assert [ts[0]] + (t + [x]) == ts + [x];
    }
  }

  lemma ConsIncreasing(h: int, t: seq<int>)
    requires StrictlyIncreasing(t)
    requires t != [] ==> h < t[0]
    ensures StrictlyIncreasing([h] + t)
  {
    forall i, j | 0 <= i < j < |[h] + t|
      ensures ([h] + t)[i] < ([h] + t)[j]
    {
      assert t[0] <= t[j - 1];
      if i > 0 {
        assert ([h] + t)[i] == t[i - 1];
      }
    }
  }

  /**
    `stamps` holds `n` increasing times: the collected times `d`, then one
    step apart past the largest of them.
  */
  predicate StampsFor(d: seq<int>, stamps: seq<int>, n: nat) {
    && |stamps| == n
    && StrictlyIncreasing(stamps)
    && |d| <= n
    && stamps[..|d|] == d
    && forall k :: |d| <= k < n ==> 0 < |d| && PaddedAt(stamps, d, k)
  }

  /** The ordered set of the current modification times of `names`. */
  function TimesOf(g: Game, names: seq<string>): (r: seq<int>)
    ensures StrictlyIncreasing(r)
    ensures |r| <= |names|
    ensures names != [] ==> r != []
    ensures forall t :: t in r <==> exists k :: 0 <= k < |names| && g.modTime(names[k]) == t
  {
    if names == [] then []
    else
      var prev := TimesOf(g, names[..|names| - 1]);
      assert forall k :: 0 <= k < |names| - 1 ==> names[..|names| - 1][k] == names[k];
      InsertSortedMembers(prev, g.modTime(names[|names| - 1]));
      InsertSorted(prev, g.modTime(names[|names| - 1]))
  }

  /** Position `k` past the collected times `d` gets a padded time. */
  predicate PaddedAt(ts: seq<int>, d: seq<int>, k: nat)
    requires 0 < |d| <= k < |ts|
  {
    ts[k] == d[|d| - 1] + Step * (k - |d| + 1)
  }

  /**
    The stamps `Save` hands out, one per plugin, in list order: the current
    times in ascending order, then one-minute steps past the largest.
  */
  method RestampTimes(g: Game, names: seq<string>) returns (stamps: seq<int>)
    ensures StampsFor(TimesOf(g, names), stamps, |names|)
  {
    var d := CollectTimes(g, names);
    var ts := PadTimes(d, |names|);
    // The assignment loop: stamp `i` goes to entry `i` of the list. Its
    // effect on the game's files is `Restamped`; here only the stamps are kept.
    stamps := [];
    var i := 0;
    while i < |ts|
      invariant i <= |ts|
      invariant stamps == ts[..i]
    {
      stamps := stamps + [ts[i]];
      i := i + 1;
    }
    assert stamps == ts;
  }

  /** The first loop of the re-stamping: every current time goes into the set. */
  method CollectTimes(g: Game, names: seq<string>) returns (ts: seq<int>)
    ensures ts == TimesOf(g, names)
  {
    ts := [];
    var i := 0;
    while i < |names|
      invariant i <= |names|
      invariant ts == TimesOf(g, names[..i])
    {
      TimesOfStep(g, names, i);
      ts := InsertSorted(ts, g.modTime(names[i]));
      i := i + 1;
    }
    assert names[..i] == names;
  }

  lemma TimesOfStep(g: Game, names: seq<string>, i: nat)
    requires i < |names|
    ensures TimesOf(g, names[..i + 1]) == InsertSorted(TimesOf(g, names[..i]), g.modTime(names[i]))
  {
    var p := names[..i + 1];
    assert p[..|p| - 1] == names[..i] && p[|p| - 1] == names[i];
  }

  /** The padding loop: the largest time plus one minute, until `n` times are held. */
  method PadTimes(d: seq<int>, n: nat) returns (ts: seq<int>)
    requires StrictlyIncreasing(d) && |d| <= n
    requires n > 0 ==> d != []
    ensures StampsFor(d, ts, n)
  {
    ts := d;
    while |ts| < n
      invariant |d| <= |ts| <= n
      invariant StrictlyIncreasing(ts)
      invariant ts[..|d|] == d
      invariant forall k :: |d| <= k < |ts| ==> 0 < |d| && PaddedAt(ts, d, k)
      decreases n - |ts|
    {
      var next := ts[|ts| - 1] + Step;
      assert 0 < |d| && (|ts| == |d| ==> ts[|ts| - 1] == d[|d| - 1]);
      assert |ts| > |d| ==> PaddedAt(ts, d, |ts| - 1);
      assert next == d[|d| - 1] + Step * (|ts| - |d| + 1);
      var old_ts := ts;
      InsertAboveAll(ts, next);
      ts := InsertSorted(ts, next);
      assert ts == old_ts + [next];
      assert ts[..|d|] == old_ts[..|d|];
      forall k | |d| <= k < |ts|
        ensures 0 < |d| && PaddedAt(ts, d, k)
      {
        if k < |old_ts| {
          assert PaddedAt(old_ts, d, k);
        }
      }
    }
  }

  /** An increasing sequence is determined by the values it holds. */
  lemma {:induction false} IncreasingIsUnique(a: seq<int>, b: seq<int>)
    requires StrictlyIncreasing(a) && StrictlyIncreasing(b)
    requires forall t :: t in a <==> t in b
    ensures a == b
    decreases |a|
  {
    if a != [] {
      assert a[0] in a;
    }
    if b != [] {
      assert b[0] in b;
    }
    if a != [] {
      assert a[0] == b[0] by {
        var i :| 0 <= i < |a| && a[i] == b[0];
        var j :| 0 <= j < |b| && b[j] == a[0];
        assert a[0] <= a[i] && b[0] <= b[j];
      }
      forall t
        ensures t in a[1..] <==> t in b[1..]
      {
        if t in a[1..] {
          var i :| 1 <= i < |a| && a[i] == t;
          assert t in b;
          var j :| 0 <= j < |b| && b[j] == t;
          assert j != 0;
          assert b[1..][j - 1] == t;
        }
        if t in b[1..] {
          var j :| 1 <= j < |b| && b[j] == t;
          assert t in a;
          var i :| 0 <= i < |a| && a[i] == t;
          assert i != 0;
          assert a[1..][i - 1] == t;
        }
      }
      IncreasingIsUnique(a[1..], b[1..]);
    }
  }

  /**
    Reordering the list does not change the times `Save` reuses: a
    permutation of the plugins collects the same ordered set.
  */
  lemma ReorderKeepsTimes(g: Game, a: seq<string>, b: seq<string>)
    requires multiset(a) == multiset(b)
    ensures TimesOf(g, a) == TimesOf(g, b)
  {
    forall t
      ensures t in TimesOf(g, a) <==> t in TimesOf(g, b)
    {
      if t in TimesOf(g, a) {
        var k :| 0 <= k < |a| && g.modTime(a[k]) == t;
        assert a[k] in multiset(b);
        var j :| 0 <= j < |b| && b[j] == a[k];
      }
      if t in TimesOf(g, b) {
        var k :| 0 <= k < |b| && g.modTime(b[k]) == t;
        assert b[k] in multiset(a);
        var j :| 0 <= j < |a| && a[j] == b[k];
      }
    }
    IncreasingIsUnique(TimesOf(g, a), TimesOf(g, b));
  }

  /** Plugins that already have distinct times keep the same set of times. */
  lemma DistinctTimesAreKept(g: Game, names: seq<string>)
    requires forall i, j :: 0 <= i < j < |names| ==> g.modTime(names[i]) != g.modTime(names[j])
    ensures |TimesOf(g, names)| == |names|
    decreases |names|
  {
    if names != [] {
      var init := names[..|names| - 1];
      DistinctTimesAreKept(g, init);
      var x := g.modTime(names[|names| - 1]);
      assert forall k :: 0 <= k < |init| ==> g.modTime(init[k]) != x by {
        forall k | 0 <= k < |init|
          ensures g.modTime(init[k]) != x
        {
          assert init[k] == names[k];
        }
      }
    }
  }

  /** `SetModTime`: the plugin's file, whatever the casing of the name used, gets time `t`. */
  function SetModTime(h: Game, x: string, t: int): (r: Game)
    ensures r.isMaster == h.isMaster && r.isValid == h.isValid
    ensures forall y :: Same(y, x) ==> r.modTime(y) == t
    ensures forall y :: !Same(y, x) ==> r.modTime(y) == h.modTime(y)
  {
    assert Same(x, x);
    h.(modTime := (y: string) => if Same(y, x) then t else h.modTime(y))
  }

  /** No later entry of `s` names the plugin of entry `k`. */
  predicate LastOccurrence(s: seq<string>, k: nat)
    requires k < |s|
  {
    forall j :: k < j < |s| ==> !Same(s[j], s[k])
  }

  /** In a duplicate-free list every entry is the last one naming its plugin. */
  lemma NoDupesAllLast(s: seq<string>)
    requires NoDupes(s)
    ensures forall k :: 0 <= k < |s| ==> LastOccurrence(s, k)
  {
  }

  /** A non-empty list is its front followed by its last element. */
  lemma SplitLast<T>(s: seq<T>)
    requires s != []
    ensures s == s[..|s| - 1] + [s[|s| - 1]]
  {
  }

  /** One step of the assignment loop leaves every plugin the list does not name alone. */
  lemma RestampStepUnlisted(g: Game, prev: Game, init: seq<string>, last: string, t: int)
    requires forall x :: !Contains(init, x) ==> prev.modTime(x) == g.modTime(x)
    ensures var h := SetModTime(prev, last, t);
      forall x :: !Contains(init + [last], x) ==> h.modTime(x) == g.modTime(x)
  {
    var names := init + [last];
    forall x | !Contains(names, x)
      ensures !Contains(init, x) && !Same(last, x)
    {
      assert names[|init|] == last;
      forall y | y in init
        ensures !Same(y, x)
      {
        assert y in names;
      }
    }
  }

  /**
    One step of the assignment loop: if `prev` holds the stamps of the last
    occurrences among the entries so far, under every spelling of their
    names, stamping one more entry gives the stamps of the last occurrences
    of the longer list.
  */
  lemma RestampStepLast(prev: Game, init: seq<string>, last: string, stamps: seq<int>, t: int)
    requires |stamps| == |init|
    requires forall k, y :: 0 <= k < |init| && LastOccurrence(init, k) && Same(y, init[k]) ==>
      prev.modTime(y) == stamps[k]
    ensures var h := SetModTime(prev, last, t);
      forall k, y :: 0 <= k < |init| + 1 && LastOccurrence(init + [last], k) && Same(y, (init + [last])[k]) ==>
        h.modTime(y) == (stamps + [t])[k]
  {
    var names := init + [last];
    var h := SetModTime(prev, last, t);
    forall k, y | 0 <= k < |init| && LastOccurrence(names, k) && Same(y, names[k])
      ensures h.modTime(y) == (stamps + [t])[k]
    {
      assert names[|init|] == last && names[k] == init[k];
      assert !Same(last, init[k]);
      assert LastOccurrence(init, k) by {
        forall j | k < j < |init|
          ensures !Same(init[j], init[k])
        {
          assert names[j] == init[j];
        }
      }
    }
  }

  /**
    The assignment loop of the re-stamping: `SetModTime` for each entry in
    list order, entry `i` with `stamps[i]`. A plugin listed more than once
    keeps the stamp of its last entry; an unlisted plugin keeps its time.
  */
  function Restamped(g: Game, names: seq<string>, stamps: seq<int>): (h: Game)
    requires |stamps| == |names|
    ensures h.isMaster == g.isMaster && h.isValid == g.isValid
    ensures forall x :: !Contains(names, x) ==> h.modTime(x) == g.modTime(x)
    ensures forall k :: 0 <= k < |names| && LastOccurrence(names, k) ==> h.modTime(names[k]) == stamps[k]
    ensures forall k, y :: 0 <= k < |names| && LastOccurrence(names, k) && Same(y, names[k]) ==> h.modTime(y) == stamps[k]
    ensures NoDupes(names) ==> forall k :: 0 <= k < |names| ==> h.modTime(names[k]) == stamps[k]
    decreases |names|
  {
    if names == [] then g
    else
      var n := |names| - 1;
      var prev := Restamped(g, names[..n], stamps[..n]);
      SplitLast(names);
      SplitLast(stamps);
      RestampStepUnlisted(g, prev, names[..n], names[n], stamps[n]);
      RestampStepLast(prev, names[..n], names[n], stamps[..n], stamps[n]);
      if NoDupes(names) then NoDupesAllLast(names); SetModTime(prev, names[n], stamps[n])
      else SetModTime(prev, names[n], stamps[n])
  }
}
