/**
  The two whole-list reshaping operations of the load order: `unique`, which
  keeps the last occurrence of each plugin, and `partitionMasters`, a stable
  partition of masters before non-masters.
*/
module Reshape {
  import opened Plugins
  import opened Orders

  /** `a` is `b` with some entries left out, the rest in their original order. */
  predicate IsSubsequence(a: seq<string>, b: seq<string>)
    decreases |b|
  {
    if a == [] then true
    else if b == [] then false
    else (a[0] == b[0] && IsSubsequence(a[1..], b[1..])) || IsSubsequence(a, b[1..])
  }

  /** `unique`: an entry survives when no later entry names the same plugin. */
  function KeepLast(s: seq<string>): (r: seq<string>)
    ensures forall x :: x in r ==> x in s
  {
    if s == [] then []
    else if Contains(s[1..], s[0]) then KeepLast(s[1..])
    else [s[0]] + KeepLast(s[1..])
  }

  lemma ContainsSame(s: seq<string>, a: string, b: string)
    requires Same(a, b)
    ensures Contains(s, a) <==> Contains(s, b)
  {
  }

  /** `unique` leaves no two entries naming the same plugin. */
  lemma {:induction false} UniqueIsDuplicateFree(s: seq<string>)
    ensures NoDupes(KeepLast(s))
  {
    if s != [] {
      var x, t := s[0], s[1..];
      UniqueIsDuplicateFree(t);
      if !Contains(t, x) {
        var k := KeepLast(t);
        assert KeepLast(s) == [x] + k;
        forall j | 0 <= j < |k|
          ensures !Same(x, k[j])
        {
          assert k[j] in t;
        }
      }
    }
  }

  /** `unique` removes no plugin altogether: each name is still present. */
  lemma {:induction false} UniqueLosesNoPlugin(s: seq<string>, name: string)
    ensures Contains(KeepLast(s), name) <==> Contains(s, name)
  {
    if s != [] {
      var x, t := s[0], s[1..];
      UniqueLosesNoPlugin(t, name);
      if Contains(t, x) && Same(x, name) {
        ContainsSame(t, x, name);
      }
      assert Contains(s, name) <==> Same(x, name) || Contains(t, name);
      if !Contains(t, x) {
        assert KeepLast(s) == [x] + KeepLast(t);
        assert Contains(KeepLast(s), name) <==> Same(x, name) || Contains(KeepLast(t), name);
      }
    }
  }

  /** An entry that no later entry names again survives `unique`. */
  lemma {:induction false} UniqueKeepsLastOccurrence(s: seq<string>, i: nat)
    requires i < |s| && !Contains(s[i + 1..], s[i])
    ensures s[i] in KeepLast(s)
  {
    if i > 0 {
      assert s[1..][i - 1] == s[i] && s[1..][i..] == s[i + 1..];
      UniqueKeepsLastOccurrence(s[1..], i - 1);
    }
  }

  /** Dropping an entry that a later entry names again keeps every plugin present. */
  lemma ContainsAfterDrop(t: seq<string>, j: nat, name: string)
    requires j < |t| && Contains(t[j + 1..], t[j])
    ensures Contains(t, name) <==> Contains(t[..j] + t[j + 1..], name)
  {
    var t' := t[..j] + t[j + 1..];
    assert forall y :: y in t' ==> y in t;
    if Contains(t, name) {
      var y :| y in t && Same(y, name);
      var k :| 0 <= k < |t| && t[k] == y;
      if k < j {
        assert t'[k] == y;
      } else if k > j {
        assert t'[k - 1] == y;
      } else {
        var z :| z in t[j + 1..] && Same(z, t[j]);
        assert z in t';
      }
    }
  }

  /** An entry that a later entry names again is dropped: removing it beforehand changes nothing. */
  lemma {:induction false} UniqueDropsEarlierOccurrence(s: seq<string>, i: nat)
    requires i < |s| && Contains(s[i + 1..], s[i])
    ensures KeepLast(s) == KeepLast(s[..i] + s[i + 1..])
  {
    if i == 0 {
      assert s[..0] + s[1..] == s[1..];
    } else {
      var x, t := s[0], s[1..];
      var t' := t[..i - 1] + t[i..];
      assert t[i - 1] == s[i] && t[i..] == s[i + 1..];
      UniqueDropsEarlierOccurrence(t, i - 1);
      ContainsAfterDrop(t, i - 1, x);
      var a := s[..i] + s[i + 1..];
      assert a == [x] + t';
      assert a[0] == x && a[1..] == t';
    }
  }

  /** A duplicate-free list is left as it is. */
  lemma {:induction false} UniqueFixesDuplicateFree(s: seq<string>)
    requires NoDupes(s)
    ensures KeepLast(s) == s
  {
    if s != [] {
      var x, t := s[0], s[1..];
      assert NoDupes(t);
      UniqueFixesDuplicateFree(t);
      assert s == [x] + t;
    }
  }

  /** Applying `unique` a second time changes nothing. */
  lemma UniqueIdempotent(s: seq<string>)
    ensures KeepLast(KeepLast(s)) == KeepLast(s)
  {
    UniqueIsDuplicateFree(s);
    UniqueFixesDuplicateFree(KeepLast(s));
  }

  /** The survivors of `unique` keep their relative order. */
  lemma {:induction false} UniqueKeepsOrder(s: seq<string>)
    ensures IsSubsequence(KeepLast(s), s)
  {
    if s != [] {
      var x, t := s[0], s[1..];
      UniqueKeepsOrder(t);
      var k := KeepLast(t);
      if Contains(t, x) {
        assert k == [] || IsSubsequence(k, s[1..]);
      } else {
        assert KeepLast(s) == [x] + k;
        assert ([x] + k)[1..] == k;
      }
    }
  }

  lemma GroupsRegroup(g: Game, s: seq<string>)
    ensures Masters(g, Masters(g, s) + NonMasters(g, s)) == Masters(g, s)
    ensures NonMasters(g, Masters(g, s) + NonMasters(g, s)) == NonMasters(g, s)
  {
    var m, n := Masters(g, s), NonMasters(g, s);
    assert forall k :: 0 <= k < |m| ==> m[k] in m;
    assert forall k :: 0 <= k < |n| ==> n[k] in n;
    AllMasters(g, m);
    NoMasters(g, n);
    MastersAppend(g, m, n);
  }

  /** `partitionMasters`: `std::stable_partition` on the master flag. */
  function StablePartition(g: Game, s: seq<string>): (r: seq<string>)
    ensures IsPartitioned(g, r)
    ensures multiset(r) == multiset(s)
    ensures Masters(g, r) == Masters(g, s) && NonMasters(g, r) == NonMasters(g, s)
  {
    GroupsRegroup(g, s);
    GroupedIsPartitioned(g, Masters(g, s) + NonMasters(g, s));
    GroupsArePermutation(g, s);
    Masters(g, s) + NonMasters(g, s)
  }

  /** An already partitioned list is left as it is. */
  lemma PartitionFixesPartitioned(g: Game, s: seq<string>)
    requires IsPartitioned(g, s)
    ensures StablePartition(g, s) == s
  {
    PartitionedIsGrouped(g, s);
  }

  /** Applying `partitionMasters` a second time changes nothing. */
  lemma PartitionIdempotent(g: Game, s: seq<string>)
    ensures StablePartition(g, StablePartition(g, s)) == StablePartition(g, s)
  {
    PartitionFixesPartitioned(g, StablePartition(g, s));
  }
}
