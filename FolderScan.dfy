/**
  The plugins-folder scan of `LoadOrder::Load`: every valid plugin in the
  folder that the list does not yet name is added once, a master at an
  advancing cursor that starts at the partition point, a non-master at the
  end. The folder is given as the names of its regular files, in the order
  the directory iterator yields them.
*/
module FolderScan {
  import opened Plugins
  import opened Orders
  import opened Moves

  /**
    The folder entries the scan adds, in folder order: valid plugins not
    named by the list or by an entry added before them.
  */
  function NewNames(g: Game, s: seq<string>, folder: seq<string>): (r: seq<string>)
    ensures forall x :: x in r ==> x in folder && g.isValid(x)
    decreases |folder|
  {
    if folder == [] then []
    else
      var prev := NewNames(g, s, folder[..|folder| - 1]);
      var x := folder[|folder| - 1];
      assert forall y :: y in folder[..|folder| - 1] ==> y in folder;
      if g.isValid(x) && !Contains(s + prev, x) then prev + [x] else prev
  }

  /** The list after the scan: new masters after the first `p` entries, new non-masters last. */
  function Scanned(g: Game, s: seq<string>, folder: seq<string>): seq<string> {
    Layout(g, s, PartitionPoint(g, s), NewNames(g, s, folder))
  }

  lemma ContainsSameMembers(a: seq<string>, b: seq<string>, x: string)
    requires forall y :: y in a <==> y in b
    ensures Contains(a, x) <==> Contains(b, x)
  {
  }

  /**
    The list once `added` has been added to `s`: the new masters after the
    first `p` entries, the new non-masters last.
  */
  function Layout(g: Game, s: seq<string>, p: nat, added: seq<string>): seq<string>
    requires p <= |s|
  {
    (s[..p] + Masters(g, added)) + (s[p..] + NonMasters(g, added))
  }

  lemma LayoutMembers(g: Game, s: seq<string>, p: nat, added: seq<string>, x: string)
    requires p <= |s|
    ensures Contains(Layout(g, s, p, added), x) <==> Contains(s + added, x)
  {
    assert s == s[..p] + s[p..];
    ContainsSameMembers(Layout(g, s, p, added), s + added, x);
  }

  /** Adding a master inserts it at the cursor. */
  lemma LayoutAddMaster(g: Game, s: seq<string>, p: nat, added: seq<string>, x: string)
    requires p <= |s| && g.isMaster(x)
    ensures var r := Layout(g, s, p, added); var c := p + |Masters(g, added)|;
      c <= |r| && Layout(g, s, p, added + [x]) == r[..c] + [x] + r[c..]
    ensures |Masters(g, added + [x])| == |Masters(g, added)| + 1
  {
    MastersAppend(g, added, [x]);
    assert Masters(g, [x]) == [x] && NonMasters(g, [x]) == [];
    var a, b, c := s[..p], Masters(g, added), s[p..] + NonMasters(g, added);
    Splice(a, b, c, x);
    assert NonMasters(g, added) + [] == NonMasters(g, added);
  }

  lemma Splice(a: seq<string>, b: seq<string>, c: seq<string>, x: string)
    ensures var r := a + b + c; var k := |a| + |b|;
      k <= |r| && a + (b + [x]) + c == r[..k] + [x] + r[k..]
  {
    var r := a + b + c;
    assert r[..|a| + |b|] == a + b;
    assert r[|a| + |b|..] == c;
  }

  /** Adding a non-master appends it. */
  lemma LayoutAddNonMaster(g: Game, s: seq<string>, p: nat, added: seq<string>, x: string)
    requires p <= |s| && !g.isMaster(x)
    ensures Layout(g, s, p, added + [x]) == Layout(g, s, p, added) + [x]
    ensures Masters(g, added + [x]) == Masters(g, added)
  {
    MastersAppend(g, added, [x]);
    assert Masters(g, [x]) == [] && NonMasters(g, [x]) == [x];
  }

  /** Adding a plugin the list does not name keeps the list duplicate-free. */
  lemma LayoutAddKeepsDuplicateFree(g: Game, s: seq<string>, p: nat, added: seq<string>, x: string)
    requires p <= |s| && NoDupes(Layout(g, s, p, added))
    requires !Contains(Layout(g, s, p, added), x)
    ensures NoDupes(Layout(g, s, p, added + [x]))
  {
    var r := Layout(g, s, p, added);
    assert forall j :: 0 <= j < |r| ==> !Same(r[j], x) by {
      assert forall j :: 0 <= j < |r| ==> r[j] in r;
    }
    if g.isMaster(x) {
      LayoutAddMaster(g, s, p, added, x);
      InsertFreshKeepsDuplicateFree(r, p + |Masters(g, added)|, x);
    } else {
      LayoutAddNonMaster(g, s, p, added, x);
      InsertFreshKeepsDuplicateFree(r, |r|, x);
      assert r[..|r|] + [x] + r[|r|..] == r + [x];
    }
  }

  /** The scan loop of `Load`, over the folder listing. */
  method ScanFolder(g: Game, s: seq<string>, folder: seq<string>) returns (r: seq<string>)
    ensures r == Scanned(g, s, folder)
    ensures NoDupes(s) ==> NoDupes(r)
  {
    r := s;
    var cursor := PartitionPoint(g, s);
    ghost var p := cursor;
    ghost var added: seq<string> := [];
    var i := 0;
    assert s == (s[..p] + []) + (s[p..] + []);
    while i < |folder|
      invariant i <= |folder|
      invariant added == NewNames(g, s, folder[..i])
      invariant cursor == p + |Masters(g, added)|
      invariant r == Layout(g, s, p, added)
      invariant NoDupes(s) ==> NoDupes(r)
    {
      var x := folder[i];
      assert folder[..i + 1][..i] == folder[..i];
      assert folder[..i + 1][i] == x;
      LayoutMembers(g, s, p, added, x);
      if g.isValid(x) && !Contains(r, x) {
        if NoDupes(s) {
          LayoutAddKeepsDuplicateFree(g, s, p, added, x);
        }
        if g.isMaster(x) {
          LayoutAddMaster(g, s, p, added, x);
          r := r[..cursor] + [x] + r[cursor..];
          cursor := cursor + 1;
        } else {
          LayoutAddNonMaster(g, s, p, added, x);
          r := r + [x];
        }
        added := added + [x];
      }
      i := i + 1;
    }
    assert folder[..i] == folder;
  }

  /** Every valid plugin in the folder is named by the list after the scan. */
  lemma {:induction false} NewNamesCover(g: Game, s: seq<string>, folder: seq<string>, x: string)
    requires x in folder && g.isValid(x)
    ensures Contains(s + NewNames(g, s, folder), x)
    decreases |folder|
  {
    var init := folder[..|folder| - 1];
    var prev := NewNames(g, s, init);
    var last := folder[|folder| - 1];
    assert forall y :: y in s + prev ==> y in s + NewNames(g, s, folder);
    if x != last {
      assert folder == init + [last];
      NewNamesCover(g, s, init, x);
    } else if !Contains(s + prev, x) {
      assert x in s + NewNames(g, s, folder);
      assert Same(x, x);
    }
  }

  lemma ScanCoversFolder(g: Game, s: seq<string>, folder: seq<string>)
    ensures forall x :: x in folder && g.isValid(x) ==> Contains(Scanned(g, s, folder), x)
  {
    var n := NewNames(g, s, folder);
    var p := PartitionPoint(g, s);
    assert s == s[..p] + s[p..];
    forall x | x in folder && g.isValid(x)
      ensures Contains(Scanned(g, s, folder), x)
    {
      NewNamesCover(g, s, folder, x);
      ContainsSameMembers(s + n, Scanned(g, s, folder), x);
    }
  }

  /** Entry `j` of `n` is named neither by `s` nor by an earlier entry of `n`. */
  predicate FreshAt(s: seq<string>, n: seq<string>, j: nat)
    requires j < |n|
  {
    !Contains(s + n[..j], n[j])
  }

  /** Nothing is added twice, and nothing the list already names is added. */
  lemma {:induction false} NewNamesAreNew(g: Game, s: seq<string>, folder: seq<string>)
    ensures forall j :: 0 <= j < |NewNames(g, s, folder)| ==> FreshAt(s, NewNames(g, s, folder), j)
    decreases |folder|
  {
    if folder != [] {
      var init := folder[..|folder| - 1];
      NewNamesAreNew(g, s, init);
      var prev := NewNames(g, s, init);
      var n := NewNames(g, s, folder);
      var x := folder[|folder| - 1];
      if g.isValid(x) && !Contains(s + prev, x) {
        assert n == prev + [x];
        forall j | 0 <= j < |n|
          ensures FreshAt(s, n, j)
        {
          if j < |prev| {
            assert n[..j] == prev[..j] && n[j] == prev[j];
            assert FreshAt(s, prev, j);
          } else {
            assert n[..j] == prev && n[j] == x;
          }
        }
      }
    }
  }

  /** The scan keeps a duplicate-free list duplicate-free. */
  lemma ScanKeepsDuplicateFree(g: Game, s: seq<string>, folder: seq<string>)
    requires NoDupes(s)
    ensures NoDupes(Scanned(g, s, folder))
  {
    ScannedDuplicateFree(g, s, PartitionPoint(g, s), folder);
  }

  lemma {:induction false} ScannedDuplicateFree(g: Game, s: seq<string>, p: nat, folder: seq<string>)
    requires NoDupes(s) && p <= |s|
    ensures NoDupes(Layout(g, s, p, NewNames(g, s, folder)))
    decreases |folder|
  {
    if folder == [] {
      assert Layout(g, s, p, []) == s by {
        assert s == (s[..p] + []) + (s[p..] + []);
      }
    } else {
      var init := folder[..|folder| - 1];
      ScannedDuplicateFree(g, s, p, init);
      var prev := NewNames(g, s, init);
      var x := folder[|folder| - 1];
      LayoutMembers(g, s, p, prev, x);
      if g.isValid(x) && !Contains(s + prev, x) {
        LayoutAddKeepsDuplicateFree(g, s, p, prev, x);
      }
    }
  }

  /**
    On a partitioned list the scan keeps it partitioned; the prior masters
    keep their order and the new masters follow them, and the same holds for
    the non-masters.
  */
  lemma ScanKeepsPartition(g: Game, s: seq<string>, folder: seq<string>)
    requires IsPartitioned(g, s)
    ensures IsPartitioned(g, Scanned(g, s, folder))
    ensures Masters(g, Scanned(g, s, folder)) == Masters(g, s) + Masters(g, NewNames(g, s, folder))
    ensures NonMasters(g, Scanned(g, s, folder)) == NonMasters(g, s) + NonMasters(g, NewNames(g, s, folder))
  {
    var n := NewNames(g, s, folder);
    ScannedIsGrouped(g, s, folder);
    var front := Masters(g, s) + Masters(g, n);
    var back := NonMasters(g, s) + NonMasters(g, n);
    GroupsAreUniform(g, s);
    GroupsAreUniform(g, n);
    MastersAppend(g, Masters(g, s), Masters(g, n));
    MastersAppend(g, NonMasters(g, s), NonMasters(g, n));
    UniformGroups(g, front, back);
  }

  /** A run of masters followed by a run of non-masters. */
  lemma UniformGroups(g: Game, front: seq<string>, back: seq<string>)
    requires Masters(g, front) == front && NonMasters(g, back) == back
    ensures IsPartitioned(g, front + back)
    ensures Masters(g, front + back) == front && NonMasters(g, front + back) == back
  {
    forall k | 0 <= k < |front|
      ensures g.isMaster((front + back)[k])
    {
      assert front[k] in Masters(g, front);
    }
    forall k | |front| <= k < |front + back|
      ensures !g.isMaster((front + back)[k])
    {
      assert back[k - |front|] in NonMasters(g, back);
    }
    SplitAtIsPartitioned(g, front + back, |front|);
    MastersAppend(g, front, back);
    assert |Masters(g, front)| + |NonMasters(g, front)| <= |front| by {
      GroupsArePermutation(g, front);
      assert |multiset(Masters(g, front))| + |multiset(NonMasters(g, front))| == |multiset(front)|;
    }
    assert |NonMasters(g, front)| == 0;
    assert |Masters(g, back)| + |NonMasters(g, back)| <= |back| by {
      GroupsArePermutation(g, back);
      assert |multiset(Masters(g, back))| + |multiset(NonMasters(g, back))| == |multiset(back)|;
    }
    assert |Masters(g, back)| == 0;
  }

  /** A group of masters has no non-masters, and the reverse. */
  lemma GroupsAreUniform(g: Game, s: seq<string>)
    ensures Masters(g, Masters(g, s)) == Masters(g, s)
    ensures NonMasters(g, NonMasters(g, s)) == NonMasters(g, s)
  {
    var m, n := Masters(g, s), NonMasters(g, s);
    assert forall k :: 0 <= k < |m| ==> m[k] in m;
    assert forall k :: 0 <= k < |n| ==> n[k] in n;
    AllMasters(g, m);
    NoMasters(g, n);
  }

  /** On a partitioned list the scan's result is both groups, each extended. */
  lemma ScannedIsGrouped(g: Game, s: seq<string>, folder: seq<string>)
    requires IsPartitioned(g, s)
    ensures var n := NewNames(g, s, folder);
      Scanned(g, s, folder) == (Masters(g, s) + Masters(g, n)) + (NonMasters(g, s) + NonMasters(g, n))
  {
    var p := PartitionPoint(g, s);
    PartitionPointOfPartitioned(g, s);
    PartitionedIsGrouped(g, s);
    var m := Masters(g, s);
    assert s[..p] == m && s[p..] == NonMasters(g, s) by {
      assert s == m + NonMasters(g, s) && p == |m|;
    }
  }
}
