/**
  The validated mutators of the load order: the checks `setLoadOrder` and
  `setPosition` run before they commit, and the list a successful
  `setPosition` produces.
*/
module Moves {
  import opened Wrappers
  import opened Plugins
  import opened Orders

  /** Under the textfile method the list must start with the game's master file. */
  predicate MasterLeads(g: Game, names: seq<string>) {
    g.orderMethod == Textfile ==> names != [] && Same(names[0], g.masterFile)
  }

  /** Entry `k` is the first that is a duplicate or not a valid plugin. */
  predicate FirstBadAt(g: Game, names: seq<string>, k: nat) {
    && k < |names|
    && (DupAt(names, k) || !g.isValid(names[k]))
    && forall j :: 0 <= j < k ==> !DupAt(names, j) && g.isValid(names[j])
  }

  /** There is at most one first bad entry. */
  lemma FirstBadIsUnique(g: Game, names: seq<string>, k: nat)
    requires FirstBadAt(g, names, k)
    ensures forall j: nat :: FirstBadAt(g, names, j) ==> j == k
  {
  }

  /**
    The checks of `setLoadOrder`, in the source's order: the master file
    leads (textfile method), the list is partitioned, and then, entry by
    entry, the duplicate check before the validity check.
  */
  method CheckNewLoadOrder(g: Game, names: seq<string>) returns (err: Option<Error>)
    ensures err.None? <==>
      && MasterLeads(g, names)
      && IsPartitioned(g, names)
      && NoDupes(names)
      && forall k :: 0 <= k < |names| ==> g.isValid(names[k])
    ensures err == Some(MasterMustLoadFirst) <==> !MasterLeads(g, names)
    ensures err == Some(MastersNotBeforeNonMasters) <==> MasterLeads(g, names) && !IsPartitioned(g, names)
    ensures err.Some? && err.value.DuplicateEntry? ==>
      exists k: nat :: FirstBadAt(g, names, k) && DupAt(names, k) && names[k] == err.value.name
    ensures err.Some? && err.value.InvalidPlugin? ==>
      exists k: nat :: FirstBadAt(g, names, k) && !DupAt(names, k) && names[k] == err.value.name
    ensures forall k: nat :: MasterLeads(g, names) && IsPartitioned(g, names) && FirstBadAt(g, names, k) ==>
      err == Some(if DupAt(names, k) then DuplicateEntry(names[k]) else InvalidPlugin(names[k]))
    ensures err.Some? ==> err.value.Code() == InvalidArgs
  {
    if !MasterLeads(g, names) {
      return Some(MasterMustLoadFirst);
    }
    if !IsPartitioned(g, names) {
      return Some(MastersNotBeforeNonMasters);
    }
    var seen: set<string> := {};
    var k := 0;
    while k < |names|
      invariant 0 <= k <= |names|
      invariant seen == set j | 0 <= j < k :: Lower(names[j])
      invariant forall j :: 0 <= j < k ==> !DupAt(names, j) && g.isValid(names[j])
    {
      var dup := Lower(names[k]) in seen;
      assert dup <==> DupAt(names, k) by {
        if dup {
          var j :| 0 <= j < k && Lower(names[j]) == Lower(names[k]);
          assert names[j] in names[..k];
        }
        if DupAt(names, k) {
          var y :| y in names[..k] && Same(y, names[k]);
          var j :| 0 <= j < k && names[j] == y;
        }
      }
      if dup {
        FirstBadIsUnique(g, names, k);
        return Some(DuplicateEntry(names[k]));
      }
      if !g.isValid(names[k]) {
        FirstBadIsUnique(g, names, k);
        return Some(InvalidPlugin(names[k]));
      }
      seen := seen + {Lower(names[k])};
      k := k + 1;
    }
    NoDupesIffNoDupAt(names);
    return None;
  }

  /** The entries that do not name `name`, in order: `erase(remove(...))`. */
  function RemoveAll(s: seq<string>, name: string): (r: seq<string>)
    ensures |r| <= |s|
  {
    if s == [] then []
    else (if Same(s[0], name) then [] else [s[0]]) + RemoveAll(s[1..], name)
  }

  /** The entries kept are exactly those that do not name the plugin. */
  lemma {:induction false} RemoveAllMembers(s: seq<string>, name: string)
    ensures forall x :: x in RemoveAll(s, name) <==> x in s && !Same(x, name)
  {
    if s != [] {
      RemoveAllMembers(s[1..], name);
      assert s == [s[0]] + s[1..];
    }
  }

  /** The index `setPosition` inserts at: the requested one, clamped to the list's size after removal. */
  function Clamp(index: nat, size: nat): nat {
    if index > size then size else index
  }

  /** The list a successful `setPosition(name, index)` leaves. */
  function MoveTo(s: seq<string>, name: string, index: nat): seq<string> {
    var r := RemoveAll(s, name);
    var k := Clamp(index, |r|);
    r[..k] + [name] + r[k..]
  }

  /**
    After a move the plugin is in the list under the spelling given, and
    every other entry is an old entry that names another plugin.
  */
  lemma MoveToMembers(s: seq<string>, name: string, index: nat)
    ensures name in MoveTo(s, name, index)
    ensures forall x :: x in MoveTo(s, name, index) ==> x == name || (x in s && !Same(x, name))
  {
    var r := RemoveAll(s, name);
    var k := Clamp(index, |r|);
    RemoveAllMembers(s, name);
    assert (r[..k] + [name] + r[k..])[k] == name;
    assert forall x :: x in r[..k] + [name] + r[k..] ==> x == name || x in r;
  }

  /** The checks of `setPosition`, in the source's order; `None` when the move is allowed. */
  function SetPositionCheck(g: Game, s: seq<string>, name: string, index: nat): (r: Option<Error>)
    ensures r.Some? ==> r.value.Code() == InvalidArgs
  {
    if g.orderMethod == Textfile && index == 0 && !Same(name, g.masterFile) then Some(MasterMustLoadFirst)
    else if g.orderMethod == Textfile && index != 0 && s != [] && Same(name, g.masterFile) then Some(MasterMustLoadFirst)
    else if !g.isValid(name) then Some(InvalidPlugin(name))
    else
      var pp := PartitionPoint(g, s);
      if !g.isMaster(name) && index < pp then Some(NonMasterBeforeMasters)
      else if g.isMaster(name) && ((index > pp && pp != |s|) || (Position(s, name) < pp && index == pp))
      then Some(MasterAfterNonMasters)
      else None
  }

  /** Where each entry of `r[..k] + [x] + r[k..]` comes from. */
  lemma InsertedAt(r: seq<string>, k: nat, x: string)
    requires k <= |r|
    ensures var m := r[..k] + [x] + r[k..];
      && |m| == |r| + 1 && m[k] == x
      && (forall j :: 0 <= j < k ==> m[j] == r[j])
      && (forall j :: k < j < |m| ==> m[j] == r[j - 1])
  {
  }

  lemma RemovedNamesAbsent(s: seq<string>, name: string)
    ensures forall j :: 0 <= j < |RemoveAll(s, name)| ==> !Same(RemoveAll(s, name)[j], name)
  {
    var r := RemoveAll(s, name);
    RemoveAllMembers(s, name);
    forall j | 0 <= j < |r|
      ensures !Same(r[j], name)
    {
      assert r[j] in r;
    }
  }

  /**
    A move leaves exactly one entry naming the plugin, at the clamped index,
    and every other entry in its former relative order.
  */
  lemma MovePlacesOnce(s: seq<string>, name: string, index: nat)
    ensures var m := MoveTo(s, name, index);
      && |m| == |RemoveAll(s, name)| + 1
      && Position(m, name) == Clamp(index, |RemoveAll(s, name)|)
      && m[Position(m, name)] == name
      && (forall j :: 0 <= j < |m| && Same(m[j], name) ==> j == Position(m, name))
      && RemoveAll(m, name) == RemoveAll(s, name)
  {
    var r := RemoveAll(s, name);
    var k := Clamp(index, |r|);
    var m := MoveTo(s, name, index);
    InsertedAt(r, k, name);
    RemovedNamesAbsent(s, name);
    assert forall j :: 0 <= j < |m| && j != k ==> !Same(m[j], name);
    assert Position(m, name) == k;
    MoveKeepsOthers(r, k, name);
  }

  lemma {:induction false} MoveKeepsOthers(r: seq<string>, k: nat, name: string)
    requires k <= |r|
    requires forall j :: 0 <= j < |r| ==> !Same(r[j], name)
    ensures RemoveAll(r[..k] + [name] + r[k..], name) == r
  {
    var m := r[..k] + [name] + r[k..];
    if k == 0 {
      assert m == [name] + r && m[0] == name && m[1..] == r;
      assert Same(name, name);
      RemoveAllAbsent(r, name);
    } else {
      var t := r[1..];
      assert m[0] == r[0] && m[1..] == t[..k - 1] + [name] + t[k - 1..];
      MoveKeepsOthers(t, k - 1, name);
      assert !Same(r[0], name);
      assert r == [r[0]] + t;
    }
  }

  lemma {:induction false} RemoveAllAppend(a: seq<string>, b: seq<string>, name: string)
    ensures RemoveAll(a + b, name) == RemoveAll(a, name) + RemoveAll(b, name)
  {
    if a == [] {
      assert a + b == b;
    } else {
      var t := a[1..];
      assert (a + b)[0] == a[0] && (a + b)[1..] == t + b;
      RemoveAllAppend(t, b, name);
      var h := if Same(a[0], name) then [] else [a[0]];
      assert RemoveAll(a + b, name) == h + (RemoveAll(t, name) + RemoveAll(b, name));
      assert h + (RemoveAll(t, name) + RemoveAll(b, name)) == (h + RemoveAll(t, name)) + RemoveAll(b, name);
    }
  }

  lemma {:induction false} RemoveAllAbsent(s: seq<string>, name: string)
    requires forall j :: 0 <= j < |s| ==> !Same(s[j], name)
    ensures RemoveAll(s, name) == s
  {
    if s != [] {
      RemoveAllAbsent(s[1..], name);
    }
  }

  /** A move keeps a duplicate-free list duplicate-free. */
  lemma MoveKeepsDuplicateFree(s: seq<string>, name: string, index: nat)
    requires NoDupes(s)
    ensures NoDupes(MoveTo(s, name, index))
  {
    var r := RemoveAll(s, name);
    RemoveAllKeepsDuplicateFree(s, name);
    RemovedNamesAbsent(s, name);
    InsertFreshKeepsDuplicateFree(r, Clamp(index, |r|), name);
  }

  /** Inserting a plugin the list does not name keeps it duplicate-free. */
  lemma InsertFreshKeepsDuplicateFree(r: seq<string>, k: nat, x: string)
    requires NoDupes(r) && k <= |r|
    requires forall j :: 0 <= j < |r| ==> !Same(r[j], x)
    ensures NoDupes(r[..k] + [x] + r[k..])
  {
    var m := r[..k] + [x] + r[k..];
    InsertedAt(r, k, x);
    forall i, j | 0 <= i < j < |m|
      ensures !Same(m[i], m[j])
    {
      var ri := if i < k then i else i - 1;
      var rj := if j < k then j else j - 1;
      if i != k && j != k {
        assert m[i] == r[ri] && m[j] == r[rj] && ri < rj;
      }
    }
  }

  lemma {:induction false} RemoveAllKeepsDuplicateFree(s: seq<string>, name: string)
    requires NoDupes(s)
    ensures NoDupes(RemoveAll(s, name))
  {
    if s != [] {
      var x, t := s[0], s[1..];
      assert NoDupes(t);
      RemoveAllKeepsDuplicateFree(t, name);
      var rt := RemoveAll(t, name);
      RemoveAllMembers(t, name);
      forall j | 0 <= j < |rt|
        ensures !Same(x, rt[j])
      {
        assert rt[j] in t;
      }
    }
  }

  /** Masters before index `q`, none from `q` on: the list is partitioned. */
  lemma SplitAtIsPartitioned(g: Game, s: seq<string>, q: nat)
    requires q <= |s|
    requires forall k :: 0 <= k < q ==> g.isMaster(s[k])
    requires forall k :: q <= k < |s| ==> !g.isMaster(s[k])
    ensures IsPartitioned(g, s)
  {
  }

  lemma {:induction false} RemoveAllKeepsPartition(g: Game, s: seq<string>, name: string)
    requires IsPartitioned(g, s)
    ensures IsPartitioned(g, RemoveAll(s, name))
  {
    if s != [] {
      var x, t := s[0], s[1..];
      RemoveAllKeepsPartition(g, t, name);
      var rt := RemoveAll(t, name);
      if !g.isMaster(x) {
        RemoveAllMembers(t, name);
        forall j | 0 <= j < |rt|
          ensures !g.isMaster(rt[j])
        {
          assert rt[j] in t;
        }
      }
    }
  }

  /**
    How many masters remain after removing `name` from a partitioned,
    duplicate-free list: one fewer exactly when `name` stood among the masters.
  */
  lemma {:induction false} MastersAfterRemoval(g: Game, s: seq<string>, name: string)
    requires IsPartitioned(g, s) && NoDupes(s)
    ensures |Masters(g, RemoveAll(s, name))| ==
      |Masters(g, s)| - (if Position(s, name) < |Masters(g, s)| then 1 else 0)
  {
    if s != [] {
      var x, t := s[0], s[1..];
      assert NoDupes(t);
      if !g.isMaster(x) {
        NoMasters(g, s);
        var rs := RemoveAll(s, name);
        RemoveAllMembers(s, name);
        forall j | 0 <= j < |rs|
          ensures !g.isMaster(rs[j])
        {
          assert rs[j] in s;
        }
        NoMasters(g, rs);
      } else if Same(x, name) {
        forall j | 0 <= j < |t|
          ensures !Same(t[j], name)
        {
          assert s[j + 1] == t[j];
        }
        RemoveAllAbsent(t, name);
        assert RemoveAll(s, name) == t;
        assert Masters(g, s) == [x] + Masters(g, t);
        assert Position(s, name) == 0;
      } else {
        MastersAfterRemoval(g, t, name);
        assert RemoveAll(s, name) == [x] + RemoveAll(t, name);
      }
    }
  }

  /** Inserting a master within the master run, or a non-master after it, keeps a list partitioned. */
  lemma InsertKeepsPartition(g: Game, r: seq<string>, k: nat, x: string)
    requires IsPartitioned(g, r) && k <= |r|
    requires g.isMaster(x) ==> k <= PartitionPoint(g, r)
    requires !g.isMaster(x) ==> k >= PartitionPoint(g, r)
    ensures IsPartitioned(g, r[..k] + [x] + r[k..])
  {
    PartitionPointOfPartitioned(g, r);
    InsertedAt(r, k, x);
    var pr := PartitionPoint(g, r);
    var m := r[..k] + [x] + r[k..];
    if g.isMaster(x) {
      SplitAtIsPartitioned(g, m, pr + 1);
    } else {
      SplitAtIsPartitioned(g, m, pr);
    }
  }

  /**
    A move that `setPosition`'s checks allow keeps a partitioned,
    duplicate-free list partitioned.
  */
  lemma MoveKeepsPartition(g: Game, s: seq<string>, name: string, index: nat)
    requires IsPartitioned(g, s) && NoDupes(s)
    requires SetPositionCheck(g, s, name, index).None?
    ensures IsPartitioned(g, MoveTo(s, name, index))
  {
    var r := RemoveAll(s, name);
    var k := Clamp(index, |r|);
    PartitionPointOfPartitioned(g, s);
    RemoveAllKeepsPartition(g, s, name);
    MastersAfterRemoval(g, s, name);
    PartitionPointOfPartitioned(g, r);
    if g.isMaster(name) && PartitionPoint(g, s) == |s| {
      RemoveAllMembers(s, name);
      forall j | 0 <= j < |r|
        ensures g.isMaster(r[j])
      {
        assert r[j] in s;
      }
      AllMasters(g, r);
    }
    InsertKeepsPartition(g, r, k, name);
  }

  /**
    Without the duplicate-free premise the checks are not enough. Reading a
    load order file keeps repeated lines, and the partition point is taken
    before the repeats are erased, so moving a doubly listed master to
    index 1 passes every check and leaves it after a non-master.
  */
  lemma MoveBreaksPartitionWithDuplicates(g: Game)
    requires g.orderMethod == Timestamp
    requires g.isValid("A.esm") && g.isMaster("A.esm") && !g.isMaster("N.esp")
    ensures var s := ["A.esm", "A.esm", "N.esp"];
      && IsPartitioned(g, s)
      && SetPositionCheck(g, s, "A.esm", 1).None?
      && MoveTo(s, "A.esm", 1) == ["N.esp", "A.esm"]
      && !IsPartitioned(g, MoveTo(s, "A.esm", 1))
  {
    var s := ["A.esm", "A.esm", "N.esp"];
    DuplicatesPassChecks(g);
    DuplicatesMove();
    var m := MoveTo(s, "A.esm", 1);
    assert !g.isMaster(m[0]) && g.isMaster(m[1]);
  }

  /** The doubly listed order is partitioned and the move passes every check. */
  lemma DuplicatesPassChecks(g: Game)
    requires g.orderMethod == Timestamp
    requires g.isValid("A.esm") && g.isMaster("A.esm") && !g.isMaster("N.esp")
    ensures var s := ["A.esm", "A.esm", "N.esp"];
      IsPartitioned(g, s) && SetPositionCheck(g, s, "A.esm", 1).None?
  {
    var s := ["A.esm", "A.esm", "N.esp"];
    assert IsPartitioned(g, s);
    PartitionPointOfPartitioned(g, s);
    assert PartitionPoint(g, s) == 2 by {
      assert g.isMaster(s[1]) && !g.isMaster(s[2]);
    }
  }

  /** Erasing both entries and inserting at 1 puts the master last. */
  lemma DuplicatesMove()
    ensures MoveTo(["A.esm", "A.esm", "N.esp"], "A.esm", 1) == ["N.esp", "A.esm"]
  {
    var s := ["A.esm", "A.esm", "N.esp"];
    assert !Same("N.esp", "A.esm") by {
      assert Lower("N.esp")[0] == 'n' && Lower("A.esm")[0] == 'a';
    }
    assert RemoveAll(s[2..], "A.esm") == ["N.esp"] by {
      assert s[2..] == ["N.esp"] && s[2..][1..] == [];
    }
    assert RemoveAll(s, "A.esm") == ["N.esp"] by {
      assert Same(s[0], "A.esm") && Same(s[1], "A.esm");
      assert s[1..][1..] == s[2..];
    }
  }

  /**
    Under the textfile method a move that the checks allow keeps the master
    file first in a list that starts with it.
  */
  lemma MoveKeepsMasterFirst(g: Game, s: seq<string>, name: string, index: nat)
    requires g.orderMethod == Textfile && s != [] && Same(s[0], g.masterFile)
    requires SetPositionCheck(g, s, name, index).None?
    ensures Same(MoveTo(s, name, index)[0], g.masterFile)
  {
    var r := RemoveAll(s, name);
    if !Same(name, g.masterFile) {
      assert r == [s[0]] + RemoveAll(s[1..], name);
    }
  }

  /**
    Under the textfile method index 0 is granted to the master file only,
    and a valid master file flagged as a master may always move there.
  */
  lemma FrontIsForMasterFile(g: Game, s: seq<string>, name: string)
    requires g.orderMethod == Textfile
    ensures SetPositionCheck(g, s, name, 0).None? ==> Same(name, g.masterFile)
    ensures Same(name, g.masterFile) && g.isValid(name) && g.isMaster(name) ==>
      SetPositionCheck(g, s, name, 0).None?
  {
  }

  /**
    On an empty textfile list a non-master-file plugin may be placed at a
    non-zero index, after which the list does not start with the master file.
  */
  lemma EmptyListAcceptsAnyFirstEntry(g: Game, name: string, index: nat)
    requires g.orderMethod == Textfile && index > 0 && !Same(name, g.masterFile)
    requires g.isValid(name)
    ensures SetPositionCheck(g, [], name, index).None?
    ensures MoveTo([], name, index) == [name]
  {
  }
}
