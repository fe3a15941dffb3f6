/**
  The load order's validity check and its change test.

  `CheckValidity` follows the source as written, where the test that should
  ask whether a declared master is in the list asks whether the plugin
  itself is, which is always so; `CheckValidityIntended` asks about the
  master. Both share `CheckFrom`, which walks the list once, keeping the
  lower-cased names seen so far and whether the previous entry was a master.
*/
module Validity {
  import opened Wrappers
  import opened Plugins
  import opened Orders

  /** Why a load order is not valid, one constructor per warning. */
  datatype Violation =
    | MasterFileNotFirst(first: string)
    | NotInstalled(name: string)
    | NotAPlugin(name: string)
    | MasterAfterNonMaster(name: string)
    | LoadedTwice(name: string)
    | LoadsBeforeMaster(name: string, master: string)

  /**
    Whether an unseen master `m` of entry `p` is reported. As written
    (`onlyListed` false) the test asks whether `p` itself is in the list; as
    intended (`onlyListed` true) whether `m` is.
  */
  predicate Reported(s: seq<string>, p: string, m: string, onlyListed: bool) {
    if onlyListed then Contains(s, m) else Contains(s, p)
  }

  /** The first of `masters` not seen yet that is reported. */
  function FirstUnseen(masters: seq<string>, seen: set<string>, s: seq<string>, p: string, onlyListed: bool): (r: Option<string>)
    ensures r.Some? ==> r.value in masters && Lower(r.value) !in seen && Reported(s, p, r.value, onlyListed)
    ensures r.None? <==> forall m | m in masters :: Reported(s, p, m, onlyListed) ==> Lower(m) in seen
  {
    if masters == [] then None
    else if Lower(masters[0]) !in seen && Reported(s, p, masters[0], onlyListed) then Some(masters[0])
    else FirstUnseen(masters[1..], seen, s, p, onlyListed)
  }

  /**
    The walk over entries `i..` of `s`; `onlyListed` selects the master test
    of `Reported`.
  */
  function CheckFrom(g: Game, s: seq<string>, i: nat, wasMaster: bool, seen: set<string>, onlyListed: bool): Option<Violation>
    requires i <= |s|
    decreases |s| - i
  {
    if i == |s| then None
    else
      var p := s[i];
      if !g.isInstalled(p) then Some(NotInstalled(p))
      else if !g.isValid(p) then Some(NotAPlugin(p))
      else if g.isMaster(p) && !wasMaster then Some(MasterAfterNonMaster(p))
      else if Lower(p) in seen then Some(LoadedTwice(p))
      else
        match FirstUnseen(g.masters(p), seen, s, p, onlyListed)
        case Some(m) => Some(LoadsBeforeMaster(p, m))
        case None => CheckFrom(g, s, i + 1, g.isMaster(p), seen + {Lower(p)}, onlyListed)
  }

  /**
    `LoadOrder::CheckValidity` as written: an empty list passes, a wrong
    first entry is reported before anything else, and any other violation
    names an entry of the list.
  */
  function CheckValidity(g: Game, s: seq<string>): (r: Option<Violation>)
    ensures s == [] ==> r.None?
    ensures s != [] && !Same(s[0], g.masterFile) ==> r == Some(MasterFileNotFirst(s[0]))
    ensures r.Some? && !r.value.MasterFileNotFirst? ==> r.value.name in s
  {
    if s == [] then None
    else if !Same(s[0], g.masterFile) then Some(MasterFileNotFirst(s[0]))
    else
      ViolationNamesEntry(g, s, 0, true, {}, false);
      assert s[0..] == s;
      CheckFrom(g, s, 0, true, {}, false)
  }

  /** `LoadOrder::CheckValidity` with the `count` of the master test taken over the master instead of the plugin; the same guarantees. */
  function CheckValidityIntended(g: Game, s: seq<string>): (r: Option<Violation>)
    ensures s == [] ==> r.None?
    ensures s != [] && !Same(s[0], g.masterFile) ==> r == Some(MasterFileNotFirst(s[0]))
    ensures r.Some? && !r.value.MasterFileNotFirst? ==> r.value.name in s
  {
    if s == [] then None
    else if !Same(s[0], g.masterFile) then Some(MasterFileNotFirst(s[0]))
    else
      ViolationNamesEntry(g, s, 0, true, {}, true);
      assert s[0..] == s;
      CheckFrom(g, s, 0, true, {}, true)
  }

  /** The lower-cased names of the first `i` entries. */
  function Seen(s: seq<string>, i: nat): set<string>
    requires i <= |s|
  {
    set j | 0 <= j < i :: Lower(s[j])
  }

  lemma SeenIsContains(s: seq<string>, i: nat, m: string)
    requires i <= |s|
    ensures Lower(m) in Seen(s, i) <==> Contains(s[..i], m)
  {
    if Lower(m) in Seen(s, i) {
      var j :| 0 <= j < i && Lower(s[j]) == Lower(m);
      assert s[j] in s[..i];
    }
    if Contains(s[..i], m) {
      var x :| x in s[..i] && Same(x, m);
      var j :| 0 <= j < i && s[..i][j] == x;
      assert Lower(s[j]) in Seen(s, i);
    }
  }

  /** Every declared master of entry `k` accepted by the guard appears earlier. */
  predicate MastersEarlier(g: Game, s: seq<string>, k: nat, onlyListed: bool)
    requires k < |s|
  {
    forall m | m in g.masters(s[k]) :: (onlyListed ==> Contains(s, m)) ==> Contains(s[..k], m)
  }

  /** Entry `k` passes every per-entry test of the walk. */
  predicate EntryOk(g: Game, s: seq<string>, k: nat, onlyListed: bool)
    requires k < |s|
  {
    && g.isInstalled(s[k])
    && g.isValid(s[k])
    && (k > 0 && g.isMaster(s[k]) ==> g.isMaster(s[k - 1]))
    && !DupAt(s, k)
    && MastersEarlier(g, s, k, onlyListed)
  }

  lemma EntryCheck(g: Game, s: seq<string>, i: nat, onlyListed: bool)
    requires i < |s|
    ensures
      var p := s[i];
      EntryOk(g, s, i, onlyListed) <==>
        && g.isInstalled(p) && g.isValid(p)
        && !(g.isMaster(p) && !(i == 0 || g.isMaster(s[i - 1])))
        && Lower(p) !in Seen(s, i)
        && FirstUnseen(g.masters(p), Seen(s, i), s, p, onlyListed).None?
  {
    var p := s[i];
    assert p in s;
    SeenIsContains(s, i, p);
    forall m | m in g.masters(p)
      ensures Lower(m) in Seen(s, i) <==> Contains(s[..i], m)
    {
      SeenIsContains(s, i, m);
    }
  }

  lemma {:induction false} CheckFromIff(g: Game, s: seq<string>, i: nat, onlyListed: bool)
    requires i <= |s|
    ensures CheckFrom(g, s, i, i == 0 || g.isMaster(s[i - 1]), Seen(s, i), onlyListed).None? <==>
      forall k :: i <= k < |s| ==> EntryOk(g, s, k, onlyListed)
    decreases |s| - i
  {
    if i < |s| {
      CheckFromStep(g, s, i, onlyListed);
      CheckFromIff(g, s, i + 1, onlyListed);
      if EntryOk(g, s, i, onlyListed) && forall k :: i + 1 <= k < |s| ==> EntryOk(g, s, k, onlyListed) {
        forall k | i <= k < |s|
          ensures EntryOk(g, s, k, onlyListed)
        {
        }
      }
    }
  }

  /** The walk accepts entry `i` and goes on exactly when the entry passes its tests. */
  lemma CheckFromStep(g: Game, s: seq<string>, i: nat, onlyListed: bool)
    requires i < |s|
    ensures CheckFrom(g, s, i, i == 0 || g.isMaster(s[i - 1]), Seen(s, i), onlyListed).None? <==>
      EntryOk(g, s, i, onlyListed) && CheckFrom(g, s, i + 1, g.isMaster(s[i]), Seen(s, i + 1), onlyListed).None?
  {
    EntryCheck(g, s, i, onlyListed);
    SeenStep(s, i);
  }

  lemma SeenStep(s: seq<string>, i: nat)
    requires i < |s|
    ensures Seen(s, i) + {Lower(s[i])} == Seen(s, i + 1)
  {
  }

  lemma AdjacentIffPartitioned(g: Game, s: seq<string>)
    ensures (forall k :: 0 < k < |s| && g.isMaster(s[k]) ==> g.isMaster(s[k - 1])) <==> IsPartitioned(g, s)
  {
    if forall k :: 0 < k < |s| && g.isMaster(s[k]) ==> g.isMaster(s[k - 1]) {
      forall i, j | 0 <= i < j < |s| && !g.isMaster(s[i])
        ensures !g.isMaster(s[j])
      {
        var k := i;
        while k < j
          invariant i <= k <= j && !g.isMaster(s[k])
        {
          k := k + 1;
        }
      }
    }
  }

  /** Every declared master of every entry loads before that entry. */
  predicate MastersLoadEarlier(g: Game, s: seq<string>) {
    forall k, m :: 0 <= k < |s| && m in g.masters(s[k]) ==> Contains(s[..k], m)
  }

  /** Every declared master present in the list loads before the entry naming it. */
  predicate ListedMastersLoadEarlier(g: Game, s: seq<string>) {
    forall k, m :: 0 <= k < |s| && m in g.masters(s[k]) && Contains(s, m) ==> Contains(s[..k], m)
  }

  lemma WalkIff(g: Game, s: seq<string>, onlyListed: bool)
    requires s != []
    ensures CheckFrom(g, s, 0, true, {}, onlyListed).None? <==>
      && (forall k :: 0 <= k < |s| ==> g.isInstalled(s[k]) && g.isValid(s[k]))
      && IsPartitioned(g, s)
      && NoDupes(s)
      && (if onlyListed then ListedMastersLoadEarlier(g, s) else MastersLoadEarlier(g, s))
  {
    assert Seen(s, 0) == {};
    CheckFromIff(g, s, 0, onlyListed);
    AdjacentIffPartitioned(g, s);
    NoDupesIffNoDupAt(s);
    EntriesOk(g, s, onlyListed);
    if onlyListed {
      ListedBridge(g, s);
    } else {
      AllBridge(g, s);
    }
  }

  lemma EntriesOk(g: Game, s: seq<string>, onlyListed: bool)
    ensures (forall k :: 0 <= k < |s| ==> EntryOk(g, s, k, onlyListed)) <==>
      && (forall k :: 0 <= k < |s| ==> g.isInstalled(s[k]) && g.isValid(s[k]))
      && (forall k :: 0 < k < |s| && g.isMaster(s[k]) ==> g.isMaster(s[k - 1]))
      && (forall k :: 0 <= k < |s| ==> !DupAt(s, k))
      && (forall k :: 0 <= k < |s| ==> MastersEarlier(g, s, k, onlyListed))
  {
    if && (forall k :: 0 <= k < |s| ==> g.isInstalled(s[k]) && g.isValid(s[k]))
       && (forall k :: 0 < k < |s| && g.isMaster(s[k]) ==> g.isMaster(s[k - 1]))
       && (forall k :: 0 <= k < |s| ==> !DupAt(s, k))
       && (forall k :: 0 <= k < |s| ==> MastersEarlier(g, s, k, onlyListed))
    {
      forall k | 0 <= k < |s|
        ensures EntryOk(g, s, k, onlyListed)
      {
        if k > 0 && g.isMaster(s[k]) {
          assert g.isMaster(s[k - 1]);
        }
      }
    }
    if forall k :: 0 <= k < |s| ==> EntryOk(g, s, k, onlyListed) {
      forall k | 0 < k < |s| && g.isMaster(s[k])
        ensures g.isMaster(s[k - 1])
      {
        assert EntryOk(g, s, k, onlyListed);
      }
      forall k | 0 <= k < |s|
        ensures g.isInstalled(s[k]) && g.isValid(s[k]) && !DupAt(s, k) && MastersEarlier(g, s, k, onlyListed)
      {
        assert EntryOk(g, s, k, onlyListed);
      }
    }
  }

  lemma ListedBridge(g: Game, s: seq<string>)
    ensures ListedMastersLoadEarlier(g, s) <==> forall k :: 0 <= k < |s| ==> MastersEarlier(g, s, k, true)
  {
    if forall k :: 0 <= k < |s| ==> MastersEarlier(g, s, k, true) {
      forall k, m | 0 <= k < |s| && m in g.masters(s[k]) && Contains(s, m)
        ensures Contains(s[..k], m)
      {
        assert MastersEarlier(g, s, k, true);
      }
    }
  }

  lemma AllBridge(g: Game, s: seq<string>)
    ensures MastersLoadEarlier(g, s) <==> forall k :: 0 <= k < |s| ==> MastersEarlier(g, s, k, false)
  {
    if forall k :: 0 <= k < |s| ==> MastersEarlier(g, s, k, false) {
      forall k, m | 0 <= k < |s| && m in g.masters(s[k])
        ensures Contains(s[..k], m)
      {
        assert MastersEarlier(g, s, k, false);
      }
    }
  }

  /**
    As written, a list is valid exactly when it is empty or starts with the
    master file, every entry is installed and a valid plugin, masters precede
    non-masters, no plugin appears twice, and every declared master of every
    entry, whether or not it is in the list, appears before that entry.
  */
  lemma CheckValidityIff(g: Game, s: seq<string>)
    ensures CheckValidity(g, s).None? <==>
      s == [] ||
      (&& Same(s[0], g.masterFile)
       && (forall k :: 0 <= k < |s| ==> g.isInstalled(s[k]) && g.isValid(s[k]))
       && IsPartitioned(g, s)
       && NoDupes(s)
       && MastersLoadEarlier(g, s))
  {
    if s != [] {
      WalkIff(g, s, false);
    }
  }

  /**
    As intended, the master test only concerns masters that are in the list,
    so that a plugin whose master is absent is not reported.
  */
  lemma CheckValidityIntendedIff(g: Game, s: seq<string>)
    ensures CheckValidityIntended(g, s).None? <==>
      s == [] ||
      (&& Same(s[0], g.masterFile)
       && (forall k :: 0 <= k < |s| ==> g.isInstalled(s[k]) && g.isValid(s[k]))
       && IsPartitioned(g, s)
       && NoDupes(s)
       && ListedMastersLoadEarlier(g, s))
  {
    if s != [] {
      WalkIff(g, s, true);
    }
  }

  /**
    The intended check accepts every list the check as written accepts: it
    only drops the report of masters missing from the list.
  */
  lemma IntendedAcceptsMore(g: Game, s: seq<string>)
    ensures CheckValidity(g, s).None? ==> CheckValidityIntended(g, s).None?
  {
    CheckValidityIff(g, s);
    CheckValidityIntendedIff(g, s);
  }

  /** A violation names the entry at fault, which is in the list. */
  lemma {:induction false} ViolationNamesEntry(g: Game, s: seq<string>, i: nat, wasMaster: bool, seen: set<string>, onlyListed: bool)
    requires i <= |s|
    ensures var r := CheckFrom(g, s, i, wasMaster, seen, onlyListed);
      r.Some? ==> !r.value.MasterFileNotFirst? && r.value.name in s[i..]
    decreases |s| - i
  {
    if i < |s| {
      var p := s[i];
      ViolationNamesEntry(g, s, i + 1, g.isMaster(p), seen + {Lower(p)}, onlyListed);
      assert s[i + 1..] == s[i..][1..];
    }
  }

  /**
    The discrepancy: with the master file first and a plugin whose master
    is not in the list at all (a filter patch whose master is not
    installed), the check as written reports the plugin as loading before
    that master, while the intended check accepts the list.
  */
  lemma AbsentMasterIsFlagged(g: Game, master: string, patch: string, absent: string)
    requires Same(master, g.masterFile) && !Same(patch, master)
    requires !Same(absent, master) && !Same(absent, patch)
    requires g.isMaster(master) && !g.isMaster(patch)
    requires g.isInstalled(master) && g.isInstalled(patch)
    requires g.isValid(master) && g.isValid(patch)
    requires g.masters(master) == [] && g.masters(patch) == [absent]
    ensures CheckValidity(g, [master, patch]) == Some(LoadsBeforeMaster(patch, absent))
    ensures CheckValidityIntended(g, [master, patch]).None?
  {
    var s := [master, patch];
    var seen := {Lower(master)};
    assert Contains(s, patch) by { assert Same(s[1], patch); }
    assert !Contains(s, absent) by {
      forall x | x in s
        ensures !Same(x, absent)
      {
      }
    }
    assert CheckFrom(g, s, 0, true, {}, false) == CheckFrom(g, s, 1, true, seen, false);
    assert FirstUnseen([absent], seen, s, patch, false) == Some(absent);
    assert {} + {Lower(master)} == seen;
    assert s[0] == master && g.isMaster(s[0]);
    assert CheckFrom(g, s, 0, true, {}, true) == CheckFrom(g, s, 1, true, seen, true);
    assert FirstUnseen([absent], seen, s, patch, true).None?;
    assert CheckFrom(g, s, 1, true, seen, true) == CheckFrom(g, s, 2, false, seen + {Lower(patch)}, true);
  }

  /**
    `LoadOrder::HasChanged`: an empty list, a timestamp game or a missing
    `loadorder.txt` always count as changed; otherwise the later of the
    file's and the plugins folder's times is compared with the recorded one.
  */
  function HasChanged(g: Game, s: seq<string>, mtime: int, loadOrderFileTime: Option<int>, folderTime: int): (r: bool)
    ensures r <==> (s == [] || g.orderMethod.Timestamp? || loadOrderFileTime.None? ||
                    loadOrderFileTime.value > mtime || folderTime > mtime)
  {
    if s == [] then true
    else if g.orderMethod.Textfile? && loadOrderFileTime.Some? then
      (var t1 := loadOrderFileTime.value;
       if t1 > folderTime then t1 > mtime else folderTime > mtime)
    else true
  }

  /**
    Once a textfile order has been written and its file's time recorded, it
    is current until the file or the plugins folder is touched again.
  */
  lemma SavedOrderIsCurrent(g: Game, s: seq<string>, written: int, folderTime: int, fileTime: int)
    requires g.orderMethod == Textfile && s != []
    ensures !HasChanged(g, s, written, Some(fileTime), folderTime) <==> fileTime <= written && folderTime <= written
  {
  }
}
