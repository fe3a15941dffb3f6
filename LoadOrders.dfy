/**
  The `LoadOrder` object: an ordered list of plugin names and the time it
  was last synchronised with disk. Its methods change the list in place the
  way the source does; each is specified by the functions of the other
  modules, about which the properties are proved.
*/
module LoadOrders {
  import opened Wrappers
  import opened Plugins
  import opened Orders
  import opened Reshape
  import opened Moves
  import opened Validity
  import opened Restamp
  import opened PluginSort
  import opened FolderScan
  import opened TextFiles
  import opened OrderFile
  import opened ActiveSets

  /**
    What the engine reads from disk: the contents of `loadorder.txt` and of
    the active-plugins file (`None` when missing), the names of the regular
    files in the plugins folder in listing order (`None` when the folder is
    not a directory), and the three modification times.
  */
  datatype Disk = Disk(
    loadOrderFile: Option<string>,
    activeFile: Option<string>,
    pluginsFolder: Option<seq<string>>,
    loadOrderFileTime: int,
    activeFileTime: int,
    folderTime: int)
  {
    /** The time of `loadorder.txt`, when it exists. */
    function LoadOrderTime(): Option<int> {
      if loadOrderFile.Some? then Some(loadOrderFileTime) else None
    }

    /** The time of the active-plugins file, when it exists. */
    function ActiveTime(): Option<int> {
      if activeFile.Some? then Some(activeFileTime) else None
    }
  }

  /** A list together with the error that interrupted building it, if any. */
  datatype Outcome = Outcome(order: seq<string>, err: Option<Error>)

  /**
    The Skyrim fix-up after reading the active-plugins file: the game master
    is moved to the front through `setPosition`, then `Update.esm`, when it is
    a valid plugin the list does not name, goes in at the partition point.
  */
  function FixUp(g: Game, s: seq<string>): (r: Result<seq<string>, Error>)
    ensures r.Err? <==> SetPositionCheck(g, s, g.masterFile, 0).Some?
    ensures r.Err? ==> Some(r.error) == SetPositionCheck(g, s, g.masterFile, 0)
  {
    match SetPositionCheck(g, s, g.masterFile, 0)
    case Some(e) => Err(e)
    case None =>
      var m := MoveTo(s, g.masterFile, 0);
      if g.isValid(UpdateEsm) && !Contains(m, UpdateEsm) then
        var p := PartitionPoint(g, m);
        Ok(m[..p] + [UpdateEsm] + m[p..])
      else Ok(m)
  }

  /**
    A fix-up that succeeds leaves the game master in the list, and
    `Update.esm` too whenever it is a valid plugin.
  */
  lemma FixUpAddsMandatory(g: Game, s: seq<string>)
    ensures FixUp(g, s).Ok? ==> g.masterFile in FixUp(g, s).value
    ensures FixUp(g, s).Ok? && g.isValid(UpdateEsm) ==> Contains(FixUp(g, s).value, UpdateEsm)
  {
    if SetPositionCheck(g, s, g.masterFile, 0).None? {
      var m := MoveTo(s, g.masterFile, 0);
      MoveToMembers(s, g.masterFile, 0);
      if g.isValid(UpdateEsm) && !Contains(m, UpdateEsm) {
        InsertKeepsMember(m, PartitionPoint(g, m), UpdateEsm, g.masterFile);
      }
    }
  }

  /** `FixUp` as the two steps `FixUpSkyrim` takes: the move, then the insertion. */
  lemma FixUpSteps(g: Game, s: seq<string>)
    ensures var c := SetPositionCheck(g, s, g.masterFile, 0);
      c.Some? ==> FixUp(g, s) == Err(c.value)
    ensures var m := MoveTo(s, g.masterFile, 0);
      SetPositionCheck(g, s, g.masterFile, 0).None? ==>
        FixUp(g, s) == Ok(if g.isValid(UpdateEsm) && !Contains(m, UpdateEsm)
                          then m[..PartitionPoint(g, m)] + [UpdateEsm] + m[PartitionPoint(g, m)..]
                          else m)
  {
  }

  /** Inserting `x` keeps every member and adds `x`. */
  lemma InsertKeepsMember(m: seq<string>, p: nat, x: string, y: string)
    requires p <= |m| && y in m
    ensures var u := m[..p] + [x] + m[p..];
      y in u && Contains(u, x)
  {
    var u := m[..p] + [x] + m[p..];
    assert u[p] == x && Same(u[p], x);
    var i :| 0 <= i < |m| && m[i] == y;
    if i < p {
      assert u[i] == y;
    } else {
      assert u[i + 1] == y;
    }
  }

  /** `LoadFromFile` on a file that exists: its names appended to `s`, then the Skyrim fix-up. */
  function FromFile(g: Game, s: seq<string>, lines: seq<string>, isActiveFile: bool): (r: Outcome)
    ensures r.err.Some? ==> r.order == s + ReadNames(g, lines, isActiveFile).names
    ensures !(g.id == Skyrim && isActiveFile) ==> r.order == s + ReadNames(g, lines, isActiveFile).names
  {
    var p := ReadNames(g, lines, isActiveFile);
    var t := s + p.names;
    if p.err.Some? then Outcome(t, p.err)
    else if g.id == Skyrim && isActiveFile then
      match FixUp(g, t)
      case Err(e) => Outcome(t, Some(e))
      case Ok(u) => Outcome(u, None)
    else Outcome(t, None)
  }

  /**
    The list `Load` builds before scanning the folder: for the textfile
    method, from `loadorder.txt`, else from the active-plugins file, else,
    for Skyrim, the game master and `Update.esm` when valid.
  */
  function Initial(g: Game, disk: Disk): (r: Outcome)
    ensures g.orderMethod.Timestamp? ==> r == Outcome([], None)
  {
    if g.orderMethod.Timestamp? then Outcome([], None)
    else if disk.loadOrderFile.Some? then FromFile(g, [], Lines(disk.loadOrderFile.value), false)
    else if disk.activeFile.Some? then FromFile(g, [], Lines(disk.activeFile.value), true)
    else if g.id == Skyrim then Outcome([g.masterFile] + (if g.isValid(UpdateEsm) then [UpdateEsm] else []), None)
    else Outcome([], None)
  }

  /**
    Without `loadorder.txt`, Skyrim's list starts with the game master and,
    when it is a valid plugin, `Update.esm`, whether or not the
    active-plugins file exists, unless reading that file fails.
  */
  lemma SkyrimInitialHasMandatory(g: Game, disk: Disk)
    requires g.id == Skyrim && g.orderMethod.Textfile? && disk.loadOrderFile.None?
    ensures Initial(g, disk).err.None? ==> g.masterFile in Initial(g, disk).order
    ensures Initial(g, disk).err.None? && g.isValid(UpdateEsm) ==> Contains(Initial(g, disk).order, UpdateEsm)
  {
    if disk.activeFile.Some? {
      var lines := Lines(disk.activeFile.value);
      var t := [] + ReadNames(g, lines, true).names;
      assert Initial(g, disk) == FromFile(g, [], lines, true);
      FixUpAddsMandatory(g, t);
      if FromFile(g, [], lines, true).err.None? {
        assert FixUp(g, t).Ok? && FromFile(g, [], lines, true).order == FixUp(g, t).value;
      }
    } else {
      var u := [g.masterFile] + (if g.isValid(UpdateEsm) then [UpdateEsm] else []);
      assert Initial(g, disk).order == u && u[0] == g.masterFile;
      if g.isValid(UpdateEsm) {
        assert u[1] == UpdateEsm && Same(u[1], UpdateEsm);
      }
    }
  }

  /** The folder scan, when the plugins folder is a directory. */
  function WithFolder(g: Game, s: seq<string>, folder: Option<seq<string>>): (r: seq<string>)
    ensures folder.None? ==> r == s
    ensures folder.Some? ==> forall x :: x in folder.value && g.isValid(x) ==> Contains(r, x)
  {
    if folder.Some? then
      ScanCoversFolder(g, s, folder.value);
      Scanned(g, s, folder.value)
    else s
  }

  /**
    When the game master is a valid master file the fix-up cannot fail: it
    leaves the master first, named once, and `Update.esm` in the list
    whenever that is a valid plugin.
  */
  lemma FixUpLeadsWithMaster(g: Game, s: seq<string>)
    requires g.isValid(g.masterFile) && g.isMaster(g.masterFile)
    ensures FixUp(g, s).Ok?
    ensures |FixUp(g, s).value| > 0 && FixUp(g, s).value[0] == g.masterFile
    ensures forall j :: 0 < j < |FixUp(g, s).value| ==> !Same(FixUp(g, s).value[j], g.masterFile)
    ensures g.isValid(UpdateEsm) ==> Contains(FixUp(g, s).value, UpdateEsm)
  {
    var name := g.masterFile;
    assert SetPositionCheck(g, s, name, 0).None? by {
      assert Same(name, g.masterFile);
      assert Position(s, name) >= 0;
    }
    var m := MoveTo(s, name, 0);
    MoveToFront(s, name);
    if g.isValid(UpdateEsm) && !Contains(m, UpdateEsm) {
      var p := PartitionPoint(g, m);
      LeadingMasterBeforePartitionPoint(g, m);
      var u := m[..p] + [UpdateEsm] + m[p..];
      assert FixUp(g, s) == Ok(u);
      assert u[p] == UpdateEsm && Same(UpdateEsm, UpdateEsm);
      assert !Same(UpdateEsm, name) by {
        assert m[0] in m;
      }
      InsertAfterFront(m, p, UpdateEsm, name);
    }
  }

  /** A move to index 0 leaves the plugin first and nowhere else. */
  lemma MoveToFront(s: seq<string>, name: string)
    ensures var m := MoveTo(s, name, 0);
      |m| > 0 && m[0] == name && forall j :: 0 < j < |m| ==> !Same(m[j], name)
  {
    MovePlacesOnce(s, name, 0);
  }

  /** Inserting, past the front, an entry not naming `name` keeps `name` out of every later place. */
  lemma InsertAfterFront(m: seq<string>, p: nat, x: string, name: string)
    requires 1 <= p <= |m| && !Same(x, name)
    requires forall j :: 0 < j < |m| ==> !Same(m[j], name)
    ensures (m[..p] + [x] + m[p..])[0] == m[0]
    ensures forall j :: 0 < j < |m[..p] + [x] + m[p..]| ==> !Same((m[..p] + [x] + m[p..])[j], name)
  {
    var u := m[..p] + [x] + m[p..];
    forall j | 0 < j < |u|
      ensures !Same(u[j], name)
    {
      if j < p {
        assert u[j] == m[j];
      } else if j > p {
        assert u[j] == m[j - 1];
      }
    }
  }

  /**
    For the textfile method, a `loadorder.txt` that `Save` wrote for a list
    of valid single-line UTF-8 names gives that list back, before the folder
    scan (for every game but Morrowind, whose order is not kept in a text
    file).
  */
  lemma SavedOrderLoadsBack(g: Game, s: seq<string>, disk: Disk)
    requires g.orderMethod == Textfile && g.id != Morrowind
    requires disk.loadOrderFile == Some(Render(s))
    requires forall k :: 0 <= k < |s| ==> Writable(g, s[k])
    ensures Initial(g, disk) == Outcome(s, None)
  {
    SavedLinesReadBack(g, s);
    CleanRead(g, [], Lines(Render(s)), false, s);
    assert [] + s == s;
  }

  /** A read that ends without error, with no fix-up due, appends its names. */
  lemma CleanRead(g: Game, s: seq<string>, lines: seq<string>, isActiveFile: bool, names: seq<string>)
    requires ReadNames(g, lines, isActiveFile) == Parsed(names, None)
    requires !(g.id == Skyrim && isActiveFile)
    ensures FromFile(g, s, lines, isActiveFile) == Outcome(s + names, None)
  {
  }

  /** A valid plugin listed twice in `loadorder.txt` is loaded twice. */
  lemma DuplicateLinesAreKept(g: Game, name: string, disk: Disk)
    requires g.orderMethod == Textfile && g.id != Morrowind && Writable(g, name)
    requires disk.loadOrderFile == Some(Render([name, name]))
    ensures Initial(g, disk) == Outcome([name, name], None)
  {
    SavedOrderLoadsBack(g, [name, name], disk);
  }

  class LoadOrder {
    var loadOrder: seq<string>
    var mtime: int

    constructor ()
      ensures loadOrder == [] && mtime == 0
    {
      loadOrder := [];
      mtime := 0;
    }

    /** `getLoadOrder`: the plugin names, in load order. */
    function GetLoadOrder(): (r: seq<string>)
      reads this
      ensures |r| == |loadOrder| && forall k :: 0 <= k < |r| ==> r[k] == loadOrder[k]
    {
      loadOrder
    }

    /** `getPosition`: the first entry naming the plugin, or the list's length. */
    function GetPosition(name: string): (r: nat)
      reads this
      ensures r <= |loadOrder|
      ensures r < |loadOrder| ==> Same(loadOrder[r], name)
      ensures forall k :: 0 <= k < r ==> !Same(loadOrder[k], name)
    {
      Position(loadOrder, name)
    }

    /** `getPluginAtPosition`: `None` where `at` throws out of range. */
    function GetPluginAtPosition(index: nat): (r: Option<string>)
      reads this
      ensures r.Some? <==> index < |loadOrder|
      ensures r.Some? ==> r.value == loadOrder[index]
    {
      PluginAt(loadOrder, index)
    }

    /** `getMasterPartitionPoint`. */
    function GetMasterPartitionPoint(g: Game): (r: nat)
      reads this
      ensures r <= |loadOrder|
      ensures r == PartitionPoint(g, loadOrder)
    {
      PartitionPoint(g, loadOrder)
    }

    /** `CheckValidity`, as written. */
    function CheckValidity(g: Game): (r: Option<Violation>)
      reads this
      ensures r == Validity.CheckValidity(g, loadOrder)
    {
      Validity.CheckValidity(g, loadOrder)
    }

    /** `HasChanged`, on the times `disk` reports. */
    function HasChanged(g: Game, disk: Disk): (r: bool)
      reads this
      ensures r == Validity.HasChanged(g, loadOrder, mtime, disk.LoadOrderTime(), disk.folderTime)
    {
      Validity.HasChanged(g, loadOrder, mtime, disk.LoadOrderTime(), disk.folderTime)
    }

    /** `clear`. */
    method Clear()
      modifies this
      ensures loadOrder == [] && mtime == old(mtime)
    {
      loadOrder := [];
    }

    /**
      `setLoadOrder`: the checks run first and the list is replaced only when
      they all pass.
    */
    method SetLoadOrder(g: Game, names: seq<string>) returns (err: Option<Error>)
      modifies this
      ensures err.None? <==>
        && MasterLeads(g, names)
        && IsPartitioned(g, names)
        && NoDupes(names)
        && forall k :: 0 <= k < |names| ==> g.isValid(names[k])
      ensures err == Some(MasterMustLoadFirst) <==> !MasterLeads(g, names)
      ensures err == Some(MastersNotBeforeNonMasters) <==> MasterLeads(g, names) && !IsPartitioned(g, names)
      ensures err.Some? && err.value.DuplicateEntry? ==>
        exists k: nat :: FirstBadAt(g, names, k) && DupAt(names, k) && names[k] == err.value.name
      ensures err.Some? && err.value.InvalidPlugin? ==>
        exists k: nat :: FirstBadAt(g, names, k) && !DupAt(names, k) && names[k] == err.value.name
      ensures forall k: nat :: MasterLeads(g, names) && IsPartitioned(g, names) && FirstBadAt(g, names, k) ==>
        err == Some(if DupAt(names, k) then DuplicateEntry(names[k]) else InvalidPlugin(names[k]))
      ensures err.None? ==> loadOrder == names
      ensures err.Some? ==> loadOrder == old(loadOrder)
      ensures mtime == old(mtime)
    {
      err := CheckNewLoadOrder(g, names);
      if err.Some? {
        return;
      }
      loadOrder := [];
      var i := 0;
      while i < |names|
        invariant i <= |names|
        invariant loadOrder == names[..i]
        invariant mtime == old(mtime)
      {
        assert names[..i + 1] == names[..i] + [names[i]];
        loadOrder := loadOrder + [names[i]];
        i := i + 1;
      }
      assert names[..i] == names;
    }

    /**
      `setPosition`: the checks run first; on success every entry naming the
      plugin is erased and the name is inserted at the index, clamped to the
      shortened list's length.
    */
    method SetPosition(g: Game, name: string, index: nat) returns (err: Option<Error>)
      modifies this
      ensures err == SetPositionCheck(g, old(loadOrder), name, index)
      ensures err.None? ==> loadOrder == MoveTo(old(loadOrder), name, index)
      ensures err.Some? ==> loadOrder == old(loadOrder)
      ensures mtime == old(mtime)
    {
      err := SetPositionCheck(g, loadOrder, name, index);
      if err.Some? {
        return;
      }
      var s := loadOrder;
      var r: seq<string> := [];
      var i := 0;
      while i < |s|
        invariant i <= |s|
        invariant r == RemoveAll(s[..i], name)
        invariant mtime == old(mtime)
      {
        assert s[..i + 1] == s[..i] + [s[i]];
        RemoveAllAppend(s[..i], [s[i]], name);
        assert [s[i]][1..] == [];
        if !Same(s[i], name) {
          r := r + [s[i]];
        } else {
          assert r + [] == r;
        }
        i := i + 1;
      }
      assert s[..i] == s;
      var k := if index > |r| then |r| else index;
      loadOrder := r[..k] + [name] + r[k..];
    }

    /**
      `unique`: a pass from the back with a set of lower-cased names seen,
      keeping an entry only when no later entry names the same plugin.
    */
    method Unique()
      modifies this
      ensures loadOrder == KeepLast(old(loadOrder))
      ensures mtime == old(mtime)
    {
      var s := loadOrder;
      var seen: set<string> := {};
      var kept: seq<string> := [];
      var i := |s|;
      while i > 0
        invariant 0 <= i <= |s|
        invariant seen == set j | i <= j < |s| :: Lower(s[j])
        invariant kept == KeepLast(s[i..])
        invariant mtime == old(mtime)
      {
        i := i - 1;
        var dup := Lower(s[i]) in seen;
        SeenLater(s, i, seen);
        assert s[i..][0] == s[i] && s[i..][1..] == s[i + 1..];
        if !dup {
          kept := [s[i]] + kept;
        }
        seen := seen + {Lower(s[i])};
      }
      loadOrder := kept;
    }

    /** `partitionMasters`: masters first, each group in its original order. */
    method PartitionMasters(g: Game)
      modifies this
      ensures loadOrder == StablePartition(g, old(loadOrder))
      ensures mtime == old(mtime)
    {
      var s := loadOrder;
      var masters: seq<string> := [];
      var others: seq<string> := [];
      var i := 0;
      while i < |s|
        invariant i <= |s|
        invariant masters == Masters(g, s[..i]) && others == NonMasters(g, s[..i])
        invariant mtime == old(mtime)
      {
        GroupsStep(g, s, i);
        if g.isMaster(s[i]) {
          masters := masters + [s[i]];
        } else {
          others := others + [s[i]];
        }
        i := i + 1;
      }
      assert s[..i] == s;
      loadOrder := masters + others;
    }

    /**
      `LoadFromFile`: the names of the file's lines are appended to the list
      (`file` is `None` when the file does not exist); for Skyrim's
      active-plugins file the fix-up follows. An error leaves the names read
      so far in the list.
    */
    method LoadFromFile(g: Game, file: Option<string>, isActiveFile: bool) returns (err: Option<Error>)
      modifies this
      ensures file.None? ==> err == Some(MissingFile) && loadOrder == old(loadOrder)
      ensures file.Some? ==> Outcome(loadOrder, err) == FromFile(g, old(loadOrder), Lines(file.value), isActiveFile)
      ensures mtime == old(mtime)
    {
      if file.None? {
        return Some(MissingFile);
      }
      err := AppendLines(g, Lines(file.value), isActiveFile);
      if err.Some? {
        return;
      }
      if g.id == Skyrim && isActiveFile {
        err := FixUpSkyrim(g);
      }
    }

    /** The Skyrim fix-up at the end of `LoadFromFile`. */
    method FixUpSkyrim(g: Game) returns (err: Option<Error>)
      modifies this
      ensures FixUp(g, old(loadOrder)).Err? ==> err == Some(FixUp(g, old(loadOrder)).error) && loadOrder == old(loadOrder)
      ensures FixUp(g, old(loadOrder)).Ok? ==> err.None? && loadOrder == FixUp(g, old(loadOrder)).value
      ensures mtime == old(mtime)
    {
      ghost var s := loadOrder;
      err := SetPosition(g, g.masterFile, 0);
      FixUpSteps(g, s);
      if err.Some? {
        return;
      }
      if g.isValid(UpdateEsm) && !Contains(loadOrder, UpdateEsm) {
        var p := GetMasterPartitionPoint(g);
        loadOrder := loadOrder[..p] + [UpdateEsm] + loadOrder[p..];
      }
    }

    /** The reading loop of `LoadFromFile`: each kept line's name is appended. */
    method AppendLines(g: Game, lines: seq<string>, isActiveFile: bool) returns (err: Option<Error>)
      modifies this
      ensures loadOrder == old(loadOrder) + ReadNames(g, lines, isActiveFile).names
      ensures err == ReadNames(g, lines, isActiveFile).err
      ensures mtime == old(mtime)
    {
      ghost var start := loadOrder;
      ghost var names: seq<string> := [];
      var i := 0;
      while i < |lines|
        invariant i <= |lines|
        invariant ReadNames(g, lines[..i], isActiveFile) == Parsed(names, None)
        invariant loadOrder == start + names
        invariant mtime == old(mtime)
      {
        ReadStep(g, lines, i, names, isActiveFile);
        match ReadLine(g, lines[i], isActiveFile) {
          case Fail(e) =>
            return Some(e);
          case Name(n) =>
            assert (start + names) + [n] == start + (names + [n]);
            loadOrder := loadOrder + [n];
            names := names + [n];
          case Skip =>
        }
        i := i + 1;
      }
      assert lines[..i] == lines;
      return None;
    }

    /**
      `Load`: the list is rebuilt from the files (textfile method), then the
      plugins folder is scanned, then a timestamp-method list is sorted.
    */
    method Load(g: Game, disk: Disk) returns (err: Option<Error>)
      modifies this
      ensures err == Initial(g, disk).err
      ensures err.Some? ==> loadOrder == Initial(g, disk).order
      ensures err.None? && g.orderMethod.Textfile? ==>
        loadOrder == WithFolder(g, Initial(g, disk).order, disk.pluginsFolder)
      ensures err.None? && g.orderMethod.Timestamp? ==>
        SortedBy(g, loadOrder) && multiset(loadOrder) == multiset(WithFolder(g, [], disk.pluginsFolder))
      ensures mtime == old(mtime)
    {
      loadOrder := [];
      err := None;
      if g.orderMethod.Textfile? {
        if disk.loadOrderFile.Some? {
          err := LoadFromFile(g, disk.loadOrderFile, false);
        } else if disk.activeFile.Some? {
          err := LoadFromFile(g, disk.activeFile, true);
        } else if g.id == Skyrim {
          loadOrder := [g.masterFile];
          if g.isValid(UpdateEsm) {
            loadOrder := loadOrder + [UpdateEsm];
          } else {
            assert loadOrder == [g.masterFile] + [];
          }
        }
        if err.Some? {
          return;
        }
      }
      if disk.pluginsFolder.Some? {
        loadOrder := ScanFolder(g, loadOrder, disk.pluginsFolder.value);
      }
      if g.orderMethod.Timestamp? {
        loadOrder := SortPlugins(g, loadOrder);
      }
    }

    /**
      `Save`. Timestamp method: the plugins get the stamps `RestampTimes`
      hands out, in list order (`stamps[i]` for entry `i`), and the plugins
      folder's time is recorded. Textfile method: `loadorder.txt` is written
      one name per line and its new time (`writtenTime`) recorded, the active
      set is reloaded when it has changed on disk, and the active-plugins
      file is written.
    */
    method Save(g: Game, disk: Disk, active: ActivePlugins, writtenTime: int)
      returns (stamps: seq<int>, loadOrderText: string, activeText: string, err: Option<Error>)
      modifies this, active
      ensures loadOrder == old(loadOrder)
      ensures active.mtime == old(active.mtime)
      ensures g.orderMethod.Timestamp? ==>
        && StampsFor(TimesOf(g, loadOrder), stamps, |loadOrder|)
        && mtime == disk.folderTime
        && active.active == old(active.active)
        && err.None?
      ensures g.orderMethod.Textfile? ==> loadOrderText == Render(loadOrder) && mtime == writtenTime
      ensures g.orderMethod.Textfile? && !old(active.HasChanged(disk.ActiveTime())) ==>
        active.active == old(active.active)
      ensures g.orderMethod.Textfile? && old(active.HasChanged(disk.ActiveTime())) ==>
        && (var p := ActiveNames(g, disk.activeFile);
            p.err.Some? ==> err == p.err && activeText == [] && active.active == Collect({}, p.names))
        && (var p := ActiveNames(g, disk.activeFile);
            p.err.None? ==> active.active == WithMandatory(g, Collect({}, p.names)))
      ensures (g.orderMethod.Textfile? &&
               (!old(active.HasChanged(disk.ActiveTime())) || ActiveNames(g, disk.activeFile).err.None?)) ==>
        var e := Emit(g, WrittenEntries(g, active.active, loadOrder), false);
        && activeText == Header(g, disk.activeFile) + e.text
        && err == if e.badFilename != "" then Some(BadFilename(e.badFilename)) else None
    {
      stamps, loadOrderText, activeText, err := [], [], [], None;
      if g.orderMethod.Timestamp? {
        stamps := RestampTimes(g, loadOrder);
        mtime := disk.folderTime;
      } else {
        loadOrderText := WriteLines(loadOrder);
        mtime := writtenTime;
        if active.HasChanged(disk.ActiveTime()) {
          err := active.Load(g, disk.activeFile);
          if err.Some? {
            return;
          }
        }
        var written;
        activeText, written, err := active.Save(g, disk.activeFile, loadOrder);
      }
    }
  }

  /** Whether entry `i` is named again later is whether its lower-cased name was seen. */
  lemma SeenLater(s: seq<string>, i: nat, seen: set<string>)
    requires i < |s| && seen == set j | i + 1 <= j < |s| :: Lower(s[j])
    ensures Lower(s[i]) in seen <==> Contains(s[i + 1..], s[i])
  {
    if Lower(s[i]) in seen {
      var j :| i + 1 <= j < |s| && Lower(s[j]) == Lower(s[i]);
      assert s[j] == s[i + 1..][j - i - 1];
      assert s[j] in s[i + 1..] && Same(s[j], s[i]);
    }
    if Contains(s[i + 1..], s[i]) {
      var y :| y in s[i + 1..] && Same(y, s[i]);
      var k :| 0 <= k < |s[i + 1..]| && s[i + 1..][k] == y;
      assert s[i + 1 + k] == y;
      assert Lower(s[i + 1 + k]) in seen;
    }
  }

  /** Writing each name followed by a line ending. */
  method WriteLines(names: seq<string>) returns (text: string)
    ensures text == Render(names)
  {
    text := [];
    var i := 0;
    while i < |names|
      invariant i <= |names|
      invariant text == Render(names[..i])
    {
      assert names[..i + 1] == names[..i] + [names[i]];
      RenderAppend(names[..i], names[i]);
      text := text + (names[i] + "\n");
      i := i + 1;
    }
    assert names[..i] == names;
  }
}
