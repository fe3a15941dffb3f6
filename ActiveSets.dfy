/**
  The active-plugins set: the names read from `plugins.txt` (or the
  `[Game Files]` section of Morrowind.ini), the text written back to that
  file, and its validity check. Members are compared case-insensitively, so
  inserting a name the set already holds under another casing changes
  nothing.
*/
module ActiveSets {
  import opened Wrappers
  import opened Plugins
  import opened TextFiles
  import opened OrderFile

  /** The set holds an entry naming `name`: `find(Plugin(name)) != end()`. */
  predicate Has(a: set<string>, name: string) {
    exists x :: x in a && Same(x, name)
  }

  /** No two members name the same plugin. */
  predicate Distinct(a: set<string>) {
    forall x, y :: x in a && y in a && Same(x, y) ==> x == y
  }

  /** `insert`: adds `name` unless a member already names that plugin. */
  function WithName(a: set<string>, name: string): (r: set<string>)
    ensures Distinct(a) ==> Distinct(r)
    ensures Has(a, name) ==> r == a
    ensures forall n :: Has(r, n) <==> Has(a, n) || Same(name, n)
    ensures forall x :: x in r ==> x in a || x == name
    ensures a <= r && |r| <= |a| + 1
  {
    if Has(a, name) then a else a + {name}
  }

  /** Inserting `names` one after another, in order. */
  function Collect(a: set<string>, names: seq<string>): (r: set<string>)
    ensures Distinct(a) ==> Distinct(r)
    ensures forall n :: Has(r, n) <==> Has(a, n) || Contains(names, n)
    ensures forall x :: x in r ==> x in a || x in names
    ensures a <= r
  {
    if names == [] then a
    else
      var last := |names| - 1;
      assert names == names[..last] + [names[last]];
      assert forall n :: Contains(names, n) <==> Contains(names[..last], n) || Same(names[last], n);
      WithName(Collect(a, names[..last]), names[last])
  }

  lemma CollectStep(a: set<string>, names: seq<string>, n: string)
    ensures Collect(a, names + [n]) == WithName(Collect(a, names), n)
  {
    assert (names + [n])[..|names|] == names;
  }

  /** Skyrim's mandatory members: the game master, and `Update.esm` when it is a valid plugin. */
  function WithMandatory(g: Game, a: set<string>): (r: set<string>)
    ensures Distinct(a) ==> Distinct(r)
    ensures forall x :: x in r ==> x in a || (g.id == Skyrim && (x == g.masterFile || x == UpdateEsm))
    ensures g.id != Skyrim ==> r == a
  {
    if g.id != Skyrim then a
    else
      var b := WithName(a, g.masterFile);
      if g.isValid(UpdateEsm) then WithName(b, UpdateEsm) else b
  }

  /** The names the active-plugins file yields; none when the file does not exist. */
  function ActiveNames(g: Game, file: Option<string>): Parsed {
    if file.None? then Parsed([], None) else ReadNames(g, Lines(file.value), true)
  }

  /**
    After a Skyrim load the set holds the game master, and `Update.esm`
    whenever that is a valid plugin, whatever the file said.
  */
  lemma SkyrimMandatoryMembers(g: Game, a: set<string>)
    requires g.id == Skyrim
    ensures Has(WithMandatory(g, a), g.masterFile)
    ensures g.isValid(UpdateEsm) ==> Has(WithMandatory(g, a), UpdateEsm)
  {
    var b := WithName(a, g.masterFile);
    assert Has(b, g.masterFile);
  }

  /**
    Every member of a loaded set is a valid plugin named by a kept line,
    except the Skyrim master, which is added without a validity check.
  */
  lemma LoadedMembersAreValid(g: Game, file: Option<string>, x: string)
    requires x in WithMandatory(g, Collect({}, ActiveNames(g, file).names))
    ensures g.isValid(x) || (g.id == Skyrim && x == g.masterFile)
  {
    var names := ActiveNames(g, file).names;
    if x in names {
      var k :| 0 <= k < |names| && names[k] == x;
    }
  }

  /** What went wrong in the set's validity check. */
  datatype ActiveViolation = NotInstalled(name: string) | TooMany | MasterInactive | UpdateInactive

  /** The text Save writes before each name: `GameFile<i>=` when numbered. */
  function Prefix(numbered: bool, i: nat): string {
    if numbered then "GameFile" + DecimalText(i) + "=" else ""
  }

  /** The text written for a run of entries, and the `badFilename` recorded on the way. */
  datatype Emitted = Emitted(text: string, badFilename: string)

  /**
    Writing `entries`: each gets its prefix, then its encoded name and a
    newline when encoding succeeds, nothing more when it fails. Each failure
    overwrites `badFilename` with its message, so the last failure's message
    is what remains; it stays empty when every entry encodes.
  */
  function Emit(g: Game, entries: seq<string>, numbered: bool): (r: Emitted)
    ensures LastFailure(g, entries, r.badFilename)
  {
    if entries == [] then Emitted([], "")
    else
      var last := |entries| - 1;
      var p := Emit(g, entries[..last], numbered);
      assert entries == entries[..last] + [entries[last]];
      LastFailureStep(g, entries[..last], entries[last], p.badFilename);
      match g.fromUtf8(entries[last])
      case Ok(t) => Emitted(p.text + Prefix(numbered, last) + (t + "\n"), p.badFilename)
      case Err(message) => Emitted(p.text + Prefix(numbered, last), message)
  }

  /**
    `bad` is what `badFilename` holds after writing `entries`: empty when
    every entry encodes, otherwise the message of the last entry that fails.
  */
  predicate LastFailure(g: Game, entries: seq<string>, bad: string) {
    && ((forall k :: 0 <= k < |entries| ==> g.fromUtf8(entries[k]).Ok?) ==> bad == "")
    && ((exists k :: 0 <= k < |entries| && g.fromUtf8(entries[k]).Err?) ==>
         exists k :: (0 <= k < |entries| && g.fromUtf8(entries[k]) == Err(bad) &&
           forall j :: k < j < |entries| ==> g.fromUtf8(entries[j]).Ok?))
  }

  /** Writing one more entry: a failure overwrites `badFilename`, a success keeps it. */
  lemma LastFailureStep(g: Game, init: seq<string>, x: string, bad: string)
    requires LastFailure(g, init, bad)
    ensures LastFailure(g, init + [x], if g.fromUtf8(x).Err? then g.fromUtf8(x).error else bad)
  {
    var s := init + [x];
    assert s[|init|] == x;
    assert forall k :: 0 <= k < |init| ==> s[k] == init[k];
    if g.fromUtf8(x).Ok? {
      if exists k :: 0 <= k < |s| && g.fromUtf8(s[k]).Err? {
        var k :| 0 <= k < |s| && g.fromUtf8(s[k]).Err?;
        assert g.fromUtf8(init[k]).Err?;
        var m :| 0 <= m < |init| && g.fromUtf8(init[m]) == Err(bad) &&
          forall j :: m < j < |init| ==> g.fromUtf8(init[j]).Ok?;
        assert g.fromUtf8(s[m]) == Err(bad);
      }
    } else {
      assert g.fromUtf8(s[|init|]) == Err(g.fromUtf8(x).error);
    }
  }

  /** The lines written when every entry encodes. */
  function Encoded(g: Game, entries: seq<string>, numbered: bool): (r: seq<string>)
    requires forall k :: 0 <= k < |entries| ==> g.fromUtf8(entries[k]).Ok?
    ensures |r| == |entries|
    ensures forall k :: 0 <= k < |entries| ==> r[k] == Prefix(numbered, k) + g.fromUtf8(entries[k]).value
  {
    seq(|entries|, k requires 0 <= k < |entries| => Prefix(numbered, k) + g.fromUtf8(entries[k]).value)
  }

  lemma {:induction false} RenderAppend(a: seq<string>, l: string)
    ensures Render(a + [l]) == Render(a) + (l + "\n")
  {
    if a != [] {
      assert (a + [l])[1..] == a[1..] + [l];
      RenderAppend(a[1..], l);
    } else {
      assert [l][1..] == [];
    }
  }

  /** Without encoding failures, Save writes one line per entry. */
  lemma {:induction false} EmitAllEncoded(g: Game, entries: seq<string>, numbered: bool)
    requires forall k :: 0 <= k < |entries| ==> g.fromUtf8(entries[k]).Ok?
    ensures Emit(g, entries, numbered).text == Render(Encoded(g, entries, numbered))
  {
    if entries != [] {
      var last := |entries| - 1;
      var init := entries[..last];
      assert forall k :: 0 <= k < |init| ==> init[k] == entries[k];
      EmitAllEncoded(g, init, numbered);
      var t := g.fromUtf8(entries[last]).value;
      var l := Prefix(numbered, last) + t;
      EncodedAppend(g, entries, numbered);
      RenderAppend(Encoded(g, init, numbered), l);
      var before := Emit(g, init, numbered).text;
      EmitEncodedStep(g, entries, numbered);
      calc {
        Emit(g, entries, numbered).text;
        before + Prefix(numbered, last) + (t + "\n");
        { Regroup(before, Prefix(numbered, last), t, "\n"); }
        Render(Encoded(g, init, numbered)) + (l + "\n");
        Render(Encoded(g, init, numbered) + [l]);
        Render(Encoded(g, entries, numbered));
      }
    }
  }

  /** An entry that encodes adds its prefix, its encoded name and a newline. */
  lemma EmitEncodedStep(g: Game, entries: seq<string>, numbered: bool)
    requires entries != [] && g.fromUtf8(entries[|entries| - 1]).Ok?
    ensures var last := |entries| - 1;
      Emit(g, entries, numbered).text ==
        Emit(g, entries[..last], numbered).text + Prefix(numbered, last) + (g.fromUtf8(entries[last]).value + "\n")
  {
  }

  lemma Regroup(a: string, b: string, c: string, d: string)
    ensures a + b + (c + d) == a + ((b + c) + d)
  {
  }

  /** The encoded lines of a run grow by the line of its last entry. */
  lemma EncodedAppend(g: Game, entries: seq<string>, numbered: bool)
    requires entries != []
    requires forall k :: 0 <= k < |entries| ==> g.fromUtf8(entries[k]).Ok?
    ensures var last := |entries| - 1;
      Encoded(g, entries, numbered) ==
      Encoded(g, entries[..last], numbered) + [Prefix(numbered, last) + g.fromUtf8(entries[last]).value]
  {
    var last := |entries| - 1;
    var init := entries[..last];
    var a := Encoded(g, entries, numbered);
    var b := Encoded(g, init, numbered) + [Prefix(numbered, last) + g.fromUtf8(entries[last]).value];
    assert |a| == |b|;
    forall k | 0 <= k < |a|
      ensures a[k] == b[k]
    {
      if k < last {
        assert init[k] == entries[k];
      }
    }
  }

  /** Lines, each naming (after transcoding) the matching entry, read back as those entries. */
  lemma {:induction false} TranscodedLinesReadBack(g: Game, lines: seq<string>, texts: seq<string>, entries: seq<string>)
    requires |lines| == |texts| == |entries|
    requires forall k :: 0 <= k < |lines| ==> LineText(g, lines[k]) == Some(texts[k])
    requires forall k :: 0 <= k < |lines| ==> g.toUtf8(texts[k]) == Ok(entries[k]) && g.isValid(entries[k])
    ensures ReadNames(g, lines, true) == Parsed(entries, None)
  {
    if lines != [] {
      assert ReadLine(g, lines[0], true) == Name(entries[0]);
      TranscodedLinesReadBack(g, lines[1..], texts[1..], entries[1..]);
      assert entries == [entries[0]] + entries[1..];
    }
  }

  /** A name that encodes to one line that decodes back to it. */
  predicate RoundTrips(g: Game, name: string) {
    && g.isValid(name)
    && g.fromUtf8(name).Ok?
    && SingleLine(g.fromUtf8(name).value)
    && g.toUtf8(g.fromUtf8(name).value) == Ok(name)
  }

  /**
    For a game other than Morrowind, what Save writes for the entries is read
    back by Load as the same names in the same order, provided each name
    survives the round trip through the game's code page.
  */
  lemma ActiveSaveReadsBack(g: Game, entries: seq<string>)
    requires g.id != Morrowind
    requires forall k :: 0 <= k < |entries| ==> RoundTrips(g, entries[k]) && !IsSkipped(g.fromUtf8(entries[k]).value)
    ensures ReadNames(g, Lines(Emit(g, entries, false).text), true) == Parsed(entries, None)
  {
    var lines := Encoded(g, entries, false);
    EmitAllEncoded(g, entries, false);
    forall k | 0 <= k < |lines|
      ensures SingleLine(lines[k]) && LineText(g, lines[k]) == Some(lines[k])
      ensures g.toUtf8(lines[k]) == Ok(entries[k])
    {
      assert lines[k] == g.fromUtf8(entries[k]).value;
    }
    LinesOfRender(lines);
    TranscodedLinesReadBack(g, lines, lines, entries);
  }

  /**
    For Morrowind, the numbered `GameFile<i>=` lines Save writes are read
    back as the same names, as long as there are at most a thousand of them
    (the pattern allows three digits) and each encoded name ends in `.esm`
    or `.esp`.
  */
  lemma MorrowindSaveReadsBack(g: Game, entries: seq<string>)
    requires g.id == Morrowind && |entries| <= 1000
    requires forall k :: 0 <= k < |entries| ==> RoundTrips(g, entries[k]) && IsPluginValue(g.fromUtf8(entries[k]).value)
    ensures ReadNames(g, Lines(Emit(g, entries, true).text), true) == Parsed(entries, None)
  {
    var lines := Encoded(g, entries, true);
    var texts := seq(|entries|, k requires 0 <= k < |entries| => g.fromUtf8(entries[k]).value);
    EmitAllEncoded(g, entries, true);
    forall k | 0 <= k < |lines|
      ensures SingleLine(lines[k])
      ensures LineText(g, lines[k]) == Some(texts[k])
    {
      NumberedLineIsRead(g, k, texts[k]);
    }
    LinesOfRender(lines);
    TranscodedLinesReadBack(g, lines, texts, entries);
  }

  /** A numbered Morrowind line is one line, and its text is what the reader takes from it. */
  lemma NumberedLineIsRead(g: Game, i: nat, text: string)
    requires g.id == Morrowind && i < 1000
    requires IsPluginValue(text) && SingleLine(text)
    ensures SingleLine(Prefix(true, i) + text)
    ensures LineText(g, Prefix(true, i) + text) == Some(text)
  {
    var line := Prefix(true, i) + text;
    assert line == GameFileLine(i, text);
    GameFileLineRoundTrip(i, text);
    GameFileLineIsSingle(i, text);
    assert line[0] == 'G';
  }

  /** Entries of the load order that the textfile-method Save writes, in load order. */
  function WrittenEntries(g: Game, a: set<string>, names: seq<string>): (r: seq<string>)
    ensures forall x :: x in r <==> x in names && Has(a, x) && !(g.id == Skyrim && x == g.masterFile)
    ensures |r| <= |names|
  {
    if names == [] then []
    else
      var last := |names| - 1;
      var x := names[last];
      assert names == names[..last] + [x];
      WrittenEntries(g, a, names[..last]) + (if Has(a, x) && !(g.id == Skyrim && x == g.masterFile) then [x] else [])
  }

  /** The Morrowind.ini settings written back ahead of the plugin list, with their line ending. */
  function Header(g: Game, file: Option<string>): (r: string)
    ensures g.id != Morrowind || file.None? ==> r == []
    ensures r != [] ==> r == SettingsPrefix(file.value) + "\n"
  {
    var settings := if g.id == Morrowind && file.Some? then SettingsPrefix(file.value) else [];
    if settings != [] then settings + "\n" else []
  }

  class ActivePlugins {
    var active: set<string>
    var mtime: int

    constructor ()
      ensures active == {} && mtime == 0
    {
      active := {};
      mtime := 0;
    }

    /** `insert`: a no-op when a member already names the plugin. */
    method Insert(name: string)
      modifies this
      ensures active == WithName(old(active), name) && mtime == old(mtime)
    {
      if !(exists x :: x in active && Same(x, name)) {
        active := active + {name};
      }
    }

    /**
      `Load`: the set is cleared and refilled from the active-plugins file
      (`file`, `None` when it does not exist); a transcoding failure ends the
      read, keeping what was inserted so far. For Skyrim the mandatory
      members are then added.
    */
    method Load(g: Game, file: Option<string>) returns (err: Option<Error>)
      modifies this
      ensures err == ActiveNames(g, file).err
      ensures err.None? ==> active == WithMandatory(g, Collect({}, ActiveNames(g, file).names))
      ensures err.Some? ==> active == Collect({}, ActiveNames(g, file).names)
      ensures mtime == old(mtime)
    {
      active := {};
      if file.Some? {
        var lines := Lines(file.value);
        var i := 0;
        ghost var names: seq<string> := [];
        while i < |lines|
          invariant i <= |lines|
          invariant ReadNames(g, lines[..i], true) == Parsed(names, None)
          invariant active == Collect({}, names)
          invariant mtime == old(mtime)
        {
          ReadStep(g, lines, i, names, true);
          ActiveLineIsTranscodedLine(g, lines[i]);
          var r := ReadActiveLine(g, lines[i]);
          match r {
            case Fail(e) =>
              return Some(e);
            case Name(n) =>
              CollectStep({}, names, n);
              Insert(n);
              names := names + [n];
            case Skip =>
          }
          i := i + 1;
        }
        assert lines[..i] == lines;
      }
      if g.id == Skyrim {
        Insert(g.masterFile);
        if g.isValid(UpdateEsm) {
          Insert(UpdateEsm);
        }
      }
      return None;
    }

    /**
      `Save`, as the text it writes: the Morrowind settings prefix, then the
      entries. Under the timestamp method every member is written, in the
      set's own (unspecified) iteration order, numbered for Morrowind; under
      the textfile method the active entries of `loadOrder` are written in
      load order, leaving out the Skyrim master. `written` is the sequence
      of entries in the order written. A name that cannot be encoded is
      skipped, and the last such failure's message is reported once writing
      is done, unless that message is empty.
    */
    method Save(g: Game, file: Option<string>, loadOrder: seq<string>) returns (text: string, written: seq<string>, warning: Option<Error>)
      ensures g.orderMethod.Textfile? ==> written == WrittenEntries(g, active, loadOrder)
      ensures g.orderMethod.Timestamp? ==> |written| == |active| && forall x :: x in written <==> x in active
      ensures var numbered := g.orderMethod.Timestamp? && g.id == Morrowind;
        text == Header(g, file) + Emit(g, written, numbered).text
      ensures var e := Emit(g, written, g.orderMethod.Timestamp? && g.id == Morrowind);
        warning == if e.badFilename != "" then Some(BadFilename(e.badFilename)) else None
    {
      var numbered := g.orderMethod.Timestamp? && g.id == Morrowind;
      var body: string := [];
      var last: string := "";
      written := [];
      if g.orderMethod.Timestamp? {
        var remaining := active;
        while remaining != {}
          invariant remaining <= active
          invariant forall x :: x in written <==> x in active && x !in remaining
          invariant |written| + |remaining| == |active|
          invariant Emit(g, written, numbered) == Emitted(body, last)
          decreases |remaining|
        {
          var x :| x in remaining;
          ghost var before := written;
          body, last := Append(g, written, x, numbered, body, last);
          written := written + [x];
          remaining := remaining - {x};
        }
      } else {
        var i := 0;
        while i < |loadOrder|
          invariant i <= |loadOrder|
          invariant written == WrittenEntries(g, active, loadOrder[..i])
          invariant Emit(g, written, numbered) == Emitted(body, last)
        {
          var x := loadOrder[i];
          assert loadOrder[..i + 1][..i] == loadOrder[..i];
          if (exists y :: y in active && Same(y, x)) && !(g.id == Skyrim && x == g.masterFile) {
            body, last := Append(g, written, x, numbered, body, last);
            written := written + [x];
          }
          i := i + 1;
        }
        assert loadOrder[..i] == loadOrder;
      }
      text := Header(g, file) + body;
      warning := if last != "" then Some(BadFilename(last)) else None;
    }

    /** Writing one more entry after `entries`. */
    static method Append(g: Game, entries: seq<string>, x: string, numbered: bool, body: string, last: string)
      returns (body': string, last': string)
      requires Emit(g, entries, numbered) == Emitted(body, last)
      ensures Emit(g, entries + [x], numbered) == Emitted(body', last')
    {
      assert (entries + [x])[..|entries|] == entries;
      body' := body + Prefix(numbered, |entries|);
      last' := last;
      match g.fromUtf8(x) {
        case Ok(t) =>
          body' := body' + (t + "\n");
        case Err(message) =>
          last' := message;
      }
    }

    /**
      `CheckValidity`: some member is not installed (which one depends on the
      set's iteration order), more than 255 are active, or a Skyrim
      mandatory member is missing, in that order of precedence.
    */
    ghost function CheckValidity(g: Game): (r: Option<ActiveViolation>)
      reads this
      ensures r.None? <==>
        && (forall x :: x in active ==> g.isInstalled(x))
        && |active| <= 255
        && (g.id == Skyrim ==> Has(active, g.masterFile) && (g.isValid(UpdateEsm) ==> Has(active, UpdateEsm)))
      ensures r.Some? && r.value.NotInstalled? ==> r.value.name in active && !g.isInstalled(r.value.name)
      ensures r == Some(TooMany) <==> (forall x :: x in active ==> g.isInstalled(x)) && |active| > 255
      ensures (exists x :: x in active && !g.isInstalled(x)) ==> r.Some? && r.value.NotInstalled?
      ensures r == Some(MasterInactive) <==>
        && (forall x :: x in active ==> g.isInstalled(x))
        && |active| <= 255
        && g.id == Skyrim && !Has(active, g.masterFile)
      ensures r == Some(UpdateInactive) <==>
        && (forall x :: x in active ==> g.isInstalled(x))
        && |active| <= 255
        && g.id == Skyrim && Has(active, g.masterFile)
        && g.isValid(UpdateEsm) && !Has(active, UpdateEsm)
    {
      if exists x :: x in active && !g.isInstalled(x) then
        var x :| x in active && !g.isInstalled(x);
        Some(NotInstalled(x))
      else if |active| > 255 then Some(TooMany)
      else if g.id == Skyrim && !Has(active, g.masterFile) then Some(MasterInactive)
      else if g.id == Skyrim && g.isValid(UpdateEsm) && !Has(active, UpdateEsm) then Some(UpdateInactive)
      else None
    }

    /**
      `HasChanged`: an empty set always counts as changed; otherwise the
      file's time (`None` when it does not exist) is compared with the
      recorded one, and a missing file counts as unchanged.
    */
    function HasChanged(fileTime: Option<int>): (r: bool)
      reads this
      ensures r <==> active == {} || (fileTime.Some? && fileTime.value > mtime)
    {
      if active == {} then true
      else if fileTime.Some? then fileTime.value > mtime
      else false
    }
  }
}
