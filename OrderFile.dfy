/**
  Reading plugin names from the load-order and active-plugins files: the
  per-line treatment of `LoadOrder::LoadFromFile` and `ActivePlugins::Load`,
  and the names a whole file yields.
*/
module OrderFile {
  import opened Wrappers
  import opened Plugins
  import opened TextFiles

  /** A line the plain format ignores: empty, a comment, or one left by a "\r\n" ending. */
  predicate IsSkipped(line: string) {
    line == [] || line[0] == '#' || line[0] == '\r'
  }

  /** What one line contributes. */
  datatype LineResult = Skip | Name(name: string) | Fail(error: Error)

  /** The text of a line that names a plugin, before any transcoding. */
  function LineText(g: Game, line: string): (r: Option<string>)
    ensures IsSkipped(line) ==> r.None?
    ensures g.id == Morrowind ==> (r.Some? <==> IsGameFileLine(line))
    ensures g.id == Morrowind && r.Some? ==> r.value == AfterFirstEquals(line)
    ensures g.id != Morrowind ==> (r.Some? <==> !IsSkipped(line)) && (r.Some? ==> r.value == line)
  {
    if IsSkipped(line) then None
    else if g.id == Morrowind then
      if IsGameFileLine(line) then Some(AfterFirstEquals(line)) else None
    else Some(line)
  }

  /**
    `LoadFromFile`'s treatment of one line. `transcode` is set when the file
    is the active-plugins file: its text is converted from the game's code
    page, and a failed conversion ends the read; any other file must already
    be UTF-8. A valid plugin is kept, anything else is skipped.
  */
  function ReadLine(g: Game, line: string, transcode: bool): (r: LineResult)
    ensures LineText(g, line).None? ==> r == Skip
    ensures r.Name? ==> g.isValid(r.name)
    ensures r.Name? && !transcode ==> r.name == LineText(g, line).value
    ensures r.Name? && transcode ==> LineText(g, line).Some? && g.toUtf8(LineText(g, line).value) == Ok(r.name)
    ensures r.Fail? ==> LineText(g, line).Some?
    ensures r.Fail? && transcode ==> r.error.BadFilename? && g.toUtf8(LineText(g, line).value) == Err(r.error.message)
    ensures r.Fail? && !transcode ==> r.error == NotUtf8 && !g.isUtf8(LineText(g, line).value)
    ensures LineText(g, line).Some? && transcode && g.toUtf8(LineText(g, line).value).Err? ==>
      r == Fail(BadFilename(g.toUtf8(LineText(g, line).value).error))
    ensures LineText(g, line).Some? && transcode && g.toUtf8(LineText(g, line).value).Ok? ==>
      (r.Name? <==> g.isValid(g.toUtf8(LineText(g, line).value).value))
    ensures LineText(g, line).Some? && !transcode && !g.isUtf8(LineText(g, line).value) ==> r == Fail(NotUtf8)
    ensures LineText(g, line).Some? && !transcode && g.isUtf8(LineText(g, line).value) ==>
      (r.Name? <==> g.isValid(LineText(g, line).value))
  {
    match LineText(g, line)
    case None => Skip
    case Some(text) =>
      if transcode then
        match g.toUtf8(text)
        case Err(message) => Fail(BadFilename(message))
        case Ok(name) => if g.isValid(name) then Name(name) else Skip
      else if !g.isUtf8(text) then Fail(NotUtf8)
      else if g.isValid(text) then Name(text)
      else Skip
  }

  /**
    `ActivePlugins::Load`'s treatment of one line: Morrowind.ini is filtered
    by the `GameFile` pattern alone, other files by the plain skip rule, and
    every kept line is transcoded.
  */
  function ReadActiveLine(g: Game, line: string): (r: LineResult)
    ensures r.Name? ==> g.isValid(r.name)
    ensures r.Fail? ==> r.error.BadFilename?
    ensures g.id == Morrowind && !IsGameFileLine(line) ==> r == Skip
    ensures g.id != Morrowind && IsSkipped(line) ==> r == Skip
  {
    if g.id == Morrowind && (line == [] || !IsGameFileLine(line)) then Skip
    else if g.id != Morrowind && IsSkipped(line) then Skip
    else
      var text := if g.id == Morrowind then AfterFirstEquals(line) else line;
      match g.toUtf8(text)
      case Err(message) => Fail(BadFilename(message))
      case Ok(name) => if g.isValid(name) then Name(name) else Skip
  }

  /**
    The two readers treat the active-plugins file alike: a `GameFile` line
    never looks like a comment, so the extra skip rule changes nothing.
  */
  lemma ActiveLineIsTranscodedLine(g: Game, line: string)
    ensures ReadActiveLine(g, line) == ReadLine(g, line, true)
  {
    if g.id == Morrowind && line != [] && IsGameFileLine(line) {
      assert Lower(line[..8]) == "gamefile";
      assert LowerChar(line[0]) == 'g';
    }
  }

  /** The names read from a file, and the error that ended the read early, if any. */
  datatype Parsed = Parsed(names: seq<string>, err: Option<Error>)

  /** The names a file's lines yield, in file order, without removing duplicates. */
  function ReadNames(g: Game, lines: seq<string>, transcode: bool): (r: Parsed)
    ensures forall k :: 0 <= k < |r.names| ==> g.isValid(r.names[k])
    ensures |r.names| <= |lines|
  {
    if lines == [] then Parsed([], None)
    else
      match ReadLine(g, lines[0], transcode)
      case Skip => ReadNames(g, lines[1..], transcode)
      case Fail(e) => Parsed([], Some(e))
      case Name(n) =>
        var rest := ReadNames(g, lines[1..], transcode);
        Parsed([n] + rest.names, rest.err)
  }

  /** Reading `a` then `b`: the names of both, unless `a` already failed. */
  function Then(p: Parsed, q: Parsed): Parsed {
    if p.err.Some? then p else Parsed(p.names + q.names, q.err)
  }

  /** A file is read line by line: reading `a + b` is reading `a`, then `b`. */
  lemma {:induction false} ReadNamesAppend(g: Game, a: seq<string>, b: seq<string>, transcode: bool)
    ensures ReadNames(g, a + b, transcode) == Then(ReadNames(g, a, transcode), ReadNames(g, b, transcode))
  {
    if a != [] {
      assert (a + b)[0] == a[0] && (a + b)[1..] == a[1..] + b;
      ReadNamesAppend(g, a[1..], b, transcode);
      var q := ReadNames(g, b, transcode);
      var t := ReadNames(g, a[1..], transcode);
      match ReadLine(g, a[0], transcode)
      case Skip =>
      case Fail(e) =>
      case Name(n) =>
        if t.err.None? {
          assert [n] + (t.names + q.names) == ([n] + t.names) + q.names;
        }
    } else {
      assert a + b == b;
    }
  }

  /** One step of a line-by-line read of `lines`, after `i` lines gave `names` without error. */
  lemma ReadStep(g: Game, lines: seq<string>, i: nat, names: seq<string>, transcode: bool)
    requires i < |lines| && ReadNames(g, lines[..i], transcode) == Parsed(names, None)
    ensures ReadLine(g, lines[i], transcode).Skip? ==> ReadNames(g, lines[..i + 1], transcode) == Parsed(names, None)
    ensures ReadLine(g, lines[i], transcode).Name? ==>
      ReadNames(g, lines[..i + 1], transcode) == Parsed(names + [ReadLine(g, lines[i], transcode).name], None)
    ensures ReadLine(g, lines[i], transcode).Fail? ==>
      ReadNames(g, lines, transcode) == Parsed(names, Some(ReadLine(g, lines[i], transcode).error))
  {
    assert lines[..i + 1] == lines[..i] + [lines[i]];
    ReadNamesAppend(g, lines[..i], [lines[i]], transcode);
    assert [lines[i]][1..] == [];
    ReadNamesAppend(g, lines[..i], lines[i..], transcode);
    assert lines[..i] + lines[i..] == lines;
    assert lines[i..][0] == lines[i];
    assert names + [] == names;
  }

  /** Blank lines, comments and "\r" lines can be added anywhere without changing what is read. */
  lemma SkippedLineContributesNothing(g: Game, a: seq<string>, line: string, b: seq<string>, transcode: bool)
    requires IsSkipped(line)
    ensures ReadNames(g, a + [line] + b, transcode) == ReadNames(g, a + b, transcode)
  {
    ReadNamesAppend(g, a + [line], b, transcode);
    ReadNamesAppend(g, a, [line], transcode);
    ReadNamesAppend(g, a, b, transcode);
    assert ReadNames(g, [line], transcode) == Parsed([], None) by {
      assert [line][1..] == [];
    }
    assert ReadNames(g, a, transcode).names + [] == ReadNames(g, a, transcode).names;
  }

  /** A name `LoadOrder::Save` can write and `LoadFromFile` reads back unchanged. */
  predicate Writable(g: Game, name: string) {
    SingleLine(name) && !IsSkipped(name) && g.isUtf8(name) && g.isValid(name)
  }

  /**
    For every game but Morrowind, the lines `LoadOrder::Save` writes to
    `loadorder.txt` (one name per line) read back as the same names.
  */
  lemma {:induction false} SavedLinesReadBack(g: Game, names: seq<string>)
    requires g.id != Morrowind
    requires forall k :: 0 <= k < |names| ==> Writable(g, names[k])
    ensures ReadNames(g, Lines(Render(names)), false) == Parsed(names, None)
  {
    LinesOfRender(names);
    ReadBack(g, names);
  }

  lemma {:induction false} ReadBack(g: Game, names: seq<string>)
    requires g.id != Morrowind
    requires forall k :: 0 <= k < |names| ==> Writable(g, names[k])
    ensures ReadNames(g, names, false) == Parsed(names, None)
  {
    if names != [] {
      assert Writable(g, names[0]);
      assert ReadLine(g, names[0], false) == Name(names[0]);
      ReadBack(g, names[1..]);
      assert names == [names[0]] + names[1..];
    }
  }
}
