/**
  Text-file formats read and written by the engine: `std::getline` line
  splitting, one-name-per-line output, the Morrowind.ini `GameFile<N>=` entry
  pattern and the `[Game Files]` settings prefix.
*/
module TextFiles {
  import opened Wrappers
  import opened Plugins

  /** Index of the first '\n' in `text`, or `|text|` when there is none. */
  function NewlineAt(text: string): (r: nat)
    ensures r <= |text|
    ensures r < |text| ==> text[r] == '\n'
    ensures forall k :: 0 <= k < r ==> text[k] != '\n'
  {
    if text == [] || text[0] == '\n' then 0 else 1 + NewlineAt(text[1..])
  }

  /**
    The lines successive `std::getline` calls yield on `text`: pieces between
    '\n' characters, with a final piece only when it is non-empty.
  */
  function Lines(text: string): seq<string>
    decreases |text|
  {
    if text == [] then []
    else
      var k := NewlineAt(text);
      if k == |text| then [text] else [text[..k]] + Lines(text[k + 1..])
  }

  /** What writing each line followed by `endl` produces. */
  function Render(lines: seq<string>): string {
    if lines == [] then [] else lines[0] + "\n" + Render(lines[1..])
  }

  predicate SingleLine(s: string) {
    forall k :: 0 <= k < |s| ==> s[k] != '\n'
  }

  /** Reading back what `Render` wrote yields the same lines. */
  lemma {:induction false} LinesOfRender(lines: seq<string>)
    requires forall i :: 0 <= i < |lines| ==> SingleLine(lines[i])
    ensures Lines(Render(lines)) == lines
  {
    if lines != [] {
      var l, rest := lines[0], Render(lines[1..]);
      var text := Render(lines);
      assert text == l + "\n" + rest;
      assert text[|l|] == '\n';
      assert forall k :: 0 <= k < |l| ==> text[k] == l[k];
      assert NewlineAt(text) == |l|;
      assert text[..|l|] == l;
      assert text[|l| + 1..] == rest;
      LinesOfRender(lines[1..]);
    }
  }

  predicate IsDigit(c: char) {
    '0' <= c <= '9'
  }

  /** The characters ECMAScript's `.` matches in libstdc++: all but '\n' and '\r'. */
  predicate AnyChar(c: char) {
    c != '\n' && c != '\r'
  }

  /** `v` matches `.+\.es(m|p)` case-insensitively. */
  predicate IsPluginValue(v: string) {
    && |v| >= 5
    && (forall k :: 0 <= k < |v| - 4 ==> AnyChar(v[k]))
    && Lower(v[|v| - 4..]) in {".esm", ".esp"}
  }

  /** After the 8-letter key come `n` digits, '=' and a plugin value. */
  predicate DigitsThenValue(line: string, n: nat) {
    && 9 + n <= |line|
    && (forall k :: 8 <= k < 8 + n ==> IsDigit(line[k]))
    && line[8 + n] == '='
    && IsPluginValue(line[9 + n..])
  }

  /** `line` matches `GameFile[0-9]{1,3}=.+\.es(m|p)` as a whole, ignoring case. */
  predicate IsGameFileLine(line: string) {
    && |line| >= 8
    && Lower(line[..8]) == "gamefile"
    && (DigitsThenValue(line, 1) || DigitsThenValue(line, 2) || DigitsThenValue(line, 3))
  }

  /** Index of the first `c` in `s`, or `|s|` when there is none. */
  function IndexOf(s: string, c: char): (r: nat)
    ensures r <= |s|
    ensures r < |s| ==> s[r] == c
    ensures forall k :: 0 <= k < r ==> s[k] != c
  {
    if s == [] || s[0] == c then 0 else 1 + IndexOf(s[1..], c)
  }

  /**
    `line.substr(line.find('=') + 1)`: the text after the first '='; with no
    '=' at all, `npos + 1` wraps to 0 and the whole line is kept.
  */
  function AfterFirstEquals(line: string): string {
    var k := IndexOf(line, '=');
    if k == |line| then line else line[k + 1..]
  }

  /** The value taken from a matching Morrowind.ini line is the whole plugin name. */
  lemma GameFileValue(line: string, n: nat)
    requires IsGameFileLine(line) && 1 <= n <= 3 && DigitsThenValue(line, n)
    ensures AfterFirstEquals(line) == line[9 + n..]
    ensures IsPluginValue(AfterFirstEquals(line))
  {
    var low := Lower(line[..8]);
    forall k | 0 <= k < 8 + n
      ensures line[k] != '='
    {
      if k < 8 {
        assert low[k] == LowerChar(line[k]);
        assert low[k] != '=';
      } else {
        assert IsDigit(line[k]);
      }
    }
    assert IndexOf(line, '=') == 8 + n;
  }

  function DigitChar(d: nat): char
    requires d < 10
  {
    ('0' as int + d) as char
  }

  /** Decimal text of `n`, as `operator<<` writes a `size_t`. */
  function DecimalText(n: nat): (r: string)
    ensures 1 <= |r|
    ensures forall k :: 0 <= k < |r| ==> IsDigit(r[k])
    ensures |r| <= 1 <==> n < 10
    ensures |r| <= 2 <==> n < 100
    ensures |r| <= 3 <==> n < 1000
  {
    if n < 10 then [DigitChar(n)] else DecimalText(n / 10) + [DigitChar(n % 10)]
  }

  /** The line Save writes for the `i`-th active plugin of Morrowind. */
  function GameFileLine(i: nat, name: string): string {
    "GameFile" + DecimalText(i) + "=" + name
  }

  /**
    A Morrowind entry written at index `i` is read back, with the same name,
    exactly when the index has at most three digits.
  */
  lemma GameFileLineRoundTrip(i: nat, name: string)
    requires IsPluginValue(name)
    ensures IsGameFileLine(GameFileLine(i, name)) <==> i < 1000
    ensures i < 1000 ==> AfterFirstEquals(GameFileLine(i, name)) == name
  {
    var d := DecimalText(i);
    var line := GameFileLine(i, name);
    assert line[..8] == "GameFile";
    assert Lower("GameFile") == "gamefile";
    assert line[8..8 + |d|] == d;
    assert line[8 + |d|] == '=';
    assert line[9 + |d|..] == name;
    if i < 1000 {
      assert DigitsThenValue(line, |d|);
      GameFileValue(line, |d|);
    } else {
      forall n | 1 <= n <= 3
        ensures !DigitsThenValue(line, n)
      {
        assert line[8 + n] == d[n];
        assert IsDigit(d[n]);
      }
    }
  }

  /** A `GameFile<i>=` line for a single-line name is a single line. */
  lemma GameFileLineIsSingle(i: nat, name: string)
    requires SingleLine(name)
    ensures SingleLine(GameFileLine(i, name))
  {
    var line := GameFileLine(i, name);
    var d := DecimalText(i);
    forall c | 0 <= c < |line|
      ensures line[c] != '\n'
    {
      if c < 8 {
        assert line[..8] == "GameFile";
        assert line[c] == "GameFile"[c];
      } else if c < 8 + |d| {
        assert line[c] == d[c - 8] && IsDigit(d[c - 8]);
      } else if c >= 9 + |d| {
        assert line[c] == name[c - 9 - |d|];
      }
    }
  }

  /** `pat` occurs in `text` starting at index `k`. */
  predicate OccursAt(text: string, pat: string, k: nat) {
    k + |pat| <= |text| && text[k..k + |pat|] == pat
  }

  /** First occurrence of `pat` in `text` at or after `from`. */
  function FindFrom(text: string, pat: string, from: nat): (r: Option<nat>)
    requires from <= |text|
    ensures r.Some? ==> from <= r.value && OccursAt(text, pat, r.value)
    ensures r.Some? ==> forall k :: from <= k < r.value ==> !OccursAt(text, pat, k)
    ensures r.None? ==> forall k :: from <= k ==> !OccursAt(text, pat, k)
    decreases |text| - from
  {
    if from + |pat| > |text| then None
    else if text[from..from + |pat|] == pat then Some(from)
    else FindFrom(text, pat, from + 1)
  }

  const GameFilesMarker: string := "[Game Files]"

  /**
    The Morrowind.ini settings kept on rewrite: everything up to and
    including the first `[Game Files]`, or nothing when the marker is absent.
  */
  function SettingsPrefix(contents: string): (r: string)
    ensures r != [] ==> |GameFilesMarker| <= |r| <= |contents| && r == contents[..|r|]
    ensures r != [] ==> OccursAt(contents, GameFilesMarker, |r| - |GameFilesMarker|)
    ensures forall k :: 0 <= k < |r| - |GameFilesMarker| ==> !OccursAt(contents, GameFilesMarker, k)
    ensures r == [] <==> forall k :: 0 <= k ==> !OccursAt(contents, GameFilesMarker, k)
  {
    match FindFrom(contents, GameFilesMarker, 0)
    case None => []
    case Some(p) => contents[..p + 12]
  }
}
