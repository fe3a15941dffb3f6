/**
  Plugin identities and the game handle the load-order engine consults.

  A plugin is identified by its file name. Names are stored with the casing
  they were given and compared case-insensitively, through `Lower`.
  Everything the engine learns about a plugin from its file (whether it is a
  master, whether it is a valid plugin, whether it exists, its masters and its
  modification time) and the character-set conversions are fields of `Game`,
  so that every lemma holds whatever those capabilities answer.
*/
module Plugins {
  import opened Wrappers

  /** ASCII lower-casing of one character. */
  function LowerChar(c: char): char {
    if 'A' <= c <= 'Z' then (c as int + 32) as char else c
  }

  /** Lower-cased copy of a name, as used for every case-insensitive comparison. */
  function Lower(s: string): (r: string)
    ensures |r| == |s|
    ensures forall i :: 0 <= i < |s| ==> r[i] == LowerChar(s[i])
  {
    if s == [] then [] else [LowerChar(s[0])] + Lower(s[1..])
  }

  /** Two names denote the same plugin. */
  predicate Same(a: string, b: string) {
    Lower(a) == Lower(b)
  }

  /** `s` holds an entry that denotes the same plugin as `name`. */
  predicate Contains(s: seq<string>, name: string) {
    exists x | x in s :: Same(x, name)
  }

  /** No two entries of `s` denote the same plugin. */
  predicate NoDupes(s: seq<string>) {
    forall i, j :: 0 <= i < j < |s| ==> !Same(s[i], s[j])
  }

  /** Entry `k` names a plugin an earlier entry already names. */
  predicate DupAt(names: seq<string>, k: nat)
    requires k < |names|
  {
    Contains(names[..k], names[k])
  }

  lemma NoDupesIffNoDupAt(names: seq<string>)
    ensures NoDupes(names) <==> forall k :: 0 <= k < |names| ==> !DupAt(names, k)
  {
    if NoDupes(names) {
      forall k | 0 <= k < |names|
        ensures !DupAt(names, k)
      {
      }
    }
    if forall k :: 0 <= k < |names| ==> !DupAt(names, k) {
      forall i, j | 0 <= i < j < |names|
        ensures !Same(names[i], names[j])
      {
        assert !DupAt(names, j);
        assert names[i] in names[..j];
      }
    }
  }

  /** Name of the fixed companion master that Skyrim always loads. */
  const UpdateEsm: string := "Update.esm"

  datatype GameId = Morrowind | Oblivion | Skyrim | Fallout3 | FalloutNV

  /** How a game persists its load order. */
  datatype Method = Timestamp | Textfile

  /**
    The game handle. `toUtf8` transcodes from the game's legacy code page and
    `fromUtf8` encodes back to it, each failing with a message; `isUtf8` says
    whether a line is well-formed UTF-8. `isInstalled` is the plugin's
    `Exists` query.
  */
  datatype Game = Game(
    id: GameId,
    orderMethod: Method,
    masterFile: string,
    isMaster: string -> bool,
    isValid: string -> bool,
    isInstalled: string -> bool,
    masters: string -> seq<string>,
    modTime: string -> int,
    toUtf8: string -> Result<string, string>,
    isUtf8: string -> bool,
    fromUtf8: string -> Result<string, string>)

  /** The status codes the operations raise. */
  datatype Code = InvalidArgs | FileNotFound | FileNotUtf8 | BadFilenameWarning

  /** What went wrong, one constructor per distinct failure in the source. */
  datatype Error =
    | MasterMustLoadFirst
    | MastersNotBeforeNonMasters
    | DuplicateEntry(name: string)
    | InvalidPlugin(name: string)
    | NonMasterBeforeMasters
    | MasterAfterNonMasters
    | MissingFile
    | NotUtf8
    | BadFilename(message: string)
  {
    function Code(): Code {
      match this
      case MissingFile => FileNotFound
      case NotUtf8 => FileNotUtf8
      case BadFilename(_) => BadFilenameWarning
      case _ => InvalidArgs
    }
  }
}
