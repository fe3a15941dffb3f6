# libloadorder load-order core in Dafny

This project models the in-memory core of libloadorder, `src/backend/LoadOrder.cpp`. The core has two structures.

- **The `LoadOrder` object.** It holds the ordered list of plugin file names and the time it was last synchronised with disk.
  - It validates and commits whole new orders (`setLoadOrder`) and single moves (`setPosition`).
  - It reshapes the list (`unique`, `partitionMasters`, `clear`) and answers queries.
  - It rebuilds the list from `loadorder.txt`, the active-plugins file and the plugins folder (`Load`, `LoadFromFile`).
  - It re-stamps modification times or writes `loadorder.txt` (`Save`).
  - It checks the list (`CheckValidity`, `HasChanged`).
- **The `ActivePlugins` object.** It holds the case-insensitive set of active plugins. It reads and writes `plugins.txt` or the `[Game Files]` section of Morrowind.ini, and checks the set.

## How the source maps onto the model

- **Plugin capabilities.** What the engine asks of a plugin file is a field of the `Game` datatype (`Plugins.Game`): `IsMasterFile`, `IsValid`, `Exists`, `GetMasters` and `GetModTime`. The same goes for the code-page conversions `ToUTF8`/`FromUTF8` and the UTF-8 well-formedness test. Every lemma therefore holds whatever those capabilities answer.
- **Case-insensitive comparison.** Plugin names compare case-insensitively through ASCII lower-casing (`Plugins.Lower`, `Plugins.Same`). This covers `Plugin` equality, the hashed sets, `boost::iequals` and `to_lower_copy`.
- **The disk.** The disk is a value (`LoadOrders.Disk`): file contents as text (`None` when missing), the folder listing as a sequence of names, and the modification times as integers. Text is split into lines as `std::getline` does (`TextFiles.Lines`).
- **Imperative operations.** The operations that change state are methods of two classes, `LoadOrders.LoadOrder` and `ActiveSets.ActivePlugins`. They have the source's fields (`loadOrder`, `mtime`, and the active set). Each method is proved against a specification function; the properties are proved about those functions.
- **Pure algorithms.** The scans and the comparator are pure functions, and their loops are methods with invariants:
  - the partition point is libstdc++'s binary search;
  - the timestamp sort is an insertion sort under the comparator;
  - the folder scan and the re-stamping are loops.
- **Exceptions.** A thrown `error` is an `Option<Error>` result (`Plugins.Error`, with its status code). A method that fails leaves the state the source leaves: unchanged for the validated mutators, and partially filled for the readers.

## Model

| member | source | states |
|---|---|---|
| Plugins.Lower | src/backend/LoadOrder.cpp:240 | lower-casing keeps the length and lowers each character; it is the key of every case-insensitive comparison |
| Plugins.NoDupesIffNoDupAt | src/backend/LoadOrder.cpp:239-246 | a list has no case-insensitive duplicates exactly when no entry repeats an earlier one, which is how the entry-by-entry check sees it |
| Orders.Masters | src/backend/LoadOrder.cpp:359-365 | the masters of a list are exactly its master entries, kept in order |
| Orders.NonMasters | src/backend/LoadOrder.cpp:359-365 | the non-masters of a list are exactly its non-master entries, kept in order |
| Orders.PartitionedIffGrouped | src/backend/LoadOrder.cpp:229-235 | a list is partitioned (every master before every non-master) exactly when it is its masters followed by its non-masters |
| Orders.PartitionPointOfPartitioned | src/backend/LoadOrder.cpp:424-431 | on a partitioned list the binary search returns the number of masters: masters before it, none from it onward |
| Orders.SearchFindsBoundary | src/backend/LoadOrder.cpp:426-430 | the binary search finds the unique boundary whenever the list is partitioned |
| Orders.PartitionPointFrom | src/backend/LoadOrder.cpp:426-430 | the halving search over `[first, first + len)` returns a position inside that range |
| Orders.LeadingMasterBeforePartitionPoint | src/backend/LoadOrder.cpp:424-431 | a list that starts with a master has its partition point past the first entry, partitioned or not |
| Orders.Position | src/backend/LoadOrder.cpp:212-217 | `getPosition` is the first entry naming the plugin case-insensitively, or the length when none does |
| Orders.PositionOfAbsent | src/backend/LoadOrder.cpp:212-217 | the position equals the length exactly when the plugin is not listed |
| Orders.PluginAt | src/backend/LoadOrder.cpp:219-221 | the entry at an index is present exactly when the index is in range (`at` throws otherwise) |
| Orders.PositionThenPluginAt | src/backend/LoadOrder.cpp:212-221 | a listed plugin's position holds an entry naming it |
| Orders.PluginAtThenPosition | src/backend/LoadOrder.cpp:212-221 | on a duplicate-free list, looking up the entry at an index gives the index back |
| Reshape.KeepLast | src/backend/LoadOrder.cpp:345-357 | `unique` keeps an entry only when no later entry names the same plugin; it invents no entry |
| Reshape.UniqueIsDuplicateFree | src/backend/LoadOrder.cpp:345-357 | after `unique` no two entries name the same plugin |
| Reshape.UniqueLosesNoPlugin | src/backend/LoadOrder.cpp:345-357 | every plugin named before `unique` is still named after it, and no other |
| Reshape.UniqueKeepsLastOccurrence | src/backend/LoadOrder.cpp:345-357 | the last occurrence of each plugin survives |
| Reshape.UniqueDropsEarlierOccurrence | src/backend/LoadOrder.cpp:345-357 | an occurrence followed by a later one naming the same plugin is dropped |
| Reshape.UniqueFixesDuplicateFree | src/backend/LoadOrder.cpp:345-357 | `unique` leaves a duplicate-free list unchanged |
| Reshape.UniqueIdempotent | src/backend/LoadOrder.cpp:345-357 | applying `unique` twice is applying it once |
| Reshape.UniqueKeepsOrder | src/backend/LoadOrder.cpp:345-357 | the survivors keep their relative order (the result is a subsequence) |
| Reshape.StablePartition | src/backend/LoadOrder.cpp:359-365 | `partitionMasters` yields a partitioned permutation whose masters and non-masters are each in their original order |
| Reshape.PartitionFixesPartitioned | src/backend/LoadOrder.cpp:359-365 | a partitioned list is left as it is |
| Reshape.PartitionIdempotent | src/backend/LoadOrder.cpp:359-365 | applying `partitionMasters` twice is applying it once |
| Moves.CheckNewLoadOrder | src/backend/LoadOrder.cpp:223-247 | the `setLoadOrder` checks pass exactly when the master file leads (textfile method), the list is partitioned, duplicate-free and all valid; each error names the first check that fails; once the master leads and the list is partitioned, the error is `DuplicateEntry` or `InvalidPlugin` for the first bad entry, the duplicate error when that entry repeats an earlier one |
| Moves.RemoveAllMembers | src/backend/LoadOrder.cpp:281 | `erase(remove(...))` keeps exactly the entries not naming the plugin |
| Moves.SetPositionCheck | src/backend/LoadOrder.cpp:258-278 | the `setPosition` guards, in the source's order; every rejection is an invalid-arguments error |
| Moves.MovePlacesOnce | src/backend/LoadOrder.cpp:280-287 | after a move exactly one entry names the plugin, at the requested index clamped to the shortened length, and removing it gives back the other entries in order |
| Moves.MoveToMembers | src/backend/LoadOrder.cpp:280-287 | after the erase and insert the plugin is in the list under the spelling given, and every other entry is an old entry naming another plugin |
| Moves.MoveKeepsOthers | src/backend/LoadOrder.cpp:280-287 | the other entries keep their relative order |
| Moves.MoveKeepsDuplicateFree | src/backend/LoadOrder.cpp:280-287 | a move keeps a duplicate-free list duplicate-free |
| Moves.MoveKeepsPartition | src/backend/LoadOrder.cpp:268-287 | a move the guards allow keeps a partitioned, duplicate-free list partitioned |
| Moves.MoveBreaksPartitionWithDuplicates | src/backend/LoadOrder.cpp:268-287 | with a master listed twice before a non-master (a list file may repeat lines), moving the master to index 1 passes every guard and leaves it after the non-master |
| Moves.MoveKeepsMasterFirst | src/backend/LoadOrder.cpp:260-287 | under the textfile method a move the guards allow keeps the master file first |
| Moves.FrontIsForMasterFile | src/backend/LoadOrder.cpp:260-264 | under the textfile method only the master file may be moved to index 0, and a valid master file always may |
| Moves.EmptyListAcceptsAnyFirstEntry | src/backend/LoadOrder.cpp:262-264 | on an empty list a non-master-file plugin may be placed at a non-zero index, ending up first |
| Validity.CheckValidityIff | src/backend/LoadOrder.cpp:290-316 | as written, the list is valid exactly when it is empty or the master file is first and the entries are installed, valid, partitioned and duplicate-free, and each entry's declared masters, listed or not, come before it |
| Validity.CheckValidityIntendedIff | src/backend/LoadOrder.cpp:290-316 | with line 310's `count` taken over the master instead of the plugin (the shape the line already has, and the comment's reason of sparing Filter patches), the last condition only concerns masters that are in the list; the comment's literal "installed" would instead be the `Exists` test, which this model does not take |
| Validity.CheckValidity | src/backend/LoadOrder.cpp:290-316 | as written: an empty list passes, a wrong first entry is reported before anything else, and every other violation names an entry of the list |
| Validity.CheckValidityIntended | src/backend/LoadOrder.cpp:290-316 | the corrected check gives the same guarantees: empty passes, a wrong first entry comes first, other violations name an entry |
| Validity.IntendedAcceptsMore | src/backend/LoadOrder.cpp:308-312 | every list the check as written accepts, the corrected check accepts too |
| Validity.ViolationNamesEntry | src/backend/LoadOrder.cpp:299-315 | every violation found in the walk names an entry of the list |
| Validity.AbsentMasterIsFlagged | src/backend/LoadOrder.cpp:308-312 | a plugin whose only master is absent from the list is reported by the check as written and accepted by the intended one |
| Validity.HasChanged | src/backend/LoadOrder.cpp:318-339 | the list counts as changed when it is empty, the game uses timestamps or `loadorder.txt` is missing, else when the later of the file's and the folder's times passes the recorded one |
| Validity.SavedOrderIsCurrent | src/backend/LoadOrder.cpp:318-339 | once written with its time recorded, a textfile order stays current until the file or the folder is touched later |
| Restamp.InsertSorted | src/backend/LoadOrder.cpp:156-159 | inserting into the ordered set of times keeps it strictly increasing and grows it by one exactly when the time is new |
| Restamp.InsertSortedMembers | src/backend/LoadOrder.cpp:156-159 | insertion adds the time and nothing else |
| Restamp.TimesOf | src/backend/LoadOrder.cpp:156-159 | the collected set holds exactly the plugins' current times, strictly increasing, at most one per plugin |
| Restamp.RestampTimes | src/backend/LoadOrder.cpp:156-170 | one stamp per plugin, strictly increasing along the list: the existing times in ascending order, then the largest plus one minute per missing value |
| Restamp.PadTimes | src/backend/LoadOrder.cpp:163-165 | padding appends the largest time plus 60 until there are as many times as plugins, keeping the existing ones |
| Restamp.ReorderKeepsTimes | src/backend/LoadOrder.cpp:156-159 | reordering the list does not change the times that are reused |
| Restamp.DistinctTimesAreKept | src/backend/LoadOrder.cpp:160-165 | plugins with pairwise distinct times need no padding |
| Restamp.SetModTime | src/backend/LoadOrder.cpp:168 | the named plugin, matched case-insensitively, gets the new time; every other plugin keeps its time; master flags and validity are unchanged |
| Restamp.Restamped | src/backend/LoadOrder.cpp:166-170 | stamping the entries in list order: the last entry naming a plugin decides its time, under every spelling of its name (so in a duplicate-free list entry `i` has `stamps[i]`); a plugin the list does not name keeps its time; master flags and validity are unchanged |
| PluginSort.BeforeIsStrictWeakOrder | src/backend/LoadOrder.cpp:52-96 | the comparator is irreflexive and transitive, and ties (same master flag and same time) are an equivalence, as `std::sort` requires |
| PluginSort.Before | src/backend/LoadOrder.cpp:58-95 | a master goes before a non-master and never after it, whatever their times; between two masters or two non-masters the earlier time goes first |
| PluginSort.SortPlugins | src/backend/LoadOrder.cpp:144-148 | the sorted list is a permutation of the input in which no entry goes before an earlier one |
| PluginSort.SortedIsGrouped | src/backend/LoadOrder.cpp:144-148 | a sorted list has masters first and non-decreasing times within each group |
| PluginSort.SortedIsUnique | src/backend/LoadOrder.cpp:144-148 | without ties, a collection of plugins has only one sorted order |
| PluginSort.SaveThenSortRestores | src/backend/LoadOrder.cpp:144-170 | sorting a partitioned, duplicate-free list after `Save` re-stamped it gives back that list |
| FolderScan.NewNames | src/backend/LoadOrder.cpp:129-141 | the scan adds only valid plugins from the folder |
| FolderScan.ScanFolder | src/backend/LoadOrder.cpp:126-142 | the scan loop puts new masters at the advancing cursor and new non-masters at the end, and keeps a duplicate-free list duplicate-free |
| FolderScan.ScanCoversFolder | src/backend/LoadOrder.cpp:126-142 | after the scan every valid plugin in the folder is named by the list |
| FolderScan.NewNamesAreNew | src/backend/LoadOrder.cpp:132 | nothing already listed, and nothing twice, is added |
| FolderScan.ScanKeepsDuplicateFree | src/backend/LoadOrder.cpp:126-142 | a duplicate-free list stays duplicate-free |
| FolderScan.ScanKeepsPartition | src/backend/LoadOrder.cpp:126-142 | a partitioned list stays partitioned, with the old masters then the new ones, and the old non-masters then the new ones |
| FolderScan.ScannedIsGrouped | src/backend/LoadOrder.cpp:126-142 | on a partitioned list the result is the old and new masters followed by the old and new non-masters |
| TextFiles.LinesOfRender | src/backend/LoadOrder.cpp:179-183 | lines written one per line, each ended by `endl`, read back as the same lines |
| TextFiles.GameFileLineRoundTrip | src/backend/LoadOrder.cpp:510-518 | a `GameFile<i>=` line written for a `.esm`/`.esp` name matches the reader's pattern exactly when `i` has at most three digits, and yields the name |
| TextFiles.GameFileValue | src/backend/LoadOrder.cpp:386-389 | the text after the first `=` of a matching line is the plugin value |
| TextFiles.SettingsPrefix | src/backend/LoadOrder.cpp:490-497 | the kept Morrowind settings are everything up to and including the first `[Game Files]`, or nothing when it is absent |
| OrderFile.LineText | src/backend/LoadOrder.cpp:382-390 | empty, `#` and `\r` lines name nothing; for Morrowind only lines matching the `GameFile` pattern do, by the text after the first `=` |
| OrderFile.ReadLine | src/backend/LoadOrder.cpp:380-407 | in both directions: a kept line yields a plugin exactly when its (transcoded) text is a valid plugin name; a kept line whose transcoding fails ends the read with `BadFilename`, and one that is not UTF-8 with `NotUtf8`; those are the only failures |
| OrderFile.ActiveLineIsTranscodedLine | src/backend/LoadOrder.cpp:446-469 | `ActivePlugins::Load` treats each line as `LoadFromFile` does on the active-plugins file |
| OrderFile.ReadActiveLine | src/backend/LoadOrder.cpp:446-467 | a kept name is a valid plugin; the only failure is a transcoding error; Morrowind keeps only `GameFile` lines and other games skip blank and comment lines |
| OrderFile.ReadNames | src/backend/LoadOrder.cpp:380-409 | a file yields valid names, at most one per line, with no de-duplication |
| OrderFile.ReadNamesAppend | src/backend/LoadOrder.cpp:380-409 | reading two runs of lines is reading the first, then (unless it failed) the second |
| OrderFile.SkippedLineContributesNothing | src/backend/LoadOrder.cpp:382-383 | inserting a blank, comment or `\r` line anywhere changes nothing that is read |
| OrderFile.SavedLinesReadBack | src/backend/LoadOrder.cpp:179-183 | the `loadorder.txt` that `Save` writes for valid, single-line UTF-8 names reads back as those names |
| ActiveSets.WithName | src/backend/LoadOrder.cpp:454-455 | inserting a name the set already holds under any casing leaves the set exactly as it was, whatever the set; otherwise the name is added, and a set free of case-insensitive duplicates stays so |
| ActiveSets.Collect | src/backend/LoadOrder.cpp:446-469 | inserting a run of names gives a set naming exactly the old members and the names |
| ActiveSets.SkyrimMandatoryMembers | src/backend/LoadOrder.cpp:476-481 | after a Skyrim load the set holds the game master, and `Update.esm` whenever it is valid |
| ActiveSets.WithMandatory | src/backend/LoadOrder.cpp:476-482 | outside Skyrim the set is untouched; for Skyrim only the game master and `Update.esm` can be added, and a duplicate-free set stays so |
| ActiveSets.LoadedMembersAreValid | src/backend/LoadOrder.cpp:437-481 | every loaded member is a valid plugin, except the Skyrim master, which is added unchecked |
| ActiveSets.Emit | src/backend/LoadOrder.cpp:510-538 | `badFilename` after writing is empty when every entry encodes, and otherwise the message of the last entry that fails, each failure overwriting the one before |
| ActiveSets.EmitAllEncoded | src/backend/LoadOrder.cpp:510-538 | without failures the text is one line per entry, prefixed `GameFile<i>=` when numbered |
| ActiveSets.ActiveSaveReadsBack | src/backend/LoadOrder.cpp:523-538 | for games other than Morrowind, the active-plugins file `Save` writes reads back as the same names in order, for names that survive the code-page round trip |
| ActiveSets.MorrowindSaveReadsBack | src/backend/LoadOrder.cpp:510-521 | for Morrowind the numbered lines read back as the same names, for at most a thousand `.esm`/`.esp` names |
| ActiveSets.WrittenEntries | src/backend/LoadOrder.cpp:525-530 | the textfile-method `Save` writes the active entries of the load order, leaving out the Skyrim master (exact-case comparison) |
| ActiveSets.Header | src/backend/LoadOrder.cpp:488-508 | only Morrowind writes a settings prefix, followed by a line ending |
| ActiveSets.ActivePlugins.Insert | src/backend/LoadOrder.cpp:454-455 | `insert` adds the name unless the set already names the plugin |
| ActiveSets.ActivePlugins.Load | src/backend/LoadOrder.cpp:437-483 | the set is refilled from the file's kept lines, then the Skyrim mandatory members are added; a transcoding failure stops the read with the names inserted so far |
| ActiveSets.ActivePlugins.Save | src/backend/LoadOrder.cpp:485-546 | the settings prefix then the entries: every member once (timestamp method, numbered for Morrowind) or the active load-order entries in load order (textfile method); a `BadFilename` warning is raised exactly when the last encoding failure left a non-empty message, and carries it |
| ActiveSets.ActivePlugins.CheckValidity | src/backend/LoadOrder.cpp:549-568 | the set is valid exactly when all members are installed, at most 255 are active, and for Skyrim the master and a valid `Update.esm` are active; the checks are reported in the source's order: an uninstalled member whenever there is one, then too many, then a missing Skyrim master, then a missing `Update.esm`, each exactly when the earlier checks pass |
| ActiveSets.ActivePlugins.HasChanged | src/backend/LoadOrder.cpp:571-583 | an empty set counts as changed; otherwise the file's time is compared with the recorded one, and a missing file counts as unchanged |
| LoadOrders.FixUpLeadsWithMaster | src/backend/LoadOrder.cpp:415-421 | when the game master is a valid master, the Skyrim fix-up succeeds, leaves the master first and named once, and lists `Update.esm` whenever it is valid |
| LoadOrders.SavedOrderLoadsBack | src/backend/LoadOrder.cpp:101-116 | a `loadorder.txt` written by `Save` gives the same list back to `Load` before the folder scan |
| LoadOrders.DuplicateLinesAreKept | src/backend/LoadOrder.cpp:405-407 | a valid plugin listed twice in `loadorder.txt` is loaded twice |
| LoadOrders.LoadOrder.GetLoadOrder | src/backend/LoadOrder.cpp:201-210 | the names in load order |
| LoadOrders.LoadOrder.GetPosition | src/backend/LoadOrder.cpp:212-217 | the first entry naming the plugin, or the length when none does |
| LoadOrders.LoadOrder.GetPluginAtPosition | src/backend/LoadOrder.cpp:219-221 | the entry at the index, present exactly when the index is in range |
| LoadOrders.LoadOrder.GetMasterPartitionPoint | src/backend/LoadOrder.cpp:424-431 | the partition point, within the list's bounds |
| LoadOrders.LoadOrder.Clear | src/backend/LoadOrder.cpp:341-343 | the list becomes empty, the time is kept |
| LoadOrders.LoadOrder.SetLoadOrder | src/backend/LoadOrder.cpp:223-256 | the list becomes the input exactly when all checks pass, and is otherwise unchanged; each error names the first failing check, and past the master and partition checks it names the first duplicate or invalid entry |
| LoadOrders.LoadOrder.SetPosition | src/backend/LoadOrder.cpp:258-288 | a rejected move changes nothing; an accepted one leaves the moved list |
| LoadOrders.LoadOrder.Unique | src/backend/LoadOrder.cpp:345-357 | the reverse pass with a seen-set leaves the last occurrence of each plugin |
| LoadOrders.LoadOrder.PartitionMasters | src/backend/LoadOrder.cpp:359-365 | the list becomes its stable partition |
| LoadOrders.LoadOrder.AppendLines | src/backend/LoadOrder.cpp:373-411 | the reading loop appends each kept line's name and stops at the first error |
| LoadOrders.LoadOrder.FixUpSkyrim | src/backend/LoadOrder.cpp:415-421 | the fix-up moves the master to the front, then inserts a valid, missing `Update.esm` at the partition point; a rejected move is the error |
| LoadOrders.LoadOrder.LoadFromFile | src/backend/LoadOrder.cpp:367-422 | a missing file is an error; otherwise the file's names are appended and, for Skyrim's active-plugins file, the fix-up follows |
| LoadOrders.FixUp | src/backend/LoadOrder.cpp:415-421 | the fix-up fails exactly when moving the master to the front is rejected, with that rejection as its error |
| LoadOrders.FixUpAddsMandatory | src/backend/LoadOrder.cpp:415-421 | a fix-up that succeeds leaves the game master in the list, and `Update.esm` whenever it is a valid plugin |
| LoadOrders.FromFile | src/backend/LoadOrder.cpp:367-422 | a read that fails keeps the names appended so far; outside Skyrim's active-plugins file the list is the old one followed by the file's names |
| LoadOrders.Initial | src/backend/LoadOrder.cpp:100-125 | a timestamp game starts from an empty list |
| LoadOrders.SkyrimInitialHasMandatory | src/backend/LoadOrder.cpp:114-124 | without `loadorder.txt`, a Skyrim list that loads without error holds the game master, and `Update.esm` when it is valid |
| LoadOrders.WithFolder | src/backend/LoadOrder.cpp:126-143 | without a plugins folder the list is unchanged; with one, every valid plugin in the folder ends up listed |
| LoadOrders.LoadOrder.CheckValidity | src/backend/LoadOrder.cpp:290-316 | the class's check is the as-written check on its current list |
| LoadOrders.LoadOrder.HasChanged | src/backend/LoadOrder.cpp:318-339 | the class's change test is `Validity.HasChanged` on its list, its recorded time and the times on disk |
| LoadOrders.LoadOrder.Load | src/backend/LoadOrder.cpp:99-149 | the list is rebuilt from the files (textfile method), the folder is scanned, and a timestamp list is sorted into a permutation of the scanned list |
| LoadOrders.LoadOrder.Save | src/backend/LoadOrder.cpp:151-199 | timestamp method: the stamps of `RestampTimes` and the folder's time; textfile method: `loadorder.txt` one name per line, its time recorded, the active set reloaded if changed, then written |
| LoadOrders.WriteLines | src/backend/LoadOrder.cpp:182-183 | the text written is the names one per line |

## Left out

- Input and output: opening, reading and writing files, `create_directory`, `fs::exists` and `last_write_time`. Their results are parameters (`LoadOrders.Disk`, the written file's time) and their effects are outputs (the written text, the stamps). Read and write failures (`ios_base::failure`) and time-read failures are not modelled.
- Plugin header parsing behind `IsMasterFile`, `IsValid`, `Exists`, `GetMasters`, `GetModTime` and `SetModTime`: it lives in another file, so these are uninterpreted fields of `Game`. `Save` returns the stamps, one per entry in list order; their effect on the game's files is stated by `Restamp.Restamped`.
- Character encoding: `ToUTF8`, `FromUTF8` and the UTF-8 test are failable oracles on `Game`. Case folding is ASCII only; boost's locale-aware lowering of non-ASCII letters is not modelled.
- `std::regex`: it is replaced by a hand-written predicate for the one `GameFile[0-9]{1,3}=.+\.es(m|p)` pattern (`TextFiles.IsGameFileLine`), where `.` excludes `\r` and `\n`.
- The folder listing holds the regular files only. The `is_regular_file` filter and the directory iterator's order are taken as given.
- Error message texts and `difftime`: only the error kinds and integer time comparisons are modelled.
- The comparator's cache and its `modTime == 0` "not read yet" sentinel: this is a performance detail, and the comparator is stated on the game's answers directly.
- PluginSort.SortPlugins: `std::sort` is modelled by an insertion sort whose contract claims only sortedness and a permutation. The order `std::sort` gives to tied plugins is unspecified and not modelled.
- ActiveSets.ActivePlugins.Save: the timestamp method writes the set in `unordered_set`'s iteration order, which the model leaves unspecified (any enumeration of the set); `written` reports the order chosen.
- ActiveSets.ActivePlugins.CheckValidity: which uninstalled member is reported depends on the set's iteration order, so the model names one unspecified uninstalled member.
- The `mtime` of `ActivePlugins` is never updated in this file. It is kept as a field that the model never changes.
- Moves.MoveKeepsPartition: proved for duplicate-free lists only. Reading a load order file keeps repeated lines (src/backend/LoadOrder.cpp:405-407), and on such a list `setPosition` can break the master/non-master partition; `Moves.MoveBreaksPartitionWithDuplicates` shows the input.
- The C ABI in `ffi/src/lib.rs` and the API tests are not part of this model.

## Findings

| source | as written | input that shows it | evidently intended | confidence | as-written member | corrected member |
|---|---|---|---|---|---|---|
| src/backend/LoadOrder.cpp:310 | the master test counts `plugin` in the list, which is always non-zero, so every declared master not seen earlier is reported, even one that is not in the list | the game master first, then a non-master plugin whose only declared master is not in the list | report only masters that are in the list and load after the plugin: the `count` over the list with `master` in place of `plugin`, which spares Filter patches as the comment on that line wants (its word "installed" would be the `Exists` test, a different check) | not executed | Validity.AbsentMasterIsFlagged | Validity.CheckValidityIntendedIff |
