# flashforge-profile-cli, modelled in Dafny

`flashforge-profile-cli` keeps the slicer profiles of a Flashforge 3D printer
in step with a profile repository. It also copies one parameter from an input
profile to many others. A profile is an INI-like text file with two sections,
`[General]` and `[Custom]`, each holding `key=value` lines. Its file name
follows the pattern `<machine id>_<nozzle diameter>_<name>.<ext>`.

This project models the following parts of the tool and proves their
properties:

- the profile library (`flashforge_profile_cli/flashforge_profile.py`). The
  root `flashforge_profile.py` is a byte-identical copy, and every line
  reference below holds for it as well.
- the profile selection and the `set-param` command of the command-line
  front end (`flashforge_profile_cli/flashforge_profile_cli.py`).

Modules, one file each:

- `wrappers.dfy` — `Option`, `Result` and `Outcome`. Python's exceptions
  become error results.
- `pystr.dfy` (`PyStr`) — the Python string and path behaviour the library
  relies on:
  - `str.strip`, `in`, `str.split(c, 1)`;
  - `pathlib` `name` and `stem`, and `os.path.join`;
  - iterating over a text file line by line.
- `ordered_dict.dfy` (`OrderedDict`) — a Python `dict` of strings as a
  sequence of entries with distinct keys. Iteration follows first insertion,
  and assigning to a present key overwrites its value in place.
- `profile_format.dfy` (`ProfileFormat`) — the pure part of the library:
  - the file-name parser;
  - `get_param`/`set_param` on the two dicts;
  - the exported text;
  - the line parser as a state machine, `ParseFrom` over a `ParseState`;
  - the lemmas about all of these, ending with the export/parse round trip.
- `profiles.dfy` (`Profiles`) — the `FlashforgeProfile` object as a class:
  - `SetParam` updates the dict fields in place;
  - `Export` builds the text with two loops;
  - `ParseProfile` runs the line loop of `parse_profile` and allocates the
    profile.
  Each method is proved against the functions of `ProfileFormat`.
- `cli.dfy` (`Cli`) — the `get_profiles` collection loop and its three
  filters, the search for the input profile, and the update loop of
  `set_param`. The `sys.exit` calls become `CliError` results.

## Model

| member | source | states |
|---|---|---|
| PyStr.LStrip | flashforge_profile_cli/flashforge_profile.py:160 | The result is a suffix of the input; everything it drops is whitespace; it starts with a non-whitespace character or is empty |
| PyStr.RStrip | flashforge_profile_cli/flashforge_profile.py:160 | The result is a prefix of the input; everything it drops is whitespace; it ends with a non-whitespace character or is empty |
| PyStr.Strip | flashforge_profile_cli/flashforge_profile.py:160 | `strip()` gives the empty string exactly when the line is all whitespace; otherwise both ends of the result are non-whitespace |
| PyStr.StripNewline | flashforge_profile_cli/flashforge_profile.py:160 | A trailing `\n` makes no difference to `strip()` |
| PyStr.StripLine | flashforge_profile_cli/flashforge_profile.py:160 | A line whose ends are not whitespace strips back to itself without its `\n` |
| PyStr.ContainsAt | flashforge_profile_cli/flashforge_profile.py:163 | `sub in s` holds whenever `sub` occurs at some position of `s` |
| PyStr.ContainsWitness | flashforge_profile_cli/flashforge_profile.py:163 | Whenever `sub in s` holds, there is a position where `sub` occurs |
| PyStr.ContainsTooLong | flashforge_profile_cli/flashforge_profile.py:163 | A string never contains a longer one |
| PyStr.IndexOf | flashforge_profile_cli/flashforge_profile.py:171 | The position of the first occurrence of a character, or None exactly when the character is absent |
| PyStr.IndexOfAfter | flashforge_profile_cli/flashforge_profile.py:171 | After a prefix free of `c`, the first `c` is the one that ends the prefix |
| PyStr.SplitOnce | flashforge_profile_cli/flashforge_profile.py:171 | `split(sep, 1)` fails exactly when `sep` is absent; otherwise the two parts rejoin to the input around the first `sep`, and the first part has no `sep` |
| PyStr.SplitOnceAt | flashforge_profile_cli/flashforge_profile.py:171 | Splitting `a + sep + b`, where `a` has no `sep`, gives back `(a, b)`, even when `b` contains `sep` |
| PyStr.LastIndexOf | flashforge_profile_cli/flashforge_profile.py:135 | The position of the last occurrence of a character, or None exactly when the character is absent |
| PyStr.LastComponent | flashforge_profile_cli/flashforge_profile.py:128 | `Path(path).name` is a slash-free suffix of the path, preceded by a `/` when shorter than the path |
| PyStr.LastComponentAfter | flashforge_profile_cli/flashforge_profile.py:128 | A slash-free name placed after a directory ending in `/` is the last component |
| PyStr.JoinPathName | flashforge_profile_cli/flashforge_profile.py:99 | `os.path.join(dir, name)` has `name` as its last component when `name` has no `/` |
| PyStr.Stem | flashforge_profile_cli/flashforge_profile.py:135 | `Path(name).stem` is a prefix of the name. It drops a `.` and what follows only when that `.` is the last one and is neither the first nor the last character; otherwise the name is kept whole |
| PyStr.StemOfExtension | flashforge_profile_cli/flashforge_profile.py:135 | The stem of `base.ext` is `base` when `ext` has no dot and both parts are non-empty |
| PyStr.StemKeepsInnerDots | flashforge_profile_cli/flashforge_profile.py:135 | The stem of `abs-1.8-light.cfg` is `abs-1.8-light`: only the last suffix goes |
| PyStr.JoinAppend | flashforge_profile_cli/flashforge_profile.py:101-113 | Writing two batches of lines one after the other writes their concatenation |
| PyStr.JoinWithout | flashforge_profile_cli/flashforge_profile.py:101-113 | A character that no written line holds is nowhere in the written text |
| PyStr.SplitLines | flashforge_profile_cli/flashforge_profile.py:158 | The lines read from a text rejoin to the text; every line but the last ends in its only `\n` |
| PyStr.SplitJoin | flashforge_profile_cli/flashforge_profile.py:158 | Reading back a text made of complete lines yields exactly those lines |
| OrderedDict.KeyAt | flashforge_profile_cli/flashforge_profile.py:104 | The i-th key in iteration order is the key of the i-th entry |
| OrderedDict.Lookup | flashforge_profile_cli/flashforge_profile.py:67 | `d[k]` finds a value exactly when `k` is a key, and the value found is stored under `k` |
| OrderedDict.LookupEntry | flashforge_profile_cli/flashforge_profile.py:67 | In a dict with distinct keys, a stored entry is what `d[k]` returns |
| OrderedDict.Put | flashforge_profile_cli/flashforge_profile.py:180-183 | `d[k] = v` keeps the key order when `k` is present and appends `k` otherwise |
| OrderedDict.PutLookup | flashforge_profile_cli/flashforge_profile.py:84 | After `d[k] = v`, `d[k]` is `v` |
| OrderedDict.PutDistinct | flashforge_profile_cli/flashforge_profile.py:180-183 | Assignment keeps the keys distinct |
| OrderedDict.PutOthers | flashforge_profile_cli/flashforge_profile.py:84 | Assigning to `k` leaves the value of every other key unchanged |
| OrderedDict.PutNew | flashforge_profile_cli/flashforge_profile.py:180-183 | A new key goes at the end, after every existing entry |
| OrderedDict.PutTwice | flashforge_profile_cli/flashforge_profile.py:84 | Assigning the same value twice is the same as assigning it once |
| OrderedDict.KeysAppend | flashforge_profile_cli/flashforge_profile.py:180-183 | The keys of two concatenated entry lists are the concatenated keys |
| ProfileFormat.ProfileParams.Get | flashforge_profile_cli/flashforge_profile.py:56-73 | `get_param` succeeds exactly when the key is in either dict, and fails otherwise with InvalidParameter. It returns the `[General]` entry when the key is there, and the `[Custom]` entry otherwise |
| ProfileFormat.ProfileParams.Assign | flashforge_profile_cli/flashforge_profile.py:75-89 | `set_param` succeeds exactly when the key is in either dict, and fails otherwise with InvalidParameter. It keeps the key lists of both dicts, touches only the dict holding the key (`[General]` first), and leaves `get_param(k)` returning `v` |
| ProfileFormat.GetFindsEntry | flashforge_profile_cli/flashforge_profile.py:66-73 | With distinct keys, a `[General]` entry wins even when the key is also in `[Custom]`; a key only in `[Custom]` gives its custom value |
| ProfileFormat.AssignOthers | flashforge_profile_cli/flashforge_profile.py:83-89 | A successful `set_param(k, v)` changes what `get_param` returns for `k` only |
| ProfileFormat.AssignValid | flashforge_profile_cli/flashforge_profile.py:83-89 | `set_param` keeps the keys of each dict distinct |
| ProfileFormat.ParseProfilePath | flashforge_profile_cli/flashforge_profile.py:116-136 | Fails with InvalidProfilePath exactly when the file name has fewer than two `_`. Otherwise the file name is the last path component; machine id and nozzle diameter are the `_`-free texts before the first and second `_`; the name is the stem of the rest |
| ProfileFormat.ParseFileName | flashforge_profile_cli/flashforge_profile.py:130-135 | The same split for a bare file name, on which the path parser depends alone |
| ProfileFormat.OneUnderscore | flashforge_profile_cli/flashforge_profile.py:130-133 | A name with exactly one `_` has fewer than two underscores |
| ProfileFormat.TwoUnderscores | flashforge_profile_cli/flashforge_profile.py:130-135 | Splitting at the first two `_` gives the parts the convention names |
| ProfileFormat.ParseConventionalPath | flashforge_profile_cli/flashforge_profile.py:116-136 | In any directory, `<id>_<nozzle>_<name>.<ext>` parses back into exactly its id, nozzle, name and file name |
| ProfileFormat.EntryLinesAppend | flashforge_profile_cli/flashforge_profile.py:104-106 | One more entry writes one more `k=v` line at the end |
| ProfileFormat.ExportTextPieces | flashforge_profile_cli/flashforge_profile.py:101-113 | The exported text is `[General]\n`, then one `k=v\n` per general entry in order, then `\n[Custom]\n`, then one `k=v\n` per custom entry in order |
| ProfileFormat.ExportEmpty | flashforge_profile_cli/flashforge_profile.py:101-113 | A profile without parameters still exports both headers: `[General]\n\n[Custom]\n` |
| ProfileFormat.EntryLinesAreLines | flashforge_profile_cli/flashforge_profile.py:105 | Entries without newlines export one complete line each |
| ProfileFormat.ExportLinesReadBack | flashforge_profile_cli/flashforge_profile.py:101-113 | Reading the exported text line by line yields exactly the lines `export` wrote |
| ProfileFormat.EntryLineWithoutReturn | flashforge_profile_cli/flashforge_profile.py:105 | The `k=v` line of a key and value without `\r` holds no `\r` |
| ProfileFormat.EntryLinesWithoutReturn | flashforge_profile_cli/flashforge_profile.py:104-106 | The exported lines of exportable entries hold no `\r`, one line per entry |
| ProfileFormat.HeadersWithoutReturn | flashforge_profile_cli/flashforge_profile.py:102-109 | The header and separator lines `export` writes hold no `\r` |
| ProfileFormat.ExportWithoutReturn | flashforge_profile_cli/flashforge_profile.py:101-113 | The text exported from exportable entries holds no `\r`, so reading it with universal newlines breaks it only where `export` wrote `\n` |
| ProfileFormat.ParseFrom | flashforge_profile_cli/flashforge_profile.py:158-183 | The line loop fails only with InvalidProfile or MalformedLine |
| ProfileFormat.SpecOfFailedLines | flashforge_profile_cli/flashforge_profile.py:149-183 | When the file name parses and the line loop fails, the profile fails with the same error |
| ProfileFormat.SpecOfParsedLines | flashforge_profile_cli/flashforge_profile.py:149-192 | When the file name and the lines parse, the profile is the name's identity with the parsed dicts |
| ProfileFormat.ParseKeepsKeysDistinct | flashforge_profile_cli/flashforge_profile.py:179-183 | The parsed dicts never hold a key twice |
| ProfileFormat.NonPairLinesKeepParams | flashforge_profile_cli/flashforge_profile.py:160-168 | Blank lines and section headers add no parameter |
| ProfileFormat.GeneralLineStep | flashforge_profile_cli/flashforge_profile.py:163-165 | A line containing `[General]` opens that section, whatever else it holds |
| ProfileFormat.CustomLineStep | flashforge_profile_cli/flashforge_profile.py:166-168 | A line containing `[Custom]` and not `[General]` opens the custom section |
| ProfileFormat.PairLineStep | flashforge_profile_cli/flashforge_profile.py:170-183 | A `k=v` line before any section fails with InvalidProfile; inside a section it is assigned into that section's dict |
| ProfileFormat.RepeatedKeyOverwrites | flashforge_profile_cli/flashforge_profile.py:179-183 | A key repeated in a section keeps its first position and takes the new value |
| ProfileFormat.LineWithoutEqualsFails | flashforge_profile_cli/flashforge_profile.py:170-174 | A non-blank, non-header line without `=` fails as MalformedLine, even before any section: the split comes before the section check |
| ProfileFormat.PairBeforeSectionFails | flashforge_profile_cli/flashforge_profile.py:176-177 | A `k=v` line preceded only by blank lines makes the whole file InvalidProfile, whatever follows |
| ProfileFormat.BlankTail | flashforge_profile_cli/flashforge_profile.py:161-162 | Blank leading lines stay blank after the first is dropped |
| ProfileFormat.BlankStep | flashforge_profile_cli/flashforge_profile.py:161-162 | A blank line leaves the parser state unchanged |
| ProfileFormat.PairBeforeSectionFrom | flashforge_profile_cli/flashforge_profile.py:176-177 | From the start state, a pair after only blank lines is InvalidProfile |
| ProfileFormat.StepEntry | flashforge_profile_cli/flashforge_profile.py:170-183 | An exported `k=v` line is split at its first `=`, so the value may hold `=`, and it is assigned into the current section |
| ProfileFormat.ParseCons | flashforge_profile_cli/flashforge_profile.py:158-183 | The loop consumes its first line with one step, and stops at the first failing line |
| ProfileFormat.ParseAt | flashforge_profile_cli/flashforge_profile.py:158-183 | Partway through, the loop consumes line `i` with one step |
| ProfileFormat.ParseEntries | flashforge_profile_cli/flashforge_profile.py:179-183 | The exported lines of a section's entries parse back into those entries, appended in order |
| ProfileFormat.GeneralHeaderStep | flashforge_profile_cli/flashforge_profile.py:163-165 | The exported `[General]` line opens the general section |
| ProfileFormat.CustomHeaderStep | flashforge_profile_cli/flashforge_profile.py:166-168 | The exported `[Custom]` line opens the custom section |
| ProfileFormat.EmptyLineStep | flashforge_profile_cli/flashforge_profile.py:161-162 | The exported blank separator line is skipped |
| ProfileFormat.StartHeader | flashforge_profile_cli/flashforge_profile.py:163-165 | An export starts by opening the general section with no parameters yet |
| ProfileFormat.GeneralEntries | flashforge_profile_cli/flashforge_profile.py:179-180 | The general lines of an export fill the general dict with exactly its entries |
| ProfileFormat.SeparatorAndHeader | flashforge_profile_cli/flashforge_profile.py:161-168 | The blank line and the `[Custom]` header after the general lines switch to the custom section and change nothing else |
| ProfileFormat.CustomEntries | flashforge_profile_cli/flashforge_profile.py:182-183 | The custom lines of an export fill the custom dict with exactly its entries and end the parse |
| ProfileFormat.ParseExportedGeneral | flashforge_profile_cli/flashforge_profile.py:101-106 | The `[General]` half of an export fills the general dict |
| ProfileFormat.ParseExportedCustom | flashforge_profile_cli/flashforge_profile.py:108-113 | The separator, the `[Custom]` header and the custom lines fill the custom dict |
| ProfileFormat.ParseExportedLines | flashforge_profile_cli/flashforge_profile.py:158-183 | Parsing the exported lines gives back both dicts, in order. This needs distinct keys and exportable entries: no `=` in a key, no `\n` or `\r` in a key or value, a `k=v` line unchanged by `strip()` and mentioning neither header |
| ProfileFormat.ExportParseRoundTrip | flashforge_profile_cli/flashforge_profile.py:139-192 | Round trip: the file `export` writes into any directory holds no `\r` and parses back into the same profile |
| Profiles.FlashforgeProfile.constructor | flashforge_profile_cli/flashforge_profile.py:185-192 | The new object holds the given identity and dicts |
| Profiles.FlashforgeProfile.GetParam | flashforge_profile_cli/flashforge_profile.py:56-73 | Returns the `[General]` value when the key is there, otherwise the `[Custom]` value, and otherwise fails; it agrees with `ProfileParams.Get` |
| Profiles.FlashforgeProfile.SetParam | flashforge_profile_cli/flashforge_profile.py:75-89 | Succeeds exactly when the old dicts define the key, and then the dicts become `Assign`'s result. On failure it returns InvalidParameter and changes nothing. Distinct keys are preserved |
| Profiles.FlashforgeProfile.Export | flashforge_profile_cli/flashforge_profile.py:91-113 | Writes to `path` joined with the file name, or to `path` itself; the text written is `ExportText` of the current dicts |
| Profiles.PutDistinctIf | flashforge_profile_cli/flashforge_profile.py:84-87 | Assignment keeps distinct keys distinct |
| Profiles.LookupAt | flashforge_profile_cli/flashforge_profile.py:105 | The value `export` writes for the i-th key is the i-th entry's value |
| Profiles.EntryLinesPrefix | flashforge_profile_cli/flashforge_profile.py:104-106 | Each pass of an export loop adds the line of the next entry |
| Profiles.ParseLine | flashforge_profile_cli/flashforge_profile.py:158-183 | One pass of the line loop is exactly one `Step` of the state machine, and it keeps the keys distinct |
| Profiles.ParseProfile | flashforge_profile_cli/flashforge_profile.py:139-192 | Fails exactly when the specification fails, with the same error. On success it gives a new object whose data is the specified profile and whose dicts have distinct keys |
| Cli.Filter | flashforge_profile_cli/flashforge_profile_cli.py:179-181 | A list comprehension never lengthens the list |
| Cli.FilterMembers | flashforge_profile_cli/flashforge_profile_cli.py:179-181 | A comprehension keeps exactly the elements that pass its test |
| Cli.FilterSubsequence | flashforge_profile_cli/flashforge_profile_cli.py:179-181 | A comprehension keeps the relative order of what it keeps |
| Cli.FilterFilter | flashforge_profile_cli/flashforge_profile_cli.py:178-193 | Two comprehensions in a row keep what passes both tests |
| Cli.FilterKeepsAll | flashforge_profile_cli/flashforge_profile_cli.py:178-195 | A test that every element passes keeps the list as it is |
| Cli.FilterStage | flashforge_profile_cli/flashforge_profile_cli.py:178-181 | A filter guarded by `if machine_id:` is a comprehension whose test passes everything when the filter is empty |
| Cli.FilterProfilesSelects | flashforge_profile_cli/flashforge_profile_cli.py:178-193 | The three filters in a row are one comprehension over `Selected`: equal machine id, equal nozzle diameter, search text as a plain substring of the file name, each skipped when empty |
| Cli.FilterProfilesKeeps | flashforge_profile_cli/flashforge_profile_cli.py:178-193 | A kept profile is in the input and passes each non-empty filter; every input profile passing them all is kept |
| Cli.FilterProfilesSubsequence | flashforge_profile_cli/flashforge_profile_cli.py:178-193 | The filtered list is an order-preserving subsequence of the input |
| Cli.FilterProfilesNoFilter | flashforge_profile_cli/flashforge_profile_cli.py:178-195 | With all three filters empty the input list is returned unchanged |
| Cli.Collect | flashforge_profile_cli/flashforge_profile_cli.py:163-176 | The collection never fails with InvalidProfile or InvalidProfilePath: those files are skipped |
| Cli.CollectNext | flashforge_profile_cli/flashforge_profile_cli.py:165-176 | One more listing entry is skipped, appended, or ends the collection with its error |
| Cli.CollectStops | flashforge_profile_cli/flashforge_profile_cli.py:172-176 | Once a failure escapes, the rest of the listing is not looked at |
| Cli.CollectFails | flashforge_profile_cli/flashforge_profile_cli.py:163-176 | Collection fails exactly when some regular file fails with an error other than InvalidProfile or InvalidProfilePath, and then with the first such error |
| Cli.CollectMembers | flashforge_profile_cli/flashforge_profile_cli.py:163-176 | A successful collection holds every profile that parsed, and only those |
| Cli.FatalIsMalformedLine | flashforge_profile_cli/flashforge_profile.py:170-174 | The only parse failure that escapes collection is a line without `=` |
| Cli.CollectListing | flashforge_profile_cli/flashforge_profile_cli.py:163-176 | Collecting a listing fails exactly when some regular file whose name parses reaches, as its first failing line, a non-blank, non-header line without `=`; the failure is then MalformedLine |
| Cli.DataOf | flashforge_profile_cli/flashforge_profile_cli.py:163 | The data of a list of profile objects, element by element |
| Cli.DataOfFilter | flashforge_profile_cli/flashforge_profile_cli.py:178-193 | Filtering the objects by their file-name data is filtering their data |
| Cli.DataOfSelect | flashforge_profile_cli/flashforge_profile_cli.py:178-193 | The filtered objects carry exactly the selected data, in order |
| Cli.AllValidFilter | flashforge_profile_cli/flashforge_profile_cli.py:178-193 | Filtering keeps every profile's dicts well formed |
| Cli.AllValidAppend | flashforge_profile_cli/flashforge_profile_cli.py:173 | Appending a well-formed profile keeps the list well formed |
| Cli.DataOfAppend | flashforge_profile_cli/flashforge_profile_cli.py:173 | Appending a profile appends its data |
| Cli.CollectProfiles | flashforge_profile_cli/flashforge_profile_cli.py:163-176 | The loop fails exactly when `Collect` does, with its error. On success it returns profiles whose data is the collected list, in listing order, each with distinct keys |
| Cli.GetProfiles | flashforge_profile_cli/flashforge_profile_cli.py:163-195 | `get_profiles` fails, with MalformedLine, exactly when some regular file whose name parses reaches, as its first failing line, a non-blank, non-header line without `=`. Otherwise its data is the collected profiles narrowed by `Selected`, in order |
| Cli.FirstMatch | flashforge_profile_cli/flashforge_profile_cli.py:259-262 | The first position whose file name contains the input name, with no match before it; None when nothing matches |
| Cli.FirstMatchAt | flashforge_profile_cli/flashforge_profile_cli.py:259-262 | A match with no earlier match is the first match |
| Cli.FindInputProfile | flashforge_profile_cli/flashforge_profile_cli.py:257-266 | The search loop with `break` returns the first matching profile, or InputProfileNotFound when none matches |
| Cli.UpdatedEffect | flashforge_profile_cli/flashforge_profile_cli.py:277-288 | After the update, a profile defining the parameter holds the value, and one lacking it is unchanged. No key is added or moved, and every other parameter keeps its value |
| Cli.UpdatedTwice | flashforge_profile_cli/flashforge_profile_cli.py:277-288 | Updating twice with the same value is updating once |
| Cli.UpdatedDefines | flashforge_profile_cli/flashforge_profile_cli.py:277-288 | The update neither adds nor removes a parameter |
| Cli.WrittenAllNext | flashforge_profile_cli/flashforge_profile_cli.py:277-282 | One more profile's files are written after the earlier ones |
| Cli.WrittenForUpdated | flashforge_profile_cli/flashforge_profile_cli.py:277-282 | A profile met a second time writes the same files again |
| Cli.PassWrites | flashforge_profile_cli/flashforge_profile_cli.py:277-282 | A profile met by the update loop, for the first time or again, writes the files of its data from before the loop, and updating it once more changes nothing |
| Cli.UpdateProfile | flashforge_profile_cli/flashforge_profile_cli.py:278-287 | One pass: the dicts become the update of the old ones. When the profile has the parameter it is written to the Flashforge directory and, when asked, to the repository; otherwise nothing is written |
| Cli.UpdateAll | flashforge_profile_cli/flashforge_profile_cli.py:277-288 | Every listed profile's dicts become the update of their old value, even when an object is listed twice. The files written are, in list order, those of each profile defining the parameter |
| Cli.SetParamCommand | flashforge_profile_cli/flashforge_profile_cli.py:253-288 | An empty list, no input profile, or an input profile without the parameter is an error, before any profile changes. Otherwise every profile is updated with the input profile's value and the files are written as `UpdateAll` states |

## Left out

- Argument parsing (`get_args`), the empty `sanitise_input`, and the
  `main` dispatch are not modelled. They only route arguments.
- The `update-profiles` and `update-repo` commands are not modelled. Each
  is one `get_profiles` call, then an `export` of every profile found;
  `GetProfiles` and `FlashforgeProfile.Export` model those two steps.
- The file system is replaced by plain inputs and outputs:
  - a directory listing is a sequence of `SourceFile` entries, each with its
    name, whether it is a regular file, and its lines;
  - `export` returns the target path and the text instead of writing them;
  - `set-param` returns the list of files it would write.
  Missing directories, permissions, encodings and other I/O errors are not
  modelled. Neither is `os.path.expanduser`.
- Messages printed to stdout or stderr and the exit status are not
  modelled. An exit becomes a `CliError`; a skipped file is dropped
  silently.
- A `None` filter argument is not distinguished from `""`; both mean "no
  filter", as both are falsy in Python.
- PyStr.LastComponent: gives the empty name for a path ending in `/`, where
  `pathlib` would first drop the trailing slash. It also keeps `.`
  components, which `pathlib` drops: `Path("a/b/.").name` is `b` and
  `Path(".").name` is empty, where the model gives `.`.
- PyStr.Stem: for the name `.` it keeps `.`, where `Path(".").stem` is
  empty. So a file named `22_0.4_.` gets the profile name `.` in the model
  and the empty name in the program.
- PyStr.SplitLines: splits only after `\n`. Python's universal-newline
  translation of `\r` and `\r\n` is not modelled. The round trip does not
  depend on it, because exported text holds no `\r` (`ExportWithoutReturn`).
- PyStr.IsSpace: follows `str.isspace` for the characters listed. It does not
  read the full Unicode database.
- Cli.GetProfiles: does not state that the profiles it returns are newly
  allocated. So the model does not chain `GetProfiles` into
  `SetParamCommand` in one method; `SetParamCommand` takes the selected
  list as its input.
- Profiles.FlashforgeProfile.Export: requires `Valid()`, the distinct-keys
  property every Python dict has by construction. `SetParamCommand` and
  `UpdateAll` require the same of every profile (`AllValid`). `ParseProfile`
  and `GetProfiles` establish it.
- ProfileFormat.ExportParseRoundTrip: covers only profiles whose file name
  parses back to their identity and whose entries are exportable. A key
  holding `=`, a `\n` or `\r` in a key or value, surrounding whitespace, or
  a header text in a line cannot survive the text format. Reading with
  universal newlines breaks a line at `\r` too, so `Exportable` excludes
  `\r`; the exported text then holds no `\r`, and `SplitLines` reads it as
  the program does.
- The demo `main` of the library, which reads a fixed file, and `setup.py`
  are not part of this model.
