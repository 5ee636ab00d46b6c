/**
 * The pure part of the profile library: the file-name convention
 * `<machine id>_<nozzle diameter>_<name>.<ext>`, the two-section
 * `key=value` text format it reads and writes, and the get/set semantics of
 * a profile's two parameter dicts.
 */
module ProfileFormat {
  import opened Wrappers
  import opened PyStr
  import opened OrderedDict

  /**
   * The exceptions of the library. MalformedLine is the bare ValueError the
   * parser raises for a parameter line without `=`.
   */
  datatype Error = InvalidParameter | InvalidProfilePath | InvalidProfile | MalformedLine

  /** What a file name says about a profile. */
  datatype PathInfo = PathInfo(machineId: string, nozzleDiameter: string, name: string, fileName: string)

  datatype Section = General | Custom

  /** The `[General]` and `[Custom]` parameter dicts of a profile. */
  datatype ProfileParams = ProfileParams(general: Dict, custom: Dict) {

    predicate Valid() {
      DistinctKeys(general) && DistinctKeys(custom)
    }

    predicate Defines(k: string) {
      k in Keys(general) || k in Keys(custom)
    }

    function Of(s: Section): Dict {
      match s
      case General => general
      case Custom => custom
    }

    function With(s: Section, d: Dict): ProfileParams {
      match s
      case General => this.(general := d)
      case Custom => this.(custom := d)
    }

    /**
     * `get_param`: the `[General]` value when the key is there, else the
     * `[Custom]` value, else InvalidParameter.
     */
    function Get(k: string): (r: Result<string, Error>)
      ensures r.Ok? <==> Defines(k)
      ensures r.Err? ==> r.error == InvalidParameter
      ensures r.Ok? && k in Keys(general) ==> Entry(k, r.value) in general
      ensures r.Ok? && k !in Keys(general) ==> Entry(k, r.value) in custom
    {
      match Lookup(general, k)
      case Some(v) => Ok(v)
      case None =>
        match Lookup(custom, k)
        case Some(v) => Ok(v)
        case None => Err(InvalidParameter)
    }

    /**
     * `set_param`: overwrites the value of an existing key, in `[General]`
     * when it is there and in `[Custom]` otherwise; a key in neither is
     * InvalidParameter. It never inserts a key.
     */
    function Assign(k: string, v: string): (r: Result<ProfileParams, Error>)
      ensures r.Ok? <==> Defines(k)
      ensures r.Err? ==> r.error == InvalidParameter
      ensures r.Ok? ==> Keys(r.value.general) == Keys(general) && Keys(r.value.custom) == Keys(custom)
      ensures r.Ok? && k in Keys(general) ==> r.value.custom == custom
      ensures r.Ok? && k !in Keys(general) ==> r.value.general == general
      ensures r.Ok? ==> r.value.Get(k) == Ok(v)
    {
      if k in Keys(general) then
        PutLookup(general, k, v);
        Ok(ProfileParams(Put(general, k, v), custom))
      else if k in Keys(custom) then
        PutLookup(custom, k, v);
        Ok(ProfileParams(general, Put(custom, k, v)))
      else
        Err(InvalidParameter)
    }
  }

  /** A profile as the parser produces it. */
  datatype Profile = Profile(info: PathInfo, params: ProfileParams)

  /** With distinct keys, `Get` finds the `[General]` entry, or else the `[Custom]` one. */
  lemma GetFindsEntry(p: ProfileParams, k: string, v: string)
    requires p.Valid()
    ensures Entry(k, v) in p.general ==> p.Get(k) == Ok(v)
    ensures k !in Keys(p.general) && Entry(k, v) in p.custom ==> p.Get(k) == Ok(v)
  {
    if Entry(k, v) in p.general {
      LookupEntry(p.general, k, v);
    } else if k !in Keys(p.general) && Entry(k, v) in p.custom {
      LookupEntry(p.custom, k, v);
    }
  }

  /** A successful `Assign` changes what `Get` returns for its key only. */
  lemma AssignOthers(p: ProfileParams, k: string, v: string, other: string)
    requires other != k && p.Assign(k, v).Ok?
    ensures p.Assign(k, v).value.Get(other) == p.Get(other)
  {
    PutOthers(p.general, k, v, other);
    PutOthers(p.custom, k, v, other);
  }

  /** `Assign` keeps the keys of each dict distinct. */
  lemma AssignValid(p: ProfileParams, k: string, v: string)
    requires p.Valid() && p.Assign(k, v).Ok?
    ensures p.Assign(k, v).value.Valid()
  {
    PutDistinct(p.general, k, v);
    PutDistinct(p.custom, k, v);
  }

  // ---------------------------------------------------------------------
  // File names

  /** No two positions of `s` both hold `c`. */
  predicate FewerThanTwo(s: string, c: char) {
    forall i, j :: 0 <= i < j < |s| ==> s[i] != c || s[j] != c
  }

  /**
   * The file name of `info` starts with its machine id and nozzle diameter,
   * neither holding an underscore, each followed by `_`; the rest of the
   * file name has `info.name` as its stem.
   */
  predicate SplitAtFirstTwo(info: PathInfo) {
    var n := |info.machineId| + |info.nozzleDiameter| + 2;
    '_' !in info.machineId && '_' !in info.nozzleDiameter
    && n <= |info.fileName|
    && info.fileName[..n] == info.machineId + "_" + info.nozzleDiameter + "_"
    && info.name == Stem(info.fileName[n..])
  }

  /**
   * `parse_profile_path`: the file name is the last path component; it is
   * split on its first two underscores into machine id, nozzle diameter and
   * a tail whose stem is the profile name.
   */
  function ParseProfilePath(path: string): (r: Result<PathInfo, Error>)
    ensures r.Err? <==> FewerThanTwo(LastComponent(path), '_')
    ensures r.Err? ==> r.error == InvalidProfilePath
    ensures r.Ok? ==> r.value.fileName == LastComponent(path) && SplitAtFirstTwo(r.value)
  {
    ParseFileName(LastComponent(path))
  }

  /** The split of a bare file name, on which `ParseProfilePath` depends alone. */
  function ParseFileName(fileName: string): (r: Result<PathInfo, Error>)
    ensures r.Err? <==> FewerThanTwo(fileName, '_')
    ensures r.Err? ==> r.error == InvalidProfilePath
    ensures r.Ok? ==> r.value.fileName == fileName && SplitAtFirstTwo(r.value)
  {
    match SplitOnce(fileName, '_')
    case None =>
      Err(InvalidProfilePath)
    case Some((machineId, rest)) =>
      match SplitOnce(rest, '_')
      case None =>
        OneUnderscore(fileName, machineId, rest);
        Err(InvalidProfilePath)
      case Some((nozzle, tail)) =>
        TwoUnderscores(fileName, machineId, rest, nozzle, tail);
        Ok(PathInfo(machineId, nozzle, Stem(tail), fileName))
  }

  lemma OneUnderscore(s: string, a: string, b: string)
    requires s == a + "_" + b && '_' !in a && '_' !in b
    ensures FewerThanTwo(s, '_')
  {
    forall i, j | 0 <= i < j < |s| ensures s[i] != '_' || s[j] != '_' {
      if i < |a| {
        assert s[i] == a[i];
      } else {
        assert s[j] == b[j - |a| - 1];
      }
    }
  }

  lemma TwoUnderscores(s: string, a: string, r: string, b: string, t: string)
    requires s == a + "_" + r && r == b + "_" + t && '_' !in a && '_' !in b
    ensures !FewerThanTwo(s, '_') && SplitAtFirstTwo(PathInfo(a, b, Stem(t), s))
  {
    var n := |a| + |b| + 2;
    assert s[|a|] == '_';
    assert s[n - 1] == r[|b|] == '_';
    assert s == (a + "_" + b + "_") + t;
    assert s[n..] == t;
  }

  /** A name following the convention parses back into its parts, in any directory. */
  lemma ParseConventionalPath(dir: string, machineId: string, nozzle: string, name: string, ext: string)
    requires '_' !in machineId && '_' !in nozzle
    requires '/' !in machineId && '/' !in nozzle && '/' !in name && '/' !in ext
    requires |name| > 0 && |ext| > 0 && '.' !in ext
    ensures
      var fileName := machineId + "_" + nozzle + "_" + name + "." + ext;
      ParseProfilePath(JoinPath(dir, fileName)) == Ok(PathInfo(machineId, nozzle, name, fileName))
  {
    var tail := name + "." + ext;
    var rest := nozzle + "_" + tail;
    var fileName := machineId + "_" + nozzle + "_" + name + "." + ext;
    assert fileName == machineId + "_" + rest;
    JoinPathName(dir, fileName);
    SplitOnceAt(machineId, '_', rest);
    SplitOnceAt(nozzle, '_', tail);
    StemOfExtension(name, ext);
  }

  // ---------------------------------------------------------------------
  // Export

  function EntryLine(e: Entry): string {
    e.key + "=" + e.value + "\n"
  }

  function EntryLines(d: Dict): seq<string> {
    if d == [] then [] else [EntryLine(d[0])] + EntryLines(d[1..])
  }

  /** The lines `export` writes. */
  function ExportLines(p: ProfileParams): seq<string> {
    ["[General]\n"] + EntryLines(p.general) + ["\n", "[Custom]\n"] + EntryLines(p.custom)
  }

  /** The text `export` writes. */
  function ExportText(p: ProfileParams): string {
    Join(ExportLines(p))
  }

  lemma {:induction false} EntryLinesAppend(d: Dict, e: Entry)
    ensures EntryLines(d + [e]) == EntryLines(d) + [EntryLine(e)]
  {
    if d != [] {
      assert (d + [e])[1..] == d[1..] + [e];
      EntryLinesAppend(d[1..], e);
    }
  }

  /** The exported text, piece by piece, as `export` writes it. */
  lemma ExportTextPieces(p: ProfileParams)
    ensures ExportText(p)
         == "[General]\n" + Join(EntryLines(p.general)) + "\n" + "[Custom]\n" + Join(EntryLines(p.custom))
  {
    var g := EntryLines(p.general);
    var c := EntryLines(p.custom);
    JoinAppend(["[General]\n"] + g + ["\n", "[Custom]\n"], c);
    JoinAppend(["[General]\n"] + g, ["\n", "[Custom]\n"]);
    JoinAppend(["[General]\n"], g);
  }

  /** A profile without parameters still exports both headers. */
  lemma ExportEmpty()
    ensures ExportText(ProfileParams([], [])) == "[General]\n\n[Custom]\n"
  {
    ExportTextPieces(ProfileParams([], []));
  }

  predicate NoNewlines(d: Dict) {
    forall i :: 0 <= i < |d| ==> '\n' !in d[i].key && '\n' !in d[i].value
  }

  lemma {:induction false} EntryLinesAreLines(d: Dict)
    requires NoNewlines(d)
    ensures forall i :: 0 <= i < |EntryLines(d)| ==> IsLine(EntryLines(d)[i])
    ensures |EntryLines(d)| == |d|
  {
    if d != [] {
      var l := EntryLine(d[0]);
      assert l[..|l| - 1] == d[0].key + "=" + d[0].value;
      EntryLinesAreLines(d[1..]);
    }
  }

  /** Reading the exported text line by line gives back the exported lines. */
  lemma ExportLinesReadBack(p: ProfileParams)
    requires NoNewlines(p.general) && NoNewlines(p.custom)
    ensures SplitLines(ExportText(p)) == ExportLines(p)
  {
    EntryLinesAreLines(p.general);
    EntryLinesAreLines(p.custom);
    var ls := ExportLines(p);
    var g := EntryLines(p.general);
    forall i | 0 <= i < |ls| ensures IsLine(ls[i]) {
      if i == 0 {
        assert ls[i] == "[General]\n";
      } else if i <= |g| {
        assert ls[i] == g[i - 1];
      } else if i == |g| + 1 {
        assert ls[i] == "\n";
      } else if i == |g| + 2 {
        assert ls[i] == "[Custom]\n";
      } else {
        assert ls[i] == EntryLines(p.custom)[i - |g| - 3];
      }
    }
    SplitJoin(ls);
  }

  /** The line of an entry whose key and value hold no `\r` holds none either. */
  lemma EntryLineWithoutReturn(e: Entry)
    requires '\r' !in e.key && '\r' !in e.value
    ensures '\r' !in EntryLine(e)
  {
    assert EntryLine(e) == e.key + ("=" + (e.value + "\n"));
  }

  /** The lines of exportable entries hold no `\r`. */
  lemma {:induction false} EntryLinesWithoutReturn(d: Dict)
    requires ExportableDict(d)
    ensures |EntryLines(d)| == |d|
    ensures forall i :: 0 <= i < |EntryLines(d)| ==> '\r' !in EntryLines(d)[i]
  {
    if d != [] {
      ExportableTail(d);
      EntryLineWithoutReturn(d[0]);
      EntryLinesWithoutReturn(d[1..]);
      var ls := EntryLines(d);
      assert ls == [EntryLine(d[0])] + EntryLines(d[1..]);
      forall i | 0 <= i < |ls| ensures '\r' !in ls[i] {
        if i > 0 {
          assert ls[i] == EntryLines(d[1..])[i - 1];
        }
      }
    }
  }

  /**
   * The exported text of exportable entries holds no `\r`, so reading it
   * with universal newlines breaks it only at its `\n`s.
   */
  lemma ExportWithoutReturn(p: ProfileParams)
    requires ExportableDict(p.general) && ExportableDict(p.custom)
    ensures '\r' !in ExportText(p)
  {
    EntryLinesWithoutReturn(p.general);
    EntryLinesWithoutReturn(p.custom);
    JoinWithout(EntryLines(p.general), '\r');
    JoinWithout(EntryLines(p.custom), '\r');
    HeadersWithoutReturn();
    ExportTextPieces(p);
  }

  /** The fixed lines `export` writes hold no `\r`. */
  lemma HeadersWithoutReturn()
    ensures '\r' !in "[General]\n" && '\r' !in "\n" && '\r' !in "[Custom]\n"
  {
  }

  // ---------------------------------------------------------------------
  // Parsing

  /** The parser's state between lines: the current section and the dicts so far. */
  datatype ParseState = ParseState(section: Option<Section>, params: ProfileParams)

  const Start := ParseState(None, ProfileParams([], []))

  /**
   * One line of `parse_profile`: blank lines are skipped, a line containing
   * `[General]` (checked first) or `[Custom]` switches section, any other
   * line is split at its first `=` (MalformedLine if there is none) and,
   * once a section has been seen, assigned into that section's dict.
   */
  function Step(st: ParseState, raw: string): Result<ParseState, Error> {
    var line := Strip(raw);
    if line == "" then Ok(st)
    else if Contains(line, "[General]") then Ok(st.(section := Some(General)))
    else if Contains(line, "[Custom]") then Ok(st.(section := Some(Custom)))
    else match SplitOnce(line, '=')
      case None => Err(MalformedLine)
      case Some((k, v)) =>
        match st.section
        case None => Err(InvalidProfile)
        case Some(s) => Ok(st.(params := st.params.With(s, Put(st.params.Of(s), k, v))))
  }

  /** The parser run over `lines` from state `st`; the first failing line ends it. */
  function ParseFrom(st: ParseState, lines: seq<string>): (r: Result<ParseState, Error>)
    ensures r.Err? ==> r.error == InvalidProfile || r.error == MalformedLine
    decreases |lines|
  {
    if lines == [] then Ok(st)
    else match Step(st, lines[0])
      case Err(e) => Err(e)
      case Ok(next) => ParseFrom(next, lines[1..])
  }

  /** The two dicts `parse_profile` builds from the lines of a file. */
  function ParseLines(lines: seq<string>): Result<ProfileParams, Error> {
    match ParseFrom(Start, lines)
    case Err(e) => Err(e)
    case Ok(st) => Ok(st.params)
  }

  /** `parse_profile`: the file name is checked before any line is read. */
  function ParseProfileSpec(path: string, lines: seq<string>): Result<Profile, Error> {
    match ParseProfilePath(path)
    case Err(e) => Err(e)
    case Ok(info) =>
      match ParseLines(lines)
      case Err(e) => Err(e)
      case Ok(params) => Ok(Profile(info, params))
  }

  /** A file whose name parses fails exactly as its lines do. */
  lemma SpecOfFailedLines(path: string, lines: seq<string>, e: Error)
    requires ParseProfilePath(path).Ok? && ParseFrom(Start, lines) == Err(e)
    ensures ParseProfileSpec(path, lines) == Err(e)
  {
  }

  /** A file whose name and lines parse is the profile they describe. */
  lemma SpecOfParsedLines(path: string, lines: seq<string>, st: ParseState)
    requires ParseProfilePath(path).Ok? && ParseFrom(Start, lines) == Ok(st)
    ensures ParseProfileSpec(path, lines) == Ok(Profile(ParseProfilePath(path).value, st.params))
  {
  }

  /** Parsed dicts never hold a key twice: a repeated key overwrites in place. */
  lemma {:induction false} ParseKeepsKeysDistinct(st: ParseState, lines: seq<string>)
    requires st.params.Valid()
    ensures ParseFrom(st, lines).Ok? ==> ParseFrom(st, lines).value.params.Valid()
    decreases |lines|
  {
    if lines != [] {
      var line := Strip(lines[0]);
      if line != "" && !Contains(line, "[General]") && !Contains(line, "[Custom]")
        && SplitOnce(line, '=').Some? && st.section.Some?
      {
        var (k, v) := SplitOnce(line, '=').value;
        var s := st.section.value;
        PutDistinct(st.params.Of(s), k, v);
      }
      if Step(st, lines[0]).Ok? {
        ParseKeepsKeysDistinct(Step(st, lines[0]).value, lines[1..]);
      }
    }
  }

  /** Blank lines and section headers never add a parameter. */
  lemma NonPairLinesKeepParams(st: ParseState, raw: string)
    requires Strip(raw) == "" || Contains(Strip(raw), "[General]") || Contains(Strip(raw), "[Custom]")
    ensures Step(st, raw).Ok? && Step(st, raw).value.params == st.params
  {
  }

  /** A line mentioning `[General]` opens that section, whatever else it holds. */
  lemma GeneralLineStep(st: ParseState, raw: string)
    requires Strip(raw) != "" && Contains(Strip(raw), "[General]")
    ensures Step(st, raw) == Ok(st.(section := Some(General)))
  {
  }

  /** A line mentioning `[Custom]` but not `[General]` opens the custom section. */
  lemma CustomLineStep(st: ParseState, raw: string)
    requires Strip(raw) != "" && !Contains(Strip(raw), "[General]") && Contains(Strip(raw), "[Custom]")
    ensures Step(st, raw) == Ok(st.(section := Some(Custom)))
  {
  }

  /**
   * A `key=value` line is stored in the current section, overwriting an
   * earlier value of the key in place; before any section it is InvalidProfile.
   */
  lemma PairLineStep(st: ParseState, raw: string, k: string, v: string)
    requires Strip(raw) != "" && !Contains(Strip(raw), "[General]") && !Contains(Strip(raw), "[Custom]")
    requires SplitOnce(Strip(raw), '=') == Some((k, v))
    ensures st.section.None? ==> Step(st, raw) == Err(InvalidProfile)
    ensures st.section.Some? ==>
      Step(st, raw) == Ok(st.(params := st.params.With(st.section.value, Put(st.params.Of(st.section.value), k, v))))
  {
  }

  /**
   * A key seen again in the same section keeps its first position and
   * takes the new value.
   */
  lemma RepeatedKeyOverwrites(st: ParseState, raw: string, k: string, v: string)
    requires Strip(raw) != "" && !Contains(Strip(raw), "[General]") && !Contains(Strip(raw), "[Custom]")
    requires SplitOnce(Strip(raw), '=') == Some((k, v))
    requires st.section.Some? && k in Keys(st.params.Of(st.section.value))
    ensures Step(st, raw).Ok?
    ensures Keys(Step(st, raw).value.params.Of(st.section.value)) == Keys(st.params.Of(st.section.value))
    ensures Lookup(Step(st, raw).value.params.Of(st.section.value), k) == Some(v)
  {
    var s := st.section.value;
    PairLineStep(st, raw, k, v);
    WithOf(st.params, s, Put(st.params.Of(s), k, v), Put(st.params.Of(s), k, v));
    PutLookup(st.params.Of(s), k, v);
  }

  /**
   * A line with no `=` fails as MalformedLine whether or not a section has
   * been seen: the split comes before the section check.
   */
  lemma LineWithoutEqualsFails(st: ParseState, raw: string)
    requires Strip(raw) != "" && !Contains(Strip(raw), "[General]") && !Contains(Strip(raw), "[Custom]")
    requires '=' !in Strip(raw)
    ensures Step(st, raw) == Err(MalformedLine)
  {
  }

  /**
   * A `key=value` line reached while only blank lines precede it fails as
   * InvalidProfile, whatever follows.
   */
  lemma {:induction false} PairBeforeSectionFails(lines: seq<string>, i: nat)
    requires i < |lines|
    requires forall j :: 0 <= j < i ==> Strip(lines[j]) == ""
    requires !Contains(Strip(lines[i]), "[General]") && !Contains(Strip(lines[i]), "[Custom]")
    requires '=' in Strip(lines[i])
    ensures ParseLines(lines) == Err(InvalidProfile)
  {
    PairBeforeSectionFrom(lines, i);
  }

  lemma BlankTail(lines: seq<string>, i: nat)
    requires 0 < i <= |lines|
    requires forall j :: 0 <= j < i ==> Strip(lines[j]) == ""
    ensures Strip(lines[0]) == ""
    ensures forall j :: 0 <= j < i - 1 ==> Strip(lines[1..][j]) == ""
  {
    forall j | 0 <= j < i - 1 ensures Strip(lines[1..][j]) == "" {
      assert lines[1..][j] == lines[j + 1];
    }
  }

  lemma BlankStep(st: ParseState, raw: string)
    requires Strip(raw) == ""
    ensures Step(st, raw) == Ok(st)
  {
  }

  lemma {:induction false} PairBeforeSectionFrom(lines: seq<string>, i: nat)
    requires i < |lines|
    requires forall j :: 0 <= j < i ==> Strip(lines[j]) == ""
    requires !Contains(Strip(lines[i]), "[General]") && !Contains(Strip(lines[i]), "[Custom]")
    requires '=' in Strip(lines[i])
    ensures ParseFrom(Start, lines) == Err(InvalidProfile)
    decreases i
  {
    if i > 0 {
      BlankTail(lines, i);
      BlankStep(Start, lines[0]);
      ParseCons(Start, lines[0], lines[1..]);
      assert [lines[0]] + lines[1..] == lines;
      PairBeforeSectionFrom(lines[1..], i - 1);
    } else {
      assert Strip(lines[0]) != "";
    }
  }

  // ---------------------------------------------------------------------
  // Round trip

  /**
   * A parameter whose exported line reads back as itself: the key holds no
   * `=`, neither part holds a line break (`\n`, or the `\r` that reading with
   * universal newlines also breaks at), `strip()` leaves the line alone and
   * it mentions no section header.
   */
  predicate Exportable(e: Entry) {
    var line := e.key + "=" + e.value;
    '=' !in e.key && '\n' !in e.key && '\n' !in e.value
    && '\r' !in e.key && '\r' !in e.value
    && Strip(line) == line
    && !Contains(line, "[General]") && !Contains(line, "[Custom]")
  }

  predicate ExportableDict(d: Dict) {
    forall i :: 0 <= i < |d| ==> Exportable(d[i])
  }

  lemma ExportableTail(d: Dict)
    requires ExportableDict(d) && d != []
    ensures Exportable(d[0]) && ExportableDict(d[1..])
  {
    forall i | 0 <= i < |d[1..]| ensures Exportable(d[1..][i]) {
      assert d[1..][i] == d[i + 1];
    }
  }

  lemma StepEntry(st: ParseState, s: Section, e: Entry)
    requires st.section == Some(s) && Exportable(e)
    ensures Step(st, EntryLine(e)) == Ok(st.(params := st.params.With(s, Put(st.params.Of(s), e.key, e.value))))
  {
    var line := e.key + "=" + e.value;
    assert EntryLine(e) == line + "\n";
    StripNewline(line);
    assert line == e.key + ['='] + e.value;
    SplitOnceAt(e.key, '=', e.value);
  }

  lemma NotFirstKey(a: Dict, d: Dict)
    requires DistinctKeys(a + d) && d != []
    ensures d[0].key !in Keys(a)
  {
    KeysAppend(a, d);
    KeyAt(d, 0);
    var ks := Keys(a + d);
    assert ks[|a|] == d[0].key;
    forall i | 0 <= i < |Keys(a)| ensures Keys(a)[i] != d[0].key {
      assert ks[i] == Keys(a)[i];
    }
  }

  lemma WithOf(p: ProfileParams, s: Section, d: Dict, d': Dict)
    ensures p.With(s, d).Of(s) == d
    ensures p.With(s, d).With(s, d') == p.With(s, d')
  {
  }

  lemma MoveFirst(a: Dict, d: Dict)
    requires d != []
    ensures a + [d[0]] + d[1..] == a + d
  {
    assert d == [d[0]] + d[1..];
  }

  /** The parser consumes its first line with `Step`. */
  lemma ParseCons(st: ParseState, line: string, rest: seq<string>)
    ensures Step(st, line).Err? ==> ParseFrom(st, [line] + rest) == Err(Step(st, line).error)
    ensures Step(st, line).Ok? ==> ParseFrom(st, [line] + rest) == ParseFrom(Step(st, line).value, rest)
  {
    assert ([line] + rest)[0] == line;
    assert ([line] + rest)[1..] == rest;
  }

  /** The parser, partway through `lines`, consumes line `i` with `Step`. */
  lemma ParseAt(st: ParseState, lines: seq<string>, i: nat)
    requires i < |lines|
    ensures Step(st, lines[i]).Err? ==> ParseFrom(st, lines[i..]) == Err(Step(st, lines[i]).error)
    ensures Step(st, lines[i]).Ok? ==> ParseFrom(st, lines[i..]) == ParseFrom(Step(st, lines[i]).value, lines[i + 1..])
  {
    assert lines[i..] == [lines[i]] + lines[i + 1..];
    ParseCons(st, lines[i], lines[i + 1..]);
  }

  /** Parsing from the first line is parsing all lines; past the last, nothing is left. */
  lemma ParseEnds(st: ParseState, lines: seq<string>)
    ensures ParseFrom(st, lines[0..]) == ParseFrom(st, lines)
    ensures ParseFrom(st, lines[|lines|..]) == Ok(st)
  {
    assert lines[0..] == lines;
    assert lines[|lines|..] == [];
  }

  /** The exported lines of a section's entries parse back into exactly those entries. */
  lemma {:induction false} ParseEntries(st: ParseState, s: Section, d: Dict, rest: seq<string>)
    requires st.section == Some(s)
    requires ExportableDict(d)
    requires DistinctKeys(st.params.Of(s) + d)
    ensures ParseFrom(st, EntryLines(d) + rest)
         == ParseFrom(st.(params := st.params.With(s, st.params.Of(s) + d)), rest)
    decreases |d|
  {
    var prev := st.params.Of(s);
    if d == [] {
      assert EntryLines(d) + rest == rest;
      assert prev + d == prev;
      assert st.params.With(s, prev) == st.params;
    } else {
      var e := d[0];
      var later := EntryLines(d[1..]) + rest;
      assert EntryLines(d) + rest == [EntryLine(e)] + later;
      ParseCons(st, EntryLine(e), later);
      ExportableTail(d);
      StepEntry(st, s, e);
      NotFirstKey(prev, d);
      PutNew(prev, e.key, e.value);
      var next := st.(params := st.params.With(s, prev + [e]));
      assert ParseFrom(st, EntryLines(d) + rest) == ParseFrom(next, later);
      WithOf(st.params, s, prev + [e], prev + d);
      MoveFirst(prev, d);
      ParseEntries(next, s, d[1..], rest);
    }
  }

  /** The header lines `export` writes open their sections. */
  lemma GeneralHeaderStep(st: ParseState)
    ensures Step(st, "[General]\n") == Ok(st.(section := Some(General)))
  {
    StripLine("[General]");
    assert "[General]" + "\n" == "[General]\n";
    assert StartsWith("[General]", "[General]");
  }

  lemma CustomHeaderStep(st: ParseState)
    ensures Step(st, "[Custom]\n") == Ok(st.(section := Some(Custom)))
  {
    StripLine("[Custom]");
    assert "[Custom]" + "\n" == "[Custom]\n";
    ContainsTooLong("[Custom]", "[General]");
    assert StartsWith("[Custom]", "[Custom]");
  }

  lemma EmptyLineStep(st: ParseState)
    ensures Step(st, "\n") == Ok(st)
  {
    assert Strip("\n") == "";
  }

  lemma EmptyEnds<T>(s: seq<T>)
    ensures [] + s == s && s + [] == s
  {
  }

  /** The rest of the exported lines, from the blank separator line on. */
  function CustomLines(p: ProfileParams): seq<string> {
    ["\n", "[Custom]\n"] + EntryLines(p.custom)
  }

  lemma ExportLinesSplit(p: ProfileParams)
    ensures ExportLines(p) == ["[General]\n"] + (EntryLines(p.general) + CustomLines(p))
  {
  }

  lemma StartHeader(rest: seq<string>)
    ensures ParseFrom(Start, ["[General]\n"] + rest)
         == ParseFrom(ParseState(Some(General), ProfileParams([], [])), rest)
  {
    GeneralHeaderStep(Start);
    ParseCons(Start, "[General]\n", rest);
  }

  lemma GeneralEntries(p: ProfileParams, rest: seq<string>)
    requires DistinctKeys(p.general) && ExportableDict(p.general)
    ensures ParseFrom(ParseState(Some(General), ProfileParams([], [])), EntryLines(p.general) + rest)
         == ParseFrom(ParseState(Some(General), ProfileParams(p.general, [])), rest)
  {
    EmptyEnds(p.general);
    ParseEntries(ParseState(Some(General), ProfileParams([], [])), General, p.general, rest);
  }

  /** The `[General]` half of the exported lines fills the general dict. */
  lemma ParseExportedGeneral(p: ProfileParams)
    requires DistinctKeys(p.general) && ExportableDict(p.general)
    ensures ParseFrom(Start, ExportLines(p))
         == ParseFrom(ParseState(Some(General), ProfileParams(p.general, [])), CustomLines(p))
  {
    var g := EntryLines(p.general);
    ExportLinesSplit(p);
    StartHeader(g + CustomLines(p));
    GeneralEntries(p, CustomLines(p));
  }

  lemma SeparatorAndHeader(st: ParseState, rest: seq<string>)
    ensures ParseFrom(st, ["\n", "[Custom]\n"] + rest) == ParseFrom(st.(section := Some(Custom)), rest)
  {
    assert ["\n", "[Custom]\n"] + rest == ["\n"] + (["[Custom]\n"] + rest);
    EmptyLineStep(st);
    ParseCons(st, "\n", ["[Custom]\n"] + rest);
    CustomHeaderStep(st);
    ParseCons(st, "[Custom]\n", rest);
  }

  lemma CustomEntries(p: ProfileParams)
    requires DistinctKeys(p.custom) && ExportableDict(p.custom)
    ensures ParseFrom(ParseState(Some(Custom), ProfileParams(p.general, [])), EntryLines(p.custom))
         == Ok(ParseState(Some(Custom), p))
  {
    var st3 := ParseState(Some(Custom), ProfileParams(p.general, []));
    EmptyEnds(p.custom);
    EmptyEnds(EntryLines(p.custom));
    ParseEntries(st3, Custom, p.custom, []);
  }

  /** The `[Custom]` half of the exported lines fills the custom dict. */
  lemma ParseExportedCustom(p: ProfileParams)
    requires DistinctKeys(p.custom) && ExportableDict(p.custom)
    ensures ParseFrom(ParseState(Some(General), ProfileParams(p.general, [])), CustomLines(p))
         == Ok(ParseState(Some(Custom), p))
  {
    SeparatorAndHeader(ParseState(Some(General), ProfileParams(p.general, [])), EntryLines(p.custom));
    CustomEntries(p);
  }

  /** Parsing the exported lines restores both dicts, in order. */
  lemma ParseExportedLines(p: ProfileParams)
    requires p.Valid() && ExportableDict(p.general) && ExportableDict(p.custom)
    ensures ParseLines(ExportLines(p)) == Ok(p)
  {
    ParseExportedGeneral(p);
    ParseExportedCustom(p);
  }

  /**
   * Round trip: the file `export` writes into any directory parses back
   * into the same profile, provided its file name encodes its identity and
   * every parameter is exportable.
   */
  lemma ExportParseRoundTrip(p: Profile, dir: string)
    requires ParseProfilePath(p.info.fileName) == Ok(p.info)
    requires p.params.Valid() && ExportableDict(p.params.general) && ExportableDict(p.params.custom)
    ensures '\r' !in ExportText(p.params)
    ensures ParseProfileSpec(JoinPath(dir, p.info.fileName), SplitLines(ExportText(p.params))) == Ok(p)
  {
    ExportWithoutReturn(p.params);
    JoinPathName(dir, p.info.fileName);
    assert NoNewlines(p.params.general) && NoNewlines(p.params.custom);
    ExportLinesReadBack(p.params);
    ParseExportedLines(p.params);
  }
}
