/**
 * The `FlashforgeProfile` object: its identity, fixed when the profile is
 * parsed, and its two parameter dicts, which `SetParam` updates in place.
 * `ParseProfile` reads a profile file line by line into a fresh object.
 */
module Profiles {
  import opened Wrappers
  import opened PyStr
  import opened OrderedDict
  import opened ProfileFormat

  class FlashforgeProfile {
    const machineId: string
    const nozzleDiameter: string
    const name: string
    const fileName: string
    var generalParams: Dict
    var customParams: Dict

    /** What the file name says about this profile. */
    function Info(): PathInfo {
      PathInfo(machineId, nozzleDiameter, name, fileName)
    }

    /** The two parameter dicts as they stand. */
    function Params(): ProfileParams
      reads this
    {
      ProfileParams(generalParams, customParams)
    }

    function Data(): Profile
      reads this
    {
      Profile(Info(), Params())
    }

    /** Each dict holds a key at most once, as a Python dict does. */
    predicate Valid()
      reads this
    {
      Params().Valid()
    }

    constructor (info: PathInfo, params: ProfileParams)
      ensures Info() == info && Params() == params
    {
      machineId := info.machineId;
      nozzleDiameter := info.nozzleDiameter;
      name := info.name;
      fileName := info.fileName;
      generalParams := params.general;
      customParams := params.custom;
    }

    /**
     * `get_param`: the `[General]` value of `k` when there is one, otherwise
     * the `[Custom]` value, otherwise InvalidParameter.
     */
    method GetParam(k: string) returns (r: Result<string, Error>)
      ensures r == Params().Get(k)
      ensures r.Ok? <==> k in Keys(generalParams) || k in Keys(customParams)
      ensures k in Keys(generalParams) ==> r == Ok(Lookup(generalParams, k).value)
      ensures k !in Keys(generalParams) && k in Keys(customParams) ==> r == Ok(Lookup(customParams, k).value)
    {
      var g := Lookup(generalParams, k);
      if g.Some? {
        return Ok(g.value);
      }
      var c := Lookup(customParams, k);
      if c.Some? {
        return Ok(c.value);
      }
      return Err(InvalidParameter);
    }

    /**
     * `set_param`: overwrites `k` where it stands, in `[General]` when it is
     * there and in `[Custom]` otherwise. A key in neither dict fails with
     * InvalidParameter and leaves the profile as it was.
     */
    method SetParam(k: string, v: string) returns (r: Outcome<Error>)
      modifies this
      ensures r == Pass <==> old(Params()).Defines(k)
      ensures r.Pass? ==> Params() == old(Params()).Assign(k, v).value
      ensures r.Fail? ==> r.error == InvalidParameter && Params() == old(Params())
      ensures old(Valid()) ==> Valid()
    {
      if k in Keys(generalParams) {
        PutDistinctIf(generalParams, k, v);
        generalParams := Put(generalParams, k, v);
        return Pass;
      }
      if k in Keys(customParams) {
        PutDistinctIf(customParams, k, v);
        customParams := Put(customParams, k, v);
        return Pass;
      }
      return Fail(InvalidParameter);
    }

    /**
     * `export`: the file it writes, `path` itself or `path` joined with the
     * file name, and the text it writes there, line by line.
     */
    method Export(path: string, useFileName: bool) returns (target: string, text: string)
      requires Valid()
      ensures target == if useFileName then JoinPath(path, fileName) else path
      ensures text == ExportText(Params())
    {
      target := if useFileName then JoinPath(path, fileName) else path;
      var lines: seq<string> := ["[General]\n"];
      for i := 0 to |generalParams|
        invariant lines == ["[General]\n"] + EntryLines(generalParams[..i])
      {
        var e := generalParams[i];
        LookupAt(generalParams, i);
        var line := e.key + "=" + Lookup(generalParams, e.key).value + "\n";
        EntryLinesPrefix(generalParams, i);
        lines := lines + [line];
      }
      lines := lines + ["\n"] + ["[Custom]\n"];
      var head := lines;
      for i := 0 to |customParams|
        invariant lines == head + EntryLines(customParams[..i])
      {
        var e := customParams[i];
        LookupAt(customParams, i);
        var line := e.key + "=" + Lookup(customParams, e.key).value + "\n";
        EntryLinesPrefix(customParams, i);
        lines := lines + [line];
      }
      assert generalParams[..|generalParams|] == generalParams;
      assert customParams[..|customParams|] == customParams;
      assert lines == ExportLines(Params());
      text := Join(lines);
    }
  }

  /** Distinctness survives an assignment; a helper for `SetParam`'s frame reasoning. */
  lemma PutDistinctIf(d: Dict, k: string, v: string)
    ensures DistinctKeys(d) ==> DistinctKeys(Put(d, k, v))
  {
    if DistinctKeys(d) {
      PutDistinct(d, k, v);
    }
  }

  /** Looking up the key of the `i`-th entry of a dict gives that entry's value. */
  lemma LookupAt(d: Dict, i: nat)
    requires DistinctKeys(d) && i < |d|
    ensures Lookup(d, d[i].key) == Some(d[i].value)
  {
    assert d[i] == Entry(d[i].key, d[i].value);
    LookupEntry(d, d[i].key, d[i].value);
  }

  /** One more entry of a dict adds one more exported line. */
  lemma EntryLinesPrefix(d: Dict, i: nat)
    requires i < |d|
    ensures EntryLines(d[..i + 1]) == EntryLines(d[..i]) + [EntryLine(d[i])]
  {
    assert d[..i + 1] == d[..i] + [d[i]];
    EntryLinesAppend(d[..i], d[i]);
  }

  /**
   * One pass of the line loop of `parse_profile`, over the section seen so
   * far and the two dicts built so far: the line is stripped and either
   * skipped, taken as a section header, or split at its first `=` and
   * stored in the current section's dict.
   */
  method ParseLine(section: Option<Section>, general: Dict, custom: Dict, raw: string)
    returns (r: Result<ParseState, Error>)
    ensures r == Step(ParseState(section, ProfileParams(general, custom)), raw)
    ensures r.Ok? && DistinctKeys(general) && DistinctKeys(custom) ==> r.value.params.Valid()
  {
    ghost var st := ParseState(section, ProfileParams(general, custom));
    var line := Strip(raw);
    if line == "" {
      BlankStep(st, raw);
      return Ok(ParseState(section, ProfileParams(general, custom)));
    }
    if Contains(line, "[General]") {
      GeneralLineStep(st, raw);
      return Ok(ParseState(Some(General), ProfileParams(general, custom)));
    }
    if Contains(line, "[Custom]") {
      CustomLineStep(st, raw);
      return Ok(ParseState(Some(Custom), ProfileParams(general, custom)));
    }
    var pair := SplitOnce(line, '=');
    if pair.None? {
      LineWithoutEqualsFails(st, raw);
      return Err(MalformedLine);
    }
    var (k, v) := pair.value;
    PairLineStep(st, raw, k, v);
    if section.None? {
      return Err(InvalidProfile);
    }
    var g, c := general, custom;
    if section == Some(General) {
      PutDistinctIf(g, k, v);
      g := Put(g, k, v);
    } else {
      PutDistinctIf(c, k, v);
      c := Put(c, k, v);
    }
    return Ok(ParseState(section, ProfileParams(g, c)));
  }

  /**
   * `parse_profile`: the file name is checked before any line is read; the
   * lines are then consumed in order until one fails.
   */
  method ParseProfile(path: string, lines: seq<string>) returns (r: Result<FlashforgeProfile, Error>)
    ensures r.Err? <==> ParseProfileSpec(path, lines).Err?
    ensures r.Err? ==> r.error == ParseProfileSpec(path, lines).error
    ensures r.Ok? ==> fresh(r.value) && r.value.Data() == ParseProfileSpec(path, lines).value
    ensures r.Ok? ==> r.value.Valid()
  {
    var info := ParseProfilePath(path);
    if info.Err? {
      return Err(info.error);
    }
    var general: Dict := [];
    var custom: Dict := [];
    var section: Option<Section> := None;
    ParseEnds(Start, lines);
    for i := 0 to |lines|
      invariant ParseFrom(ParseState(section, ProfileParams(general, custom)), lines[i..]) == ParseFrom(Start, lines)
      invariant DistinctKeys(general) && DistinctKeys(custom)
    {
      ParseAt(ParseState(section, ProfileParams(general, custom)), lines, i);
      var next := ParseLine(section, general, custom, lines[i]);
      if next.Err? {
        SpecOfFailedLines(path, lines, next.error);
        return Err(next.error);
      }
      section, general, custom := next.value.section, next.value.params.general, next.value.params.custom;
    }
    ParseEnds(ParseState(section, ProfileParams(general, custom)), lines);
    SpecOfParsedLines(path, lines, ParseState(section, ProfileParams(general, custom)));
    var profile := new FlashforgeProfile(info.value, ProfileParams(general, custom));
    return Ok(profile);
  }
}
