/**
 * The command-line side of the tool: collecting the profiles of a
 * directory listing, narrowing them by machine id, nozzle diameter and
 * file-name substring, and the `set-param` command, which copies one
 * parameter from an input profile to every selected profile that has it.
 */
module Cli {
  import opened Wrappers
  import opened PyStr
  import opened OrderedDict
  import opened ProfileFormat
  import opened Profiles

  /** The ways `set-param` exits early, each with its message on stderr. */
  datatype CliError = NoProfilesFound | InputProfileNotFound | ParameterNotFound(fileName: string)

  /** One entry of a directory listing: its name, whether it is a regular file, and its lines. */
  datatype SourceFile = SourceFile(name: string, isFile: bool, lines: seq<string>)

  /** A file the command writes, and the text it writes there. */
  datatype Written = Written(path: string, text: string)

  // ---------------------------------------------------------------------
  // Sequences

  /** `a` is `b` with some elements left out, the rest in their order. */
  predicate IsSubsequence<T(==)>(a: seq<T>, b: seq<T>)
    decreases |b|
  {
    if b == [] then a == []
    else (a != [] && a[0] == b[0] && IsSubsequence(a[1..], b[1..])) || IsSubsequence(a, b[1..])
  }

  /** A list comprehension `[x for x in s if keep(x)]`. */
  function Filter<T>(s: seq<T>, keep: T -> bool): (r: seq<T>)
    ensures |r| <= |s|
  {
    if s == [] then []
    else if keep(s[0]) then [s[0]] + Filter(s[1..], keep)
    else Filter(s[1..], keep)
  }

  /** The comprehension keeps exactly the elements that pass `keep`. */
  lemma {:induction false} FilterMembers<T>(s: seq<T>, keep: T -> bool)
    ensures forall i :: 0 <= i < |Filter(s, keep)| ==> Filter(s, keep)[i] in s && keep(Filter(s, keep)[i])
    ensures forall i :: 0 <= i < |s| && keep(s[i]) ==> s[i] in Filter(s, keep)
    decreases |s|
  {
    if s != [] {
      FilterMembers(s[1..], keep);
      var r := Filter(s, keep);
      var t := Filter(s[1..], keep);
      if keep(s[0]) {
        assert r == [s[0]] + t;
        assert forall i :: 1 <= i < |r| ==> r[i] == t[i - 1];
      }
      assert forall i :: 1 <= i < |s| ==> s[i] == s[1..][i - 1];
    }
  }

  lemma {:induction false} FilterSubsequence<T>(s: seq<T>, keep: T -> bool)
    ensures IsSubsequence(Filter(s, keep), s)
    decreases |s|
  {
    if s != [] {
      FilterSubsequence(s[1..], keep);
      if keep(s[0]) {
        assert ([s[0]] + Filter(s[1..], keep))[1..] == Filter(s[1..], keep);
      }
    }
  }

  /** Two filters in a row keep what passes both. */
  lemma {:induction false} FilterFilter<T>(s: seq<T>, p: T -> bool, q: T -> bool, both: T -> bool)
    requires forall x :: both(x) == (p(x) && q(x))
    ensures Filter(Filter(s, p), q) == Filter(s, both)
    decreases |s|
  {
    if s != [] {
      FilterFilter(s[1..], p, q, both);
      if p(s[0]) {
        assert Filter(s, p) == [s[0]] + Filter(s[1..], p);
        assert Filter(s, p)[1..] == Filter(s[1..], p);
      }
    }
  }

  /** A filter every element passes keeps the list as it is. */
  lemma {:induction false} FilterKeepsAll<T>(s: seq<T>, keep: T -> bool)
    requires forall x :: x in s ==> keep(x)
    ensures Filter(s, keep) == s
    decreases |s|
  {
    if s != [] {
      FilterKeepsAll(s[1..], keep);
      assert s == [s[0]] + s[1..];
    }
  }

  // ---------------------------------------------------------------------
  // Filtering (get_profiles)

  /** Whether a profile passes the three filters; an empty filter passes everything. */
  predicate Selected(info: PathInfo, machineId: string, nozzle: string, search: string) {
    (machineId == "" || info.machineId == machineId)
    && (nozzle == "" || info.nozzleDiameter == nozzle)
    && (search == "" || Contains(info.fileName, search))
  }

  /** The selection test on whatever `info` reads the file-name data from. */
  function SelectedBy<T>(info: T -> PathInfo, machineId: string, nozzle: string, search: string): T -> bool {
    p => Selected(info(p), machineId, nozzle, search)
  }

  /** The file-name data of a profile object, and of profile data. */
  function InfoOf(p: FlashforgeProfile): PathInfo {
    p.Info()
  }

  function DataInfo(d: Profile): PathInfo {
    d.info
  }

  /**
   * The filtering of `get_profiles`, applied to profile objects or to their
   * data alike through `info`: machine id, then nozzle diameter, each by
   * equality, then the search text as a plain substring of the file name.
   */
  function FilterProfiles<T>(ps: seq<T>, info: T -> PathInfo, machineId: string, nozzle: string, search: string): seq<T> {
    var byMachine := if machineId != "" then Filter(ps, p => info(p).machineId == machineId) else ps;
    var byNozzle := if nozzle != "" then Filter(byMachine, p => info(p).nozzleDiameter == nozzle) else byMachine;
    if search != "" then Filter(byNozzle, p => Contains(info(p).fileName, search)) else byNozzle
  }

  /** A filter stage that applies `keep` only when `on`. */
  lemma FilterStage<T>(s: seq<T>, on: bool, keep: T -> bool, pass: T -> bool)
    requires forall x :: pass(x) == (!on || keep(x))
    ensures (if on then Filter(s, keep) else s) == Filter(s, pass)
  {
    if !on {
      FilterKeepsAll(s, pass);
    } else {
      FilterMembers(s, keep);
      FilterKeepsAll(Filter(s, keep), pass);
      FilterFilter(s, keep, pass, keep);
    }
  }

  /**
   * The three filters keep exactly the selected profiles, in their order:
   * the same list as one comprehension over `Selected`.
   */
  lemma FilterProfilesSelects<T>(ps: seq<T>, info: T -> PathInfo, machineId: string, nozzle: string, search: string)
    ensures FilterProfiles(ps, info, machineId, nozzle, search) == Filter(ps, SelectedBy(info, machineId, nozzle, search))
  {
    var m := p => info(p).machineId == machineId;
    var n := p => info(p).nozzleDiameter == nozzle;
    var s := p => Contains(info(p).fileName, search);
    var pm := p => machineId == "" || info(p).machineId == machineId;
    var pn := p => nozzle == "" || info(p).nozzleDiameter == nozzle;
    var psearch := p => search == "" || Contains(info(p).fileName, search);
    var mn := p => pm(p) && pn(p);
    var all := SelectedBy(info, machineId, nozzle, search);
    FilterStage(ps, machineId != "", m, pm);
    var a := Filter(ps, pm);
    FilterStage(a, nozzle != "", n, pn);
    FilterFilter(ps, pm, pn, mn);
    var b := Filter(ps, mn);
    FilterStage(b, search != "", s, psearch);
    FilterFilter(ps, mn, psearch, all);
  }

  /**
   * Each filter keeps exactly what it tests for: a kept profile is in the
   * input and passes all three tests, and every input profile that passes
   * them is kept.
   */
  lemma FilterProfilesKeeps<T>(ps: seq<T>, info: T -> PathInfo, machineId: string, nozzle: string, search: string)
    ensures forall i :: 0 <= i < |FilterProfiles(ps, info, machineId, nozzle, search)| ==>
      var p := FilterProfiles(ps, info, machineId, nozzle, search)[i];
      p in ps && (machineId == "" || info(p).machineId == machineId)
      && (nozzle == "" || info(p).nozzleDiameter == nozzle)
      && (search == "" || Contains(info(p).fileName, search))
    ensures forall i :: 0 <= i < |ps| && Selected(info(ps[i]), machineId, nozzle, search) ==>
      ps[i] in FilterProfiles(ps, info, machineId, nozzle, search)
  {
    FilterProfilesSelects(ps, info, machineId, nozzle, search);
    FilterMembers(ps, SelectedBy(info, machineId, nozzle, search));
  }

  /** The filtered list is an order-preserving subsequence of the input. */
  lemma FilterProfilesSubsequence<T>(ps: seq<T>, info: T -> PathInfo, machineId: string, nozzle: string, search: string)
    ensures IsSubsequence(FilterProfiles(ps, info, machineId, nozzle, search), ps)
  {
    FilterProfilesSelects(ps, info, machineId, nozzle, search);
    FilterSubsequence(ps, SelectedBy(info, machineId, nozzle, search));
  }

  /** With no filter given, every profile is kept. */
  lemma FilterProfilesNoFilter<T>(ps: seq<T>, info: T -> PathInfo)
    ensures FilterProfiles(ps, info, "", "", "") == ps
  {
  }

  // ---------------------------------------------------------------------
  // Collecting (get_profiles)

  /** What the collection loop makes of one listing entry: nothing for a non-file, else its parse. */
  function Attempt(dir: string, f: SourceFile): Option<Result<Profile, Error>> {
    if f.isFile then Some(ParseProfileSpec(JoinPath(dir, f.name), f.lines)) else None
  }

  /** What the collection loop makes of each listing entry, in listing order. */
  function Attempts(dir: string, files: seq<SourceFile>): seq<Option<Result<Profile, Error>>> {
    seq(|files|, i requires 0 <= i < |files| => Attempt(dir, files[i]))
  }

  /** The failures `get_profiles` reports and skips; any other failure propagates. */
  predicate Skippable(e: Error) {
    e == InvalidProfile || e == InvalidProfilePath
  }

  /** A parse failure that `get_profiles` lets escape. */
  predicate Fatal(a: Option<Result<Profile, Error>>) {
    a.Some? && a.value.Err? && !Skippable(a.value.error)
  }

  /**
   * The profiles `get_profiles` collects, in listing order, from what each
   * entry of the listing gave: non-files and skippable failures are
   * dropped, and the first other failure ends the collection.
   */
  function Collect(attempts: seq<Option<Result<Profile, Error>>>): (r: Result<seq<Profile>, Error>)
    ensures r.Err? ==> !Skippable(r.error)
    decreases |attempts|
  {
    if attempts == [] then Ok([])
    else
      match Collect(attempts[..|attempts| - 1])
      case Err(e) => Err(e)
      case Ok(ps) =>
        match attempts[|attempts| - 1]
        case None => Ok(ps)
        case Some(Err(e)) => if Skippable(e) then Ok(ps) else Err(e)
        case Some(Ok(p)) => Ok(ps + [p])
  }

  /** `Collect` over one more entry. */
  lemma CollectNext(s: seq<Option<Result<Profile, Error>>>, i: nat)
    requires i < |s|
    ensures Collect(s[..i]).Err? ==> Collect(s[..i + 1]) == Collect(s[..i])
    ensures Collect(s[..i]).Ok? && !Fatal(s[i]) && !(s[i].Some? && s[i].value.Ok?) ==> Collect(s[..i + 1]) == Collect(s[..i])
    ensures Collect(s[..i]).Ok? && Fatal(s[i]) ==> Collect(s[..i + 1]) == Err(s[i].value.error)
    ensures Collect(s[..i]).Ok? && s[i].Some? && s[i].value.Ok? ==>
      Collect(s[..i + 1]) == Ok(Collect(s[..i]).value + [s[i].value.value])
  {
    assert s[..i + 1][..i] == s[..i];
  }

  /** Once the collection has failed, the rest of the listing is not looked at. */
  lemma {:induction false} CollectStops(s: seq<Option<Result<Profile, Error>>>, i: nat)
    requires i <= |s| && Collect(s[..i]).Err?
    ensures Collect(s) == Collect(s[..i])
    decreases |s| - i
  {
    if i < |s| {
      CollectNext(s, i);
      CollectStops(s, i + 1);
    } else {
      assert s[..i] == s;
    }
  }

  /** Collection fails exactly when some entry fails fatally, and then with the first such failure. */
  lemma {:induction false} CollectFails(s: seq<Option<Result<Profile, Error>>>)
    ensures Collect(s).Err? <==> exists i :: 0 <= i < |s| && Fatal(s[i])
    ensures Collect(s).Err? ==> exists i :: 0 <= i < |s| && Fatal(s[i]) && s[i].value.error == Collect(s).error
                                 && forall j :: 0 <= j < i ==> !Fatal(s[j])
    decreases |s|
  {
    if s != [] {
      var n := |s| - 1;
      var init := s[..n];
      CollectFails(init);
      assert forall j :: 0 <= j < n ==> init[j] == s[j];
      if Collect(init).Ok? && Fatal(s[n]) {
        assert forall j :: 0 <= j < n ==> !Fatal(s[j]);
      }
    }
  }

  /**
   * A successful collection holds every profile that parsed, and nothing
   * else.
   */
  lemma {:induction false} CollectMembers(s: seq<Option<Result<Profile, Error>>>)
    requires Collect(s).Ok?
    ensures forall i :: 0 <= i < |s| && s[i].Some? && s[i].value.Ok? ==> s[i].value.value in Collect(s).value
    ensures forall p :: p in Collect(s).value ==> exists i :: 0 <= i < |s| && s[i] == Some(Ok(p))
    decreases |s|
  {
    if s != [] {
      var n := |s| - 1;
      var init := s[..n];
      CollectMembers(init);
      assert forall j :: 0 <= j < n ==> init[j] == s[j];
      forall p | p in Collect(s).value
        ensures exists i :: 0 <= i < |s| && s[i] == Some(Ok(p))
      {
        if p !in Collect(init).value {
          assert s[n] == Some(Ok(p));
        }
      }
    }
  }

  /** The only parse failure that escapes the collection is a line without `=`. */
  lemma FatalIsMalformedLine(dir: string, f: SourceFile)
    requires Fatal(Attempt(dir, f))
    ensures Attempt(dir, f).value.error == MalformedLine
  {
  }

  /**
   * Collecting a listing fails exactly when some regular file whose name
   * parses reaches, as its first failing line, a line without `=` (one that
   * is neither blank nor a header), and then it fails with MalformedLine.
   */
  lemma CollectListing(dir: string, files: seq<SourceFile>)
    ensures Collect(Attempts(dir, files)).Err? <==> exists i :: 0 <= i < |files| && Fatal(Attempt(dir, files[i]))
    ensures Collect(Attempts(dir, files)).Err? ==> Collect(Attempts(dir, files)).error == MalformedLine
  {
    var s := Attempts(dir, files);
    assert |s| == |files| && forall i :: 0 <= i < |s| ==> s[i] == Attempt(dir, files[i]);
    CollectFails(s);
    if Collect(s).Err? {
      var i :| 0 <= i < |s| && Fatal(s[i]) && s[i].value.error == Collect(s).error;
      FatalIsMalformedLine(dir, files[i]);
    }
  }

  /** Every profile of the list has distinct keys in each dict. */
  predicate AllValid(ps: seq<FlashforgeProfile>)
    reads ps
  {
    forall p :: p in ps ==> p.Valid()
  }

  /** The data of a list of profile objects. */
  function DataOf(ps: seq<FlashforgeProfile>): (r: seq<Profile>)
    reads ps
    ensures |r| == |ps|
    ensures forall i :: 0 <= i < |ps| ==> r[i] == ps[i].Data()
  {
    if ps == [] then [] else [ps[0].Data()] + DataOf(ps[1..])
  }

  /** Selecting objects by their file-name data is selecting their data. */
  lemma {:induction false} DataOfFilter(ps: seq<FlashforgeProfile>, machineId: string, nozzle: string, search: string)
    ensures DataOf(Filter(ps, SelectedBy<FlashforgeProfile>(InfoOf, machineId, nozzle, search)))
         == Filter(DataOf(ps), SelectedBy(DataInfo, machineId, nozzle, search))
    decreases |ps|
  {
    if ps != [] {
      var keep := SelectedBy<FlashforgeProfile>(InfoOf, machineId, nozzle, search);
      var keepData := SelectedBy(DataInfo, machineId, nozzle, search);
      var f := Filter(ps, keep);
      var d := DataOf(ps);
      DataOfFilter(ps[1..], machineId, nozzle, search);
      assert d[1..] == DataOf(ps[1..]);
      assert DataInfo(d[0]) == InfoOf(ps[0]);
      assert keepData(d[0]) == Selected(InfoOf(ps[0]), machineId, nozzle, search) == keep(ps[0]);
      if keep(ps[0]) {
        assert f == [ps[0]] + Filter(ps[1..], keep);
        assert f[1..] == Filter(ps[1..], keep);
        assert DataOf(f) == [ps[0].Data()] + DataOf(f[1..]);
        assert Filter(d, keepData) == [d[0]] + Filter(d[1..], keepData);
      } else {
        assert Filter(d, keepData) == Filter(d[1..], keepData);
      }
    }
  }

  /** The filtered objects carry exactly the selected data, in order. */
  lemma DataOfSelect(ps: seq<FlashforgeProfile>, machineId: string, nozzle: string, search: string)
    ensures DataOf(FilterProfiles<FlashforgeProfile>(ps, InfoOf, machineId, nozzle, search))
         == Filter(DataOf(ps), SelectedBy(DataInfo, machineId, nozzle, search))
  {
    FilterProfilesSelects<FlashforgeProfile>(ps, InfoOf, machineId, nozzle, search);
    DataOfFilter(ps, machineId, nozzle, search);
  }

  /**
   * The collection loop of `get_profiles`: every regular file of the listing
   * is parsed; InvalidProfile and InvalidProfilePath are reported and
   * skipped, any other failure escapes.
   */
  method CollectProfiles(dir: string, files: seq<SourceFile>) returns (r: Result<seq<FlashforgeProfile>, Error>)
    ensures r.Err? <==> Collect(Attempts(dir, files)).Err?
    ensures r.Err? ==> r.error == Collect(Attempts(dir, files)).error
    ensures r.Ok? ==> DataOf(r.value) == Collect(Attempts(dir, files)).value
    ensures r.Ok? ==> AllValid(r.value)
  {
    ghost var attempts := Attempts(dir, files);
    assert |attempts| == |files|;
    var profiles: seq<FlashforgeProfile> := [];
    for i := 0 to |files|
      invariant Collect(attempts[..i]) == Ok(DataOf(profiles))
      invariant AllValid(profiles)
    {
      CollectNext(attempts, i);
      var file := files[i];
      var filePath := JoinPath(dir, file.name);
      if file.isFile {
        ghost var datas := DataOf(profiles);
        var parsed := ParseProfile(filePath, file.lines);
        assert DataOf(profiles) == datas && AllValid(profiles);
        assert attempts[i] == Some(ParseProfileSpec(filePath, file.lines));
        if parsed.Ok? {
          DataOfAppend(profiles, parsed.value);
          AllValidAppend(profiles, parsed.value);
          var grown := profiles + [parsed.value];
          assert Collect(attempts[..i + 1]) == Ok(DataOf(grown));
          profiles := grown;
        } else if !(parsed.error == InvalidProfile || parsed.error == InvalidProfilePath) {
          CollectStops(attempts, i + 1);
          return Err(parsed.error);
        }
      }
    }
    assert attempts[..|files|] == attempts;
    return Ok(profiles);
  }

  lemma AllValidFilter(ps: seq<FlashforgeProfile>, keep: FlashforgeProfile -> bool)
    requires AllValid(ps)
    ensures AllValid(Filter(ps, keep))
  {
    FilterMembers(ps, keep);
  }

  lemma AllValidAppend(ps: seq<FlashforgeProfile>, p: FlashforgeProfile)
    requires AllValid(ps) && p.Valid()
    ensures AllValid(ps + [p])
  {
  }

  lemma DataOfAppend(ps: seq<FlashforgeProfile>, p: FlashforgeProfile)
    ensures DataOf(ps + [p]) == DataOf(ps) + [p.Data()]
  {
  }

  /**
   * `get_profiles`: the collected profiles of a listing, narrowed by the
   * three filters. A line without `=` escapes when it is the first failing
   * line of a regular file whose name parses.
   */
  method GetProfiles(dir: string, files: seq<SourceFile>, machineId: string, nozzle: string, search: string)
    returns (r: Result<seq<FlashforgeProfile>, Error>)
    ensures r.Err? <==> exists i :: 0 <= i < |files| && Fatal(Attempt(dir, files[i]))
    ensures r.Err? ==> r.error == MalformedLine
    ensures r.Ok? ==> Collect(Attempts(dir, files)).Ok? && DataOf(r.value) == Filter(Collect(Attempts(dir, files)).value, SelectedBy(DataInfo, machineId, nozzle, search))
    ensures r.Ok? ==> AllValid(r.value)
  {
    var all := CollectProfiles(dir, files);
    CollectListing(dir, files);
    if all.Err? {
      return Err(all.error);
    }
    var profiles := FilterProfiles<FlashforgeProfile>(all.value, InfoOf, machineId, nozzle, search);
    DataOfSelect(all.value, machineId, nozzle, search);
    FilterProfilesSelects<FlashforgeProfile>(all.value, InfoOf, machineId, nozzle, search);
    AllValidFilter(all.value, SelectedBy<FlashforgeProfile>(InfoOf, machineId, nozzle, search));
    return Ok(profiles);
  }

  // ---------------------------------------------------------------------
  // set-param

  /** The position of the first profile whose file name contains `name`. */
  function FirstMatch(ps: seq<FlashforgeProfile>, name: string): (r: Option<nat>)
    ensures r.Some? ==> r.value < |ps| && Contains(ps[r.value].fileName, name)
    ensures r.Some? ==> forall j :: 0 <= j < r.value ==> !Contains(ps[j].fileName, name)
    ensures r.None? ==> forall j :: 0 <= j < |ps| ==> !Contains(ps[j].fileName, name)
  {
    if ps == [] then None
    else if Contains(ps[0].fileName, name) then Some(0)
    else match FirstMatch(ps[1..], name)
      case None => None
      case Some(i) => Some(i + 1)
  }

  /** A match with no match before it is the first match. */
  lemma {:induction false} FirstMatchAt(ps: seq<FlashforgeProfile>, name: string, i: nat)
    requires i < |ps| && Contains(ps[i].fileName, name)
    requires forall j :: 0 <= j < i ==> !Contains(ps[j].fileName, name)
    ensures FirstMatch(ps, name) == Some(i)
  {
    if i > 0 {
      FirstMatchAt(ps[1..], name, i - 1);
    }
  }

  /**
   * The search for the input profile in `set_param`: the first profile, in
   * filtered order, whose file name contains the input name.
   */
  method FindInputProfile(ps: seq<FlashforgeProfile>, name: string) returns (r: Result<FlashforgeProfile, CliError>)
    ensures r.Ok? <==> FirstMatch(ps, name).Some?
    ensures r.Ok? ==> r.value == ps[FirstMatch(ps, name).value]
    ensures r.Err? ==> r.error == InputProfileNotFound
  {
    var target: Option<FlashforgeProfile> := None;
    var i := 0;
    while i < |ps|
      invariant 0 <= i <= |ps|
      invariant forall j :: 0 <= j < i ==> !Contains(ps[j].fileName, name)
      invariant target.None?
    {
      if Contains(ps[i].fileName, name) {
        target := Some(ps[i]);
        break;
      }
      i := i + 1;
    }
    if target.None? {
      return Err(InputProfileNotFound);
    }
    FirstMatchAt(ps, name, i);
    return Ok(target.value);
  }

  /** A profile's parameters after `set_param(k, v)`, whether it succeeded or not. */
  function Updated(p: ProfileParams, k: string, v: string): ProfileParams {
    p.Assign(k, v).GetOr(p)
  }

  /**
   * What the bulk update does to one profile: one that defines `k` now
   * holds `v` for it, one that does not is untouched, no key is added or
   * moved, and every other parameter keeps its value.
   */
  lemma UpdatedEffect(p: ProfileParams, k: string, v: string)
    ensures p.Defines(k) ==> Updated(p, k, v).Get(k) == Ok(v)
    ensures !p.Defines(k) ==> Updated(p, k, v) == p
    ensures Keys(Updated(p, k, v).general) == Keys(p.general)
    ensures Keys(Updated(p, k, v).custom) == Keys(p.custom)
    ensures forall other :: other != k ==> Updated(p, k, v).Get(other) == p.Get(other)
  {
    if p.Defines(k) {
      forall other | other != k ensures Updated(p, k, v).Get(other) == p.Get(other) {
        AssignOthers(p, k, v, other);
      }
    }
  }

  /** Updating twice with the same value is updating once. */
  lemma UpdatedTwice(p: ProfileParams, k: string, v: string)
    ensures Updated(Updated(p, k, v), k, v) == Updated(p, k, v)
  {
    if k in Keys(p.general) {
      PutTwice(p.general, k, v);
    } else if k in Keys(p.custom) {
      PutTwice(p.custom, k, v);
    }
  }

  /**
   * The value `set_param` copies, or the reason it stops before changing
   * anything: an empty list, no input profile, or an input profile
   * without the parameter.
   */
  function InputValue(ps: seq<FlashforgeProfile>, name: string, param: string): Result<string, CliError>
    reads ps
  {
    if ps == [] then Err(NoProfilesFound)
    else match FirstMatch(ps, name)
      case None => Err(InputProfileNotFound)
      case Some(i) =>
        match ps[i].Params().Get(param)
        case Err(_) => Err(ParameterNotFound(ps[i].fileName))
        case Ok(v) => Ok(v)
  }

  /** The files written for one profile once the parameter has been copied to it. */
  function WrittenFor(d: Profile, param: string, v: string, flashforgePath: string, repoPath: string, updateRepo: bool): seq<Written> {
    if !d.params.Defines(param) then []
    else
      var text := ExportText(Updated(d.params, param, v));
      [Written(JoinPath(flashforgePath, d.info.fileName), text)]
      + if updateRepo then [Written(JoinPath(repoPath, d.info.fileName), text)] else []
  }

  /** The files written by the update loop, in order, for profiles with the given data. */
  function WrittenAll(ds: seq<Profile>, param: string, v: string, flashforgePath: string, repoPath: string, updateRepo: bool): seq<Written>
    decreases |ds|
  {
    if ds == [] then []
    else WrittenAll(ds[..|ds| - 1], param, v, flashforgePath, repoPath, updateRepo)
         + WrittenFor(ds[|ds| - 1], param, v, flashforgePath, repoPath, updateRepo)
  }

  /** The update loop over one more profile writes that profile's files after the earlier ones. */
  lemma WrittenAllNext(ds: seq<Profile>, i: nat, param: string, v: string, flashforgePath: string, repoPath: string, updateRepo: bool)
    requires i < |ds|
    ensures WrittenAll(ds[..i + 1], param, v, flashforgePath, repoPath, updateRepo)
         == WrittenAll(ds[..i], param, v, flashforgePath, repoPath, updateRepo) + WrittenFor(ds[i], param, v, flashforgePath, repoPath, updateRepo)
  {
    assert ds[..i + 1][..i] == ds[..i];
  }

  /** The update neither adds nor removes a parameter. */
  lemma UpdatedDefines(p: ProfileParams, k: string, v: string)
    ensures forall other :: Updated(p, k, v).Defines(other) == p.Defines(other)
  {
  }

  /** A profile already updated writes the same files as before its update. */
  lemma WrittenForUpdated(d: Profile, param: string, v: string, flashforgePath: string, repoPath: string, updateRepo: bool)
    ensures WrittenFor(Profile(d.info, Updated(d.params, param, v)), param, v, flashforgePath, repoPath, updateRepo)
         == WrittenFor(d, param, v, flashforgePath, repoPath, updateRepo)
  {
    UpdatedTwice(d.params, param, v);
    UpdatedDefines(d.params, param, v);
  }

  /**
   * A profile met by the update loop, whether for the first time or again,
   * writes the files of its data from before the loop.
   */
  lemma PassWrites(d: Profile, now: ProfileParams, param: string, v: string, flashforgePath: string, repoPath: string, updateRepo: bool)
    requires now == d.params || now == Updated(d.params, param, v)
    ensures WrittenFor(Profile(d.info, now), param, v, flashforgePath, repoPath, updateRepo)
         == WrittenFor(d, param, v, flashforgePath, repoPath, updateRepo)
    ensures Updated(now, param, v) == Updated(d.params, param, v)
  {
    UpdatedTwice(d.params, param, v);
    WrittenForUpdated(d, param, v, flashforgePath, repoPath, updateRepo);
  }

  /**
   * One pass of the update loop of `set_param`: the value is assigned, and
   * when the profile has the parameter it is exported to the Flashforge
   * directory and, when asked, to the repository; a profile without the
   * parameter is reported and left as it was.
   */
  method UpdateProfile(profile: FlashforgeProfile, param: string, v: string,
                       flashforgePath: string, repoPath: string, updateRepo: bool)
    returns (files: seq<Written>)
    requires profile.Valid()
    modifies profile
    ensures profile.Valid()
    ensures profile.Params() == Updated(old(profile.Params()), param, v)
    ensures files == WrittenFor(old(profile.Data()), param, v, flashforgePath, repoPath, updateRepo)
  {
    files := [];
    var outcome := profile.SetParam(param, v);
    if outcome.Pass? {
      var target, text := profile.Export(flashforgePath, true);
      files := files + [Written(target, text)];
      if updateRepo {
        target, text := profile.Export(repoPath, true);
        files := files + [Written(target, text)];
      }
    }
  }

  /**
   * The update loop of `set_param`: every profile in turn is given the value
   * and, when it has the parameter, written out. The list may name one
   * profile object more than once; assigning the same value again changes
   * nothing.
   */
  method UpdateAll(profiles: seq<FlashforgeProfile>, param: string, v: string,
                   flashforgePath: string, repoPath: string, updateRepo: bool)
    returns (written: seq<Written>)
    requires AllValid(profiles)
    modifies set p | p in profiles
    ensures AllValid(profiles)
    ensures forall i :: 0 <= i < |profiles| ==> profiles[i].Params() == Updated(old(profiles[i].Params()), param, v)
    ensures written == WrittenAll(old(DataOf(profiles)), param, v, flashforgePath, repoPath, updateRepo)
  {
    ghost var olds := DataOf(profiles);
    ghost var visited: set<FlashforgeProfile> := {};
    written := [];
    for i := 0 to |profiles|
      invariant forall j :: 0 <= j < |profiles| ==> profiles[j].Valid()
      invariant forall j :: 0 <= j < i ==> profiles[j] in visited
      invariant forall j :: 0 <= j < |profiles| ==>
        profiles[j].Params() == if profiles[j] in visited then Updated(old(profiles[j].Params()), param, v) else old(profiles[j].Params())
      invariant written == WrittenAll(olds[..i], param, v, flashforgePath, repoPath, updateRepo)
    {
      var profile := profiles[i];
      label pass:
      var files := UpdateProfile(profile, param, v, flashforgePath, repoPath, updateRepo);
      assert olds[i] == Profile(profile.Info(), old(profile.Params()));
      PassWrites(olds[i], old@pass(profile.Params()), param, v, flashforgePath, repoPath, updateRepo);
      ghost var seen := visited;
      visited := visited + {profile};
      assert forall j :: 0 <= j < i + 1 ==> profiles[j] in visited;
      forall j | 0 <= j < |profiles|
        ensures profiles[j].Valid()
        ensures profiles[j].Params() ==
          if profiles[j] in visited then Updated(old(profiles[j].Params()), param, v) else old(profiles[j].Params())
      {
        if profiles[j] != profile {
          assert profiles[j].Params() == old@pass(profiles[j].Params());
          assert profiles[j] in visited <==> profiles[j] in seen;
        }
      }
      WrittenAllNext(olds, i, param, v, flashforgePath, repoPath, updateRepo);
      written := written + files;
    }
    assert olds[..|profiles|] == olds;
  }

  /**
   * The `set-param` command over the selected profiles: it stops before
   * touching any profile when the list is empty, when no input profile
   * matches, or when the input profile lacks the parameter; otherwise it
   * runs the update loop with the input profile's value.
   */
  method SetParamCommand(profiles: seq<FlashforgeProfile>, inputName: string, param: string,
                         flashforgePath: string, repoPath: string, updateRepo: bool)
    returns (r: Result<seq<Written>, CliError>)
    requires AllValid(profiles)
    modifies set p | p in profiles
    ensures old(InputValue(profiles, inputName, param)).Err? ==>
      r == Err(old(InputValue(profiles, inputName, param)).error)
      && forall p :: p in profiles ==> p.Params() == old(p.Params())
    ensures old(InputValue(profiles, inputName, param)).Ok? ==>
      var v := old(InputValue(profiles, inputName, param)).value;
      && r == Ok(WrittenAll(old(DataOf(profiles)), param, v, flashforgePath, repoPath, updateRepo))
      && forall i :: 0 <= i < |profiles| ==> profiles[i].Params() == Updated(old(profiles[i].Params()), param, v)
    ensures AllValid(profiles)
  {
    ghost var input := InputValue(profiles, inputName, param);
    if |profiles| == 0 {
      return Err(NoProfilesFound);
    }
    var target := FindInputProfile(profiles, inputName);
    if target.Err? {
      return Err(target.error);
    }
    var got := target.value.GetParam(param);
    if got.Err? {
      return Err(ParameterNotFound(target.value.fileName));
    }
    assert input == Ok(got.value);
    var written := UpdateAll(profiles, param, got.value, flashforgePath, repoPath, updateRepo);
    return Ok(written);
  }
}
