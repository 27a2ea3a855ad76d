/** The "keep if" rules the reader's list getters apply to the children of an
    NVCL data-services response (nvcl_kit/reader.py:275-613). Each getter's
    loop is a method of `Reader.NVCLReader`; this module states, per child,
    what the loop body keeps, and, per reply, what the whole loop returns. */
module LogLists {
  import opened Wrappers
  import opened PyStr
  import opened Config

  /** Data flagged `ispublic = false` is dropped. */
  const ENFORCE_IS_PUBLIC := true

  /** One child selected by `findall`, as the texts of the sub-paths it has. */
  type Child = map<string, string>

  /** What the response body becomes: nothing (an empty body, which is what
      a failed request returns), a body `ET.fromstring` rejects, or the
      children the getter's `findall` selects. */
  datatype XmlReply = NoResponse | Malformed | Parsed(children: seq<Child>)

  /** `child.findtext(path, default='')`. */
  function Text(c: Child, path: string, default: string): string {
    Lookup(c, path).GetOr(default)
  }

  /** `child.findtext(path, default=None)` tested for truth: present and non-empty. */
  predicate Filled(c: Child, path: string) {
    path in c && c[path] != ""
  }

  /** The present, non-empty text at `path`, if any. */
  function FilledText(c: Child, path: string): (r: Option<string>)
    ensures r.Some? <==> Filled(c, path)
    ensures r.Some? ==> r.value == c[path]
  {
    if Filled(c, path) then Some(c[path]) else None
  }

  // ---------------------------------------------------------------------------
  // Collecting the kept children
  // ---------------------------------------------------------------------------

  function AsSeq<T>(o: Option<T>): seq<T> {
    if o.Some? then [o.value] else []
  }

  /** The loop of a list getter: keeps what `f` makes of each child, in order. */
  function Collect<T>(f: Child -> Option<T>, cs: seq<Child>): (r: seq<T>)
    ensures |r| <= |cs|
    decreases |cs|
  {
    if cs == [] then [] else Collect(f, cs[..|cs| - 1]) + AsSeq(f(cs[|cs| - 1]))
  }

  /** Collecting is done child by child: the parts of a split list collect
      to the parts of the result. */
  lemma {:induction false} CollectAppend<T>(f: Child -> Option<T>, a: seq<Child>, b: seq<Child>)
    ensures Collect(f, a + b) == Collect(f, a) + Collect(f, b)
    decreases |b|
  {
    if b == [] {
      assert a + b == a;
    } else {
      var b' := b[..|b| - 1];
      assert (a + b)[..|a + b| - 1] == a + b';
      CollectAppend(f, a, b');
    }
  }

  /** One more child of a loop over the children: what it yields is
      appended. */
  lemma CollectStep<T>(f: Child -> Option<T>, cs: seq<Child>, i: nat, x: T)
    requires i < |cs| && f(cs[i]) == Some(x)
    ensures Collect(f, cs[..i + 1]) == Collect(f, cs[..i]) + [x]
  {
    assert cs[..i + 1][..i] == cs[..i];
  }

  /** An item is listed exactly when some child yields it. */
  lemma {:induction false} CollectMembers<T>(f: Child -> Option<T>, cs: seq<Child>, x: T)
    ensures x in Collect(f, cs) <==> exists i :: 0 <= i < |cs| && f(cs[i]) == Some(x)
    decreases |cs|
  {
    if cs != [] {
      var init := cs[..|cs| - 1];
      CollectMembers(f, init, x);
      if x in Collect(f, cs) && x !in Collect(f, init) {
        assert f(cs[|cs| - 1]) == Some(x);
      }
      if exists i :: 0 <= i < |cs| && f(cs[i]) == Some(x) {
        var i :| 0 <= i < |cs| && f(cs[i]) == Some(x);
        if i < |cs| - 1 {
          assert init[i] == cs[i];
        }
      }
    }
  }

  /** A getter's result: `[]` for no response, the parser's exception for a
      malformed body, otherwise the kept children. */
  function Listing<T>(f: Child -> Option<T>, reply: XmlReply): (r: Result<seq<T>, PyException>)
    ensures reply.NoResponse? ==> r == Ok([])
    ensures reply.Malformed? ==> r == Err(ParseError)
  {
    match reply
    case NoResponse => Ok([])
    case Malformed => Err(ParseError)
    case Parsed(cs) => Ok(Collect(f, cs))
  }

  // ---------------------------------------------------------------------------
  // get_datasetid_list and get_dataset_list
  // ---------------------------------------------------------------------------

  function DatasetIdOf(c: Child): (r: Option<string>)
    ensures r.Some? <==> "./DatasetID" in c && c["./DatasetID"] != ""
    ensures r.Some? ==> r.value == c["./DatasetID"]
  {
    FilledText(c, "./DatasetID")
  }

  datatype Dataset = Dataset(
    datasetId: string,
    datasetName: string,
    boreholeUri: Option<string>,
    trayId: Option<string>,
    sectionId: Option<string>,
    domainId: Option<string>)

  /** Id and name are compulsory; each optional attribute is set only when
      its text is present and non-empty. */
  function DatasetOf(c: Child): (r: Option<Dataset>)
    ensures r.Some? <==> Filled(c, "./DatasetID") && Filled(c, "./DatasetName")
    ensures r.Some? ==> && r.value.datasetId == c["./DatasetID"] && r.value.datasetName == c["./DatasetName"]
                        && r.value.boreholeUri == FilledText(c, "./boreholeURI")
                        && r.value.trayId == FilledText(c, "./trayID")
                        && r.value.sectionId == FilledText(c, "./sectionID")
                        && r.value.domainId == FilledText(c, "./domainID")
  {
    if !Filled(c, "./DatasetID") || !Filled(c, "./DatasetName") then None
    else
      Some(Dataset(c["./DatasetID"], c["./DatasetName"], FilledText(c, "./boreholeURI"),
                   FilledText(c, "./trayID"), FilledText(c, "./sectionID"), FilledText(c, "./domainID")))
  }

  /** The two dataset getters agree: the datasets listed have ids among
      those the id getter lists. */
  lemma DatasetsHaveListedIds(cs: seq<Child>, d: Dataset)
    requires d in Collect(DatasetOf, cs)
    ensures d.datasetId in Collect(DatasetIdOf, cs)
  {
    CollectMembers(DatasetOf, cs, d);
    var i :| 0 <= i < |cs| && DatasetOf(cs[i]) == Some(d);
    CollectMembers(DatasetIdOf, cs, d.datasetId);
  }

  // ---------------------------------------------------------------------------
  // _filter_mosaic_logs
  // ---------------------------------------------------------------------------

  datatype MosaicLog = MosaicLog(logId: string, logName: string, sampleCount: PyValue)

  /** `log_name` matches the target case-insensitively, or the target is `*`. */
  predicate NameMatches(target: string, name: string) {
    Lower(target) == Lower(name) || target == "*"
  }

  /** `int(SampleCount)`: 0 when absent (an int default), the float 0.0 when
      present but not an integer; `parseInt` stands for Python's `int()`. */
  function SampleCount(c: Child, parseInt: string -> Option<int>): (v: PyValue)
    ensures v.VInt? || v == VFloat(0.0)
    ensures "./SampleCount" !in c ==> v == VInt(0)
    ensures "./SampleCount" in c ==> (v == VFloat(0.0) <==> parseInt(c["./SampleCount"]).None?)
    ensures "./SampleCount" in c && v.VInt? ==> parseInt(c["./SampleCount"]) == Some(v.i)
  {
    if "./SampleCount" !in c then VInt(0)
    else
      match parseInt(c["./SampleCount"])
      case Some(n) => VInt(n)
      case None => VFloat(0.0)
  }

  function MosaicLogOf(target: string, parseInt: string -> Option<int>, c: Child): (r: Option<MosaicLog>)
    ensures r.Some? <==> Filled(c, "./LogID") && Filled(c, "./LogName") && NameMatches(target, c["./LogName"])
    ensures r.Some? ==> r.value == MosaicLog(c["./LogID"], c["./LogName"], SampleCount(c, parseInt))
  {
    if !Filled(c, "./LogID") || !Filled(c, "./LogName") then None
    else if NameMatches(target, c["./LogName"]) then
      Some(MosaicLog(c["./LogID"], c["./LogName"], SampleCount(c, parseInt)))
    else None
  }

  /** `MosaicLogOf` for one target name, as the per-child rule of the loop. */
  function MosaicLogs(target: string, parseInt: string -> Option<int>): Child -> Option<MosaicLog> {
    c => MosaicLogOf(target, parseInt, c)
  }

  // The target names of the five public wrappers of `_filter_mosaic_logs`.
  const ALL_LOGS := "*"
  const MOSAIC := "Mosaic"
  const TRAY_THUMBNAILS := "Tray Thumbnail Images"
  const TRAY_IMAGES := "Tray Images"
  const IMAGERY := "Imagery"

  /** `*` keeps every log that has an id and a name. */
  lemma StarKeepsAll(parseInt: string -> Option<int>, c: Child)
    ensures MosaicLogOf(ALL_LOGS, parseInt, c).Some? <==> Filled(c, "./LogID") && Filled(c, "./LogName")
  {
  }

  /** `Mosaic` keeps the logs named "mosaic" in any mixture of cases. */
  lemma MosaicMatchesAnyCase(name: string)
    ensures NameMatches(MOSAIC, name) <==> SpellsIgnoringCase(name, "mosaic")
  {
    assert Lower(MOSAIC) == "mosaic";
    LowerEqualsIff(name, "mosaic");
  }

  // ---------------------------------------------------------------------------
  // get_tray_depths
  // ---------------------------------------------------------------------------

  datatype TrayDepth = TrayDepth(sampleNo: string, startValue: string, endValue: string)

  function TrayDepthOf(c: Child): (r: Option<TrayDepth>)
    ensures r.Some? <==> Filled(c, "./SampleNo") && Filled(c, "./StartValue") && Filled(c, "./EndValue")
    ensures r.Some? ==> r.value == TrayDepth(c["./SampleNo"], c["./StartValue"], c["./EndValue"])
  {
    if !Filled(c, "./SampleNo") || !Filled(c, "./StartValue") || !Filled(c, "./EndValue") then None
    else Some(TrayDepth(c["./SampleNo"], c["./StartValue"], c["./EndValue"]))
  }

  // ---------------------------------------------------------------------------
  // get_scalar_logs
  // ---------------------------------------------------------------------------

  datatype ScalarLog = ScalarLog(logId: string, logName: string, isPublic: Option<string>, logType: string, algorithmId: string)

  /** The log types the scalar plot service can draw. */
  const SCALAR_TYPES: set<string> := {"1", "2", "5", "6"}

  /** Flagged private: `ispublic` present, non-empty and "FALSE" once upper-cased. */
  predicate MarkedPrivate(c: Child) {
    ENFORCE_IS_PUBLIC && Filled(c, "./ispublic") && Upper(c["./ispublic"]) == "FALSE"
  }

  function ScalarLogOf(c: Child): (r: Option<ScalarLog>)
    ensures r.Some? <==> && !MarkedPrivate(c) && Filled(c, "./LogID") && Filled(c, "./logName")
                         && "./logType" in c && c["./logType"] in SCALAR_TYPES && Filled(c, "./algorithmoutID")
    ensures r.Some? ==> r.value == ScalarLog(c["./LogID"], c["./logName"], Lookup(c, "./ispublic"),
                                             c["./logType"], c["./algorithmoutID"])
  {
    if MarkedPrivate(c) then None
    else if Filled(c, "./LogID") && Filled(c, "./logName") && "./logType" in c && c["./logType"] in SCALAR_TYPES
            && Filled(c, "./algorithmoutID") then
      Some(ScalarLog(c["./LogID"], c["./logName"], Lookup(c, "./ispublic"), c["./logType"], c["./algorithmoutID"]))
    else None
  }

  /** A scalar log whose `ispublic` spells "false" in any case is dropped;
      a missing or other flag does not exclude it. */
  lemma ScalarPrivacyIgnoresCase(c: Child)
    ensures MarkedPrivate(c) <==> "./ispublic" in c && SpellsIgnoringCase(c["./ispublic"], "false")
  {
    if "./ispublic" in c {
      UpperEqualsIff(c["./ispublic"], "false");
      assert Upper("false") == "FALSE";
    }
  }

  // ---------------------------------------------------------------------------
  // get_imagelog_data
  // ---------------------------------------------------------------------------

  datatype ImageLog = ImageLog(logId: string, logType: string, logName: string, algorithmoutId: string)

  /** Kept only when `ispublic` is exactly "true" (defaulting to "false"), and
      name, type and id are non-empty; the algorithm id defaults to "". */
  function ImageLogOf(c: Child): (r: Option<ImageLog>)
    ensures r.Some? <==> && (Text(c, "./ispublic", "false") == "true" || !ENFORCE_IS_PUBLIC)
                         && Filled(c, "./logName") && Filled(c, "./logType") && Filled(c, "./LogID")
    ensures r.Some? ==> r.value == ImageLog(c["./LogID"], c["./logType"], c["./logName"], Text(c, "./algorithmoutID", ""))
  {
    var isPublic := Text(c, "./ispublic", "false");
    var name := Text(c, "./logName", "");
    var logType := Text(c, "./logType", "");
    var logId := Text(c, "./LogID", "");
    if (isPublic == "true" || !ENFORCE_IS_PUBLIC) && name != "" && logType != "" && logId != "" then
      Some(ImageLog(logId, logType, name, Text(c, "./algorithmoutID", "")))
    else None
  }

  /** Unlike the scalar getter, the image-log getter reads the flag case
      sensitively: "TRUE" is not public, and a missing flag is not either. */
  lemma ImageLogFlagIsCaseSensitive(c: Child)
    requires Lookup(c, "./ispublic") == Some("TRUE") || "./ispublic" !in c
    ensures ImageLogOf(c).None?
  {
  }

  // ---------------------------------------------------------------------------
  // get_spectrallog_data: script and wavelengths
  // ---------------------------------------------------------------------------

  /** The assignments of a raw script, each partitioned at its first `=`:
      `'; '` becomes `';'`, then the text is split on `';'`. */
  function Assignments(raw: string): (ps: seq<Parts>)
    ensures var texts := Split(Replace(raw, "; ", ";"), ';');
      |ps| == |texts| && forall i :: 0 <= i < |ps| ==> ps[i] == Partition(texts[i], '=')
  {
    var texts := Split(Replace(raw, "; ", ";"), ';');
    seq(|texts|, i requires 0 <= i < |texts| => Partition(texts[i], '='))
  }

  /** The assignment sets `name`: it has an `=` and `name` before it. */
  predicate Sets(p: Parts, name: string) {
    p.found && p.before == name && name != ""
  }

  /** The script dict after the first `n` assignments: each `var=val` with a
      non-empty `var` sets `var`, a later one overwriting an earlier one. */
  function ScriptAfter(ps: seq<Parts>, n: nat): map<string, string>
    requires n <= |ps|
  {
    if n == 0 then map[]
    else
      var d := ScriptAfter(ps, n - 1);
      if ps[n - 1].before != "" && ps[n - 1].found then d[ps[n - 1].before := ps[n - 1].after] else d
  }

  /** The parsed script binds exactly the names some assignment sets, each to
      the value of the last assignment that sets it. */
  lemma {:induction false} ScriptBindsLastAssignment(ps: seq<Parts>, n: nat, name: string)
    requires n <= |ps|
    ensures name in ScriptAfter(ps, n) <==> exists i :: 0 <= i < n && Sets(ps[i], name)
    ensures name in ScriptAfter(ps, n) ==>
      exists i :: && 0 <= i < n && Sets(ps[i], name) && ScriptAfter(ps, n)[name] == ps[i].after
                  && forall k :: i < k < n ==> !Sets(ps[k], name)
  {
    if n > 0 {
      ScriptBindsLastAssignment(ps, n - 1, name);
      var d := ScriptAfter(ps, n);
      var d' := ScriptAfter(ps, n - 1);
      if Sets(ps[n - 1], name) {
        assert d[name] == ps[n - 1].after;
      } else if name in d {
        var i :| && 0 <= i < n - 1 && Sets(ps[i], name) && d'[name] == ps[i].after
                 && forall k :: i < k < n - 1 ==> !Sets(ps[k], name);
        assert forall k :: i < k < n ==> !Sets(ps[k], name);
      }
    }
  }

  /** Every token is a float to Python. */
  predicate AllParse(tokens: seq<string>, parse: string -> Option<real>) {
    forall i :: 0 <= i < |tokens| ==> parse(tokens[i]).Some?
  }

  /** `float()` of every comma-separated token, or nothing when one fails. */
  function ParseAll(tokens: seq<string>, parse: string -> Option<real>): (r: Option<seq<real>>)
    ensures r.Some? <==> AllParse(tokens, parse)
    ensures r.Some? ==> |r.value| == |tokens| && forall i :: 0 <= i < |tokens| ==> r.value[i] == parse(tokens[i]).value
    decreases |tokens|
  {
    if tokens == [] then Some([])
    else
      match parse(tokens[0])
      case None => None
      case Some(v) =>
        var rest := ParseAll(tokens[1..], parse);
        if rest.None? then
          assert !parse(tokens[1..][0]).Some? || exists i :: 1 <= i < |tokens| && !parse(tokens[i]).Some? by {
            var j :| 0 <= j < |tokens[1..]| && !parse(tokens[1..][j]).Some?;
            assert tokens[1..][j] == tokens[j + 1];
          }
          None
        else Some([v] + rest.value)
  }

  /** The wavelength list: all of the values, or none of them. */
  function Wavelengths(text: string, parse: string -> Option<real>): (r: seq<real>)
    ensures var toks := Split(text, ',');
      && (r != [] <==> AllParse(toks, parse))
      && (r != [] ==> |r| == |toks| && forall i :: 0 <= i < |toks| ==> r[i] == parse(toks[i]).value)
  {
    var toks := Split(text, ',');
    var values := ParseAll(toks, parse);
    if values.Some? then
      assert |values.value| == |toks| >= 1;
      values.value
    else []
  }

  /** Wavelength text "" has the one empty token, so it parses to a list
      only if "" does. */
  lemma EmptyWavelengths(parse: string -> Option<real>)
    requires parse("").None?
    ensures Wavelengths("", parse) == []
  {
  }

  datatype SpectralLog = SpectralLog(
    logId: string,
    logName: string,
    wavelengthUnits: string,
    sampleCount: int,
    scriptRaw: string,
    script: map<string, string>,
    wavelengths: seq<real>)

  /** Every spectral log is listed; a `sampleCount` that does not parse is 0. */
  function SpectralLogOf(parse: string -> Option<real>, parseInt: string -> Option<int>, c: Child): (r: SpectralLog)
    ensures "./sampleCount" !in c ==> r.sampleCount == 0
    ensures r.wavelengths != [] ==> |r.wavelengths| == |Split(Text(c, "./wavelengths", ""), ',')|
  {
    var raw := Text(c, "./script", "");
    var ps := Assignments(raw);
    SpectralLog(
      Text(c, "./logID", ""),
      Text(c, "./logName", ""),
      Text(c, "./wavelengthUnits", ""),
      if "./sampleCount" in c then parseInt(c["./sampleCount"]).GetOr(0) else 0,
      raw,
      ScriptAfter(ps, |ps|),
      Wavelengths(Text(c, "./wavelengths", ""), parse))
  }

  /** The fields of a spectral log: the texts with "" defaults, the count
      `int()` gives (0 when absent or when it does not parse), the script
      bound by its last assignments, and the wavelength list. */
  lemma SpectralLogFields(parse: string -> Option<real>, parseInt: string -> Option<int>, c: Child)
    ensures var r := SpectralLogOf(parse, parseInt, c); var ps := Assignments(Text(c, "./script", ""));
      && r.logId == Text(c, "./logID", "")
      && r.logName == Text(c, "./logName", "")
      && r.wavelengthUnits == Text(c, "./wavelengthUnits", "")
      && ("./sampleCount" in c && parseInt(c["./sampleCount"]).Some? ==> r.sampleCount == parseInt(c["./sampleCount"]).value)
      && ("./sampleCount" in c && parseInt(c["./sampleCount"]).None? ==> r.sampleCount == 0)
      && r.scriptRaw == Text(c, "./script", "")
      && r.script == ScriptAfter(ps, |ps|)
      && r.wavelengths == Wavelengths(Text(c, "./wavelengths", ""), parse)
  {
  }

  /** The per-child rule of `get_spectrallog_data`: every child is listed. */
  function SpectralLogs(parse: string -> Option<real>, parseInt: string -> Option<int>): Child -> Option<SpectralLog> {
    c => Some(SpectralLogOf(parse, parseInt, c))
  }

  // ---------------------------------------------------------------------------
  // plot_scalars_html
  // ---------------------------------------------------------------------------

  /** `log_id_list[:6]`: the service plots at most six logs. */
  function FirstSix(ids: seq<string>): (r: seq<string>)
    ensures |r| <= 6 && |r| <= |ids| && r == ids[..|r|]
    ensures |ids| <= 6 ==> r == ids
  {
    if |ids| <= 6 then ids else ids[..6]
  }
}
