/** The checks and defaults `NVCLReader.__init__` applies to its loosely typed
    parameter object (nvcl_kit/reader.py:126-200), as a pure function over the
    object's attributes. The in-place version that writes the defaults back is
    `Reader.ValidateInPlace`. */
module Config {
  import opened Wrappers
  import opened PyStr

  /** A Python value, as far as the validator inspects it. `VBool` is kept apart
      from `VInt` because the checks tell them apart (`isinstance(v, bool)`),
      but, as in Python, a bool also passes `isinstance(v, int)`. */
  datatype PyValue =
    | VStr(s: string)
    | VInt(i: int)
    | VFloat(f: real)
    | VBool(b: bool)
    | VDict(entries: map<string, PyValue>)
    | VOther                       // None, lists, objects, ...

  /** `isinstance(v, int)`: true of ints and of bools. */
  predicate IsInt(v: PyValue) { v.VInt? || v.VBool? }

  /** `isinstance(v, float) or isinstance(v, int)`. */
  predicate IsNumber(v: PyValue) { IsInt(v) || v.VFloat? }

  function IntOf(v: PyValue): int
    requires IsInt(v)
  {
    if v.VInt? then v.i else if v.b then 1 else 0
  }

  function NumberOf(v: PyValue): real
    requires IsNumber(v)
  {
    if v.VFloat? then v.f else IntOf(v) as real
  }

  /** The attributes of the parameter object that the validator probes; an
      attribute the object does not have (`hasattr` false) is `None`. */
  datatype Params = Params(
    bbox: Option<PyValue>,
    wfsUrl: Option<PyValue>,
    nvclUrl: Option<PyValue>,
    boreholeCrs: Option<PyValue>,
    wfsVersion: Option<PyValue>,
    maxBoreholes: Option<PyValue>,
    useLocalFiltering: Option<PyValue>)

  /** The bounding-box edges, in the order they are checked. */
  const EDGES: seq<string> := ["west", "south", "east", "north"]

  const DEFAULT_CRS := "EPSG:4326"
  const DEFAULT_VERSION := "1.1.0"

  /** The default region: the whole southern hemisphere. */
  const DEFAULT_BBOX := VDict(map["west" := VFloat(-180.0), "south" := VFloat(-90.0),
                                  "east" := VFloat(180.0), "north" := VFloat(0.0)])

  /** The attribute as given, or the default written back when it is absent. */
  function OrDefault(given: Option<PyValue>, default: PyValue): (r: Option<PyValue>)
    ensures r.Some?
    ensures given.Some? ==> r == given
    ensures given.None? ==> r == Some(default)
  {
    if given.Some? then given else Some(default)
  }

  /** Why a parameter object was refused; each case is one warning of the source. */
  datatype ConfigError =
    | NotNamespace
    | BboxNotDict
    | BboxEdgeMissing(edge: string)
    | BboxEdgeNotNumber(edge: string)
    | WfsUrlMissing
    | WfsUrlNotString
    | NvclUrlMissing
    | NvclUrlNotString
    | CrsNotEpsg
    | VersionNotNumeric
    | MaxBoreholesNotInt
    | LocalFilteringNotBool

  datatype Bbox = Bbox(west: real, south: real, east: real, north: real)

  /** A validated configuration. `maxBoreholes <= 0` means "no cap". */
  datatype Config = Config(
    bbox: Bbox,
    wfsUrl: string,
    nvclUrl: string,
    crs: string,
    version: string,
    maxBoreholes: int,
    useLocalFiltering: bool)

  datatype Verdict = Accept(cfg: Config) | Reject(err: ConfigError) | Raise(exc: PyException)

  /** The verdict, and the attributes of the parameter object after the
      defaults written before the verdict was reached. */
  datatype Validation = Validation(verdict: Verdict, attrs: Params)

  // ---------------------------------------------------------------------------
  // The individual checks
  // ---------------------------------------------------------------------------

  /** The first of `edges` that is missing from `m` or is not a number. */
  function EdgeError(m: map<string, PyValue>, edges: seq<string>): (r: Option<ConfigError>)
    ensures r.None? <==> forall i :: 0 <= i < |edges| ==> edges[i] in m && IsNumber(m[edges[i]])
    ensures r.Some? ==>
      exists i :: 0 <= i < |edges| && (r.value == BboxEdgeMissing(edges[i]) || r.value == BboxEdgeNotNumber(edges[i]))
    decreases |edges|
  {
    if edges == [] then None
    else if edges[0] !in m then Some(BboxEdgeMissing(edges[0]))
    else if !IsNumber(m[edges[0]]) then Some(BboxEdgeNotNumber(edges[0]))
    else EdgeError(m, edges[1..])
  }

  /** The complaint about a given `BBOX` value, if any. */
  function BboxError(v: PyValue): Option<ConfigError> {
    if !v.VDict? then Some(BboxNotDict) else EdgeError(v.entries, EDGES)
  }

  predicate EdgesPresent(m: map<string, PyValue>) {
    "west" in m && "south" in m && "east" in m && "north" in m &&
    IsNumber(m["west"]) && IsNumber(m["south"]) && IsNumber(m["east"]) && IsNumber(m["north"])
  }

  lemma NoEdgeErrorMeansEdgesPresent(m: map<string, PyValue>)
    requires EdgeError(m, EDGES).None?
    ensures EdgesPresent(m)
  {
    assert EDGES[0] == "west" && EDGES[1] == "south" && EDGES[2] == "east" && EDGES[3] == "north";
  }

  function BboxOf(m: map<string, PyValue>): Bbox
    requires EdgesPresent(m)
  {
    Bbox(NumberOf(m["west"]), NumberOf(m["south"]), NumberOf(m["east"]), NumberOf(m["north"]))
  }

  /** The rough EPSG test of a given `BOREHOLE_CRS`: a string whose upper-case
      form contains `EPSG:` and whose last four characters are digits. */
  predicate CrsAccepted(v: PyValue) {
    v.VStr? && Contains(Upper(v.s), "EPSG:") && IsNumeric(TakeLast(v.s, 4))
  }

  /** A given `WFS_VERSION` is a string starting with a digit. */
  predicate VersionAccepted(v: PyValue) {
    v.VStr? && |v.s| > 0 && IsDigit(v.s[0])
  }

  /** `WFS_VERSION[0]` of an empty string raises `IndexError`. */
  predicate VersionRaises(v: PyValue) {
    v.VStr? && v.s == ""
  }

  // ---------------------------------------------------------------------------
  // The validator
  // ---------------------------------------------------------------------------

  /** The checks of `NVCLReader.__init__` on a `SimpleNamespace` parameter
      object, in source order, stopping at the first failure, together with
      the attributes as they stand when it stops (defaults are written back as
      each optional attribute is reached). */
  function Validate(p: Params): Validation {
    DefaultBboxPasses();
    if p.bbox.Some? && BboxError(p.bbox.value).Some? then
      Validation(Reject(BboxError(p.bbox.value).value), p)
    else
      var a := p.(bbox := OrDefault(p.bbox, DEFAULT_BBOX));
      if a.wfsUrl.None? then Validation(Reject(WfsUrlMissing), a)
      else if !a.wfsUrl.value.VStr? then Validation(Reject(WfsUrlNotString), a)
      else if a.nvclUrl.None? then Validation(Reject(NvclUrlMissing), a)
      else if !a.nvclUrl.value.VStr? then Validation(Reject(NvclUrlNotString), a)
      else if a.boreholeCrs.Some? && !CrsAccepted(a.boreholeCrs.value) then Validation(Reject(CrsNotEpsg), a)
      else
        var b := a.(boreholeCrs := OrDefault(a.boreholeCrs, VStr(DEFAULT_CRS)));
        if b.wfsVersion.Some? && !b.wfsVersion.value.VStr? then Validation(Reject(VersionNotNumeric), b)
        else if b.wfsVersion.Some? && VersionRaises(b.wfsVersion.value) then Validation(Raise(IndexError), b)
        else if b.wfsVersion.Some? && !VersionAccepted(b.wfsVersion.value) then Validation(Reject(VersionNotNumeric), b)
        else
          var c := b.(wfsVersion := OrDefault(b.wfsVersion, VStr(DEFAULT_VERSION)),
                      maxBoreholes := OrDefault(b.maxBoreholes, VInt(0)));
          if !IsInt(c.maxBoreholes.value) then Validation(Reject(MaxBoreholesNotInt), c)
          else
            var d := c.(useLocalFiltering := OrDefault(c.useLocalFiltering, VBool(false)));
            if !d.useLocalFiltering.value.VBool? then Validation(Reject(LocalFilteringNotBool), d)
            else Validation(Accept(ConfigOf(d)), d)
  }

  /** The default bounding box passes the bounding-box check. */
  lemma DefaultBboxPasses()
    ensures BboxError(DEFAULT_BBOX).None?
  {
    assert EDGES[0] in DEFAULT_BBOX.entries && EDGES[1] in DEFAULT_BBOX.entries;
    assert EDGES[2] in DEFAULT_BBOX.entries && EDGES[3] in DEFAULT_BBOX.entries;
  }

  /** Every attribute is present and has passed its check. */
  predicate Complete(p: Params) {
    && p.bbox.Some? && BboxError(p.bbox.value).None?
    && p.wfsUrl.Some? && p.wfsUrl.value.VStr?
    && p.nvclUrl.Some? && p.nvclUrl.value.VStr?
    && p.boreholeCrs.Some? && p.boreholeCrs.value.VStr?
    && p.wfsVersion.Some? && p.wfsVersion.value.VStr?
    && p.maxBoreholes.Some? && IsInt(p.maxBoreholes.value)
    && p.useLocalFiltering.Some? && p.useLocalFiltering.value.VBool?
  }

  /** The configuration read off a parameter object that passed every check. */
  function ConfigOf(p: Params): Config
    requires Complete(p)
  {
    NoEdgeErrorMeansEdgesPresent(p.bbox.value.entries);
    Config(
      BboxOf(p.bbox.value.entries),
      p.wfsUrl.value.s,
      p.nvclUrl.value.s,
      p.boreholeCrs.value.s,
      p.wfsVersion.value.s,
      IntOf(p.maxBoreholes.value),
      p.useLocalFiltering.value.b)
  }

  // ---------------------------------------------------------------------------
  // An independent statement of the check order
  // ---------------------------------------------------------------------------

  /** Whether check `k` (1 = BBOX, 2 = WFS_URL, 3 = NVCL_URL, 4 = BOREHOLE_CRS,
      5 = WFS_VERSION, 6 = MAX_BOREHOLES, 7 = USE_LOCAL_FILTERING) fails on the
      attributes as given, an absent optional attribute passing. */
  predicate CheckFails(p: Params, k: int) {
    match k
    case 1 => p.bbox.Some? && BboxError(p.bbox.value).Some?
    case 2 => p.wfsUrl.None? || !p.wfsUrl.value.VStr?
    case 3 => p.nvclUrl.None? || !p.nvclUrl.value.VStr?
    case 4 => p.boreholeCrs.Some? && !CrsAccepted(p.boreholeCrs.value)
    case 5 => p.wfsVersion.Some? && !VersionAccepted(p.wfsVersion.value)
    case 6 => p.maxBoreholes.Some? && !IsInt(p.maxBoreholes.value)
    case 7 => p.useLocalFiltering.Some? && !p.useLocalFiltering.value.VBool?
    case _ => false
  }

  /** The check an error comes from. */
  function CheckOf(err: ConfigError): int {
    match err
    case NotNamespace => 0
    case BboxNotDict => 1
    case BboxEdgeMissing(_) => 1
    case BboxEdgeNotNumber(_) => 1
    case WfsUrlMissing => 2
    case WfsUrlNotString => 2
    case NvclUrlMissing => 3
    case NvclUrlNotString => 3
    case CrsNotEpsg => 4
    case VersionNotNumeric => 5
    case MaxBoreholesNotInt => 6
    case LocalFilteringNotBool => 7
  }

  /** How far validation got: the failing check, or 8 when all checks passed. */
  function StageOf(v: Verdict): int {
    match v
    case Accept(_) => 8
    case Reject(err) => CheckOf(err)
    case Raise(_) => 5
  }

  /** First failure wins: the verdict names a check that fails on the given
      attributes, every earlier check passes, and acceptance means that no
      check fails. A raise happens only at the version check, and only for
      the empty string. */
  lemma ValidateStopsAtFirstFailure(p: Params)
    ensures var v := Validate(p).verdict;
      && (StageOf(v) <= 7 ==> CheckFails(p, StageOf(v)))
      && (forall j :: 1 <= j < StageOf(v) ==> !CheckFails(p, j))
      && (v.Raise? <==> StageOf(v) == 5 && p.wfsVersion.Some? && VersionRaises(p.wfsVersion.value))
      && 1 <= StageOf(v)
  {
    DefaultBboxPasses();
    DefaultCrsAccepted();
  }

  /** The write-backs: a given attribute is never changed, and an absent
      optional attribute receives its default exactly when validation got past
      the check that writes it. */
  lemma ValidateWritesOnlyDefaults(p: Params)
    ensures var r := Validate(p); var k := StageOf(r.verdict);
      && r.attrs.wfsUrl == p.wfsUrl && r.attrs.nvclUrl == p.nvclUrl
      && r.attrs.bbox == (if p.bbox.Some? || k <= 1 then p.bbox else Some(DEFAULT_BBOX))
      && r.attrs.boreholeCrs == (if p.boreholeCrs.Some? || k <= 4 then p.boreholeCrs else Some(VStr(DEFAULT_CRS)))
      && r.attrs.wfsVersion == (if p.wfsVersion.Some? || k <= 5 then p.wfsVersion else Some(VStr(DEFAULT_VERSION)))
      && r.attrs.maxBoreholes == (if p.maxBoreholes.Some? || k <= 5 then p.maxBoreholes else Some(VInt(0)))
      && r.attrs.useLocalFiltering ==
           (if p.useLocalFiltering.Some? || k <= 6 then p.useLocalFiltering else Some(VBool(false)))
  {
    ValidateStopsAtFirstFailure(p);
  }

  /** What an accepted configuration holds: the given values, and the
      documented defaults for the absent optional attributes. */
  lemma AcceptedConfigUsesDefaults(p: Params)
    requires Validate(p).verdict.Accept?
    ensures var cfg := Validate(p).verdict.cfg;
      && p.wfsUrl.Some? && cfg.wfsUrl == p.wfsUrl.value.s
      && p.nvclUrl.Some? && cfg.nvclUrl == p.nvclUrl.value.s
      && cfg.crs == (if p.boreholeCrs.Some? then p.boreholeCrs.value.s else DEFAULT_CRS)
      && cfg.version == (if p.wfsVersion.Some? then p.wfsVersion.value.s else DEFAULT_VERSION)
      && cfg.maxBoreholes == (if p.maxBoreholes.Some? then IntOf(p.maxBoreholes.value) else 0)
      && cfg.useLocalFiltering == (p.useLocalFiltering.Some? && p.useLocalFiltering.value.b)
      && cfg.bbox == (if p.bbox.Some? then BboxOf(p.bbox.value.entries) else Bbox(-180.0, -90.0, 180.0, 0.0))
  {
    if p.bbox.Some? {
      NoEdgeErrorMeansEdgesPresent(p.bbox.value.entries);
    } else {
      NoEdgeErrorMeansEdgesPresent(DEFAULT_BBOX.entries);
    }
  }

  // ---------------------------------------------------------------------------
  // Properties of the CRS and version checks
  // ---------------------------------------------------------------------------

  lemma DefaultCrsAccepted()
    ensures CrsAccepted(VStr(DEFAULT_CRS))
  {
    EpsgCodeAccepted(DEFAULT_CRS);
  }

  /** An accepted CRS has its `EPSG:` strictly before the four final digits,
      so it is at least nine characters long. */
  lemma {:induction false} AcceptedCrsShape(v: PyValue)
    requires CrsAccepted(v)
    ensures |v.s| >= 9
    ensures exists k :: 0 <= k <= |v.s| - 9 && IsInfixAt(Upper(v.s), "EPSG:", k)
  {
    var u := Upper(v.s);
    var k :| 0 <= k <= |u| - 5 && IsInfixAt(u, "EPSG:", k);
    assert |v.s| >= 5;
    var tail := TakeLast(v.s, 4);
    assert u[k + 4] == ':';
    assert !IsDigit(v.s[k + 4]);
    forall i | |v.s| - 4 <= i < |v.s| ensures IsDigit(v.s[i]) {
      assert tail[i - (|v.s| - 4)] == v.s[i];
    }
    assert k + 4 < |v.s| - 4;
  }

  /** The CRS check is case-insensitive in its prefix. */
  lemma LowerCaseEpsgAccepted()
    ensures CrsAccepted(VStr("epsg:4283"))
  {
    EpsgCodeAccepted("epsg:4283");
  }

  /** A nine-character `EPSG:` code, in either case, passes the CRS check. */
  lemma EpsgCodeAccepted(s: string)
    requires |s| == 9 && s[4] == ':'
    requires s[0] in "Ee" && s[1] in "Pp" && s[2] in "Ss" && s[3] in "Gg"
    requires IsDigit(s[5]) && IsDigit(s[6]) && IsDigit(s[7]) && IsDigit(s[8])
    ensures CrsAccepted(VStr(s))
  {
    var u := Upper(s);
    assert u[0] == 'E' && u[1] == 'P' && u[2] == 'S' && u[3] == 'G' && u[4] == ':';
    assert u[0..5] == "EPSG:";
    assert IsInfixAt(u, "EPSG:", 0);
    var t := TakeLast(s, 4);
    assert t[0] == s[5] && t[1] == s[6] && t[2] == s[7] && t[3] == s[8];
  }
}
