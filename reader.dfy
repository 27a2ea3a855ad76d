/** The `NVCLReader` class (nvcl_kit/reader.py:95-831): construction, which
    validates the parameter object in place and fetches the borehole
    catalogue, and the getters that turn NVCL data-service replies into
    lists. The WFS and the NVCL services are function parameters: a reply is
    what the service answers to the request the reader builds. */
module Reader {
  import opened Wrappers
  import opened PyStr
  import opened Config
  import opened Wfs
  import opened Catalogue
  import opened Svc
  import opened LogLists
  import opened Mineral

  /** Timeout for the WFS and NVCL services, in seconds. */
  const TIMEOUT := 6000

  /** The `SimpleNamespace` given as `param_obj`. The caller keeps a
      reference to it and sees the defaults the reader writes into it. */
  class ParamObject {
    var attrs: Params

    constructor(attrs: Params)
      ensures this.attrs == attrs
    {
      this.attrs := attrs;
    }
  }

  /** The `param_obj` argument: a namespace, or anything else. */
  datatype ParamArg = Namespace(obj: ParamObject) | NotNamespace

  /** The checks of `__init__` run on the namespace itself: each optional
      attribute that is missing is set to its default when it is reached, and
      the first failing check ends validation. */
  method ValidateInPlace(obj: ParamObject) returns (verdict: Verdict)
    modifies obj
    ensures Validation(verdict, obj.attrs) == Validate(old(obj.attrs))
  {
    if obj.attrs.bbox.None? {
      obj.attrs := obj.attrs.(bbox := Some(DEFAULT_BBOX));
    } else if BboxError(obj.attrs.bbox.value).Some? {
      return Reject(BboxError(obj.attrs.bbox.value).value);
    }
    if obj.attrs.wfsUrl.None? {
      return Reject(WfsUrlMissing);
    }
    if !obj.attrs.wfsUrl.value.VStr? {
      return Reject(WfsUrlNotString);
    }
    if obj.attrs.nvclUrl.None? {
      return Reject(NvclUrlMissing);
    }
    if !obj.attrs.nvclUrl.value.VStr? {
      return Reject(NvclUrlNotString);
    }
    if obj.attrs.boreholeCrs.None? {
      obj.attrs := obj.attrs.(boreholeCrs := Some(VStr(DEFAULT_CRS)));
    } else if !CrsAccepted(obj.attrs.boreholeCrs.value) {
      return Reject(CrsNotEpsg);
    }
    if obj.attrs.wfsVersion.None? {
      obj.attrs := obj.attrs.(wfsVersion := Some(VStr(DEFAULT_VERSION)));
    } else if !obj.attrs.wfsVersion.value.VStr? {
      return Reject(VersionNotNumeric);
    } else if VersionRaises(obj.attrs.wfsVersion.value) {
      return Raise(IndexError);
    } else if !VersionAccepted(obj.attrs.wfsVersion.value) {
      return Reject(VersionNotNumeric);
    }
    if obj.attrs.maxBoreholes.None? {
      obj.attrs := obj.attrs.(maxBoreholes := Some(VInt(0)));
    }
    if !IsInt(obj.attrs.maxBoreholes.value) {
      return Reject(MaxBoreholesNotInt);
    }
    if obj.attrs.useLocalFiltering.None? {
      obj.attrs := obj.attrs.(useLocalFiltering := Some(VBool(false)));
    }
    if !obj.attrs.useLocalFiltering.value.VBool? {
      return Reject(LocalFilteringNotBool);
    }
    DefaultCrsAccepted();
    return Accept(ConfigOf(obj.attrs));
  }

  // ---------------------------------------------------------------------------
  // What construction leaves
  // ---------------------------------------------------------------------------

  /** A constructed reader, as its fields stand, or the exception
      `__init__` raises. `ready` is `wfs` being set, `nvclUrl` the URL of
      the service interface when one was made, `sent` the WFS requests. */
  datatype Outcome =
    | Built(ready: bool, boreholes: seq<Borehole>, nvclUrl: Option<string>, sent: seq<Request>)
    | Raised(exc: PyException)

  /** The paged mode has a stopping page whenever construction reaches it. */
  predicate Halts(param: Option<Params>, service: Option<WfsService>, bound: nat) {
    param.Some? && service.Some? && Validate(param.value).verdict.Accept? ==>
      var cfg := Validate(param.value).verdict.cfg;
      Terminates(service.value, cfg.useLocalFiltering, cfg.version, bound)
  }

  /** The parameter object passes validation. */
  predicate Accepted(param: Option<Params>) {
    param.Some? && Validate(param.value).verdict.Accept?
  }

  /** The configuration an accepted parameter object gives. */
  function ConfigGiven(param: Option<Params>): Config
    requires Accepted(param)
  {
    Validate(param.value).verdict.cfg
  }

  /** The parameters pass, there is a WFS, and the fetch does not raise. */
  predicate Fetched(param: Option<Params>, service: Option<WfsService>, bound: nat)
    requires Halts(param, service, bound)
  {
    && Accepted(param) && service.Some?
    && var cfg := ConfigGiven(param);
       GetFeatures(service.value, cfg.useLocalFiltering, cfg.version, cfg.crs, bound).Ok?
  }

  /** The elements a fetch that does not raise yields. */
  function GetFetched(param: Option<Params>, service: Option<WfsService>, bound: nat): seq<RawElement>
    requires Halts(param, service, bound) && Fetched(param, service, bound)
  {
    var cfg := ConfigGiven(param);
    GetFeatures(service.value, cfg.useLocalFiltering, cfg.version, cfg.crs, bound).value
  }

  /** `__init__` on the namespace's attributes (`None` when `param_obj` is
      not a namespace) and the WFS it is given or builds (`None` when
      building it failed). */
  function Startup(param: Option<Params>, service: Option<WfsService>, parse: string -> Option<real>, bound: nat): (o: Outcome)
    requires Halts(param, service, bound)
    ensures o.Built? && !o.ready ==> o.boreholes == []
    ensures o.Built? && o.nvclUrl.None? ==> !o.ready && o.sent == []
    ensures o.Built? && o.ready ==> o.sent != [] && service.Some?
    ensures o.Built? && o.ready ==>
      && param.Some? && Validate(param.value).verdict.Accept?
      && var cfg := Validate(param.value).verdict.cfg;
         forall i :: 0 <= i < |o.boreholes| ==> InBox(cfg.bbox, o.boreholes[i]) && '.' !in o.boreholes[i].nvclId
    ensures o.Built? && o.ready <==> Fetched(param, service, bound) && GetFetched(param, service, bound) != []
                                     && Catalogue.Catalogue(GetFetched(param, service, bound), ConfigGiven(param), parse).Ok?
    ensures o.Built? && o.ready ==>
      && Fetched(param, service, bound)
      && Catalogue.Catalogue(GetFetched(param, service, bound), ConfigGiven(param), parse) == Ok(o.boreholes)
    ensures Fetched(param, service, bound) && GetFetched(param, service, bound) == [] ==>
      var cfg := ConfigGiven(param);
      o == Built(false, [], Some(cfg.nvclUrl),
                 RequestsSent(service.value, cfg.useLocalFiltering, cfg.version, cfg.crs, bound))
    ensures o.Raised? <==>
      || (param.Some? && Validate(param.value).verdict.Raise?)
      || (Accepted(param) && service.Some? && !Fetched(param, service, bound))
      || (Fetched(param, service, bound) && GetFetched(param, service, bound) != []
          && Catalogue.Catalogue(GetFetched(param, service, bound), ConfigGiven(param), parse).Err?)
  {
    if param.None? then Built(false, [], None, [])
    else
      match Validate(param.value).verdict
      case Reject(_) => Built(false, [], None, [])
      case Raise(e) => Raised(e)
      case Accept(cfg) =>
        if service.None? then Built(false, [], Some(cfg.nvclUrl), [])
        else
          var w := service.value;
          var sent := RequestsSent(w, cfg.useLocalFiltering, cfg.version, cfg.crs, bound);
          match GetFeatures(w, cfg.useLocalFiltering, cfg.version, cfg.crs, bound)
          case Err(e) => Raised(e)
          case Ok(elems) =>
            if elems == [] then Built(false, [], Some(cfg.nvclUrl), sent)
            else
              CatalogueRecords(elems, cfg, parse);
              SentWhenFetched(w, cfg.useLocalFiltering, cfg.version, cfg.crs, bound);
              match Catalogue.Catalogue(elems, cfg, parse)
              case Err(e) => Raised(e)
              case Ok(bs) => Built(true, bs, Some(cfg.nvclUrl), sent)
  }

  /** A fetch that yields elements has sent a request. */
  lemma SentWhenFetched(w: WfsService, local: bool, version: string, crs: string, bound: nat)
    requires Terminates(w, local, version, bound)
    requires GetFeatures(w, local, version, crs, bound).Ok? && GetFeatures(w, local, version, crs, bound).value != []
    ensures RequestsSent(w, local, version, crs, bound) != []
  {
    if ModeOf(local, version) == LocalPaged {
      assert |Pages(PagesRead(w, 0, bound))| >= 1;
    }
  }

  /** A refused parameter object leaves the reader unready, with no
      boreholes, no service interface and no WFS request sent. */
  lemma RefusedParamsLeaveReaderIdle(param: Option<Params>, service: Option<WfsService>, parse: string -> Option<real>, bound: nat)
    requires Halts(param, service, bound)
    ensures param.None? || Validate(param.value).verdict.Reject? <==> Startup(param, service, parse, bound) == Built(false, [], None, [])
  {
  }

  // ---------------------------------------------------------------------------
  // The reader
  // ---------------------------------------------------------------------------

  class NVCLReader {
    /** The WFS service; `None` tells the caller construction failed. */
    var wfs: Option<WfsService>
    var boreholeList: seq<Borehole>
    /** `self.svc`, which construction sets only once the parameters pass. */
    var svc: Option<ServiceInterface>
    /** The WFS requests construction sent. */
    ghost var sent: seq<Request>

    /** The fields `__init__` sets before it looks at its parameters. */
    constructor()
      ensures wfs.None? && boreholeList == [] && svc.None? && sent == []
    {
      wfs := None;
      boreholeList := [];
      svc := None;
      sent := [];
    }

    /** A reader whose catalogue could be fetched. */
    predicate Ready()
      reads this
    {
      wfs.Some?
    }

    /** An unready reader has no boreholes, and no borehole's NVCL id has a `.`. */
    predicate Valid()
      reads this
    {
      && (!Ready() ==> boreholeList == [])
      && forall i :: 0 <= i < |boreholeList| ==> '.' !in boreholeList[i].nvclId
    }

    /** `NVCLReader(param_obj, wfs)`: the reader, or the exception its
        construction raises. `service` is the WFS passed in, or the one
        owslib builds from `WFS_URL`, `None` when building it failed. */
    static method Open(param: ParamArg, service: Option<WfsService>, parse: string -> Option<real>, ghost bound: nat)
      returns (res: Result<NVCLReader, PyException>)
      requires Halts(if param.Namespace? then Some(param.obj.attrs) else None, service, bound)
      modifies if param.Namespace? then {param.obj} else {}
      ensures param.Namespace? ==> param.obj.attrs == Validate(old(param.obj.attrs)).attrs
      ensures var o := Startup(if param.Namespace? then Some(old(param.obj.attrs)) else None, service, parse, bound);
        && (res.Err? <==> o.Raised?)
        && (res.Err? ==> res.error == o.exc)
        && (res.Ok? ==> && fresh(res.value) && res.value.Valid()
                        && res.value.Ready() == o.ready
                        && (o.ready ==> res.value.wfs == service)
                        && res.value.boreholeList == o.boreholes
                        && res.value.svc.Some? == o.nvclUrl.Some?
                        && (res.value.svc.Some? ==> res.value.svc.value.nvclUrl == o.nvclUrl.value)
                        && res.value.sent == o.sent)
    {
      ghost var given := if param.Namespace? then Some(param.obj.attrs) else None;
      var r := new NVCLReader();
      if param.NotNamespace? {
        return Ok(r);
      }
      var verdict := ValidateInPlace(param.obj);
      match verdict
      case Reject(_) =>
        return Ok(r);
      case Raise(e) =>
        return Err(e);
      case Accept(cfg) =>
        r.wfs := service;
        if r.wfs.Some? {
          var fetched;
          ghost var sent;
          fetched, sent := r.FetchBoreholeList(cfg, parse, bound);
          r.sent := sent;
          if fetched.Err? {
            return Err(fetched.error);
          }
          if !fetched.value {
            r.wfs := None;
          }
          CatalogueRecords(GetFeatures(service.value, cfg.useLocalFiltering, cfg.version, cfg.crs, bound).value, cfg, parse);
        }
        var s := new ServiceInterface(cfg.nvclUrl, TIMEOUT);
        r.svc := Some(s);
        assert Startup(given, service, parse, bound).Built?;
        return Ok(r);
    }

    /** `_wfs_getfeature`: the borehole elements and the requests sent. */
    method WfsGetFeature(cfg: Config, ghost bound: nat) returns (res: Result<seq<RawElement>, PyException>, ghost requests: seq<Request>)
      requires wfs.Some? && Terminates(wfs.value, cfg.useLocalFiltering, cfg.version, bound)
      ensures res == GetFeatures(wfs.value, cfg.useLocalFiltering, cfg.version, cfg.crs, bound)
      ensures requests == RequestsSent(wfs.value, cfg.useLocalFiltering, cfg.version, cfg.crs, bound)
    {
      var w := wfs.value;
      if !cfg.useLocalFiltering {
        var req := GetFeature(TYPENAME, Some(NVCL_FILTER), None, None, None);
        if cfg.version != VERSION_2 {
          req := req.(srsname := Some(cfg.crs));
        }
        requests := [req];
        match w(req)
        case Fault =>
          res := Ok([]);
        case Raises(e) =>
          res := Err(e);
        case Document(_, ms) =>
          res := Ok(ms);
      } else if cfg.version == VERSION_2 {
        var recordCnt := 0;
        var done := false;
        var bhvList: seq<RawElement> := [];
        ghost var k: nat := 0;
        assert Stops(w(PageAt(bound)));
        PrependNothing(Paged(w, 0, bound));
        requests := [];
        while !done
          invariant recordCnt == k * RECORD_INC
          invariant requests == Pages(k)
          invariant !done ==> && k <= bound
                              && Paged(w, 0, bound) == Prepend(bhvList, Paged(w, k, bound))
                              && PagesRead(w, 0, bound) == k + PagesRead(w, k, bound)
          invariant done ==> Paged(w, 0, bound) == Ok(bhvList) && PagesRead(w, 0, bound) == k
          decreases if done then 0 else bound - k + 1
        {
          var req := GetFeature(TYPENAME, None, None, Some(RECORD_INC), Some(recordCnt));
          assert req == PageAt(k);
          requests := requests + [req];
          match w(req)
          case Fault =>
            // the handler's log line names `filterxml`, unbound in this mode
            return Err(NameError), requests;
          case Raises(e) =>
            return Err(e), requests;
          case Document(numRet, ms) =>
            recordCnt := recordCnt + RECORD_INC;
            done := numRet.GetOr("0") == "0";
            if !done {
              assert k < bound;
              PrependTwice(bhvList, ms, Paged(w, k + 1, bound));
            }
            bhvList := bhvList + ms;
            k := k + 1;
        }
        res := Ok(bhvList);
      } else {
        res := Ok([]);
        requests := [];
      }
    }

    /** `_fetch_borehole_list`: appends the catalogue of the fetched elements
        to `boreholeList`; `false` when nothing was fetched. */
    method FetchBoreholeList(cfg: Config, parse: string -> Option<real>, ghost bound: nat)
      returns (r: Result<bool, PyException>, ghost requests: seq<Request>)
      requires wfs.Some? && Terminates(wfs.value, cfg.useLocalFiltering, cfg.version, bound)
      modifies `boreholeList
      ensures requests == RequestsSent(wfs.value, cfg.useLocalFiltering, cfg.version, cfg.crs, bound)
      ensures var f := GetFeatures(wfs.value, cfg.useLocalFiltering, cfg.version, cfg.crs, bound);
        && (f.Err? ==> r == Err(f.error) && boreholeList == old(boreholeList))
        && (f.Ok? && f.value == [] ==> r == Ok(false) && boreholeList == old(boreholeList))
        && (f.Ok? && f.value != [] ==>
              var c := Catalogue.Catalogue(f.value, cfg, parse); var ps := NormaliseAll(f.value, cfg, parse);
              && (c.Ok? ==> r == Ok(true) && boreholeList == old(boreholeList) + c.value)
              && (c.Err? ==> && r == Err(c.error) && FirstCrash(ps) < |ps| && ps[FirstCrash(ps)] == Crash(c.error)
                             && boreholeList == old(boreholeList) + Qualifying(ps[..FirstCrash(ps)], cfg.bbox)))
    {
      var fetched;
      fetched, requests := WfsGetFeature(cfg, bound);
      if fetched.Err? {
        return Err(fetched.error), requests;
      }
      var bhvList := fetched.value;
      if |bhvList| == 0 {
        return Ok(false), requests;
      }
      r := AppendCatalogue(bhvList, cfg, parse);
    }

    /** The collar loop of `_fetch_borehole_list`: appends to `boreholeList`
        each NVCL collar inside the box until the cap is reached; a
        single-token coordinate raises after the collars before it were added. */
    method AppendCatalogue(bhvList: seq<RawElement>, cfg: Config, parse: string -> Option<real>)
      returns (r: Result<bool, PyException>)
      modifies `boreholeList
      ensures var c := Catalogue.Catalogue(bhvList, cfg, parse); var ps := NormaliseAll(bhvList, cfg, parse);
        && (c.Ok? ==> r == Ok(true) && boreholeList == old(boreholeList) + c.value)
        && (c.Err? ==> && r == Err(c.error) && FirstCrash(ps) < |ps| && ps[FirstCrash(ps)] == Crash(c.error)
                       && boreholeList == old(boreholeList) + Qualifying(ps[..FirstCrash(ps)], cfg.bbox))
    {
      ghost var ps := NormaliseAll(bhvList, cfg, parse);
      ghost var box, max := cfg.bbox, cfg.maxBoreholes;
      ghost var start := boreholeList;
      var boreholeCnt := 0;
      ghost var kept: seq<Borehole> := [];
      ghost var cat := Catalogue.Catalogue(bhvList, cfg, parse);
      CollarStart(ps, box, max);
      for i := 0 to |bhvList|
        invariant kept == Qualifying(ps[..i], box) && boreholeList == start + kept
        invariant boreholeCnt == |kept| && (max <= 0 || boreholeCnt < max)
        invariant i <= FirstCrash(ps)
        invariant cat == Prepend(kept, Build(ps[i..], box, max, boreholeCnt))
      {
        CollarStep(ps, i, box, max, kept, cat);
        var p := AddCollar(bhvList, i, cfg, parse);
        if p.Crash? {
          assert cat == Err(p.exc);
          return Err(p.exc);
        }
        if p.Record? && InBox(cfg.bbox, p.b) {
          boreholeCnt := boreholeCnt + 1;
          kept := kept + [p.b];
          assert boreholeList == start + kept;
        }
        if p.Record? && cfg.maxBoreholes > 0 && boreholeCnt >= cfg.maxBoreholes {
          assert cat == Ok(kept);
          return Ok(true);
        }
      }
      CollarEnd(ps, box, max, boreholeCnt, kept, cat);
      assert cat == Ok(kept);
      return Ok(true);
    }

    /** The body of the collar loop up to the cap test: the element is
        normalised and, when it is a collar inside the box, appended. */
    method AddCollar(bhvList: seq<RawElement>, i: nat, cfg: Config, parse: string -> Option<real>) returns (p: Parsed)
      requires i < |bhvList|
      modifies `boreholeList
      ensures p == NormaliseAll(bhvList, cfg, parse)[i]
      ensures boreholeList == old(boreholeList) + (if p.Record? && InBox(cfg.bbox, p.b) then [p.b] else [])
    {
      NormaliseAllAt(bhvList, cfg, parse, i);
      p := Normalise(bhvList[i], cfg, parse);
      if p.Record? && InBox(cfg.bbox, p.b) {
        boreholeList := boreholeList + [p.b];
      }
    }

    /** `get_nvcl_id_list`: the NVCL id of every borehole, in order. */
    function NvclIdList(): (ids: seq<string>)
      reads this
      ensures |ids| == |boreholeList|
      ensures forall i :: 0 <= i < |ids| ==> ids[i] == boreholeList[i].nvclId
      ensures Valid() ==> forall i :: 0 <= i < |ids| ==> '.' !in ids[i]
    {
      seq(|boreholeList|, i reads this requires 0 <= i < |boreholeList| => boreholeList[i].nvclId)
    }

    // -------------------------------------------------------------------------
    // Getters over the NVCL data services
    // -------------------------------------------------------------------------

    /** `get_datasetid_list`: the non-empty dataset ids of the borehole. */
    method GetDatasetIdList(nvclId: string, fetch: HttpRequest -> XmlReply) returns (r: Result<seq<string>, PyException>)
      ensures svc.None? ==> r == Err(AttributeError)
      ensures svc.Some? ==>
        r == Listing(DatasetIdOf, fetch(HttpRequest(svc.value.nvclUrl + "/getDatasetCollection.html", Some([("holeidentifier", nvclId)]))))
    {
      if svc.None? {
        return Err(AttributeError);
      }
      var req := svc.value.GetDatasetCollection(nvclId, []);
      r := ListChildren(DatasetIdOf, fetch(req));
    }

    /** `get_dataset_list`: the datasets with an id and a name. */
    method GetDatasetList(nvclId: string, fetch: HttpRequest -> XmlReply) returns (r: Result<seq<Dataset>, PyException>)
      ensures svc.None? ==> r == Err(AttributeError)
      ensures svc.Some? ==>
        r == Listing(DatasetOf, fetch(HttpRequest(svc.value.nvclUrl + "/getDatasetCollection.html", Some([("holeidentifier", nvclId)]))))
    {
      if svc.None? {
        return Err(AttributeError);
      }
      var req := svc.value.GetDatasetCollection(nvclId, []);
      r := ListChildren(DatasetOf, fetch(req));
    }

    /** `_filter_mosaic_logs`: the mosaic logs named `target` (any name for `*`). */
    method FilterMosaicLogs(datasetId: string, target: string, parseInt: string -> Option<int>, fetch: HttpRequest -> XmlReply)
      returns (r: Result<seq<MosaicLog>, PyException>)
      ensures svc.None? ==> r == Err(AttributeError)
      ensures svc.Some? ==>
        r == Listing(MosaicLogs(target, parseInt),
                     fetch(HttpRequest(svc.value.nvclUrl + "/getLogCollection.html", Some([("datasetid", datasetId), ("mosaicsvc", "yes")]))))
    {
      if svc.None? {
        return Err(AttributeError);
      }
      var req := svc.value.GetLogCollection(datasetId, true);
      r := ListChildren(MosaicLogs(target, parseInt), fetch(req));
    }

    /** `get_all_imglogs`, `get_mosaic_imglogs`, `get_tray_thumb_imglogs`,
        `get_tray_imglogs` and `get_imagery_imglogs`: the filter with a fixed name. */
    method GetImglogs(datasetId: string, which: string, parseInt: string -> Option<int>, fetch: HttpRequest -> XmlReply)
      returns (r: Result<seq<MosaicLog>, PyException>)
      requires which in {ALL_LOGS, MOSAIC, TRAY_THUMBNAILS, TRAY_IMAGES, IMAGERY}
      ensures svc.None? ==> r == Err(AttributeError)
      ensures svc.Some? ==>
        r == Listing(MosaicLogs(which, parseInt),
                     fetch(HttpRequest(svc.value.nvclUrl + "/getLogCollection.html", Some([("datasetid", datasetId), ("mosaicsvc", "yes")]))))
    {
      r := FilterMosaicLogs(datasetId, which, parseInt, fetch);
    }

    /** `get_tray_depths`: the trays with all three fields. */
    method GetTrayDepths(logId: string, fetch: HttpRequest -> XmlReply) returns (r: Result<seq<TrayDepth>, PyException>)
      ensures svc.None? ==> r == Err(AttributeError)
      ensures svc.Some? ==>
        r == Listing(TrayDepthOf, fetch(HttpRequest(svc.value.nvclUrl + "/getImageTrayDepth.html", Some([("logid", logId)]))))
    {
      if svc.None? {
        return Err(AttributeError);
      }
      var req := svc.value.GetImageTrayDepth(logId);
      r := ListChildren(TrayDepthOf, fetch(req));
    }

    /** `get_scalar_logs`: the public scalar logs of a plottable type. */
    method GetScalarLogs(datasetId: string, fetch: HttpRequest -> XmlReply) returns (r: Result<seq<ScalarLog>, PyException>)
      ensures svc.None? ==> r == Err(AttributeError)
      ensures svc.Some? ==>
        r == Listing(ScalarLogOf,
                     fetch(HttpRequest(svc.value.nvclUrl + "/getLogCollection.html", Some([("datasetid", datasetId), ("mosaicsvc", "no")]))))
    {
      if svc.None? {
        return Err(AttributeError);
      }
      var req := svc.value.GetLogCollection(datasetId, false);
      r := ListChildren(ScalarLogOf, fetch(req));
    }

    /** `get_imagelog_data`: the image logs flagged public. */
    method GetImagelogData(nvclId: string, fetch: HttpRequest -> XmlReply) returns (r: Result<seq<ImageLog>, PyException>)
      ensures svc.None? ==> r == Err(AttributeError)
      ensures svc.Some? ==>
        r == Listing(ImageLogOf, fetch(HttpRequest(svc.value.nvclUrl + "/getDatasetCollection.html", Some([("holeidentifier", nvclId)]))))
    {
      if svc.None? {
        return Err(AttributeError);
      }
      var req := svc.value.GetDatasetCollection(nvclId, []);
      r := ListChildren(ImageLogOf, fetch(req));
    }

    /** `get_spectrallog_data`: every spectral log, with its script parsed
        and its wavelengths converted. */
    method GetSpectrallogData(nvclId: string, parse: string -> Option<real>, parseInt: string -> Option<int>, fetch: HttpRequest -> XmlReply)
      returns (r: Result<seq<SpectralLog>, PyException>)
      ensures svc.None? ==> r == Err(AttributeError)
      ensures svc.Some? ==>
        r == Listing(SpectralLogs(parse, parseInt),
                     fetch(HttpRequest(svc.value.nvclUrl + "/getDatasetCollection.html", Some([("holeidentifier", nvclId)]))))
    {
      if svc.None? {
        return Err(AttributeError);
      }
      var req := svc.value.GetDatasetCollection(nvclId, []);
      var reply := fetch(req);
      if reply.NoResponse? {
        return Ok([]);
      }
      if reply.Malformed? {
        return Err(ParseError);
      }
      var cs := reply.children;
      var logs: seq<SpectralLog> := [];
      for i := 0 to |cs|
        invariant logs == Collect(SpectralLogs(parse, parseInt), cs[..i])
      {
        var log := SpectralLogFor(cs[i], parse, parseInt);
        CollectStep(SpectralLogs(parse, parseInt), cs, i, log);
        logs := logs + [log];
      }
      assert cs[..|cs|] == cs;
      r := Ok(logs);
    }

    /** The body of `get_spectrallog_data`'s loop for one child. */
    static method SpectralLogFor(c: Child, parse: string -> Option<real>, parseInt: string -> Option<int>) returns (log: SpectralLog)
      ensures log == SpectralLogOf(parse, parseInt, c)
    {
      var raw := Text(c, "./script", "");
      var script := ParseScript(raw);
      var sampleCount := if "./sampleCount" in c then parseInt(c["./sampleCount"]).GetOr(0) else 0;
      log := SpectralLog(Text(c, "./logID", ""), Text(c, "./logName", ""), Text(c, "./wavelengthUnits", ""),
                         sampleCount, raw, script, Wavelengths(Text(c, "./wavelengths", ""), parse));
    }

    /** `get_borehole_data`: per depth, the dominant valid mineral class. */
    method GetBoreholeData(logId: string, heightResol: string, className: string, fetch: HttpRequest -> JsonReply)
      returns (r: Result<seq<(real, DepthEntry)>, PyException>)
      ensures svc.None? ==> r == Err(AttributeError)
      ensures svc.Some? ==>
        r == BoreholeData(fetch(HttpRequest(svc.value.nvclUrl + "/getDownsampledData.html",
                                            Some(Updated([("logid", logId)], DownsampleOptions(heightResol))))), className)
    {
      if svc.None? {
        return Err(AttributeError);
      }
      var req := svc.value.GetDownsampledData(logId, DownsampleOptions(heightResol));
      var reply := fetch(req);
      match reply
      case NoData =>
        r := Ok([]);
      case NotUtf8 =>
        r := Err(UnicodeDecodeError);
      case NotJson =>
        r := Ok([]);
      case Decoded(ms) =>
        var gs := Groups(SortByDepth(ms));
        var entries: seq<(real, DepthEntry)> := [];
        for i := 0 to |gs|
          invariant entries == Entries(gs[..i], className)
        {
          assert gs[..i + 1][..i] == gs[..i];
          var filtered := Mineral.Valid(gs[i].1);
          if filtered == [] {
            continue;
          }
          var maxElem := FirstMax(filtered);
          entries := entries + [(gs[i].0, EntryOf(maxElem, className))];
        }
        assert gs[..|gs|] == gs;
        r := Ok(entries);
    }

    /** `plot_scalars_html`: the plot request for the first six ids, or none
        (the empty reply) when there are no ids. */
    method PlotScalarsHtml(ids: seq<string>, options: Items) returns (r: Result<Option<HttpRequest>, PyException>)
      ensures svc.None? ==> r == Err(AttributeError)
      ensures svc.Some? ==> r.Ok? && (r.value.None? <==> ids == [])
      ensures svc.Some? && r.Ok? && r.value.Some? ==>
        var six := FirstSix(ids);
        && r.value.value.url == svc.value.nvclUrl + "/plotmultiscalars.html"
        && r.value.value.params == Some(MakeMultiLogids(six, options))
        && |six| <= 6 && six == ids[..|six|] && (|ids| >= 6 ==> |six| == 6)
    {
      if svc.None? {
        return Err(AttributeError);
      }
      var req := svc.value.GetPlotMultiScalar(FirstSix(ids), options);
      r := Ok(req);
    }
  }

  /** The options `get_borehole_data` passes to the downsampled-data service. */
  function DownsampleOptions(heightResol: string): (o: Items)
    ensures DistinctKeys(o)
  {
    [("interval", heightResol), ("outputformat", "json"), ("startdepth", "0.0"), ("enddepth", "10000.0")]
  }

  /** A getter's loop over the children of a reply: what `f` keeps, in order. */
  method ListChildren<T>(f: Child -> Option<T>, reply: XmlReply) returns (r: Result<seq<T>, PyException>)
    ensures r == Listing(f, reply)
  {
    if reply.NoResponse? {
      return Ok([]);
    }
    if reply.Malformed? {
      return Err(ParseError);
    }
    var cs := reply.children;
    var kept: seq<T> := [];
    for i := 0 to |cs|
      invariant kept == Collect(f, cs[..i])
    {
      assert cs[..i + 1][..i] == cs[..i];
      var item := f(cs[i]);
      if item.Some? {
        kept := kept + [item.value];
      }
    }
    assert cs[..|cs|] == cs;
    r := Ok(kept);
  }

  /** The spectral-log script dict, assignment by assignment. */
  method ParseScript(raw: string) returns (script: map<string, string>)
    ensures script == ScriptAfter(Assignments(raw), |Assignments(raw)|)
  {
    var texts := Split(Replace(raw, "; ", ";"), ';');
    ghost var ps := Assignments(raw);
    script := map[];
    for i := 0 to |texts|
      invariant script == ScriptAfter(ps, i)
    {
      var parts := Partition(texts[i], '=');
      if parts.before != "" && parts.found {
        script := script[parts.before := parts.after];
      }
    }
  }
}
