/** The NVCL request builders of `_ServiceInterface`
    (nvcl_kit/svc_interface.py:35-306): each endpoint joins the service URL
    with its fixed path and starts from fixed parameters that the caller's
    options then update. Sending the request (`_get_response_str`) is not
    modelled; a built request is the value the sender would be given. */
module Svc {
  import opened Wrappers

  /** A parameter dict as its items in insertion order, or the pair list
      `_make_multi_logids` produces. */
  type Items = seq<(string, string)>

  /** The request handed to `_get_response_str`; `params` is `None` when the
      endpoint sends none. */
  datatype HttpRequest = HttpRequest(url: string, params: Option<Items>)

  predicate HasKey(d: Items, k: string) {
    exists i :: 0 <= i < |d| && d[i].0 == k
  }

  predicate DistinctKeys(d: Items) {
    forall i, j :: 0 <= i < j < |d| ==> d[i].0 != d[j].0
  }

  /** `d.get(k)` for a dict: the value of the first item with key `k`. */
  function Get(d: Items, k: string): (r: Option<string>)
    ensures r.Some? <==> HasKey(d, k)
    decreases |d|
  {
    if d == [] then None
    else if d[0].0 == k then Some(d[0].1)
    else
      var r := Get(d[1..], k);
      assert HasKey(d[1..], k) ==> HasKey(d, k) by {
        if HasKey(d[1..], k) {
          var i :| 0 <= i < |d[1..]| && d[1..][i].0 == k;
          assert d[i + 1].0 == k;
        }
      }
      r
  }

  lemma {:induction false} GetAppend(a: Items, b: Items, k: string)
    ensures Get(a + b, k) == if HasKey(a, k) then Get(a, k) else Get(b, k)
    decreases |a|
  {
    if a != [] {
      assert (a + b)[1..] == a[1..] + b;
      GetAppend(a[1..], b, k);
    } else {
      assert a + b == b;
    }
  }

  /** The items with the value of key `k`, wherever it occurs, set to `v`. */
  function Overwrite(d: Items, k: string, v: string): (r: Items)
    ensures |r| == |d|
    ensures forall i :: 0 <= i < |d| ==> r[i] == if d[i].0 == k then (k, v) else d[i]
  {
    seq(|d|, i requires 0 <= i < |d| => if d[i].0 == k then (k, v) else d[i])
  }

  lemma {:induction false} GetOverwrite(d: Items, k: string, v: string, j: string)
    ensures Get(Overwrite(d, k, v), j) == if j == k && HasKey(d, k) then Some(v) else Get(d, j)
    decreases |d|
  {
    if d != [] {
      assert Overwrite(d, k, v)[1..] == Overwrite(d[1..], k, v);
      GetOverwrite(d[1..], k, v, j);
      if j == k && HasKey(d, k) && d[0].0 != k {
        var i :| 0 <= i < |d| && d[i].0 == k;
        assert d[1..][i - 1].0 == k;
      }
    }
  }

  /** `d[k] = v` on a dict: the value replaced in place when `k` is a key,
      otherwise a new item at the end. */
  function SetItem(d: Items, k: string, v: string): Items {
    if HasKey(d, k) then Overwrite(d, k, v) else d + [(k, v)]
  }

  lemma GetSetItem(d: Items, k: string, v: string, j: string)
    ensures Get(SetItem(d, k, v), j) == if j == k then Some(v) else Get(d, j)
  {
    if HasKey(d, k) {
      GetOverwrite(d, k, v, j);
    } else {
      GetAppend(d, [(k, v)], j);
    }
  }

  /** What `params.update(options)` leaves: each key reads its option when the
      options have it and its old value otherwise, the old keys keep their
      places, and every added item is an option. */
  ghost predicate Merged(r: Items, params: Items, options: Items) {
    && (forall k :: Get(r, k) == if HasKey(options, k) then Get(options, k) else Get(params, k))
    && |params| <= |r|
    && (forall i :: 0 <= i < |params| ==> r[i].0 == params[i].0)
    && (forall i :: |params| <= i < |r| ==> r[i] in options)
  }

  /** With distinct option keys, an option's key is new among the options before it. */
  lemma KeyIsNew(options: Items, n: int)
    requires DistinctKeys(options) && 0 <= n < |options|
    ensures !HasKey(options[..n], options[n].0)
  {
    forall i | 0 <= i < n ensures options[..n][i].0 != options[n].0 {
      assert options[..n][i] == options[i];
    }
  }

  /** The dict after `params.update(options)`: the options set one by one. */
  function Updated(params: Items, options: Items): Items
    decreases |options|
  {
    if options == [] then params
    else
      var last := options[|options| - 1];
      SetItem(Updated(params, options[..|options| - 1]), last.0, last.1)
  }

  /** What the first `n` options have done to `params`. */
  ghost predicate MergedSoFar(r: Items, params: Items, options: Items, n: int)
    requires 0 <= n <= |options|
  {
    && (forall k :: Get(r, k) == if HasKey(options[..n], k) then Get(options[..n], k) else Get(params, k))
    && |params| <= |r|
    && (forall i :: 0 <= i < |params| ==> r[i].0 == params[i].0)
    && (forall i :: |params| <= i < |r| ==> r[i] in options[..n])
  }

  lemma UpdateStep(r: Items, params: Items, options: Items, n: int)
    requires DistinctKeys(options) && 0 <= n < |options|
    requires MergedSoFar(r, params, options, n)
    ensures MergedSoFar(SetItem(r, options[n].0, options[n].1), params, options, n + 1)
    ensures DistinctKeys(r) ==> DistinctKeys(SetItem(r, options[n].0, options[n].1))
  {
    var (k, v) := options[n];
    var r' := SetItem(r, k, v);
    assert options[..n + 1] == options[..n] + [(k, v)];
    KeyIsNew(options, n);
    forall j ensures Get(r', j) == if HasKey(options[..n + 1], j) then Get(options[..n + 1], j) else Get(params, j) {
      GetSetItem(r, k, v, j);
      GetAppend(options[..n], [(k, v)], j);
    }
    forall i | |params| <= i < |r'| ensures r'[i] in options[..n + 1] {
      if i < |r| && r'[i] == r[i] {
        assert r[i] in options[..n];
      }
    }
  }

  /** `params.update(options)`, item by item. */
  method Update(params: Items, options: Items) returns (r: Items)
    requires DistinctKeys(options)
    ensures r == Updated(params, options)
    ensures Merged(r, params, options)
    ensures DistinctKeys(params) ==> DistinctKeys(r)
  {
    r := params;
    for n := 0 to |options|
      invariant r == Updated(params, options[..n])
      invariant MergedSoFar(r, params, options, n)
      invariant DistinctKeys(params) ==> DistinctKeys(r)
    {
      UpdateStep(r, params, options, n);
      assert options[..n + 1][..n] == options[..n];
      r := SetItem(r, options[n].0, options[n].1);
    }
    assert options[..|options|] == options;
  }

  /** `_make_multi_logids`: one `('logid', id)` pair per id, in order and with
      repeats kept, then the option items. */
  function MakeMultiLogids(ids: seq<string>, options: Items): (r: Items)
    ensures |r| == |ids| + |options|
    ensures forall i :: 0 <= i < |ids| ==> r[i] == ("logid", ids[i])
    ensures r[|ids|..] == options
  {
    seq(|ids|, i requires 0 <= i < |ids| => ("logid", ids[i])) + options
  }

  /** The pair list turns back into the ids and the options. */
  lemma MultiLogidsSplit(ids: seq<string>, options: Items)
    ensures var r := MakeMultiLogids(ids, options);
      && seq(|ids|, i requires 0 <= i < |ids| => r[i].1) == ids
      && r[|ids|..] == options
  {
  }

  /** The endpoints of the NVCL data services. */
  class ServiceInterface {
    const nvclUrl: string
    const timeout: int

    constructor(nvclUrl: string, timeout: int)
      ensures this.nvclUrl == nvclUrl && this.timeout == timeout
    {
      this.nvclUrl := nvclUrl;
      this.timeout := timeout;
    }

    method GetAlgorithms() returns (req: HttpRequest)
      ensures req == HttpRequest(nvclUrl + "/getAlgorithms.html", None)
    {
      req := HttpRequest(nvclUrl + "/getAlgorithms.html", None);
    }

    method GetDatasetCollection(nvclId: string, options: Items) returns (req: HttpRequest)
      requires DistinctKeys(options)
      ensures req == HttpRequest(nvclUrl + "/getDatasetCollection.html", Some(Updated([("holeidentifier", nvclId)], options)))
      ensures Merged(req.params.value, [("holeidentifier", nvclId)], options)
    {
      var params := Update([("holeidentifier", nvclId)], options);
      req := HttpRequest(nvclUrl + "/getDatasetCollection.html", Some(params));
    }

    method GetMosaic(logId: string, options: Items) returns (req: HttpRequest)
      requires DistinctKeys(options)
      ensures req == HttpRequest(nvclUrl + "/mosaic.html", Some(Updated([("logid", logId)], options)))
      ensures Merged(req.params.value, [("logid", logId)], options)
    {
      var params := Update([("logid", logId)], options);
      req := HttpRequest(nvclUrl + "/mosaic.html", Some(params));
    }

    method GetMosaicTrayThumbnail(datasetId: string, logId: string, options: Items) returns (req: HttpRequest)
      requires DistinctKeys(options)
      ensures req == HttpRequest(nvclUrl + "/mosaictraythumbnail.html", Some(Updated([("datasetid", datasetId), ("logid", logId)], options)))
      ensures Merged(req.params.value, [("datasetid", datasetId), ("logid", logId)], options)
    {
      var params := Update([("datasetid", datasetId), ("logid", logId)], options);
      req := HttpRequest(nvclUrl + "/mosaictraythumbnail.html", Some(params));
    }

    method GetDisplayTrayThumb(logId: string, sampleNo: string) returns (req: HttpRequest)
      ensures req == HttpRequest(nvclUrl + "/Display_Tray_Thumb.html", Some([("logid", logId), ("sampleno", sampleNo)]))
    {
      req := HttpRequest(nvclUrl + "/Display_Tray_Thumb.html", Some([("logid", logId), ("sampleno", sampleNo)]));
    }

    method GetImageTrayDepth(logId: string) returns (req: HttpRequest)
      ensures req == HttpRequest(nvclUrl + "/getImageTrayDepth.html", Some([("logid", logId)]))
    {
      req := HttpRequest(nvclUrl + "/getImageTrayDepth.html", Some([("logid", logId)]));
    }

    method GetPlotScalar(logId: string, options: Items) returns (req: HttpRequest)
      requires DistinctKeys(options)
      ensures req == HttpRequest(nvclUrl + "/plotscalar.html", Some(Updated([("logid", logId)], options)))
      ensures Merged(req.params.value, [("logid", logId)], options)
    {
      var params := Update([("logid", logId)], options);
      req := HttpRequest(nvclUrl + "/plotscalar.html", Some(params));
    }

    /** No ids: the empty string comes back and nothing is sent. */
    method GetPlotMultiScalar(ids: seq<string>, options: Items) returns (req: Option<HttpRequest>)
      ensures req.None? <==> ids == []
      ensures req.Some? ==> req.value == HttpRequest(nvclUrl + "/plotmultiscalars.html", Some(MakeMultiLogids(ids, options)))
    {
      var url := nvclUrl + "/plotmultiscalars.html";
      if ids == [] {
        return None;
      }
      req := Some(HttpRequest(url, Some(MakeMultiLogids(ids, options))));
    }

    method DownloadScalar(ids: seq<string>) returns (req: HttpRequest)
      ensures req == HttpRequest(nvclUrl + "/downloadscalars.html", Some(MakeMultiLogids(ids, [])))
    {
      req := HttpRequest(nvclUrl + "/downloadscalars.html", Some(MakeMultiLogids(ids, [])));
    }

    method DownloadTsg(email: string, datasetId: string, options: Items) returns (req: HttpRequest)
      requires DistinctKeys(options)
      ensures req == HttpRequest(nvclUrl + "/downloadtsg.html", Some(Updated([("email", email), ("datasetid", datasetId)], options)))
      ensures Merged(req.params.value, [("email", email), ("datasetid", datasetId)], options)
    {
      var params := Update([("email", email), ("datasetid", datasetId)], options);
      req := HttpRequest(nvclUrl + "/downloadtsg.html", Some(params));
    }

    method GetDownloadTsgStatus(email: string) returns (req: HttpRequest)
      ensures req == HttpRequest(nvclUrl + "/checktsgstatus.html", Some([("email", email)]))
    {
      req := HttpRequest(nvclUrl + "/checktsgstatus.html", Some([("email", email)]));
    }

    method DownloadWfs(email: string, boreholeId: string, options: Items) returns (req: HttpRequest)
      requires DistinctKeys(options)
      ensures req == HttpRequest(nvclUrl + "/downloadwfs.html", Some(Updated([("email", email), ("boreholeid", boreholeId)], options)))
      ensures Merged(req.params.value, [("email", email), ("boreholeid", boreholeId)], options)
    {
      var params := Update([("email", email), ("boreholeid", boreholeId)], options);
      req := HttpRequest(nvclUrl + "/downloadwfs.html", Some(params));
    }

    method DownloadWfsStatus(email: string) returns (req: HttpRequest)
      ensures req == HttpRequest(nvclUrl + "/checkwfsstatus.html", Some([("email", email)]))
    {
      req := HttpRequest(nvclUrl + "/checkwfsstatus.html", Some([("email", email)]));
    }

    /** `mosaicsvc` is "yes" exactly when the mosaic service is asked for. */
    method GetLogCollection(datasetId: string, useMosaic: bool) returns (req: HttpRequest)
      ensures req.url == nvclUrl + "/getLogCollection.html"
      ensures req.params.Some? && Get(req.params.value, "datasetid") == Some(datasetId)
      ensures Get(req.params.value, "mosaicsvc") == Some(if useMosaic then "yes" else "no")
      ensures req.params.value == [("datasetid", datasetId), ("mosaicsvc", req.params.value[1].1)]
    {
      var mosaicSvc := "no";
      if useMosaic {
        mosaicSvc := "yes";
      }
      req := HttpRequest(nvclUrl + "/getLogCollection.html", Some([("datasetid", datasetId), ("mosaicsvc", mosaicSvc)]));
    }

    method GetSpectralData(specLogId: string, options: Items) returns (req: HttpRequest)
      requires DistinctKeys(options)
      ensures req == HttpRequest(nvclUrl + "/getspectraldata.html", Some(Updated([("speclogid", specLogId)], options)))
      ensures Merged(req.params.value, [("speclogid", specLogId)], options)
    {
      var params := Update([("speclogid", specLogId)], options);
      req := HttpRequest(nvclUrl + "/getspectraldata.html", Some(params));
    }

    method GetDownsampledData(logId: string, options: Items) returns (req: HttpRequest)
      requires DistinctKeys(options)
      ensures req == HttpRequest(nvclUrl + "/getDownsampledData.html", Some(Updated([("logid", logId)], options)))
      ensures Merged(req.params.value, [("logid", logId)], options)
    {
      var params := Update([("logid", logId)], options);
      req := HttpRequest(nvclUrl + "/getDownsampledData.html", Some(params));
    }
  }

}
