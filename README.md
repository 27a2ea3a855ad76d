# nvcl_kit borehole catalogue, modelled in Dafny

`nvcl_kit` reads data from Australia's National Virtual Core Library (NVCL):

- a Web Feature Service (WFS) serves GeoSciML `BoreholeView` features;
- the NVCL data services serve the datasets, logs, tray images and mineral
  classes of each borehole.

The project models the core of `nvcl_kit.reader.NVCLReader` and its request
builder, `svc_interface.py`. It covers:

- construction: the parameter object is checked in a fixed order, and any
  missing optional attribute is written back with its default;
- the WFS fetch, in its three modes: server-filtered, paged with local
  filtering, and unsupported;
- turning the fetched features into the borehole catalogue: NVCL id,
  collection flag, coordinates and axis order, strict bounding-box test and
  cap;
- the list getters, whose "keep if" rules apply to the children of an NVCL
  reply;
- the mineral-class-by-depth result of `get_borehole_data`;
- the NVCL request URLs and parameter lists.

The modules follow the program:

| file | module | models |
|---|---|---|
| `wrappers.dfy` | `Wrappers` | `Option`, `Result`, the Python exceptions that escape |
| `pystr.dfy` | `PyStr` | the Python string built-ins the reader relies on |
| `config.dfy` | `Config` | the parameter checks and defaults of `__init__`, as a function |
| `wfs.dfy` | `Wfs` | the GetFeature requests and replies; `_wfs_getfeature` as a function |
| `catalogue.dfy` | `Catalogue` | one feature to one borehole record; the catalogue of `_fetch_borehole_list` |
| `svc.dfy` | `Svc` | `_ServiceInterface`: endpoint URLs, `params.update(options)`, `_make_multi_logids` |
| `loglists.dfy` | `LogLists` | the per-child rules of the list getters, and what a whole reply lists |
| `mineral.dfy` | `Mineral` | `bgr2rgba`, and the sort/group/filter/max of `get_borehole_data` |
| `reader.dfy` | `Reader` | the `NVCLReader` class: construction, the fetch loops, the getters |

The source's imperative parts stay imperative:

- `Reader.ValidateInPlace` writes the defaults into a `ParamObject` instance
  that the caller keeps.
- `Reader.NVCLReader.Open` is the constructor call. It sets the reader's
  fields `wfs`, `boreholeList` and `svc`.
- `WfsGetFeature` and `AppendCatalogue` are the `while not done` and
  `for … break` loops.
- Every getter is a loop that appends to a list.

Each method is proved against a specification function of the functional
modules, and the properties are lemmas about those functions.

The services are modelled as parameters:

- The WFS is a function from request to reply.
- Each NVCL endpoint is a function from the built `HttpRequest` to the reply
  that parsing its body gives.
- Python's `float()` and `int()` on text are the parameters `parse` and
  `parseInt`.

The reader counts as ready when `wfs` is set: `Reader.NVCLReader.Ready()`.

Where the code and its tests disagree, the model follows the code:

- A malformed WFS body, or one that is not ASCII, raises out of
  `_wfs_getfeature` (nvcl_kit/reader.py:696-700). The result is not `[]`.
- In the paged mode, a failed request reaches a handler that logs
  `filterxml`. That variable is bound only in the server-filtered branch, so
  the handler raises `NameError` (`Wfs.Paged`) instead of returning the
  pages read so far.
- A one-token `gml:pos` raises `IndexError` at `x_y[1]`. An empty
  `WFS_VERSION` raises `IndexError` at `[0]`.
- `get_borehole_data` builds each entry as `{'className': class_name,
  **max_elem}`. A measurement that has a `className` field of its own
  therefore overrides the argument (`Mineral.EntryOf`).
- `_filter_mosaic_logs` falls back to `0.0`, a float, when `SampleCount`
  does not parse. It falls back to `0`, an int, when `SampleCount` is absent
  (`LogLists.SampleCount`).
- `bool` is an `int` in Python. `MAX_BOREHOLES = True` and `True`/`False`
  bounding-box edges pass the integer and number checks (`Config.IsInt`).
- `reader.py` imports `ServiceInterface`, but `svc_interface.py` defines
  `_ServiceInterface`. The model treats them as one class,
  `Svc.ServiceInterface`.
- A reader built from a parameter object that is not a namespace, or that
  fails a check, has no `svc` attribute. Calling a getter on it raises
  `AttributeError`, and each getter models that case.

## Model

| member | source | states |
|---|---|---|
| Config.Validate | nvcl_kit/reader.py:132-200 | the checks of `__init__` in source order with the write-backs; its properties are the three lemmas below |
| Config.ValidateStopsAtFirstFailure | nvcl_kit/reader.py:132-200 | the verdict names a check that fails, every earlier check passes, acceptance means no check fails; the only raise is the version check on "" |
| Config.ValidateWritesOnlyDefaults | nvcl_kit/reader.py:138-200 | given attributes are never changed; an absent optional attribute receives its default exactly when validation got past the check that writes it |
| Config.AcceptedConfigUsesDefaults | nvcl_kit/reader.py:138-200 | an accepted configuration holds the given values, and -180/-90/180/0, EPSG:4326, 1.1.0, 0 and False for the absent ones |
| Config.NoEdgeErrorMeansEdgesPresent | nvcl_kit/reader.py:145-153 | a bounding box that passes has all four edges, each a number |
| Config.EdgeError | nvcl_kit/reader.py:145-153 | reports the first of west, south, east, north that is missing or not a number |
| Config.DefaultCrsAccepted | nvcl_kit/reader.py:172-178 | the default CRS EPSG:4326 passes the CRS check |
| Config.AcceptedCrsShape | nvcl_kit/reader.py:174-178 | an accepted CRS has an `EPSG:` before its four final digits, so it is at least nine characters long |
| Config.LowerCaseEpsgAccepted | nvcl_kit/reader.py:174-178 | the `EPSG:` test is case-insensitive: "epsg:4283" is accepted |
| Config.OrDefault | nvcl_kit/reader.py:139-140 | an absent attribute reads as its default, a present one as itself |
| Reader.ValidateInPlace | nvcl_kit/reader.py:132-200 | the namespace afterwards and the verdict are exactly what `Config.Validate` gives on its old attributes |
| Reader.ParamObject.constructor | nvcl_kit/reader.py:132-136 | the namespace holds the attributes it is given |
| Reader.Startup | nvcl_kit/reader.py:129-221 | the reader is ready exactly when the parameters are accepted, the fetch succeeds with features and their catalogue does not raise, and it then holds that catalogue, inside the box with ids free of `.`; a fetch of no features leaves it unready with no boreholes and the fetch's requests sent; it raises exactly when the version check, the fetch or the catalogue raises; an unready reader has no boreholes |
| Reader.RefusedParamsLeaveReaderIdle | nvcl_kit/reader.py:129-200 | a parameter object that is not a namespace or fails a check leaves the reader unready, with no boreholes, no service interface and no request sent, and only then |
| Reader.SentWhenFetched | nvcl_kit/reader.py:678-732 | a fetch that yields features has sent at least one request |
| Reader.NVCLReader.constructor | nvcl_kit/reader.py:129-130 | `wfs` is None and `borehole_list` empty before the parameters are looked at |
| Reader.NVCLReader.Open | nvcl_kit/reader.py:99-221 | the namespace gets its defaults; the reader's readiness, boreholes, service URL and requests are those of `Startup`, or the exception it names escapes; the reader keeps its invariant |
| Reader.NVCLReader.WfsGetFeature | nvcl_kit/reader.py:678-732 | the features and the requests sent are those of `Wfs.GetFeatures` and `Wfs.RequestsSent` |
| Reader.NVCLReader.FetchBoreholeList | nvcl_kit/reader.py:735-831 | a failed fetch raises and nothing is fetched; no features gives False with the list unchanged; otherwise the catalogue is appended and True returned, or the first crash raises after the records before it were appended |
| Reader.NVCLReader.AppendCatalogue | nvcl_kit/reader.py:749-831 | the loop appends exactly `Catalogue.Catalogue`, or raises at the first crashing element having appended the qualifying records before it |
| Reader.NVCLReader.AddCollar | nvcl_kit/reader.py:754-823 | one element is normalised and appended exactly when it is a record inside the box |
| Reader.NVCLReader.NvclIdList | nvcl_kit/reader.py:668-675 | one id per borehole in order, each free of `.` for a valid reader |
| Reader.NVCLReader.GetDatasetIdList | nvcl_kit/reader.py:273-287 | the reply to the dataset collection request for the borehole, listed by `LogLists.DatasetIdOf`; `AttributeError` without a service interface |
| Reader.NVCLReader.GetDatasetList | nvcl_kit/reader.py:290-317 | the reply to the dataset collection request, listed by `LogLists.DatasetOf` |
| Reader.NVCLReader.FilterMosaicLogs | nvcl_kit/reader.py:366-392 | the reply to the log collection request with mosaicsvc=yes, listed by `LogLists.MosaicLogOf` for the target name |
| Reader.NVCLReader.GetImglogs | nvcl_kit/reader.py:320-363 | the five image-log getters: the mosaic-log filter with their fixed target names |
| Reader.NVCLReader.GetTrayDepths | nvcl_kit/reader.py:430-450 | the reply to the tray depth request, listed by `LogLists.TrayDepthOf` |
| Reader.NVCLReader.GetScalarLogs | nvcl_kit/reader.py:453-481 | the reply to the log collection request with mosaicsvc=no, listed by `LogLists.ScalarLogOf` |
| Reader.NVCLReader.GetImagelogData | nvcl_kit/reader.py:554-576 | the reply to the dataset collection request, listed by `LogLists.ImageLogOf` |
| Reader.NVCLReader.SpectralLogFor | nvcl_kit/reader.py:596-614 | the record built for one child is `LogLists.SpectralLogOf` of it |
| Reader.NVCLReader.GetSpectrallogData | nvcl_kit/reader.py:579-615 | every spectral log of the reply, with its script parsed and its wavelengths converted, as `LogLists.SpectralLogOf` |
| Reader.ParseScript | nvcl_kit/reader.py:601-608 | the script dict is `LogLists.ScriptAfter` over all the assignments |
| Reader.ListChildren | nvcl_kit/reader.py:279-287 | a getter's loop: [] for no response, `ParseError` for a malformed body, otherwise what the per-child rule keeps, in order |
| Reader.NVCLReader.GetBoreholeData | nvcl_kit/reader.py:224-270 | the downsampled-data request with interval, json output and depths 0 to 10000, and `Mineral.BoreholeData` of its reply |
| Reader.DownsampleOptions | nvcl_kit/reader.py:234-236 | the options `get_borehole_data` passes have distinct keys |
| Reader.NVCLReader.PlotScalarsHtml | nvcl_kit/reader.py:529-551 | the multi-scalar plot request for the first six ids, none for no ids |
| Wfs.ModeOf | nvcl_kit/reader.py:681-732 | server filtering exactly without local filtering; paging exactly with local filtering under version 2.0.0 |
| Wfs.FilteredRequest | nvcl_kit/reader.py:682-695 | one request with the NVCL filter; `srsname` is the CRS exactly when the version is not 2.0.0 |
| Wfs.Pages | nvcl_kit/reader.py:705-722 | the `i`-th paged request is page `i` |
| Wfs.PagesRead | nvcl_kit/reader.py:704-729 | the paged loop reads at least one page and no page past the known stopping page |
| Wfs.RequestsSent | nvcl_kit/reader.py:678-732 | one request when the server filters, none when local filtering is unsupported |
| Wfs.Paged | nvcl_kit/reader.py:704-731 | a successful paging read a document at its first page, whose members come first; a fault at the first page is `NameError` |
| Wfs.GetFeatures | nvcl_kit/reader.py:678-732 | the unsupported mode yields []; in the server-filtered mode the fetch fails exactly when the service raises, and a document yields exactly its members; the paged mode is `Wfs.Paged` from page 0, the concatenation of the pages read |
| Wfs.PagedStopsAtFirstStop | nvcl_kit/reader.py:704-729 | the last page read is the first that stops the loop; every earlier page said more records follow |
| Wfs.PagedIsConcatenation | nvcl_kit/reader.py:704-731 | paging succeeds exactly when every page read is a document, and then yields the pages' members in page order; a failure is the last page's `NameError` or exception |
| Wfs.PagedIgnoresBound | nvcl_kit/reader.py:704-731 | what paging yields does not depend on which stopping page is known |
| Wfs.PagedRequestsAdvance | nvcl_kit/reader.py:704-724 | page requests start at 0, 10000, 20000, …, ask for 10000 records, and carry no filter or spatial reference |
| Wfs.ServerFaultGivesNothing | nvcl_kit/reader.py:697-699 | a failed server-filtered request gives [] |
| Catalogue.NvclId | nvcl_kit/reader.py:758-767 | the text after the last `.` of the GML id attribute (GML 3.2 under 2.0.0), or of the bare `id` when that is empty; never contains `.` |
| Catalogue.CollectionFlag | nvcl_kit/reader.py:769-772 | an element is kept exactly when its `nvclCollection` spells "true" in any case; a missing flag is never kept |
| Catalogue.CoordTokens | nvcl_kit/reader.py:776-782 | the coordinate text splits into at least one token |
| Catalogue.AxisOrder | nvcl_kit/reader.py:776-791 | x is the first token only for EPSG:4326 `gml:pos` text; otherwise, the WKT fallback included, y is the first token |
| Catalogue.Normalise | nvcl_kit/reader.py:758-812 | an element is skipped as not NVCL exactly when its collection flag is not "true"; a crash is always `IndexError` |
| Catalogue.NormaliseCases | nvcl_kit/reader.py:776-794 | for an NVCL element: a first coordinate that does not parse, or a second one after a first that does, gives `Unparsed` (the loop's `continue`); a single token that parses raises `IndexError`, and only a single token can raise; two tokens that parse give a record |
| Catalogue.RecordFields | nvcl_kit/reader.py:759-809 | a record carries the element's NVCL id, the identifier text as `href`, the other tags as details, and as `z` the float of `elevation_m` (text "0.0" when missing), or 0.0 when it does not parse |
| Catalogue.InBox | nvcl_kit/reader.py:818-821 | the test is strict, so a box that holds any point has west < east and south < north |
| Catalogue.Build | nvcl_kit/reader.py:753-827 | from a point where `count` records are kept under a cap of N > 0, a result adds at most N - count records |
| Catalogue.Catalogue | nvcl_kit/reader.py:735-831 | a catalogue under a cap N > 0 has at most N records; a failure is `IndexError` |
| Catalogue.FirstCrash | nvcl_kit/reader.py:786-791 | the index of the first element that raises, or the length when none does; no element before it raises |
| Catalogue.BuildByFirstCrash | nvcl_kit/reader.py:753-827 | the loop reaches the cap before the first crashing element and returns those records, or else raises at that element, or else keeps every qualifying record |
| Catalogue.BuildIsCappedSelection | nvcl_kit/reader.py:818-827 | the same from the start of the loop, on any normalised list |
| Catalogue.SinglePosIsOneToken | nvcl_kit/reader.py:776-778 | a `gml:pos` text without a space (one number, say) is the single coordinate token, taken from `gml:pos` and not the WKT fallback; with `Catalogue.SingleTokenRaises` such a collar that parses raises `IndexError` |
| Catalogue.CollarStart | nvcl_kit/reader.py:749-753 | before the loop nothing is kept and the whole loop is ahead |
| Catalogue.CollarStep | nvcl_kit/reader.py:753-829 | one turn of the loop: a crash raises at the first crashing element; otherwise the record joins the kept list and the cap ends the loop or the next element follows |
| Catalogue.CollarEnd | nvcl_kit/reader.py:829-831 | after the last element the loop has returned what it kept |
| Catalogue.SingleTokenRaises | nvcl_kit/reader.py:776-791 | an NVCL element whose coordinate text is one token that parses raises `IndexError`, whichever axis order applies |
| Catalogue.Details | nvcl_kit/reader.py:800-803 | one text per GSMLP tag other than `identifier`, each defaulting to "" |
| Catalogue.NormaliseAllAt | nvcl_kit/reader.py:753-756 | entry `i` of the normalised list is element `i` normalised: the loop visits the elements in order |
| Catalogue.CatalogueIsCappedSelection | nvcl_kit/reader.py:753-831 | when the records before the first crashing element reach a cap N > 0, the catalogue is the first N of them; otherwise a crashing element gives `IndexError`; without a crash, the first N qualifying records (all when N <= 0 or fewer qualify) |
| Catalogue.BuildIsCappedQualifying | nvcl_kit/reader.py:753-827 | the loop from any point is the capped rest of the qualifying records |
| Catalogue.BuildIsPrefixOfQualifying | nvcl_kit/reader.py:753-827 | a catalogue is always a prefix of the qualifying records; a failure is the `IndexError` of some element |
| Catalogue.QualifyingEmbeds | nvcl_kit/reader.py:753-823 | the qualifying records come from the elements in increasing order |
| Catalogue.QualifyingInsideBox | nvcl_kit/reader.py:818-821 | every qualifying record lies strictly inside the box |
| Catalogue.QualifyingAppend | nvcl_kit/reader.py:753-823 | selection distributes over concatenation of the element lists |
| Catalogue.CatalogueRecords | nvcl_kit/reader.py:763-823 | every catalogue entry is strictly inside the box and has an id without `.` |
| Catalogue.RecordId | nvcl_kit/reader.py:763-773 | a record carries its element's NVCL id |
| Catalogue.BuildStep | nvcl_kit/reader.py:753-827 | one turn of the loop: the catalogue from an element is that element's step followed by the catalogue from the next |
| Catalogue.BuildAdvance | nvcl_kit/reader.py:753-827 | taking one element leaves its crash, the capped result or the same view one element further |
| Svc.ServiceInterface.constructor | nvcl_kit/svc_interface.py:41-47 | the interface keeps the service URL and timeout |
| Svc.ServiceInterface.GetAlgorithms | nvcl_kit/svc_interface.py:49-53 | the algorithms URL, no parameters |
| Svc.ServiceInterface.GetDatasetCollection | nvcl_kit/svc_interface.py:55-70 | URL + `/getDatasetCollection.html`; `holeidentifier` updated by the options |
| Svc.ServiceInterface.GetMosaic | nvcl_kit/svc_interface.py:72-85 | URL + `/mosaic.html`; `logid` updated by the options |
| Svc.ServiceInterface.GetMosaicTrayThumbnail | nvcl_kit/svc_interface.py:87-101 | URL + `/mosaictraythumbnail.html`; `datasetid`, `logid` updated by the options |
| Svc.ServiceInterface.GetDisplayTrayThumb | nvcl_kit/svc_interface.py:103-111 | URL + `/Display_Tray_Thumb.html` with `logid`, `sampleno` |
| Svc.ServiceInterface.GetImageTrayDepth | nvcl_kit/svc_interface.py:113-120 | URL + `/getImageTrayDepth.html` with `logid` |
| Svc.ServiceInterface.GetPlotScalar | nvcl_kit/svc_interface.py:122-139 | URL + `/plotscalar.html`; `logid` updated by the options |
| Svc.ServiceInterface.GetPlotMultiScalar | nvcl_kit/svc_interface.py:141-161 | no request exactly when there are no ids; otherwise the multi-logid pairs |
| Svc.ServiceInterface.DownloadScalar | nvcl_kit/svc_interface.py:163-171 | URL + `/downloadscalars.html` with one `logid` pair per id |
| Svc.ServiceInterface.DownloadTsg | nvcl_kit/svc_interface.py:173-190 | URL + `/downloadtsg.html`; `email`, `datasetid` updated by the options |
| Svc.ServiceInterface.GetDownloadTsgStatus | nvcl_kit/svc_interface.py:192-198 | URL + `/checktsgstatus.html` with `email` |
| Svc.ServiceInterface.DownloadWfs | nvcl_kit/svc_interface.py:200-216 | URL + `/downloadwfs.html`; `email`, `boreholeid` updated by the options |
| Svc.ServiceInterface.DownloadWfsStatus | nvcl_kit/svc_interface.py:218-224 | URL + `/checkwfsstatus.html` with `email` |
| Svc.ServiceInterface.GetLogCollection | nvcl_kit/svc_interface.py:226-240 | `datasetid` is the argument and `mosaicsvc` is "yes" exactly when the mosaic service is asked for, "no" otherwise |
| Svc.ServiceInterface.GetSpectralData | nvcl_kit/svc_interface.py:242-254 | URL + `/getspectraldata.html`; `speclogid` updated by the options |
| Svc.ServiceInterface.GetDownsampledData | nvcl_kit/svc_interface.py:256-270 | URL + `/getDownsampledData.html`; `logid` updated by the options |
| Svc.Update | nvcl_kit/svc_interface.py:68-69 | `params.update(options)`: each key reads its option when there is one and its fixed value otherwise, fixed keys keep their places, added items are options, distinct keys stay distinct |
| Svc.UpdateStep | nvcl_kit/svc_interface.py:68-69 | setting one more option keeps the merge invariant and distinct keys |
| Svc.GetSetItem | nvcl_kit/svc_interface.py:68-69 | `d[k] = v` makes `k` read `v` and leaves every other key alone |
| Svc.GetOverwrite | nvcl_kit/svc_interface.py:68-69 | replacing a key's value in place changes only what that key reads |
| Svc.GetAppend | nvcl_kit/svc_interface.py:68-69 | a key reads from the first part that has it |
| Svc.KeyIsNew | nvcl_kit/svc_interface.py:68-69 | with distinct option keys, each option's key is new among the options before it |
| Svc.MakeMultiLogids | nvcl_kit/svc_interface.py:297-306 | one `('logid', id)` pair per id, in order with repeats, then the options; length is ids plus options |
| Svc.MultiLogidsSplit | nvcl_kit/svc_interface.py:297-306 | the pair list gives back the ids and the options |
| LogLists.Listing | nvcl_kit/reader.py:279-287 | [] for no response; `ParseError` for a malformed body |
| LogLists.CollectMembers | nvcl_kit/reader.py:283-286 | an item is listed exactly when some child yields it |
| LogLists.Collect | nvcl_kit/reader.py:283-286 | never more items than children |
| LogLists.CollectStep | nvcl_kit/reader.py:283-286 | one more child appends exactly what it yields |
| LogLists.CollectAppend | nvcl_kit/reader.py:283-286 | listing is child by child: a split child list lists to the split result |
| LogLists.DatasetIdOf | nvcl_kit/reader.py:283-286 | a dataset id is kept exactly when `DatasetID` is present and non-empty, and it is that text |
| LogLists.DatasetsHaveListedIds | nvcl_kit/reader.py:283-316 | every dataset listed has an id the id getter lists |
| LogLists.DatasetOf | nvcl_kit/reader.py:300-316 | kept exactly when id and name are non-empty; each optional attribute only when non-empty |
| LogLists.FilledText | nvcl_kit/reader.py:284-285 | `findtext(default=None)` tested for truth: present and non-empty |
| LogLists.MosaicLogOf | nvcl_kit/reader.py:378-391 | kept exactly when id and name are non-empty and the name matches the target ignoring case, or the target is `*` |
| LogLists.SampleCount | nvcl_kit/reader.py:382-384 | absent: the int 0; present: the float 0.0 exactly when the text does not parse, else the int it parses to |
| LogLists.StarKeepsAll | nvcl_kit/reader.py:320-327 | `*` keeps every log with an id and a name |
| LogLists.MosaicMatchesAnyCase | nvcl_kit/reader.py:329-336 | the `Mosaic` getter keeps names spelling "mosaic" in any case |
| LogLists.TrayDepthOf | nvcl_kit/reader.py:440-449 | kept exactly when sample number, start and end are all non-empty |
| LogLists.ScalarLogOf | nvcl_kit/reader.py:464-480 | kept exactly when not flagged private, id, name and algorithm id are non-empty and the type is 1, 2, 5 or 6 |
| LogLists.ScalarPrivacyIgnoresCase | nvcl_kit/reader.py:466-472 | a scalar log is dropped as private exactly when its `ispublic` spells "false" in any case |
| LogLists.ImageLogOf | nvcl_kit/reader.py:567-575 | kept exactly when `ispublic` is exactly "true" and name, type and id are non-empty |
| LogLists.ImageLogFlagIsCaseSensitive | nvcl_kit/reader.py:568-574 | "TRUE" or a missing flag does not make an image log public |
| LogLists.Assignments | nvcl_kit/reader.py:602-606 | `'; '` becomes `';'`, the text is split on `;`, each part partitioned at its first `=` |
| LogLists.ScriptBindsLastAssignment | nvcl_kit/reader.py:605-608 | the script binds exactly the names some assignment sets, to the value of the last one that sets it |
| LogLists.ParseAll | nvcl_kit/reader.py:610-613 | a list exactly when every token parses, then one value per token |
| LogLists.Wavelengths | nvcl_kit/reader.py:609-613 | a non-empty list exactly when every comma-separated token parses, and then one value per token, in order; otherwise [] |
| LogLists.SpectralLogOf | nvcl_kit/reader.py:596-614 | an absent `sampleCount` gives 0; a non-empty wavelength list has one value per token |
| LogLists.SpectralLogFields | nvcl_kit/reader.py:594-614 | id, name and units are the texts with "" defaults; a present `sampleCount` gives its `int()`, or the integer 0 when that fails; the raw script is kept and the script is the last-assignment binding of its assignments; the wavelengths are `LogLists.Wavelengths` of the text |
| LogLists.EmptyWavelengths | nvcl_kit/reader.py:609-613 | an absent wavelength text gives [] when "" does not parse |
| LogLists.FirstSix | nvcl_kit/reader.py:551 | at most six ids, a prefix of the list, all of it when there are six or fewer |
| Mineral.Bgr2Rgba | nvcl_kit/reader.py:86-92 | red and green are bytes and the colour is red + 256 green + 65536 blue |
| Mineral.ChannelsRoundTrip | nvcl_kit/reader.py:86-92 | channels made into a colour convert back to themselves |
| Mineral.SortByDepth | nvcl_kit/reader.py:249 | the stable sort on `roundedDepth`; its properties are `Mineral.SortFacts` |
| Mineral.Groups | nvcl_kit/reader.py:250 | `itertools.groupby` on depth; its properties are `Mineral.GroupsAreDepthSlices`, `Mineral.GroupsIncrease` and `Mineral.GroupsCover` |
| Mineral.Entries | nvcl_kit/reader.py:250-267 | one entry per group with a valid measurement; its properties are `Mineral.EntriesFromGroups`, `Mineral.EntriesCoverGroups` and `Mineral.EntriesIncrease` |
| Mineral.ByDepth | nvcl_kit/reader.py:249-267 | sort, group and pick; its properties are the three `Mineral.ByDepth…` lemmas |
| Mineral.AtDepthCons | nvcl_kit/reader.py:249 | the measurements of one depth in a list with a head are the head's, if at that depth, then the tail's |
| Mineral.SortFacts | nvcl_kit/reader.py:249 | the stable depth sort is a sorted permutation that keeps each depth's measurements in input order |
| Mineral.InsertPermutes | nvcl_kit/reader.py:249 | inserting adds exactly the element |
| Mineral.InsertSorted | nvcl_kit/reader.py:249 | inserting into a sorted list keeps it sorted |
| Mineral.InsertKeepsDepthOrder | nvcl_kit/reader.py:249 | inserting keeps the order of every depth's measurements |
| Mineral.GroupsAreDepthSlices | nvcl_kit/reader.py:250 | each group is all the measurements of its depth |
| Mineral.GroupsIncrease | nvcl_kit/reader.py:249-250 | the groups of a sorted list have strictly increasing depths |
| Mineral.GroupsCover | nvcl_kit/reader.py:250 | every depth present has a group |
| Mineral.Valid | nvcl_kit/reader.py:252-253 | the measurements whose class text is not INVALID in any case |
| Mineral.FirstMax | nvcl_kit/reader.py:255-260 | the first measurement whose class count no other exceeds |
| Mineral.EntryOf | nvcl_kit/reader.py:261-267 | the class name (the measurement's own if it has one), converted colour, class text; the other fields are the measurement's others except `className`, with their values |
| Mineral.BoreholeData | nvcl_kit/reader.py:237-247 | nothing for an empty or non-JSON body; `UnicodeDecodeError` for bytes that are not UTF-8 |
| Mineral.ByDepthAscends | nvcl_kit/reader.py:249-267 | the entries of a decoded reply have strictly ascending depths |
| Mineral.ByDepthPicksFirstMax | nvcl_kit/reader.py:250-267 | each entry sits at a depth with a valid measurement and is the first of largest count among them |
| Mineral.ByDepthCoversValidDepths | nvcl_kit/reader.py:250-267 | every depth with a valid measurement has an entry |
| Mineral.EntriesFromGroups | nvcl_kit/reader.py:250-267 | each entry comes from some group |
| Mineral.EntriesCoverGroups | nvcl_kit/reader.py:250-267 | each group with a valid measurement gives its entry |
| Mineral.EntriesIncrease | nvcl_kit/reader.py:250-267 | entries keep the groups' increasing depths |
| PyStr.Split | nvcl_kit/reader.py:763 | `split` on one character: at least one field and no field holds the separator |
| PyStr.JoinOfSplit | nvcl_kit/reader.py:763 | joining the fields with the separator gives the text back |
| PyStr.Replace | nvcl_kit/reader.py:602 | replacing by a text no longer than the pattern never lengthens, and by one of equal length keeps the length |
| PyStr.ReplaceNoMatch | nvcl_kit/reader.py:602 | a text without the pattern is returned unchanged |
| PyStr.ReplaceFirstMatch | nvcl_kit/reader.py:602 | the first occurrence of the pattern becomes the replacement, the text before it is kept, and the rest is replaced in turn, so every non-overlapping occurrence from the left is replaced |
| PyStr.Strip | nvcl_kit/reader.py:780 | the result is no longer than the text and has no stripped character at either end |
| PyStr.StripIsSlice | nvcl_kit/reader.py:780 | the result is a slice of the text, and every character dropped on either side is the stripped one |
| PyStr.Lower | nvcl_kit/reader.py:772 | same length, each character lower-cased on ASCII |
| PyStr.Upper | nvcl_kit/reader.py:175 | same length, each character upper-cased on ASCII |
| PyStr.IsNumeric | nvcl_kit/reader.py:176 | `isnumeric` on ASCII: non-empty and all digits |
| PyStr.LastFieldIsTextAfterLastSep | nvcl_kit/reader.py:763 | `s.split('.')[-1:][0]` is the text after the last `.` |
| PyStr.SplitWithoutSep | nvcl_kit/reader.py:776-778 | a text without the separator splits into itself |
| PyStr.Partition | nvcl_kit/reader.py:782 | `partition`: the text before the first separator, whether there was one, the rest |
| PyStr.LowerEqualsIff | nvcl_kit/reader.py:772 | lower-casing equals a lower-case word exactly when the text spells it in any case |
| PyStr.UpperEqualsIff | nvcl_kit/reader.py:252 | upper-casing equals an upper-case word exactly when the text spells it in any case |
| PyStr.TakeLast | nvcl_kit/reader.py:176 | `s[-4:]`: the last four characters, or all of a shorter text |

## Left out

- Network and service I/O. This covers `WebFeatureService` construction and
  `getfeature`, `urllib`, and `_get_response_str`. The WFS, its construction
  and the NVCL services are parameters. A WFS constructor that fails is the
  `None` service; exceptions it raises other than those caught are not
  modelled.
- XML and JSON parsing. This covers `ET.fromstring`, namespaced
  `findall`/`findtext`, `json.loads`, and the owslib `PropertyIsLike` filter
  XML. A reply is already the selected children, or the measurement list, or
  a marker for an empty, undecodable or malformed body.
- Floating point. `float()`/`int()` of text is a parameter. Coordinates and
  depths are `real`. The `/255.0` scaling and the alpha of `bgr2rgba` are
  left out.
- Logging and the log level argument of `__init__`.
- `Reader.NVCLReader.Open`: `param_obj` changed by the caller after
  construction is not followed. The model reads the attributes once.
- `Reader.NVCLReader.GetBoreholeData`: a measurement without one of the keys
  the reader reads raises `KeyError`. Measurements are records with those
  keys, so that case is not modelled. The result is a list of (depth, entry)
  pairs standing for the `OrderedDict` of namespaces.
- `Reader.DownsampleOptions`: the floats `0.0`, `10000.0` and the height
  resolution are given as the text `urlencode` would send.
- The pass-through getters `get_boreholes_list`, `get_mosaic_image`,
  `get_tray_thumb_html`, `get_tray_thumb_jpg`, `get_scalar_data`,
  `get_sampled_scalar_data` and `plot_scalar_png` return the service's reply
  unchanged. Their requests are the `Svc.ServiceInterface` methods.
- `get_profilometer_data` works on float fields.
- `nvcl_kit/asud.py`, `demo.py` and `setup.py`: a WMS client with a
  coordinate transform, a script, and packaging.
- Polygon regions, depth ranges, `top_n`, the reader's `get_algorithms` and
  `get_spectrallog_datasets` appear only in the tests. `nvcl_kit/reader.py`
  does not implement them.
- Python's Unicode `isnumeric`/`isdigit`/`lower`/`upper`. These are modelled
  on ASCII.
- `Wfs.Paged`: a paged service that never returns a stopping page makes the
  source loop for ever. The model requires a page at which it stops, given as
  a ghost bound.
