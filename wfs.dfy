/** The Web Feature Service side of the catalogue: the GetFeature requests the
    reader sends, the replies it can get, and what `_wfs_getfeature`
    (nvcl_kit/reader.py:678-732) makes of them. The service itself is a
    function from request to reply; its network transport is not modelled. */
module Wfs {
  import opened Wrappers

  /** A `gsmlp:BoreholeView` element: its attributes, and the text of each
      child path that is present (a present but empty child has text ""). */
  datatype RawElement = RawElement(attrib: map<string, string>, texts: map<string, string>)

  /** `element.findtext(path, default=...)`. */
  function FindText(e: RawElement, path: string, default: string): string {
    Lookup(e.texts, path).GetOr(default)
  }

  /** `element.attrib.get(key, default)`. */
  function AttribGet(e: RawElement, key: string, default: string): string {
    Lookup(e.attrib, key).GetOr(default)
  }

  /** The owslib `PropertyIsLike` filter of the server-filtered request. */
  datatype Filter = PropertyIsLike(propertyName: string, literal: string, matchCase: bool)

  /** The keyword arguments of one `wfs.getfeature(...)` call. */
  datatype Request = GetFeature(
    typename: string,
    filter: Option<Filter>,
    srsname: Option<string>,
    maxFeatures: Option<int>,
    startIndex: Option<int>)

  /** What one call yields: an exception the reader catches (request, HTTP,
      service or OS error), an exception it does not catch (a body that is
      bytes or not ASCII, or not well-formed XML), or a parsed document with
      its `numberReturned` attribute and its borehole members. */
  datatype Reply =
    | Fault
    | Raises(exc: PyException)
    | Document(numberReturned: Option<string>, members: seq<RawElement>)

  type WfsService = Request -> Reply

  const TYPENAME := "gsmlp:BoreholeView"
  const RECORD_INC := 10000
  const VERSION_2 := "2.0.0"

  /** Only boreholes of the NVCL collection, matched case-insensitively. */
  const NVCL_FILTER := PropertyIsLike("gsmlp:nvclCollection", "true", false)

  // ---------------------------------------------------------------------------
  // The three ways of fetching
  // ---------------------------------------------------------------------------

  datatype Mode = ServerFiltered | LocalPaged | LocalUnsupported

  /** Server-side filtering unless local filtering is asked for; local
      filtering needs WFS 2.0.0. */
  function ModeOf(localFiltering: bool, version: string): (m: Mode)
    ensures m == ServerFiltered <==> !localFiltering
    ensures m == LocalPaged <==> localFiltering && version == VERSION_2
  {
    if !localFiltering then ServerFiltered
    else if version == VERSION_2 then LocalPaged
    else LocalUnsupported
  }

  /** The single request of the server-filtered mode: the NVCL filter always,
      and a spatial reference only outside WFS 2.0.0. */
  function FilteredRequest(version: string, crs: string): (r: Request)
    ensures r.typename == TYPENAME && r.filter == Some(NVCL_FILTER)
    ensures r.srsname.Some? <==> version != VERSION_2
    ensures r.srsname.Some? ==> r.srsname.value == crs
    ensures r.maxFeatures.None? && r.startIndex.None?
  {
    GetFeature(TYPENAME, Some(NVCL_FILTER), if version != VERSION_2 then Some(crs) else None, None, None)
  }

  /** The request for page `k` of the paged mode. */
  function PageAt(k: nat): Request {
    GetFeature(TYPENAME, None, None, Some(RECORD_INC), Some(k * RECORD_INC))
  }

  /** The requests for pages `0 .. n-1`. */
  function Pages(n: nat): (rs: seq<Request>)
    ensures |rs| == n
    ensures forall i :: 0 <= i < n ==> rs[i] == PageAt(i)
  {
    if n == 0 then [] else Pages(n - 1) + [PageAt(n - 1)]
  }

  /** The paged loop ends on this reply: it is not a document (the loop is
      left by an exception) or its `numberReturned` is missing or "0". */
  predicate Stops(r: Reply) {
    !r.Document? || r.numberReturned.GetOr("0") == "0"
  }

  /** The paged mode from page `k` on. `bound` is a page at which the service
      is known to stop; the source loops for ever on a service that never
      does. A fault raises `NameError`: the source's handler logs `filterxml`,
      which this mode never binds. */
  function Paged(wfs: WfsService, k: nat, bound: nat): (r: Result<seq<RawElement>, PyException>)
    requires k <= bound && Stops(wfs(PageAt(bound)))
    ensures r.Ok? ==> wfs(PageAt(k)).Document? && wfs(PageAt(k)).members <= r.value
    ensures wfs(PageAt(k)).Fault? ==> r == Err(NameError)
    decreases bound - k
  {
    match wfs(PageAt(k))
    case Fault => Err(NameError)
    case Raises(e) => Err(e)
    case Document(n, ms) =>
      if n.GetOr("0") == "0" then Ok(ms) else Prepend(ms, Paged(wfs, k + 1, bound))
  }

  /** How many pages the paged mode reads from page `k` on. */
  function PagesRead(wfs: WfsService, k: nat, bound: nat): (n: nat)
    requires k <= bound && Stops(wfs(PageAt(bound)))
    ensures 1 <= n <= bound - k + 1
    decreases bound - k
  {
    if Stops(wfs(PageAt(k))) then 1 else 1 + PagesRead(wfs, k + 1, bound)
  }

  /** The service has a stopping page wherever the paged mode is used. */
  predicate Terminates(wfs: WfsService, localFiltering: bool, version: string, bound: nat) {
    ModeOf(localFiltering, version) == LocalPaged ==> Stops(wfs(PageAt(bound)))
  }

  /** `_wfs_getfeature`: the borehole elements, or the exception it raises. */
  function GetFeatures(wfs: WfsService, localFiltering: bool, version: string, crs: string, bound: nat)
    : (r: Result<seq<RawElement>, PyException>)
    requires Terminates(wfs, localFiltering, version, bound)
    ensures ModeOf(localFiltering, version) == LocalUnsupported ==> r == Ok([])
    ensures ModeOf(localFiltering, version) == ServerFiltered ==>
      (r.Err? <==> wfs(FilteredRequest(version, crs)).Raises?)
    ensures ModeOf(localFiltering, version) == ServerFiltered && wfs(FilteredRequest(version, crs)).Document? ==>
      r == Ok(wfs(FilteredRequest(version, crs)).members)
    ensures ModeOf(localFiltering, version) == LocalPaged ==> r == Paged(wfs, 0, bound)
  {
    match ModeOf(localFiltering, version)
    case ServerFiltered =>
      (match wfs(FilteredRequest(version, crs))
       case Fault => Ok([])
       case Raises(e) => Err(e)
       case Document(_, ms) => Ok(ms))
    case LocalPaged => Paged(wfs, 0, bound)
    case LocalUnsupported => Ok([])
  }

  /** The requests `_wfs_getfeature` sends, in order. */
  function RequestsSent(wfs: WfsService, localFiltering: bool, version: string, crs: string, bound: nat)
    : (rs: seq<Request>)
    requires Terminates(wfs, localFiltering, version, bound)
    ensures ModeOf(localFiltering, version) == ServerFiltered ==> rs == [FilteredRequest(version, crs)]
    ensures ModeOf(localFiltering, version) == LocalUnsupported ==> rs == []
  {
    match ModeOf(localFiltering, version)
    case ServerFiltered => [FilteredRequest(version, crs)]
    case LocalPaged => Pages(PagesRead(wfs, 0, bound))
    case LocalUnsupported => []
  }

  // ---------------------------------------------------------------------------
  // Properties of the paged mode
  // ---------------------------------------------------------------------------

  /** The members of pages `k .. k+n-1`, in page order. */
  function Members(wfs: WfsService, k: nat, n: nat): seq<RawElement>
    decreases n
  {
    if n == 0 then []
    else
      var r := wfs(PageAt(k));
      (if r.Document? then r.members else []) + Members(wfs, k + 1, n - 1)
  }

  /** The paged mode reads pages up to and including the first stopping
      page, and no further: every earlier page said more records follow. */
  lemma {:induction false} PagedStopsAtFirstStop(wfs: WfsService, k: nat, bound: nat)
    requires k <= bound && Stops(wfs(PageAt(bound)))
    ensures var n := PagesRead(wfs, k, bound);
      && Stops(wfs(PageAt(k + n - 1)))
      && forall i :: k <= i < k + n - 1 ==> !Stops(wfs(PageAt(i)))
    decreases bound - k
  {
    if !Stops(wfs(PageAt(k))) {
      PagedStopsAtFirstStop(wfs, k + 1, bound);
    }
  }

  /** The paged mode succeeds exactly when every page it reads is a document,
      and then yields the pages' members concatenated in page order; when it
      fails, the last page read was a fault (`NameError`) or raised. */
  lemma {:induction false} PagedIsConcatenation(wfs: WfsService, k: nat, bound: nat)
    requires k <= bound && Stops(wfs(PageAt(bound)))
    ensures var n := PagesRead(wfs, k, bound); var r := Paged(wfs, k, bound);
      && (r.Ok? <==> forall i :: k <= i < k + n ==> wfs(PageAt(i)).Document?)
      && (r.Ok? ==> r.value == Members(wfs, k, n))
      && (r.Err? ==> var last := wfs(PageAt(k + n - 1));
                     !last.Document? && r.error == (if last.Fault? then NameError else last.exc))
    decreases bound - k
  {
    if !Stops(wfs(PageAt(k))) {
      PagedIsConcatenation(wfs, k + 1, bound);
    }
  }

  /** How far ahead the stopping page is known makes no difference. */
  lemma {:induction false} PagedIgnoresBound(wfs: WfsService, k: nat, b1: nat, b2: nat)
    requires k <= b1 && Stops(wfs(PageAt(b1)))
    requires k <= b2 && Stops(wfs(PageAt(b2)))
    ensures Paged(wfs, k, b1) == Paged(wfs, k, b2)
    ensures PagesRead(wfs, k, b1) == PagesRead(wfs, k, b2)
    decreases b1 - k
  {
    if !Stops(wfs(PageAt(k))) {
      assert k < b1 && k < b2;
      PagedIgnoresBound(wfs, k + 1, b1, b2);
    }
  }

  /** The `i`-th paged request starts at record `10000 * i` and asks for
      10000 records, without the NVCL filter or a spatial reference. */
  lemma PagedRequestsAdvance(wfs: WfsService, version: string, crs: string, bound: nat)
    requires Terminates(wfs, true, version, bound) && version == VERSION_2
    ensures var rs := RequestsSent(wfs, true, version, crs, bound);
      && |rs| >= 1
      && forall i :: 0 <= i < |rs| ==>
           rs[i].startIndex == Some(RECORD_INC * i) && rs[i].maxFeatures == Some(RECORD_INC)
           && rs[i].filter.None? && rs[i].srsname.None? && rs[i].typename == TYPENAME
  {
  }

  /** In the server-filtered mode a fault gives the empty list. */
  lemma ServerFaultGivesNothing(wfs: WfsService, version: string, crs: string, bound: nat)
    requires wfs(FilteredRequest(version, crs)) == Fault
    ensures GetFeatures(wfs, false, version, crs, bound) == Ok([])
  {
  }
}
