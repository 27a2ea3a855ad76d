/** How `_fetch_borehole_list` (nvcl_kit/reader.py:735-831) turns the fetched
    `gsmlp:BoreholeView` elements into the borehole catalogue: one record per
    NVCL borehole whose collar parses and lies strictly inside the bounding
    box, in element order, stopping once `MAX_BOREHOLES` have been kept. The
    in-place loop that appends to the reader's list is
    `Reader.NVCLReader.FetchBoreholeList`; this module is its specification. */
module Catalogue {
  import opened Wrappers
  import opened PyStr
  import opened Config
  import opened Wfs

  /** The GeoSciML 4.1 BoreholeView fields the reader copies. */
  const GSMLP_IDS: seq<string> := [
    "identifier", "name", "description", "purpose", "status", "drillingMethod",
    "operator", "driller", "drillStartDate", "drillEndDate", "startPoint",
    "inclinationType", "boreholeMaterialCustodian", "boreholeLength_m",
    "elevation_m", "elevation_srs", "positionalAccuracy", "source", "parentBorehole_uri",
    "metadata_uri", "genericSymbolizer"]

  const GML_ID := "{http://www.opengis.net/gml}id"
  const GML32_ID := "{http://www.opengis.net/gml/3.2}id"
  const POS_PATH := "./gsmlp:shape/gml:Point/gml:pos"
  const SHAPE_PATH := "./gsmlp:shape"

  /** One catalogue entry: the NVCL id, the collar position, the
      `gsmlp:identifier` text, the other BoreholeView fields and the elevation. */
  datatype Borehole = Borehole(
    nvclId: string,
    x: real,
    y: real,
    href: string,
    details: map<string, string>,
    z: real)

  // ---------------------------------------------------------------------------
  // Normalising one element
  // ---------------------------------------------------------------------------

  /** The NVCL id: the text after the last `.` of the GML id attribute (the
      GML 3.2 one under WFS 2.0.0), or of the bare `id` attribute when that is
      empty. */
  function NvclId(e: RawElement, version: string): (id: string)
    ensures '.' !in id
    ensures var primary := LastField(AttribGet(e, if version == VERSION_2 then GML32_ID else GML_ID, ""), '.');
      id == if primary != "" then primary else LastField(AttribGet(e, "id", ""), '.')
  {
    var primary := LastField(AttribGet(e, if version == VERSION_2 then GML32_ID else GML_ID, ""), '.');
    LastFieldIsTextAfterLastSep(AttribGet(e, if version == VERSION_2 then GML32_ID else GML_ID, ""), '.');
    LastFieldIsTextAfterLastSep(AttribGet(e, "id", ""), '.');
    if primary != "" then primary else LastField(AttribGet(e, "id", ""), '.')
  }

  /** `nvclCollection` reads "true" in lower case; a missing flag reads "?????". */
  predicate IsNvcl(e: RawElement) {
    Lower(FindText(e, "./gsmlp:nvclCollection", "?????")) == "true"
  }

  /** The coordinate tokens, and whether they came from the WKT fallback. */
  datatype Coords = Coords(tokens: seq<string>, fromWkt: bool)

  /** The `gml:pos` text split on spaces; when that is the default "? ?", the
      text of `gsmlp:shape` (default "POINT(0.0 0.0)") stripped of spaces,
      after its first `(`, without trailing `)`, split on spaces. */
  function CoordTokens(e: RawElement): (c: Coords)
    ensures |c.tokens| >= 1
  {
    var xy := Split(FindText(e, POS_PATH, "? ?"), ' ');
    if xy == ["?", "?"] then
      var point := Strip(FindText(e, SHAPE_PATH, "POINT(0.0 0.0)"), ' ');
      Coords(Split(RStrip(Partition(point, '(').after, ')'), ' '), true)
    else
      Coords(xy, false)
  }

  /** The tokens are read as (latitude, longitude) unless the CRS is exactly
      EPSG:4326 and they came from `gml:pos`. */
  predicate Swapped(crs: string, c: Coords) {
    crs != DEFAULT_CRS || c.fromWkt
  }

  /** The other BoreholeView fields, each defaulting to "". */
  function Details(e: RawElement): (d: map<string, string>)
    ensures forall tag :: tag in d <==> tag in GSMLP_IDS && tag != "identifier"
    ensures forall tag :: tag in d ==> d[tag] == FindText(e, "./gsmlp:" + tag, "")
  {
    map tag | tag in GSMLP_IDS && tag != "identifier" :: FindText(e, "./gsmlp:" + tag, "")
  }

  /** The float of `elevation_m` (text "0.0" when missing), or 0.0 when it
      does not parse. */
  function Elevation(e: RawElement, parse: string -> Option<real>): real {
    parse(FindText(e, "./gsmlp:elevation_m", "0.0")).GetOr(0.0)
  }

  /** What the loop body makes of one element. */
  datatype Parsed =
    | NotNvcl                     // not in the NVCL collection: skipped
    | Unparsed                    // a coordinate does not parse: `continue`
    | Crash(exc: PyException)     // a single coordinate token: `x_y[1]` raises
    | Record(b: Borehole)

  /** One element, with `parse` standing for Python's `float()`: the first
      token is parsed before the second is looked up. */
  function Normalise(e: RawElement, cfg: Config, parse: string -> Option<real>): (p: Parsed)
    ensures p.NotNvcl? <==> !IsNvcl(e)
    ensures p.Crash? ==> p.exc == IndexError
  {
    if !IsNvcl(e) then NotNvcl
    else
      var c := CoordTokens(e);
      var first := parse(c.tokens[0]);
      if first.None? then Unparsed
      else if |c.tokens| < 2 then Crash(IndexError)
      else
        var second := parse(c.tokens[1]);
        if second.None? then Unparsed
        else
          var swap := Swapped(cfg.crs, c);
          var x := if swap then second.value else first.value;
          var y := if swap then first.value else second.value;
          Record(Borehole(NvclId(e, cfg.version), x, y, FindText(e, "./gsmlp:identifier", ""), Details(e), Elevation(e, parse)))
  }

  /** Strictly inside the bounding box: a collar on an edge is outside. */
  predicate InBox(box: Bbox, b: Borehole)
    ensures InBox(box, b) ==> box.west < box.east && box.south < box.north
  {
    box.west < b.x && box.east > b.x && box.north > b.y && box.south < b.y
  }

  /** The element yields a record inside the box. */
  predicate Qualifies(e: RawElement, cfg: Config, parse: string -> Option<real>) {
    Normalise(e, cfg, parse).Record? && InBox(cfg.bbox, Normalise(e, cfg, parse).b)
  }

  // ---------------------------------------------------------------------------
  // The catalogue
  // ---------------------------------------------------------------------------

  /** The normalised form of every element. The source normalises lazily
      and stops at the cap; as normalising is pure, scanning these in order
      and stopping at the same point gives the same catalogue. */
  function NormaliseAll(elems: seq<RawElement>, cfg: Config, parse: string -> Option<real>): (ps: seq<Parsed>)
    ensures |ps| == |elems|
    ensures forall i :: 0 <= i < |ps| && ps[i].Crash? ==> ps[i].exc == IndexError
  {
    if elems == [] then [] else [Normalise(elems[0], cfg, parse)] + NormaliseAll(elems[1..], cfg, parse)
  }

  /** Entry `i` of the normalised list is element `i` normalised. */
  lemma {:induction false} NormaliseAllAt(elems: seq<RawElement>, cfg: Config, parse: string -> Option<real>, i: nat)
    requires i < |elems|
    ensures NormaliseAll(elems, cfg, parse)[i] == Normalise(elems[i], cfg, parse)
    decreases i
  {
    if i > 0 {
      NormaliseAllAt(elems[1..], cfg, parse, i - 1);
    }
  }

  /** The loop from the current record on, `count` records having been kept
      so far. After every collar that parses, the cap is tested; reaching it
      ends the loop. */
  function Build(ps: seq<Parsed>, box: Bbox, max: int, count: int): (r: Result<seq<Borehole>, PyException>)
    ensures r.Ok? && max > 0 && count < max ==> count + |r.value| <= max
    decreases |ps|
  {
    if ps == [] then Ok([])
    else
      match ps[0]
      case NotNvcl => Build(ps[1..], box, max, count)
      case Unparsed => Build(ps[1..], box, max, count)
      case Crash(exc) => Err(exc)
      case Record(b) =>
        var keep := InBox(box, b);
        var count' := if keep then count + 1 else count;
        var head := if keep then [b] else [];
        if max > 0 && count' >= max then Ok(head)
        else Prepend(head, Build(ps[1..], box, max, count'))
  }

  /** `_fetch_borehole_list`'s catalogue of the fetched elements. */
  function Catalogue(elems: seq<RawElement>, cfg: Config, parse: string -> Option<real>): (r: Result<seq<Borehole>, PyException>)
    ensures r.Ok? && cfg.maxBoreholes > 0 ==> |r.value| <= cfg.maxBoreholes
    ensures r.Err? ==> r.error == IndexError
  {
    BuildIsPrefixOfQualifying(NormaliseAll(elems, cfg, parse), cfg.bbox, cfg.maxBoreholes, 0);
    Build(NormaliseAll(elems, cfg, parse), cfg.bbox, cfg.maxBoreholes, 0)
  }

  /** Every record inside the box, in order, without a cap. */
  function Qualifying(ps: seq<Parsed>, box: Bbox): seq<Borehole>
    decreases |ps|
  {
    if ps == [] then []
    else (if ps[0].Record? && InBox(box, ps[0].b) then [ps[0].b] else []) + Qualifying(ps[1..], box)
  }

  /** No element hits the single-token `IndexError`. */
  predicate NoCrash(ps: seq<Parsed>) {
    forall i :: 0 <= i < |ps| ==> !ps[i].Crash?
  }

  /** The first `max` of `s` when `max` is positive, otherwise all of `s`. */
  function Capped<T>(s: seq<T>, max: int): (r: seq<T>)
    ensures max > 0 ==> |r| == if |s| < max then |s| else max
    ensures max <= 0 ==> r == s
    ensures r == s[..|r|]
  {
    if max > 0 && |s| > max then s[..max] else s
  }

  lemma {:induction false} BuildIsCappedQualifying(ps: seq<Parsed>, box: Bbox, max: int, count: int)
    requires NoCrash(ps)
    requires 0 <= count && (max <= 0 || count < max)
    ensures Build(ps, box, max, count) == Ok(Capped(Qualifying(ps, box), if max > 0 then max - count else 0))
    decreases |ps|
  {
    if ps != [] {
      var rest := ps[1..];
      assert NoCrash(rest) by {
        forall i | 0 <= i < |rest| ensures !rest[i].Crash? {
          assert rest[i] == ps[i + 1];
        }
      }
      assert !ps[0].Crash?;
      var q := Qualifying(rest, box);
      match ps[0]
      case NotNvcl =>
        assert Qualifying(ps, box) == q;
        BuildIsCappedQualifying(rest, box, max, count);
      case Unparsed =>
        assert Qualifying(ps, box) == q;
        BuildIsCappedQualifying(rest, box, max, count);
      case Record(b) =>
        if InBox(box, b) {
          if max > 0 && count + 1 >= max {
            assert Capped([b] + q, max - count) == [b];
          } else {
            BuildIsCappedQualifying(rest, box, max, count + 1);
            var m := if max > 0 then max - count else 0;
            assert Capped([b] + q, m) == [b] + Capped(q, if max > 0 then max - (count + 1) else 0);
          }
        } else {
          assert Qualifying(ps, box) == q;
          BuildIsCappedQualifying(rest, box, max, count);
          var m := if max > 0 then max - count else 0;
          assert [] + Capped(q, m) == Capped(q, m);
        }
    }
  }

  /** The index of the first element that hits the single-token
      `IndexError`, or the length when none does. */
  function FirstCrash(ps: seq<Parsed>): (c: nat)
    ensures c <= |ps| && (c < |ps| ==> ps[c].Crash?)
    ensures forall i :: 0 <= i < c ==> !ps[i].Crash?
    decreases |ps|
  {
    if ps == [] || ps[0].Crash? then 0 else 1 + FirstCrash(ps[1..])
  }

  /** The loop reads the elements only up to the cap: with `m` more records
      allowed (`m = 0` for no cap), the records before the first crash either
      reach the cap, which ends the loop before the crash, or they do not,
      and then the crash raises or, without one, every qualifying record is
      kept. */
  lemma {:induction false} BuildByFirstCrash(ps: seq<Parsed>, box: Bbox, max: int, count: int)
    requires 0 <= count && (max <= 0 || count < max)
    ensures var c := FirstCrash(ps); var q := Qualifying(ps[..c], box); var m := if max > 0 then max - count else 0;
      Build(ps, box, max, count) ==
        if m > 0 && |q| >= m then Ok(q[..m])
        else if c < |ps| then Err(ps[c].exc)
        else Ok(q)
    decreases |ps|
  {
    var c := FirstCrash(ps);
    var m := if max > 0 then max - count else 0;
    if ps == [] {
      assert ps[..c] == [];
    } else if ps[0].Crash? {
      assert ps[..c] == [];
    } else {
      var rest := ps[1..];
      var c' := FirstCrash(rest);
      assert c == c' + 1;
      assert ps[..c] == [ps[0]] + rest[..c'];
      assert ps[..c][1..] == rest[..c'];
      var q' := Qualifying(rest[..c'], box);
      assert c < |ps| ==> ps[c] == rest[c'];
      match ps[0]
      case NotNvcl =>
        assert Qualifying(ps[..c], box) == q';
        BuildByFirstCrash(rest, box, max, count);
      case Unparsed =>
        assert Qualifying(ps[..c], box) == q';
        BuildByFirstCrash(rest, box, max, count);
      case Record(b) =>
        if InBox(box, b) {
          assert Qualifying(ps[..c], box) == [b] + q';
          if max > 0 && count + 1 >= max {
            assert ([b] + q')[..1] == [b];
          } else {
            BuildByFirstCrash(rest, box, max, count + 1);
            if m > 0 && |q'| >= m - 1 {
              assert ([b] + q')[..m] == [b] + q'[..m - 1];
            }
          }
        } else {
          assert Qualifying(ps[..c], box) == [] + q' == q';
          BuildByFirstCrash(rest, box, max, count);
          PrependNothing(Build(rest, box, max, count));
        }
    }
  }

  /** `_fetch_borehole_list`'s catalogue with `MAX_BOREHOLES = N`: when the
      elements before the first malformed collar give N > 0 qualifying
      records, the first N of them, even though a malformed element follows;
      otherwise the `IndexError` of that element; and with no malformed
      element, the first N qualifying records (all when N <= 0 or fewer
      qualify). */
  lemma CatalogueIsCappedSelection(elems: seq<RawElement>, cfg: Config, parse: string -> Option<real>)
    ensures var ps := NormaliseAll(elems, cfg, parse); var c := FirstCrash(ps);
            var q := Qualifying(ps[..c], cfg.bbox); var max := cfg.maxBoreholes; var r := Catalogue(elems, cfg, parse);
      && (max > 0 && |q| >= max ==> r == Ok(q[..max]))
      && (!(max > 0 && |q| >= max) && c < |elems| ==> r == Err(IndexError))
      && (NoCrash(ps) ==> r == Ok(Capped(Qualifying(ps, cfg.bbox), max)))
  {
    var ps := NormaliseAll(elems, cfg, parse);
    assert Catalogue(elems, cfg, parse) == Build(ps, cfg.bbox, cfg.maxBoreholes, 0);
    BuildIsCappedSelection(ps, cfg.bbox, cfg.maxBoreholes);
  }

  /** The same on any normalised list: the loop from its start. */
  lemma BuildIsCappedSelection(ps: seq<Parsed>, box: Bbox, max: int)
    ensures var c := FirstCrash(ps); var q := Qualifying(ps[..c], box); var r := Build(ps, box, max, 0);
      && (max > 0 && |q| >= max ==> r == Ok(q[..max]))
      && (!(max > 0 && |q| >= max) && c < |ps| ==> r == Err(ps[c].exc))
      && (NoCrash(ps) ==> r == Ok(Capped(Qualifying(ps, box), max)))
  {
    BuildByFirstCrash(ps, box, max, 0);
    if NoCrash(ps) {
      assert ps[..FirstCrash(ps)] == ps;
    }
  }

  /** Whatever the records, a successful catalogue is a prefix of the
      qualifying records, and a failure is the `IndexError` of a record. */
  lemma {:induction false} BuildIsPrefixOfQualifying(ps: seq<Parsed>, box: Bbox, max: int, count: int)
    ensures var r := Build(ps, box, max, count); var q := Qualifying(ps, box);
      && (r.Ok? ==> |r.value| <= |q| && r.value == q[..|r.value|])
      && (r.Err? ==> exists i :: 0 <= i < |ps| && ps[i] == Crash(r.error))
    decreases |ps|
  {
    if ps != [] {
      var rest := ps[1..];
      BuildIsPrefixOfQualifying(rest, box, max, count);
      BuildIsPrefixOfQualifying(rest, box, max, count + 1);
      var r := Build(ps, box, max, count);
      if r.Err? && !ps[0].Crash? {
        var c := if ps[0].Record? && InBox(box, ps[0].b) then count + 1 else count;
        var r' := Build(rest, box, max, c);
        assert r'.Err? && r'.error == r.error;
        var i :| 0 <= i < |rest| && rest[i] == Crash(r'.error);
        assert ps[i + 1] == rest[i];
      }
    }
  }

  /** `idx` picks out of `ps`, in increasing order, records inside `box`
      whose boreholes are `qs`. */
  ghost predicate Embedding(ps: seq<Parsed>, box: Bbox, idx: seq<nat>, qs: seq<Borehole>) {
    && |idx| == |qs|
    && (forall j :: 0 <= j < |idx| ==>
          (idx[j] < |ps| && ps[idx[j]].Record? && InBox(box, ps[idx[j]].b) && ps[idx[j]].b == qs[j]))
    && (forall j, k :: 0 <= j < k < |idx| ==> idx[j] < idx[k])
  }

  /** An embedding into the tail is one into the whole list, one place on. */
  lemma EmbeddingShift(ps: seq<Parsed>, box: Bbox, rest: seq<nat>, qs: seq<Borehole>) returns (shifted: seq<nat>)
    requires ps != [] && Embedding(ps[1..], box, rest, qs)
    ensures Embedding(ps, box, shifted, qs)
    ensures forall j :: 0 <= j < |shifted| ==> shifted[j] > 0
  {
    shifted := seq(|rest|, j requires 0 <= j < |rest| => rest[j] + 1);
    forall j | 0 <= j < |shifted| ensures ps[shifted[j]] == ps[1..][rest[j]] {
    }
  }

  /** A qualifying head in front of an embedding that avoids index 0. */
  lemma EmbeddingCons(ps: seq<Parsed>, box: Bbox, idx: seq<nat>, qs: seq<Borehole>)
    requires ps != [] && ps[0].Record? && InBox(box, ps[0].b)
    requires Embedding(ps, box, idx, qs) && forall j :: 0 <= j < |idx| ==> idx[j] > 0
    ensures Embedding(ps, box, [0] + idx, [ps[0].b] + qs)
  {
    var idx', qs' := [0] + idx, [ps[0].b] + qs;
    forall j | 0 < j < |idx'| ensures idx'[j] == idx[j - 1] && qs'[j] == qs[j - 1] {
    }
  }

  /** The qualifying records come from the elements in order: record `j` is
      the normalised form of element `idx[j]`, and the indices increase. */
  lemma {:induction false} QualifyingEmbeds(ps: seq<Parsed>, box: Bbox) returns (idx: seq<nat>)
    ensures Embedding(ps, box, idx, Qualifying(ps, box))
    decreases |ps|
  {
    if ps == [] {
      idx := [];
    } else {
      var rest := QualifyingEmbeds(ps[1..], box);
      var shifted := EmbeddingShift(ps, box, rest, Qualifying(ps[1..], box));
      if ps[0].Record? && InBox(box, ps[0].b) {
        EmbeddingCons(ps, box, shifted, Qualifying(ps[1..], box));
        idx := [0] + shifted;
      } else {
        idx := shifted;
      }
    }
  }

  /** Every catalogue entry is a record strictly inside the bounding box. */
  lemma QualifyingInsideBox(ps: seq<Parsed>, box: Bbox)
    ensures forall b :: b in Qualifying(ps, box) ==> InBox(box, b)
  {
    var idx := QualifyingEmbeds(ps, box);
    forall b | b in Qualifying(ps, box) ensures InBox(box, b) {
      var j :| 0 <= j < |Qualifying(ps, box)| && Qualifying(ps, box)[j] == b;
      assert ps[idx[j]].b == b;
    }
  }

  /** Qualifying is taken element by element. */
  lemma {:induction false} QualifyingAppend(a: seq<Parsed>, b: seq<Parsed>, box: Bbox)
    ensures Qualifying(a + b, box) == Qualifying(a, box) + Qualifying(b, box)
    decreases |a|
  {
    if a == [] {
      assert a + b == b;
    } else {
      assert (a + b)[1..] == a[1..] + b;
      QualifyingAppend(a[1..], b, box);
    }
  }

  /** One turn of the collar loop: the uncapped selection grows by what the
      record at `i` contributes, and the loop from `i` on is that record's
      step followed by the loop from `i + 1`. */
  lemma BuildStep(ps: seq<Parsed>, i: nat, box: Bbox, max: int, count: int)
    requires i < |ps|
    ensures var head := if ps[i].Record? && InBox(box, ps[i].b) then [ps[i].b] else [];
      && Qualifying(ps[..i + 1], box) == Qualifying(ps[..i], box) + head
      && (ps[i].Crash? ==> Build(ps[i..], box, max, count) == Err(ps[i].exc))
      && (ps[i].NotNvcl? || ps[i].Unparsed? ==> Build(ps[i..], box, max, count) == Build(ps[i + 1..], box, max, count))
      && (ps[i].Record? ==>
            var count' := count + |head|;
            Build(ps[i..], box, max, count)
              == if max > 0 && count' >= max then Ok(head) else Prepend(head, Build(ps[i + 1..], box, max, count')))
  {
    assert ps[..i + 1] == ps[..i] + [ps[i]];
    QualifyingAppend(ps[..i], [ps[i]], box);
    assert ps[i..][1..] == ps[i + 1..];
    assert Qualifying([ps[i]], box) == (if ps[i].Record? && InBox(box, ps[i].b) then [ps[i].b] else []) + Qualifying([], box);
  }

  /** The catalogue as the collar loop sees it before record `i`: what it has
      kept from the records before, followed by the rest of the loop. Taking
      one more record leaves the crash, the capped result, or the same view
      before record `i + 1`. */
  lemma BuildAdvance(ps: seq<Parsed>, i: nat, box: Bbox, max: int, count: int, cat: Result<seq<Borehole>, PyException>)
    requires i < |ps|
    requires cat == Prepend(Qualifying(ps[..i], box), Build(ps[i..], box, max, count))
    ensures ps[i].Crash? ==> cat == Err(ps[i].exc)
    ensures !ps[i].Crash? ==>
      var count' := if ps[i].Record? && InBox(box, ps[i].b) then count + 1 else count;
      if ps[i].Record? && max > 0 && count' >= max then cat == Ok(Qualifying(ps[..i + 1], box))
      else cat == Prepend(Qualifying(ps[..i + 1], box), Build(ps[i + 1..], box, max, count'))
  {
    BuildStep(ps, i, box, max, count);
    var head := if ps[i].Record? && InBox(box, ps[i].b) then [ps[i].b] else [];
    PrependTwice(Qualifying(ps[..i], box), head, Build(ps[i + 1..], box, max, count + |head|));
    if ps[i].NotNvcl? || ps[i].Unparsed? {
      assert Qualifying(ps[..i], box) + head == Qualifying(ps[..i], box);
    }
  }

  /** Before the collar loop: nothing kept, the whole loop ahead. */
  lemma CollarStart(ps: seq<Parsed>, box: Bbox, max: int)
    ensures Build(ps, box, max, 0) == Prepend([], Build(ps[0..], box, max, 0))
    ensures Qualifying(ps[..0], box) == []
  {
    assert ps[..0] == [] && ps[0..] == ps;
    PrependNothing(Build(ps, box, max, 0));
  }

  /** One turn of the collar loop on what it has kept so far: a crash is
      the loop's result; otherwise the record's contribution joins the kept
      list, and either the cap is reached, ending the loop with that list,
      or the view moves on to element `i + 1`. */
  lemma CollarStep(ps: seq<Parsed>, i: nat, box: Bbox, max: int, kept: seq<Borehole>, cat: Result<seq<Borehole>, PyException>)
    requires i < |ps| && kept == Qualifying(ps[..i], box)
    requires cat == Prepend(kept, Build(ps[i..], box, max, |kept|))
    requires i <= FirstCrash(ps)
    ensures ps[i].Crash? ==> cat == Err(ps[i].exc) && FirstCrash(ps) == i
    ensures !ps[i].Crash? ==> i + 1 <= FirstCrash(ps)
    ensures !ps[i].Crash? ==>
      var kept' := kept + (if ps[i].Record? && InBox(box, ps[i].b) then [ps[i].b] else []);
      && kept' == Qualifying(ps[..i + 1], box)
      && (if ps[i].Record? && max > 0 && |kept'| >= max then cat == Ok(kept')
          else cat == Prepend(kept', Build(ps[i + 1..], box, max, |kept'|)))
  {
    BuildAdvance(ps, i, box, max, |kept|, cat);
    BuildStep(ps, i, box, max, |kept|);
  }

  /** After the last element the loop has kept its result. */
  lemma CollarEnd(ps: seq<Parsed>, box: Bbox, max: int, count: int, kept: seq<Borehole>, cat: Result<seq<Borehole>, PyException>)
    requires cat == Prepend(kept, Build(ps[|ps|..], box, max, count))
    ensures cat == Ok(kept)
  {
    assert ps[|ps|..] == [];
    assert kept + [] == kept;
  }

  /** A record of a normalised element carries that element's NVCL id. */
  lemma RecordId(e: RawElement, cfg: Config, parse: string -> Option<real>)
    requires Normalise(e, cfg, parse).Record?
    ensures Normalise(e, cfg, parse).b.nvclId == NvclId(e, cfg.version)
  {
  }

  /** Every entry of a successful catalogue lies strictly inside the box and
      has an NVCL id without a `.`. */
  lemma CatalogueRecords(elems: seq<RawElement>, cfg: Config, parse: string -> Option<real>)
    ensures var r := Catalogue(elems, cfg, parse);
      r.Ok? ==> forall i :: 0 <= i < |r.value| ==> InBox(cfg.bbox, r.value[i]) && '.' !in r.value[i].nvclId
  {
    var ps := NormaliseAll(elems, cfg, parse);
    var r := Catalogue(elems, cfg, parse);
    BuildIsPrefixOfQualifying(ps, cfg.bbox, cfg.maxBoreholes, 0);
    var idx := QualifyingEmbeds(ps, cfg.bbox);
    if r.Ok? {
      var q := Qualifying(ps, cfg.bbox);
      forall i | 0 <= i < |r.value| ensures InBox(cfg.bbox, r.value[i]) && '.' !in r.value[i].nvclId {
        assert r.value[i] == q[i];
        assert idx[i] < |ps| && ps[idx[i]].Record? && InBox(cfg.bbox, ps[idx[i]].b) && ps[idx[i]].b == q[i];
        NormaliseAllAt(elems, cfg, parse, idx[i]);
        RecordId(elems[idx[i]], cfg, parse);
      }
    }
  }

  // ---------------------------------------------------------------------------
  // Properties of a single record
  // ---------------------------------------------------------------------------

  /** Axis order: the first token is x only for EPSG:4326 `gml:pos` text; in
      every other case, the WKT fallback included, the first token is y. */
  lemma AxisOrder(e: RawElement, cfg: Config, parse: string -> Option<real>)
    requires Normalise(e, cfg, parse).Record?
    ensures var c := CoordTokens(e); var b := Normalise(e, cfg, parse).b;
      && |c.tokens| >= 2 && parse(c.tokens[0]).Some? && parse(c.tokens[1]).Some?
      && (cfg.crs == DEFAULT_CRS && !c.fromWkt ==> b.x == parse(c.tokens[0]).value && b.y == parse(c.tokens[1]).value)
      && (cfg.crs != DEFAULT_CRS || c.fromWkt ==> b.y == parse(c.tokens[0]).value && b.x == parse(c.tokens[1]).value)
  {
  }

  /** The collection flag is read case-insensitively, and a missing one
      never matches. */
  lemma CollectionFlag(e: RawElement)
    ensures IsNvcl(e) <==> SpellsIgnoringCase(FindText(e, "./gsmlp:nvclCollection", "?????"), "true")
    ensures "./gsmlp:nvclCollection" !in e.texts ==> !IsNvcl(e)
  {
    LowerEqualsIff(FindText(e, "./gsmlp:nvclCollection", "?????"), "true");
  }

  /** The cases of one NVCL element: a first or second coordinate that does
      not parse is skipped, a single token that parses raises, two tokens that
      parse give a record; a record carries the identifier as `href`, the
      other tags as details, and the elevation or 0.0 as `z`. */
  lemma NormaliseCases(e: RawElement, cfg: Config, parse: string -> Option<real>)
    requires IsNvcl(e)
    ensures var c := CoordTokens(e); var p := Normalise(e, cfg, parse);
      && (parse(c.tokens[0]).None? ==> p == Unparsed)
      && (parse(c.tokens[0]).Some? && |c.tokens| == 1 ==> p == Crash(IndexError))
      && (parse(c.tokens[0]).Some? && |c.tokens| >= 2 && parse(c.tokens[1]).None? ==> p == Unparsed)
      && (p.Crash? ==> |c.tokens| == 1)
      && (|c.tokens| >= 2 && parse(c.tokens[0]).Some? && parse(c.tokens[1]).Some? ==> p.Record?)
  {
  }

  /** The fields of a record other than its coordinates. */
  lemma RecordFields(e: RawElement, cfg: Config, parse: string -> Option<real>)
    requires Normalise(e, cfg, parse).Record?
    ensures var b := Normalise(e, cfg, parse).b; var z := FindText(e, "./gsmlp:elevation_m", "0.0");
      && b.nvclId == NvclId(e, cfg.version)
      && b.href == FindText(e, "./gsmlp:identifier", "")
      && b.details == Details(e)
      && b.z == (if parse(z).Some? then parse(z).value else 0.0)
  {
  }

  /** A collar of a single token that parses as a number raises
      `IndexError` when the second coordinate is read. */
  lemma SingleTokenRaises(e: RawElement, cfg: Config, parse: string -> Option<real>)
    requires IsNvcl(e) && |CoordTokens(e).tokens| == 1 && parse(CoordTokens(e).tokens[0]).Some?
    ensures Normalise(e, cfg, parse) == Crash(IndexError)
  {
  }

  /** A `gml:pos` text without a space, such as one number, is a single
      token read from `gml:pos` itself, never the WKT fallback. */
  lemma SinglePosIsOneToken(e: RawElement)
    requires POS_PATH in e.texts && ' ' !in e.texts[POS_PATH]
    ensures CoordTokens(e) == Coords([e.texts[POS_PATH]], false)
  {
    SplitWithoutSep(e.texts[POS_PATH], ' ');
  }
}
