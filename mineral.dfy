/** The mineral classes of a borehole by depth, as `get_borehole_data`
    (nvcl_kit/reader.py:224-270) builds them from the downsampled-data
    service's JSON: measurements sorted stably by rounded depth and grouped
    by equal depth; per depth, the first measurement with the largest class
    count among those not classed INVALID. The loop over the groups is
    `Reader.NVCLReader.GetBoreholeData`; this module is its specification. */
module Mineral {
  import opened Wrappers
  import opened PyStr

  /** The fields of a JSON measurement other than the four the reader
      inspects: a JSON object has each key once, so none of those four is
      among them (a `className` of the measurement's own may be). */
  type OtherFields = m: map<string, string> | "roundedDepth" !in m && "classText" !in m && "classCount" !in m && "colour" !in m
    witness map[]

  /** One JSON measurement: the four fields the reader inspects, and the others. */
  datatype Measurement = Measurement(
    roundedDepth: real,
    classText: string,
    classCount: int,
    colour: int,
    extra: OtherFields)

  /** What the service's answer becomes: nothing (an empty body), bytes that
      are not UTF-8 (`decode` raises), text that is not JSON (logged, giving
      an empty result), or the measurement list. */
  datatype JsonReply = NoData | NotUtf8 | NotJson | Decoded(ms: seq<Measurement>)

  // ---------------------------------------------------------------------------
  // bgr2rgba
  // ---------------------------------------------------------------------------

  datatype Channels = Channels(r: int, g: int, b: int)

  /** The integer channels of a BGR colour: `bgr & 255`, `(bgr & 65280) >> 8`
      and `bgr >> 16` (the source then scales each by 1/255 and adds alpha 1). */
  function Bgr2Rgba(bgr: int): (c: Channels)
    ensures 0 <= c.r < 256 && 0 <= c.g < 256
    ensures bgr == c.r + 256 * c.g + 65536 * c.b
    ensures 0 <= bgr < 0x100_0000 ==> 0 <= c.b < 256
  {
    var q := bgr / 256;
    assert bgr == 256 * q + bgr % 256;
    assert q == 256 * (q / 256) + q % 256;
    assert 0 <= 256 * (q % 256) + bgr % 256 < 65536;
    assert bgr / 65536 == q / 256;
    Channels(bgr % 256, q % 256, bgr / 65536)
  }

  /** Euclidean division by 256 and by 65536 of a number written as
      remainder plus multiple. */
  lemma DivMod256(x: int, r: int, k: int)
    requires 0 <= r < 256 && x == r + 256 * k
    ensures x % 256 == r && x / 256 == k
  {
  }

  lemma DivMod65536(x: int, r: int, k: int)
    requires 0 <= r < 65536 && x == r + 65536 * k
    ensures x / 65536 == k
  {
  }

  /** The channels determine the colour and the colour its channels. */
  lemma ChannelsRoundTrip(c: Channels)
    requires 0 <= c.r < 256 && 0 <= c.g < 256
    ensures Bgr2Rgba(c.r + 256 * c.g + 65536 * c.b) == c
  {
    var bgr := c.r + 256 * c.g + 65536 * c.b;
    DivMod256(bgr, c.r, c.g + 256 * c.b);
    DivMod256(c.g + 256 * c.b, c.g, c.b);
    DivMod65536(bgr, c.r + 256 * c.g, c.b);
  }

  // ---------------------------------------------------------------------------
  // Stable sort by depth
  // ---------------------------------------------------------------------------

  predicate Sorted(s: seq<Measurement>) {
    forall i, j :: 0 <= i < j < |s| ==> s[i].roundedDepth <= s[j].roundedDepth
  }

  /** The measurements at depth `d`, in their order in `s`. */
  function AtDepth(s: seq<Measurement>, d: real): seq<Measurement>
    decreases |s|
  {
    if s == [] then [] else (if s[0].roundedDepth == d then [s[0]] else []) + AtDepth(s[1..], d)
  }

  /** `m` in front of the first element at least as deep. */
  function Insert(m: Measurement, s: seq<Measurement>): seq<Measurement>
    decreases |s|
  {
    if s == [] || m.roundedDepth <= s[0].roundedDepth then [m] + s else [s[0]] + Insert(m, s[1..])
  }

  /** `sorted(meas_list, key=lambda x: x['roundedDepth'])`. */
  function SortByDepth(ms: seq<Measurement>): seq<Measurement>
    decreases |ms|
  {
    if ms == [] then [] else Insert(ms[0], SortByDepth(ms[1..]))
  }

  lemma {:induction false} InsertPermutes(m: Measurement, s: seq<Measurement>)
    ensures multiset(Insert(m, s)) == multiset(s) + multiset{m}
    decreases |s|
  {
    if s != [] && m.roundedDepth > s[0].roundedDepth {
      InsertPermutes(m, s[1..]);
      assert s == [s[0]] + s[1..];
    }
  }

  /** The measurements at `d` of a list with `x` in front. */
  lemma AtDepthCons(x: Measurement, s: seq<Measurement>, d: real)
    ensures AtDepth([x] + s, d) == (if x.roundedDepth == d then [x] else []) + AtDepth(s, d)
  {
    assert ([x] + s)[1..] == s;
  }

  /** Inserting keeps the order of the measurements at each depth, `m`
      going in front of those already at its depth. */
  lemma {:induction false} InsertKeepsDepthOrder(m: Measurement, s: seq<Measurement>, d: real)
    ensures AtDepth(Insert(m, s), d) == (if m.roundedDepth == d then [m] else []) + AtDepth(s, d)
    decreases |s|
  {
    if s == [] || m.roundedDepth <= s[0].roundedDepth {
      AtDepthCons(m, s, d);
    } else {
      var t := s[1..];
      assert s == [s[0]] + t;
      InsertKeepsDepthOrder(m, t, d);
      AtDepthCons(s[0], Insert(m, t), d);
      AtDepthCons(s[0], t, d);
      var h0 := if s[0].roundedDepth == d then [s[0]] else [];
      var hm := if m.roundedDepth == d then [m] else [];
      assert h0 == [] || hm == [];
      assert h0 + (hm + AtDepth(t, d)) == hm + (h0 + AtDepth(t, d));
    }
  }

  lemma {:induction false} InsertSorted(m: Measurement, s: seq<Measurement>)
    requires Sorted(s)
    ensures Sorted(Insert(m, s))
    decreases |s|
  {
    if s != [] && m.roundedDepth > s[0].roundedDepth {
      var t := s[1..];
      InsertSorted(m, t);
      InsertPermutes(m, t);
      var r := [s[0]] + Insert(m, t);
      forall j | 0 < j < |r| ensures s[0].roundedDepth <= r[j].roundedDepth {
        var x := r[j];
        assert x == Insert(m, t)[j - 1];
        assert x in multiset(Insert(m, t));
        if x != m {
          assert x in multiset(t);
          var k :| 0 <= k < |t| && t[k] == x;
          assert s[k + 1] == x;
        }
      }
    }
  }

  /** The sort is ordered, a permutation, and stable: at every depth the
      measurements keep their input order. */
  lemma {:induction false} SortFacts(ms: seq<Measurement>)
    ensures Sorted(SortByDepth(ms))
    ensures multiset(SortByDepth(ms)) == multiset(ms)
    ensures forall d :: AtDepth(SortByDepth(ms), d) == AtDepth(ms, d)
    decreases |ms|
  {
    if ms != [] {
      SortFacts(ms[1..]);
      InsertSorted(ms[0], SortByDepth(ms[1..]));
      InsertPermutes(ms[0], SortByDepth(ms[1..]));
      assert ms == [ms[0]] + ms[1..];
      forall d ensures AtDepth(SortByDepth(ms), d) == AtDepth(ms, d) {
        InsertKeepsDepthOrder(ms[0], SortByDepth(ms[1..]), d);
      }
    }
  }

  // ---------------------------------------------------------------------------
  // Grouping, filtering, choosing
  // ---------------------------------------------------------------------------

  /** `itertools.groupby` on the depth: runs of equal depth, in order. */
  function Groups(s: seq<Measurement>): seq<(real, seq<Measurement>)>
    decreases |s|
  {
    if s == [] then []
    else
      var rest := Groups(s[1..]);
      if rest != [] && rest[0].0 == s[0].roundedDepth then [(rest[0].0, [s[0]] + rest[0].1)] + rest[1..]
      else [(s[0].roundedDepth, [s[0]])] + rest
  }

  lemma {:induction false} AtDepthAbsent(s: seq<Measurement>, d: real)
    requires forall i :: 0 <= i < |s| ==> s[i].roundedDepth != d
    ensures AtDepth(s, d) == []
    decreases |s|
  {
    if s != [] {
      AtDepthAbsent(s[1..], d);
    }
  }

  /** The first group is at the depth of the first measurement. */
  lemma GroupsHead(s: seq<Measurement>)
    requires s != []
    ensures Groups(s) != [] && Groups(s)[0].0 == s[0].roundedDepth
  {
  }

  /** Every depth that occurs has a group. */
  lemma {:induction false} GroupsCover(s: seq<Measurement>, d: real)
    requires AtDepth(s, d) != []
    ensures exists j :: 0 <= j < |Groups(s)| && Groups(s)[j].0 == d
    decreases |s|
  {
    var x := s[0];
    var rest := Groups(s[1..]);
    var gs := Groups(s);
    if x.roundedDepth == d {
      GroupsHead(s);
    } else {
      GroupsCover(s[1..], d);
      var j :| 0 <= j < |rest| && rest[j].0 == d;
      if rest != [] && rest[0].0 == x.roundedDepth {
        assert gs[j].0 == d;
      } else {
        assert gs[j + 1].0 == d;
      }
    }
  }

  /** On a sorted list the group depths increase strictly. */
  lemma {:induction false} GroupsIncrease(s: seq<Measurement>)
    requires Sorted(s)
    ensures forall j, k :: 0 <= j < k < |Groups(s)| ==> Groups(s)[j].0 < Groups(s)[k].0
    decreases |s|
  {
    if s != [] {
      var x := s[0];
      var t := s[1..];
      assert Sorted(t);
      GroupsIncrease(t);
      var rest := Groups(t);
      var gs := Groups(s);
      if !(rest != [] && rest[0].0 == x.roundedDepth) && rest != [] {
        GroupsHead(t);
        assert x.roundedDepth < rest[0].0;
        forall j, k | 0 <= j < k < |gs| ensures gs[j].0 < gs[k].0 {
          if j == 0 && k > 1 {
            assert rest[0].0 < rest[k - 1].0;
          }
        }
      }
    }
  }

  /** On a sorted list each group holds all the measurements at its depth. */
  lemma {:induction false} GroupsAreDepthSlices(s: seq<Measurement>)
    requires Sorted(s)
    ensures forall j :: 0 <= j < |Groups(s)| ==> Groups(s)[j].1 == AtDepth(s, Groups(s)[j].0) && Groups(s)[j].1 != []
    decreases |s|
  {
    if s != [] {
      var x := s[0];
      var t := s[1..];
      assert Sorted(t);
      GroupsAreDepthSlices(t);
      GroupsIncrease(t);
      var rest := Groups(t);
      var gs := Groups(s);
      if rest != [] && rest[0].0 == x.roundedDepth {
        forall j | 0 <= j < |gs| ensures gs[j].1 == AtDepth(s, gs[j].0) && gs[j].1 != [] {
          if j > 0 {
            assert gs[j] == rest[j] && rest[0].0 < rest[j].0;
          }
        }
      } else {
        assert AtDepth(t, x.roundedDepth) == [] by {
          if t != [] {
            GroupsHead(t);
            assert forall i :: 0 <= i < |t| ==> t[0].roundedDepth <= t[i].roundedDepth;
          }
          AtDepthAbsent(t, x.roundedDepth);
        }
        forall j | 0 <= j < |gs| ensures gs[j].1 == AtDepth(s, gs[j].0) && gs[j].1 != [] {
          if j > 0 {
            GroupsHead(t);
            assert gs[j] == rest[j - 1];
            if j > 1 {
              assert rest[0].0 < rest[j - 1].0;
            }
          }
        }
      }
    }
  }

  /** `classText.upper() == 'INVALID'`. */
  predicate IsInvalid(m: Measurement) {
    Upper(m.classText) == "INVALID"
  }

  /** `itertools.filterfalse` of the invalid measurements. */
  function Valid(s: seq<Measurement>): (v: seq<Measurement>)
    ensures forall m :: m in v <==> m in s && !IsInvalid(m)
    ensures |v| <= |s| && (v != [] ==> s != [])
    decreases |s|
  {
    if s == [] then [] else (if IsInvalid(s[0]) then [] else [s[0]]) + Valid(s[1..])
  }

  /** `max(group, key=lambda x: x['classCount'])`: the first measurement
      whose count no other exceeds. */
  function FirstMax(s: seq<Measurement>): (m: Measurement)
    requires s != []
    ensures forall x :: x in s ==> x.classCount <= m.classCount
    ensures exists i :: 0 <= i < |s| && s[i] == m && forall k :: 0 <= k < i ==> s[k].classCount < m.classCount
    decreases |s|
  {
    if |s| == 1 then s[0]
    else
      var rest := FirstMax(s[1..]);
      if s[0].classCount >= rest.classCount then
        s[0]
      else
        var i :| 0 <= i < |s[1..]| && s[1..][i] == rest && forall k :: 0 <= k < i ==> s[1..][k].classCount < rest.classCount;
        assert s[i + 1] == rest;
        assert forall x :: x in s ==> x == s[0] || x in s[1..];
        rest
  }

  /** The attributes of a depth's namespace: `className` (the argument,
      unless the measurement has its own), the class text, the converted
      colour and the measurement's other fields. */
  datatype DepthEntry = DepthEntry(className: string, classText: string, colour: Channels, extra: map<string, string>)

  function EntryOf(m: Measurement, className: string): (e: DepthEntry)
    ensures "className" !in e.extra
    ensures "roundedDepth" !in e.extra && "classCount" !in e.extra && "classText" !in e.extra && "colour" !in e.extra
    ensures forall k :: k in e.extra <==> k in m.extra && k != "className"
    ensures forall k :: k in e.extra ==> e.extra[k] == m.extra[k]
    ensures e.className == if "className" in m.extra then m.extra["className"] else className
    ensures e.colour == Bgr2Rgba(m.colour) && e.classText == m.classText
  {
    DepthEntry(Lookup(m.extra, "className").GetOr(className), m.classText, Bgr2Rgba(m.colour), m.extra - {"className"})
  }

  /** The entry a group contributes: none when all of it is invalid. */
  function GroupEntry(g: (real, seq<Measurement>), className: string): (r: seq<(real, DepthEntry)>)
    ensures |r| <= 1 && (r != [] ==> r[0].0 == g.0)
  {
    var v := Valid(g.1);
    if v == [] then [] else [(g.0, EntryOf(FirstMax(v), className))]
  }

  /** The loop over the groups, entry by entry. */
  function Entries(gs: seq<(real, seq<Measurement>)>, className: string): seq<(real, DepthEntry)>
    decreases |gs|
  {
    if gs == [] then [] else Entries(gs[..|gs| - 1], className) + GroupEntry(gs[|gs| - 1], className)
  }

  /** The entries of a decoded reply: sort, group, pick per group. */
  function ByDepth(ms: seq<Measurement>, className: string): seq<(real, DepthEntry)> {
    Entries(Groups(SortByDepth(ms)), className)
  }

  /** `get_borehole_data`'s result, or the exception it raises. */
  function BoreholeData(reply: JsonReply, className: string): (r: Result<seq<(real, DepthEntry)>, PyException>)
    ensures reply.NoData? || reply.NotJson? ==> r == Ok([])
    ensures reply.NotUtf8? ==> r == Err(UnicodeDecodeError)
  {
    match reply
    case NoData => Ok([])
    case NotUtf8 => Err(UnicodeDecodeError)
    case NotJson => Ok([])
    case Decoded(ms) => Ok(ByDepth(ms, className))
  }

  // ---------------------------------------------------------------------------
  // What the result holds
  // ---------------------------------------------------------------------------

  /** Each entry is the entry of some group. */
  lemma {:induction false} EntriesFromGroups(gs: seq<(real, seq<Measurement>)>, className: string)
    ensures forall i :: 0 <= i < |Entries(gs, className)| ==>
              exists j :: 0 <= j < |gs| && GroupEntry(gs[j], className) != [] && GroupEntry(gs[j], className)[0] == Entries(gs, className)[i]
    decreases |gs|
  {
    if gs == [] {
      assert Entries(gs, className) == [];
    } else {
      var init := gs[..|gs| - 1];
      EntriesFromGroups(init, className);
      var r0 := Entries(init, className);
      var r := Entries(gs, className);
      forall i | 0 <= i < |r| ensures exists j :: 0 <= j < |gs| && GroupEntry(gs[j], className) != [] && GroupEntry(gs[j], className)[0] == r[i] {
        if i < |r0| {
          assert r[i] == r0[i];
          var j :| 0 <= j < |init| && GroupEntry(init[j], className) != [] && GroupEntry(init[j], className)[0] == r0[i];
          assert gs[j] == init[j];
        } else {
          assert GroupEntry(gs[|gs| - 1], className)[0] == r[i];
        }
      }
    }
  }

  /** Each group with an entry gives it. */
  lemma {:induction false} EntriesCoverGroups(gs: seq<(real, seq<Measurement>)>, className: string, j: int)
    requires 0 <= j < |gs| && GroupEntry(gs[j], className) != []
    ensures GroupEntry(gs[j], className)[0] in Entries(gs, className)
    decreases |gs|
  {
    var init := gs[..|gs| - 1];
    if j < |gs| - 1 {
      assert init[j] == gs[j];
      EntriesCoverGroups(init, className, j);
    }
  }

  /** Entries keep the groups' increasing depth. */
  lemma {:induction false} EntriesIncrease(gs: seq<(real, seq<Measurement>)>, className: string)
    requires forall j, k :: 0 <= j < k < |gs| ==> gs[j].0 < gs[k].0
    ensures forall i, k :: 0 <= i < k < |Entries(gs, className)| ==> Entries(gs, className)[i].0 < Entries(gs, className)[k].0
    decreases |gs|
  {
    if gs == [] {
      assert Entries(gs, className) == [];
    } else {
      var init := gs[..|gs| - 1];
      EntriesIncrease(init, className);
      EntriesFromGroups(init, className);
      var r0 := Entries(init, className);
      var last := GroupEntry(gs[|gs| - 1], className);
      var r := Entries(gs, className);
      assert r == r0 + last;
      forall i, k | 0 <= i < k < |r| ensures r[i].0 < r[k].0 {
        if k >= |r0| {
          assert r[i] == r0[i];
          var j :| 0 <= j < |init| && GroupEntry(init[j], className) != [] && GroupEntry(init[j], className)[0] == r0[i];
          assert init[j] == gs[j] && r0[i].0 == gs[j].0;
          assert r[k] == last[0] && last[0].0 == gs[|gs| - 1].0;
          assert gs[j].0 < gs[|gs| - 1].0;
        } else {
          assert r[i] == r0[i] && r[k] == r0[k];
        }
      }
    }
  }

  /** The entries of a decoded reply are in strictly ascending depth. */
  lemma ByDepthAscends(ms: seq<Measurement>, className: string)
    ensures BoreholeData(Decoded(ms), className) == Ok(ByDepth(ms, className))
    ensures forall i, k :: 0 <= i < k < |ByDepth(ms, className)| ==> ByDepth(ms, className)[i].0 < ByDepth(ms, className)[k].0
  {
    SortFacts(ms);
    GroupsIncrease(SortByDepth(ms));
    EntriesIncrease(Groups(SortByDepth(ms)), className);
  }

  /** Each entry is taken at a depth with a valid measurement, and is the
      first one of largest class count among the valid ones there, in input
      order. */
  lemma ByDepthPicksFirstMax(ms: seq<Measurement>, className: string)
    ensures forall i :: 0 <= i < |ByDepth(ms, className)| ==>
              var e := ByDepth(ms, className)[i];
              Valid(AtDepth(ms, e.0)) != [] && e.1 == EntryOf(FirstMax(Valid(AtDepth(ms, e.0))), className)
  {
    var s := SortByDepth(ms);
    SortFacts(ms);
    GroupsAreDepthSlices(s);
    var gs := Groups(s);
    EntriesFromGroups(gs, className);
    var r := Entries(gs, className);
    forall i | 0 <= i < |r|
      ensures Valid(AtDepth(ms, r[i].0)) != [] && r[i].1 == EntryOf(FirstMax(Valid(AtDepth(ms, r[i].0))), className)
    {
      var j :| 0 <= j < |gs| && GroupEntry(gs[j], className) != [] && GroupEntry(gs[j], className)[0] == r[i];
      assert gs[j].1 == AtDepth(s, gs[j].0) == AtDepth(ms, gs[j].0);
    }
  }

  /** Every depth with a valid measurement has an entry. */
  lemma ByDepthCoversValidDepths(ms: seq<Measurement>, className: string, d: real)
    requires Valid(AtDepth(ms, d)) != []
    ensures exists i :: 0 <= i < |ByDepth(ms, className)| && ByDepth(ms, className)[i].0 == d
  {
    var s := SortByDepth(ms);
    SortFacts(ms);
    var at := AtDepth(ms, d);
    assert AtDepth(s, d) == at;
    assert at != [];
    GroupsCover(s, d);
    var gs := Groups(s);
    var j :| 0 <= j < |gs| && gs[j].0 == d;
    GroupsAreDepthSlices(s);
    assert gs[j].1 == at;
    assert GroupEntry(gs[j], className) != [];
    EntriesCoverGroups(gs, className, j);
    var r := Entries(gs, className);
    var e := GroupEntry(gs[j], className)[0];
    assert e.0 == d;
    var i :| 0 <= i < |r| && r[i] == e;
    assert ByDepth(ms, className) == r && r[i].0 == d;
  }
}
