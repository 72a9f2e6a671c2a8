/**
 * The `Electrode` record of `Electrode.js`: position, size, stored area,
 * modality type ("emg", "eda", "ecg"), shape ("circle", "square") and id.
 */
module Electrodes {
  import opened Base

  /** The constructor stores all seven fields verbatim. The getters `GetX`,
      `GetY` and `GetSize` are the field selectors `x`, `y` and `size`. */
  datatype Electrode = Electrode(x: real, y: real, size: real, area: real, kind: string, shape: string, id: string) {
    /** Centre of the electrode. */
    function Centre(): Point {
      Point(x, y)
    }
  }

  /** The `GetArea` getter: 3.14 size^2 for a circle (not Math.PI), size^2
      for a square, and undefined for any other shape. The stored `area`
      field plays no part. */
  function GetArea(e: Electrode): (a: Option<real>)
    ensures e.shape == "circle" ==> a == Some(3.14 * (e.size * e.size))
    ensures e.shape == "square" ==> a == Some(e.size * e.size)
    ensures a.None? <==> e.shape != "circle" && e.shape != "square"
  {
    if e.shape == "circle" then Some(3.14 * e.size * e.size)
    else if e.shape == "square" then Some(e.size * e.size)
    else None
  }

  /** `GetArea` ignores the stored area and the position. */
  lemma GetAreaIgnoresStoredFields(e: Electrode, x: real, y: real, area: real, kind: string, id: string)
    ensures GetArea(Electrode(x, y, e.size, area, kind, e.shape, id)) == GetArea(e)
  {
  }

  /** A defined area is never negative, and a circle's area is 3.14 times a square's. */
  lemma GetAreaNonNegative(e: Electrode)
    ensures GetArea(e).Some? ==> GetArea(e).value >= 0.0
    ensures GetArea(e.(shape := "circle")).value == 3.14 * GetArea(e.(shape := "square")).value
  {
    var s := e.size;
    assert s * s >= 0.0 by {
      if s < 0.0 {
        assert (-s) * (-s) >= 0.0;
      }
    }
  }
}

/**
 * `ElectrodeLayout.js`: the coordinate list of an electrode layout, its convex
 * hull, and the JSON round trip used to copy a layout.
 */
module ElectrodeLayout {
  import opened Base
  import opened Electrodes
  import GrahamScan

  /** `getElectrodeSetCoordinates`: one [x, y] pair per electrode, in order. */
  function Coordinates(layout: seq<Electrode>): (pts: seq<Point>)
    ensures |pts| == |layout|
    ensures forall k :: 0 <= k < |layout| ==> pts[k] == Point(layout[k].x, layout[k].y)
  {
    if |layout| == 0 then [] else [layout[0].Centre()] + Coordinates(layout[1..])
  }

  /** Coordinates of a concatenation are the concatenated coordinates;
      changing one electrode changes only its coordinate pair. */
  lemma CoordinatesUpdate(layout: seq<Electrode>, k: nat, e: Electrode)
    requires k < |layout|
    ensures Coordinates(layout[k := e]) == Coordinates(layout)[k := e.Centre()]
  {
  }

  /** `_getConvexHullForElectrodes`: the Graham scan of exactly those
      coordinates under a pop rule (see `GrahamScan.Scan`). `sorted` is the
      angular order the scan's comparator produced. Under the rule as
      written the scan throws where `GrahamScan.GrahamAsWritten` does. */
  function ConvexHull(rule: GrahamScan.PopRule, layout: seq<Electrode>, sorted: seq<Point>): (h: GrahamScan.HullOutcome)
    requires |layout| >= 1 ==>
      GrahamScan.IsRemainder(Coordinates(layout), Coordinates(layout)[GrahamScan.PivotIndex(Coordinates(layout))], sorted)
    ensures |layout| < 2 <==> h.TooFewPoints?
    ensures h.ScanUnderflow? <==> rule.Unbounded? && GrahamScan.GrahamAsWritten(Coordinates(layout), sorted).ScanUnderflow?
    ensures h.Hull? ==> 2 <= |h.vertices| <= |layout|
    ensures h.Hull? ==> forall q :: q in h.vertices ==> exists k :: 0 <= k < |layout| && q == layout[k].Centre()
  {
    var pts := Coordinates(layout);
    var h := GrahamScan.Scan(rule, pts, sorted);
    if h.Hull? then
      assert forall q :: q in h.vertices ==> exists k :: 0 <= k < |pts| && q == pts[k];
      h
    else h
  }

  // ---------------------------------------------------------------------
  // acceptNeighbour: JSON.stringify followed by JSON.parse
  // ---------------------------------------------------------------------

  /** The JSON values an electrode layout serialises to: numbers and strings. */
  datatype Token = Num(n: real) | Str(s: string)

  /** `JSON.stringify` of one electrode, fields in constructor order. */
  function EncodeElectrode(e: Electrode): (ts: seq<Token>)
    ensures |ts| == 7
  {
    [Num(e.x), Num(e.y), Num(e.size), Num(e.area), Str(e.kind), Str(e.shape), Str(e.id)]
  }

  /** `JSON.stringify` of a layout. */
  function Encode(layout: seq<Electrode>): (ts: seq<Token>)
    ensures |ts| == 7 * |layout|
  {
    if |layout| == 0 then [] else EncodeElectrode(layout[0]) + Encode(layout[1..])
  }

  /** `JSON.parse` of one electrode object, None for a malformed one. */
  function DecodeElectrode(ts: seq<Token>): (r: Option<Electrode>)
    requires |ts| == 7
  {
    if ts[0].Num? && ts[1].Num? && ts[2].Num? && ts[3].Num? && ts[4].Str? && ts[5].Str? && ts[6].Str?
    then Some(Electrode(ts[0].n, ts[1].n, ts[2].n, ts[3].n, ts[4].s, ts[5].s, ts[6].s))
    else None
  }

  /** `JSON.parse` of a layout, None for malformed text. */
  function Decode(ts: seq<Token>): (r: Option<seq<Electrode>>)
    ensures r.Some? ==> 7 * |r.value| == |ts|
    decreases |ts|
  {
    if |ts| == 0 then Some([])
    else if |ts| < 7 then None
    else match DecodeElectrode(ts[..7])
      case None => None
      case Some(e) =>
        match Decode(ts[7..])
        case None => None
        case Some(rest) => Some([e] + rest)
  }

  /** Parsing undoes serialising. */
  lemma {:induction false} DecodeEncode(layout: seq<Electrode>)
    ensures Decode(Encode(layout)) == Some(layout)
  {
    if |layout| > 0 {
      var ts := Encode(layout);
      assert ts[..7] == EncodeElectrode(layout[0]);
      assert ts[7..] == Encode(layout[1..]);
      DecodeEncode(layout[1..]);
      assert layout == [layout[0]] + layout[1..];
    }
  }

  /** `acceptNeighbour`: the layout after a JSON round trip. */
  function AcceptNeighbour(layout: seq<Electrode>): (copy: seq<Electrode>)
    ensures copy == layout
  {
    DecodeEncode(layout);
    Decode(Encode(layout)).value
  }
}
