/**
  The footprint of a map in the analysis handler
  (analysis_lambda/analysis_handler.py): which positions the bounding box is
  taken over, the box itself, its centre, its closed ring, its
  `ENVELOPE(...)` string, and the GeoJSON features built from them.

  Coordinates are exact reals; the handler only takes minima, maxima and
  midpoints of them.
 */
module Geometry {
  import opened Wrappers
  import opened Text
  import opened Seqs
  import opened Resolution

  /** The `bounding_box_source` of each of the three cases. */
  const DerivedSource: string := "Derived from Map-Level Township Ranges"
  const FallbackSource: string := "Fallback from Water Resource Coordinates"
  const NoCoordinates: string := "No coordinates available"

  /** The `name` property of the boundary feature. */
  const BoundaryName: string := "Map Boundary"

  /** The bounding box: the extreme longitudes and latitudes. */
  datatype Box = Box(west: real, east: real, south: real, north: real)

  /** A box whose edges are in order. */
  predicate Ordered(b: Box) {
    b.west <= b.east && b.south <= b.north
  }

  /** The box contains the position `c`. */
  predicate Inside(b: Box, c: Coord) {
    b.west <= c.longitude <= b.east && b.south <= c.latitude <= b.north
  }

  /** Python's `min(xs)` on a non-empty list. */
  function MinOf(xs: seq<real>): (m: real)
    requires xs != []
    ensures m in xs
    ensures forall i | 0 <= i < |xs| :: m <= xs[i]
  {
    if |xs| == 1 then xs[0]
    else
      var rest := MinOf(xs[1..]);
      if xs[0] <= rest then xs[0] else rest
  }

  /** Python's `max(xs)` on a non-empty list. */
  function MaxOf(xs: seq<real>): (m: real)
    requires xs != []
    ensures m in xs
    ensures forall i | 0 <= i < |xs| :: xs[i] <= m
  {
    if |xs| == 1 then xs[0]
    else
      var rest := MaxOf(xs[1..]);
      if xs[0] >= rest then xs[0] else rest
  }

  function Latitude(c: Coord): real { c.latitude }
  function Longitude(c: Coord): real { c.longitude }

  /** `lats = [c['latitude'] for c in all_coords]`. */
  function Lats(cs: seq<Coord>): seq<real> {
    Map(Latitude, cs)
  }

  /** `lons = [c['longitude'] for c in all_coords]`. */
  function Lons(cs: seq<Coord>): seq<real> {
    Map(Longitude, cs)
  }

  /** `west, east = min(lons), max(lons)` and `south, north = min(lats), max(lats)`. */
  function BoundsOf(cs: seq<Coord>): Box
    requires cs != []
  {
    Box(MinOf(Lons(cs)), MaxOf(Lons(cs)), MinOf(Lats(cs)), MaxOf(Lats(cs)))
  }

  /** The box is in order and holds every position it was taken over. */
  lemma BoundsContain(cs: seq<Coord>)
    requires cs != []
    ensures Ordered(BoundsOf(cs))
    ensures forall i | 0 <= i < |cs| :: Inside(BoundsOf(cs), cs[i])
  {
    assert Lons(cs)[0] == cs[0].longitude;
    assert Lats(cs)[0] == cs[0].latitude;
  }

  /** The box is the smallest such: each of its edges is touched by some position. */
  lemma BoundsTight(cs: seq<Coord>)
    requires cs != []
    ensures exists i | 0 <= i < |cs| :: cs[i].longitude == BoundsOf(cs).west
    ensures exists i | 0 <= i < |cs| :: cs[i].longitude == BoundsOf(cs).east
    ensures exists i | 0 <= i < |cs| :: cs[i].latitude == BoundsOf(cs).south
    ensures exists i | 0 <= i < |cs| :: cs[i].latitude == BoundsOf(cs).north
  {
    var b := BoundsOf(cs);
    var w :| 0 <= w < |cs| && Lons(cs)[w] == b.west;
    var e :| 0 <= e < |cs| && Lons(cs)[e] == b.east;
    var s :| 0 <= s < |cs| && Lats(cs)[s] == b.south;
    var n :| 0 <= n < |cs| && Lats(cs)[n] == b.north;
  }

  /** `(center_lat, center_lon)`: the midpoints of the box's edges. */
  function Centre(b: Box): Coord {
    Coord((b.north + b.south) / 2.0, (b.west + b.east) / 2.0)
  }

  /** The centre of an ordered box lies inside it, as far from each edge as from the opposite one. */
  lemma CentreInside(b: Box)
    requires Ordered(b)
    ensures Inside(b, Centre(b))
    ensures Centre(b).latitude - b.south == b.north - Centre(b).latitude
    ensures Centre(b).longitude - b.west == b.east - Centre(b).longitude
  {
  }

  /** `bbox_polygon`: the box as a closed ring of `[longitude, latitude]` positions. */
  function Ring(b: Box): seq<seq<real>> {
    [[b.west, b.south], [b.east, b.south], [b.east, b.north], [b.west, b.north], [b.west, b.south]]
  }

  /** A GeoJSON position `[longitude, latitude]` read back as a coordinate. */
  function Corner(v: seq<real>): Coord {
    if |v| < 2 then Coord(0.0, 0.0) else Coord(v[1], v[0])
  }

  /**
    The ring is closed, has five positions of two numbers each, and its
    positions lie on the box; taking the bounds of its positions gives the
    box back.
   */
  lemma RingClosed(b: Box)
    ensures |Ring(b)| == 5 && Ring(b)[0] == Ring(b)[4]
    ensures forall i | 0 <= i < 5 :: |Ring(b)[i]| == 2
    ensures Ordered(b) ==> forall i | 0 <= i < 5 :: Inside(b, Corner(Ring(b)[i]))
  {
  }

  lemma RingRoundTrip(b: Box)
    requires Ordered(b)
    ensures BoundsOf(Map(Corner, Ring(b))) == b
  {
    var cs := Map(Corner, Ring(b));
    RingClosed(b);
    assert cs[0] == Corner(Ring(b)[0]) && cs[2] == Corner(Ring(b)[2]);
    BoundsOfIs(cs, b, 0, 2);
  }

  /**
    A box that holds all the positions and has a position at its south-west
    corner and one at its north-east corner is their bounding box.
   */
  lemma BoundsOfIs(cs: seq<Coord>, b: Box, sw: nat, ne: nat)
    requires sw < |cs| && ne < |cs|
    requires forall k | 0 <= k < |cs| :: Inside(b, cs[k])
    requires cs[sw] == Coord(b.south, b.west) && cs[ne] == Coord(b.north, b.east)
    ensures BoundsOf(cs) == b
  {
    var lons, lats := Lons(cs), Lats(cs);
    assert lons[sw] == b.west && lons[ne] == b.east;
    assert lats[sw] == b.south && lats[ne] == b.north;
    assert forall k | 0 <= k < |cs| :: b.west <= lons[k] <= b.east && b.south <= lats[k] <= b.north;
  }

  /** The opening and the closing of the envelope string. */
  const EnvelopeOpen: string := "ENVELOPE("
  const EnvelopeClose: string := ")"

  /**
    `f"ENVELOPE({west},{east},{north},{south})"`. How a float is written is
    a parameter, `show`.
   */
  function EnvelopeString(b: Box, show: real -> string): string {
    EnvelopeOpen + Join([','], [show(b.west), show(b.east), show(b.north), show(b.south)]) + EnvelopeClose
  }

  /** A reader for envelope strings, which puts the box's four numbers back in their places. */
  function ParseEnvelope(s: string, read: string -> real): Option<Box> {
    if |s| < |EnvelopeOpen| + |EnvelopeClose| || s[..|EnvelopeOpen|] != EnvelopeOpen || s[|s| - 1..] != EnvelopeClose then None
    else
      var parts := Split(s[|EnvelopeOpen|..|s| - 1], ',');
      if |parts| != 4 then None
      else Some(Box(read(parts[0]), read(parts[1]), read(parts[3]), read(parts[2])))
  }

  /**
    The envelope lists west, east, north and south in that order: when the
    box's four numbers are written without commas and read back as
    themselves, reading the string gives the box back.
   */
  lemma EnvelopeRoundTrip(b: Box, show: real -> string, read: string -> real)
    requires forall x | x in {b.west, b.east, b.north, b.south} :: ',' !in show(x) && read(show(x)) == x
    ensures ParseEnvelope(EnvelopeString(b, show), read) == Some(b)
  {
    var parts := [show(b.west), show(b.east), show(b.north), show(b.south)];
    var inner := Join([','], parts);
    var s := EnvelopeString(b, show);
    assert s[..|EnvelopeOpen|] == EnvelopeOpen;
    assert s[|s| - 1..] == EnvelopeClose;
    assert s[|EnvelopeOpen|..|s| - 1] == inner;
    SplitJoin(parts, ',');
  }

  /** The positions the box is taken over, and where they came from. */
  datatype Extent = Extent(source: string, box: Option<Box>)

  /** The positions of the resolved map-level strings. */
  function FixCoord(f: TownshipFix): Coord { f.coord }

  /**
    The basis of the box: the map-level positions when any resolved, the
    water-resource positions otherwise, and nothing when there are neither.
   */
  function ExtentOf(fixes: seq<TownshipFix>, coords: seq<Coord>): Extent {
    if fixes != [] then Extent(DerivedSource, Some(BoundsOf(Map(FixCoord, fixes))))
    else if coords != [] then Extent(FallbackSource, Some(BoundsOf(coords)))
    else Extent(NoCoordinates, None)
  }

  /**
    There is a box exactly when some position is known. The map-level
    positions take precedence: when any resolved, the box holds all of them
    (and the water-resource positions play no part); otherwise it holds all
    the water-resource positions. Either way it is in order.
   */
  lemma ExtentBasis(fixes: seq<TownshipFix>, coords: seq<Coord>)
    ensures var x := ExtentOf(fixes, coords);
      && (x.box.Some? <==> fixes != [] || coords != [])
      && (x.box.Some? ==> Ordered(x.box.value))
      && (fixes != [] ==> x.source == DerivedSource && forall f | f in fixes :: Inside(x.box.value, f.coord))
      && (fixes == [] && coords != [] ==> x.source == FallbackSource && forall c | c in coords :: Inside(x.box.value, c))
      && (x.box.None? ==> x.source == NoCoordinates)
  {
    if fixes != [] {
      var cs := Map(FixCoord, fixes);
      BoundsContain(cs);
      forall f | f in fixes ensures Inside(BoundsOf(cs), f.coord) {
        var i :| 0 <= i < |fixes| && fixes[i] == f;
        assert cs[i] == f.coord;
      }
    } else if coords != [] {
      BoundsContain(coords);
    }
  }

  /** The map-level positions decide the box on their own. */
  lemma ExtentIgnoresFallback(fixes: seq<TownshipFix>, coords: seq<Coord>, other: seq<Coord>)
    requires fixes != []
    ensures ExtentOf(fixes, coords) == ExtentOf(fixes, other)
  {
  }

  /** A GeoJSON feature of the collection the handler uploads. */
  datatype Feature =
    | Boundary(name: string, polygon: seq<seq<seq<real>>>, source: string, townshipsUsed: seq<string>)
    | PointFeature(point: WaterPoint)

  function AsFeature(p: WaterPoint): Feature { PointFeature(p) }

  /** The boundary feature, when there is a box. */
  function BoundaryPart(x: Extent, updated: seq<string>): (head: seq<Feature>)
    ensures |head| == if x.box.Some? then 1 else 0
  {
    if x.box.Some? then [Boundary(BoundaryName, [Ring(x.box.value)], x.source, updated)] else []
  }

  /**
    `features`: the boundary polygon, when there is a box, and then the
    water-resource points.
   */
  function Features(x: Extent, updated: seq<string>, points: seq<WaterPoint>): seq<Feature> {
    BoundaryPart(x, updated) + Map(AsFeature, points)
  }

  /** Features put after some others keep their order. */
  lemma PointsAfter(head: seq<Feature>, points: seq<WaterPoint>)
    ensures var fs := head + Map(AsFeature, points);
      && |fs| == |head| + |points|
      && forall j | |head| <= j < |fs| :: fs[j] == PointFeature(points[j - |head|])
  {
  }

  /**
    The boundary comes first and only when there is a box; after it come the
    points, every one of them in order, and nothing else.
   */
  lemma FeatureOrder(x: Extent, updated: seq<string>, points: seq<WaterPoint>)
    ensures var fs := Features(x, updated, points);
      var k := if x.box.Some? then 1 else 0;
      && |fs| == |points| + k
      && (forall j | k <= j < |fs| :: fs[j] == PointFeature(points[j - k]))
  {
    PointsAfter(BoundaryPart(x, updated), points);
  }

  /** With a box, the first feature is its boundary, carrying its source and the normalised map-level strings. */
  lemma BoundaryFirst(x: Extent, updated: seq<string>, points: seq<WaterPoint>)
    requires x.box.Some?
    ensures Features(x, updated, points)[0] == Boundary(BoundaryName, [Ring(x.box.value)], x.source, updated)
  {
  }
}
