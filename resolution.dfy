/**
  The coordinate resolution of the analysis handler
  (analysis_lambda/analysis_handler.py): the township-range strings the
  model read off a map get a default section, the map-level ones are looked
  up one by one, and each water resource is placed by a township lookup
  first and by geocoding second, remembering which of the two placed it.

  The township-range web service and the geocoder are oracles: each maps its
  query to a coordinate or to nothing. Both already turn every failure into
  "nothing" (the service returns `None` on any error, and a geocoding
  exception is caught), so nothing else can come back.
 */
module Resolution {
  import opened Wrappers
  import opened Text
  import opened Seqs

  /** The word a township-range string must contain to count as having a section. */
  const SectionMarker: string := "Section"
  /** The section appended to a township-range string that names none. */
  const DefaultSection: string := " Section 15"
  /** What the geocoding query appends to a water resource's name. */
  const GeocodeSuffix: string := ", Colorado, USA"
  /** The provenance prefixes of the two tiers. */
  const TownshipSource: string := "Township-Range: "
  const GeocodeSource: string := "Geocoded from name: "

  /** A WGS84 position as the lookups report it. */
  datatype Coord = Coord(latitude: real, longitude: real)

  /** `get_coordinates_from_township`: the position of a township-range string, if any. */
  type TownshipLookup = string -> Option<Coord>

  /** `geolocator.geocode(query, country_codes="us")`: the position of a free-text query, if any. */
  type Geocoder = string -> Option<Coord>

  /**
    One water resource of the model's reply; a key the reply leaves out is
    the empty string, as `resource.get(key, "")` makes it.
   */
  datatype WaterResource = WaterResource(name: string, description: string, featureType: string, townshipRange: string)

  /**
    The section normalisation: a string that mentions no section is stripped
    and gets " Section 15"; one that does is kept exactly as it is.
   */
  function WithDefaultSection(ts: string): string {
    if Contains(ts, SectionMarker) then ts else Strip(ts) + DefaultSection
  }

  /** After normalisation every string mentions a section. */
  lemma NormalisedHasSection(ts: string)
    ensures Contains(WithDefaultSection(ts), SectionMarker)
  {
    if !Contains(ts, SectionMarker) {
      var r := Strip(ts) + DefaultSection;
      assert r[|Strip(ts)| + 1..|Strip(ts)| + 1 + |SectionMarker|] == SectionMarker;
      ContainsAt(r, SectionMarker, |Strip(ts)| + 1);
    }
  }

  /** Every normalised map-level string mentions a section, and there is one per input string. */
  lemma NormalisedTownshipsHaveSection(ranges: seq<string>)
    ensures |NormalisedTownships(ranges)| == |ranges|
    ensures forall i | 0 <= i < |ranges| :: Contains(NormalisedTownships(ranges)[i], SectionMarker)
  {
    forall i | 0 <= i < |ranges| ensures Contains(NormalisedTownships(ranges)[i], SectionMarker) {
      NormalisedHasSection(ranges[i]);
    }
  }

  /** Normalising twice is normalising once. */
  lemma NormaliseIdempotent(ts: string)
    ensures WithDefaultSection(WithDefaultSection(ts)) == WithDefaultSection(ts)
  {
    NormalisedHasSection(ts);
  }

  /** A map-level township-range string that resolved, tagged with the string it came from. */
  datatype TownshipFix = TownshipFix(coord: Coord, reference: string)

  /** `updated_map_township`: every map-level string, normalised, in order. */
  function NormalisedTownships(ranges: seq<string>): (r: seq<string>)
    ensures |r| == |ranges|
    ensures forall i | 0 <= i < |ranges| :: r[i] == WithDefaultSection(ranges[i])
  {
    Map(WithDefaultSection, ranges)
  }

  /** `township_coords`: the strings whose lookup found a position, in order. */
  function MapFixes(updated: seq<string>, lookup: TownshipLookup): seq<TownshipFix> {
    if updated == [] then []
    else
      var last := updated[|updated| - 1];
      MapFixes(updated[..|updated| - 1], lookup)
        + (if lookup(last).Some? then [TownshipFix(lookup(last).value, last)] else [])
  }

  /** The first loop over the map-level strings: normalise each one. */
  method NormaliseMapTownships(ranges: seq<string>) returns (updated: seq<string>)
    ensures updated == NormalisedTownships(ranges)
  {
    updated := [];
    for i := 0 to |ranges|
      invariant updated == NormalisedTownships(ranges[..i])
    {
      var ts := ranges[i];
      if !Contains(ts, SectionMarker) {
        ts := Strip(ts) + DefaultSection;
      }
      MapNext(WithDefaultSection, ranges, i);
      updated := updated + [ts];
    }
    assert ranges[..|ranges|] == ranges;
  }

  /** The second loop: look each normalised string up and keep the ones that resolve. */
  method ResolveMapTownships(updated: seq<string>, lookup: TownshipLookup) returns (fixes: seq<TownshipFix>)
    ensures fixes == MapFixes(updated, lookup)
  {
    fixes := [];
    for i := 0 to |updated|
      invariant fixes == MapFixes(updated[..i], lookup)
    {
      assert updated[..i + 1][..i] == updated[..i];
      var ts := updated[i];
      var coord := lookup(ts);
      if coord.Some? {
        fixes := fixes + [TownshipFix(coord.value, ts)];
      }
    }
    assert updated[..|updated|] == updated;
  }

  /** Resolving two runs of strings one after the other resolves the joined run. */
  lemma {:induction false} MapFixesAppend(a: seq<string>, b: seq<string>, lookup: TownshipLookup)
    ensures MapFixes(a + b, lookup) == MapFixes(a, lookup) + MapFixes(b, lookup)
    decreases |b|
  {
    if b == [] {
      assert a + b == a;
    } else {
      assert (a + b)[..|a + b| - 1] == a + b[..|b| - 1];
      MapFixesAppend(a, b[..|b| - 1], lookup);
    }
  }

  /**
    The map-level positions are exactly the resolved strings in order: one
    string resolves to itself tagged with its position or to nothing, and
    every kept position is what the lookup returned for its own string.
   */
  lemma {:induction false} MapFixesSound(updated: seq<string>, lookup: TownshipLookup)
    ensures |MapFixes(updated, lookup)| <= |updated|
    ensures forall f | f in MapFixes(updated, lookup) ::
      f.reference in updated && lookup(f.reference) == Some(f.coord)
    ensures forall t | t in updated && lookup(t).Some? ::
      TownshipFix(lookup(t).value, t) in MapFixes(updated, lookup)
    ensures MapFixes(updated, lookup) == [] <==> forall t | t in updated :: lookup(t).None?
  {
    if updated != [] {
      var init := updated[..|updated| - 1];
      MapFixesSound(init, lookup);
      assert updated == init + [updated[|updated| - 1]];
      forall t | t in updated && lookup(t).Some?
        ensures TownshipFix(lookup(t).value, t) in MapFixes(updated, lookup)
      {
        if t != updated[|updated| - 1] {
          assert t in init;
        }
      }
    }
  }

  /** A request made to one of the two services while placing a water resource. */
  datatype Call = TownshipQuery(locality: string) | GeocodeQuery(query: string)

  /**
    What the handler makes of one water resource: its stripped name and
    type, its normalised township-range string (empty when it had none), the
    position found, the provenance string, and the requests made.
   */
  datatype Placement = Placement(
    name: string, featureType: string, township: string,
    coord: Option<Coord>, source: string, calls: seq<Call>)

  /** The township-range string a water resource is looked up by: stripped and normalised, or empty. */
  function Locality(raw: string): string {
    if Strip(raw) == [] then [] else WithDefaultSection(Strip(raw))
  }

  /**
    The two tiers: a non-empty township-range string is normalised and
    looked up; when that finds nothing (or there was no string) the geocoder
    is asked for the string, or for the name followed by ", Colorado, USA"
    when there is no string.
   */
  function Place(r: WaterResource, lookup: TownshipLookup, geocode: Geocoder): Placement {
    var name := Strip(r.name);
    var featureType := Strip(r.featureType);
    var ts := Locality(r.townshipRange);
    var found := if ts == [] then None else lookup(ts);
    var asked := if ts == [] then [] else [TownshipQuery(ts)];
    if found.Some? then Placement(name, featureType, ts, found, TownshipSource + ts, asked)
    else
      var query := if ts == [] then name + GeocodeSuffix else ts;
      var located := geocode(query);
      Placement(name, featureType, ts, located, if located.Some? then GeocodeSource + name else "", asked + [GeocodeQuery(query)])
  }

  /**
    The first tier. The township service is asked exactly when the resource
    has a township-range string, and then only for its normalised form,
    which mentions a section; when it finds a position, that is the
    resource's position and the geocoder is not asked.
   */
  lemma PlaceTownshipTier(r: WaterResource, lookup: TownshipLookup, geocode: Geocoder)
    ensures var p := Place(r, lookup, geocode);
      var ts := Strip(r.townshipRange);
      && (ts == [] <==> p.township == [])
      && (ts != [] ==> p.township == WithDefaultSection(ts) && Contains(p.township, SectionMarker))
      && (TownshipQuery(p.township) in p.calls <==> ts != [])
      && (forall c | c in p.calls && c.TownshipQuery? :: c.locality == p.township)
      && (ts != [] && lookup(p.township).Some? ==> p.coord == lookup(p.township) && p.calls == [TownshipQuery(p.township)])
  {
    var ts := Strip(r.townshipRange);
    if ts != [] {
      NormalisedHasSection(ts);
    }
  }

  /**
    The second tier. When the first did not place the resource the
    geocoder is asked, last, for the normalised township string if there is
    one and otherwise for the name followed by ", Colorado, USA"; that query
    is never empty, and the geocoder's answer is the resource's position.
   */
  lemma PlaceGeocodeTier(r: WaterResource, lookup: TownshipLookup, geocode: Geocoder)
    ensures var p := Place(r, lookup, geocode);
      p.township == [] || lookup(p.township).None? ==>
        var query := if p.township == [] then p.name + GeocodeSuffix else p.township;
        && query != []
        && p.calls[|p.calls| - 1] == GeocodeQuery(query)
        && p.coord == geocode(query)
  {
  }

  /**
    The provenance: "Township-Range: " and the normalised string when the
    township service placed the resource, "Geocoded from name: " and the
    name when the geocoder did (even when it was asked for the township
    string), and empty exactly when the resource was not placed.
   */
  lemma PlaceProvenance(r: WaterResource, lookup: TownshipLookup, geocode: Geocoder)
    ensures var p := Place(r, lookup, geocode);
      && (p.source == [] <==> p.coord.None?)
      && (p.township != [] && lookup(p.township).Some? ==> p.source == TownshipSource + p.township)
      && ((p.township == [] || lookup(p.township).None?) && p.coord.Some? ==> p.source == GeocodeSource + p.name)
  {
    var p := Place(r, lookup, geocode);
    assert |TownshipSource + p.township| > 0;
    assert |GeocodeSource + p.name| > 0;
  }

  /** `f"{name} ({feature_type})"`: the entry of a resource in `water_feature_list`. */
  function LabelOf(p: Placement): string {
    p.name + " (" + p.featureType + ")"
  }

  /** `water_feature_list`: one label per resource, placed or not, in order. */
  function Labels(ps: seq<Placement>): (ls: seq<string>)
    ensures |ls| == |ps|
    ensures forall i | 0 <= i < |ps| :: ls[i] == LabelOf(ps[i])
  {
    Map(LabelOf, ps)
  }

  /**
    A GeoJSON point feature for a placed water resource. Its coordinates are
    `[longitude, latitude]`, in GeoJSON order.
   */
  datatype WaterPoint = WaterPoint(
    coordinates: seq<real>, name: string, featureType: string,
    coordinateSource: string, townshipRangeUsed: string)

  function PointOf(p: Placement): WaterPoint
    requires p.coord.Some?
  {
    WaterPoint([p.coord.value.longitude, p.coord.value.latitude], p.name, p.featureType, p.source, p.township)
  }

  /** The placement of every resource, in order. */
  function Placements(rs: seq<WaterResource>, lookup: TownshipLookup, geocode: Geocoder): (ps: seq<Placement>)
    ensures |ps| == |rs|
    ensures forall i | 0 <= i < |rs| :: ps[i] == Place(rs[i], lookup, geocode)
  {
    seq(|rs|, i requires 0 <= i < |rs| => Place(rs[i], lookup, geocode))
  }

  /** `water_features`: the point of every placed resource, in order. */
  function WaterPoints(ps: seq<Placement>): seq<WaterPoint> {
    if ps == [] then []
    else WaterPoints(ps[..|ps| - 1]) + (if ps[|ps| - 1].coord.Some? then [PointOf(ps[|ps| - 1])] else [])
  }

  /** `water_resource_coords`: the position of every placed resource, in order. */
  function WaterCoords(ps: seq<Placement>): seq<Coord> {
    if ps == [] then []
    else WaterCoords(ps[..|ps| - 1]) + (if ps[|ps| - 1].coord.Some? then [ps[|ps| - 1].coord.value] else [])
  }

  /** Every request made while placing the resources, in order. */
  function WaterCalls(ps: seq<Placement>): seq<Call> {
    if ps == [] then [] else WaterCalls(ps[..|ps| - 1]) + ps[|ps| - 1].calls
  }

  /** The water-resource stage's results, gathered. */
  datatype WaterStage = WaterStage(points: seq<WaterPoint>, labels: seq<string>, coords: seq<Coord>, calls: seq<Call>)

  function WaterStageOf(rs: seq<WaterResource>, lookup: TownshipLookup, geocode: Geocoder): WaterStage {
    var ps := Placements(rs, lookup, geocode);
    WaterStage(WaterPoints(ps), Labels(ps), WaterCoords(ps), WaterCalls(ps))
  }

  /**
    The body of the loop over the water resources for one resource: strip
    the fields, try the township service when there is a township-range
    string, and fall back on the geocoder.
   */
  method PlaceResource(resource: WaterResource, lookup: TownshipLookup, geocode: Geocoder)
    returns (p: Placement)
    ensures p == Place(resource, lookup, geocode)
  {
    var name := Strip(resource.name);
    var featureType := Strip(resource.featureType);
    var ts := Strip(resource.townshipRange);
    var coordSource: string := "";
    var coord: Option<Coord> := None;
    var calls: seq<Call> := [];
    if ts != [] {
      StripIdempotent(resource.townshipRange);
      if !Contains(ts, SectionMarker) {
        ts := ts + DefaultSection;
      }
      coord := lookup(ts);
      calls := calls + [TownshipQuery(ts)];
      coordSource := if coord.Some? then TownshipSource + ts else "";
    }
    assert ts == Locality(resource.townshipRange);
    if coord.None? {
      var query := if ts != [] then ts else name + GeocodeSuffix;
      var location := geocode(query);
      calls := calls + [GeocodeQuery(query)];
      if location.Some? {
        coord := location;
        coordSource := GeocodeSource + name;
      }
    }
    p := Placement(name, featureType, ts, coord, coordSource, calls);
  }

  /**
    The loop over the water resources: place each one, record a point and a
    position for each placed resource and a label for every resource.
   */
  method ResolveWaterResources(rs: seq<WaterResource>, lookup: TownshipLookup, geocode: Geocoder)
    returns (stage: WaterStage)
    ensures stage == WaterStageOf(rs, lookup, geocode)
  {
    var points: seq<WaterPoint> := [];
    var labels: seq<string> := [];
    var coords: seq<Coord> := [];
    var calls: seq<Call> := [];
    ghost var placed: seq<Placement> := [];
    for i := 0 to |rs|
      invariant |placed| == i
      invariant forall j | 0 <= j < i :: placed[j] == Place(rs[j], lookup, geocode)
      invariant points == WaterPoints(placed)
      invariant labels == Labels(placed)
      invariant coords == WaterCoords(placed)
      invariant calls == WaterCalls(placed)
    {
      var p := PlaceResource(rs[i], lookup, geocode);
      PlacedNext(rs, lookup, geocode, placed, p);
      StageNext(placed, p);
      placed := placed + [p];
      if p.coord.Some? {
        coords := coords + [p.coord.value];
        points := points + [WaterPoint([p.coord.value.longitude, p.coord.value.latitude], p.name, p.featureType, p.source, p.township)];
      }
      calls := calls + p.calls;
      labels := labels + [p.name + " (" + p.featureType + ")"];
    }
    assert placed == Placements(rs, lookup, geocode);
    stage := WaterStage(points, labels, coords, calls);
  }

  /** One more resource placed: the placements so far are still the prefix's. */
  lemma PlacedNext(rs: seq<WaterResource>, lookup: TownshipLookup, geocode: Geocoder, placed: seq<Placement>, p: Placement)
    requires |placed| < |rs|
    requires forall j | 0 <= j < |placed| :: placed[j] == Place(rs[j], lookup, geocode)
    requires p == Place(rs[|placed|], lookup, geocode)
    ensures forall j | 0 <= j < |placed| + 1 :: (placed + [p])[j] == Place(rs[j], lookup, geocode)
  {
  }

  /** What one more placement adds to each of the stage's sequences. */
  lemma StageNext(placed: seq<Placement>, p: Placement)
    ensures WaterPoints(placed + [p]) == WaterPoints(placed) + (if p.coord.Some? then [PointOf(p)] else [])
    ensures WaterCoords(placed + [p]) == WaterCoords(placed) + (if p.coord.Some? then [p.coord.value] else [])
    ensures WaterCalls(placed + [p]) == WaterCalls(placed) + p.calls
    ensures Labels(placed + [p]) == Labels(placed) + [LabelOf(p)]
  {
    assert (placed + [p])[..|placed|] == placed;
    MapSnoc(LabelOf, placed, p);
  }

  /**
    The points and the positions are the placed resources, in input order:
    two runs of placements one after the other give the points of the first
    followed by those of the second, and one placement gives its own point
    exactly when it found a position.
   */
  lemma {:induction false} WaterPointsAppend(a: seq<Placement>, b: seq<Placement>)
    ensures WaterPoints(a + b) == WaterPoints(a) + WaterPoints(b)
    ensures WaterCoords(a + b) == WaterCoords(a) + WaterCoords(b)
    decreases |b|
  {
    if b == [] {
      assert a + b == a;
    } else {
      assert (a + b)[..|a + b| - 1] == a + b[..|b| - 1];
      WaterPointsAppend(a, b[..|b| - 1]);
    }
  }

  lemma WaterPointsSingle(p: Placement)
    ensures WaterPoints([p]) == (if p.coord.Some? then [PointOf(p)] else [])
    ensures WaterCoords([p]) == (if p.coord.Some? then [p.coord.value] else [])
  {
    assert [p][..0] == [];
  }

  /**
    Each point stands for the position at the same index, with the
    longitude first, and there are no more points than resources.
   */
  lemma {:induction false} PointsMatchCoords(ps: seq<Placement>)
    ensures |WaterPoints(ps)| == |WaterCoords(ps)| <= |ps|
    ensures forall i | 0 <= i < |WaterPoints(ps)| ::
      WaterPoints(ps)[i].coordinates == [WaterCoords(ps)[i].longitude, WaterCoords(ps)[i].latitude]
  {
    if ps != [] {
      PointsMatchCoords(ps[..|ps| - 1]);
    }
  }
}
