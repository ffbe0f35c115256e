/** `_calculate_zone`, `_get_point` and `_complete_layer_info`: every row of a layer
    gets the name of the first zone, in zone order, that contains its point. */
module Classifier {
  import opened Results
  import opened Scan
  import opened Kml
  import opened PointParser
  import opened PolygonParser

  /** `_get_point(Longitude, Latitude)`: a planar point; the altitude takes no part. */
  datatype XY = XY(x: real, y: real)

  /** `point.within(polygon)` of the geometry library, where the polygon is built from
      the zone's ring. Left abstract, including its treatment of boundary points and of
      degenerate rings. */
  type Containment = (seq<Vertex>, XY) -> bool

  /** The value of the Zone column for a point inside no zone. */
  const NoZone: string := "Sin Zona"

  /** `_calculate_zone`: scan the zones in order and answer the name of the first whose
      polygon contains the point, or `NoZone` when none does. */
  function CalculateZone(p: XY, zones: seq<Zone>, contains: Containment): (name: string)
    ensures (exists i :: 0 <= i < |zones| && contains(zones[i].ring, p)) ==>
              exists i :: 0 <= i < |zones| && contains(zones[i].ring, p) && name == zones[i].name &&
                          forall j :: 0 <= j < i ==> !contains(zones[j].ring, p)
    ensures (forall i :: 0 <= i < |zones| ==> !contains(zones[i].ring, p)) ==> name == NoZone
    ensures name == NoZone || exists i :: 0 <= i < |zones| && zones[i].name == name
    decreases |zones|
  {
    if zones == [] then NoZone
    else if contains(zones[0].ring, p) then zones[0].name
    else
      var name := CalculateZone(p, zones[1..], contains);
      assert forall i :: 1 <= i < |zones| ==> zones[i] == zones[1..][i - 1];
      name
  }

  /** Zones appended after the ones scanned so far never change a point that one of
      those already contains; a point none of them contains is classified by the new
      zones alone. */
  lemma {:induction false} CalculateZoneAppend(p: XY, first: seq<Zone>, rest: seq<Zone>, contains: Containment)
    ensures (exists i :: 0 <= i < |first| && contains(first[i].ring, p)) ==>
              CalculateZone(p, first + rest, contains) == CalculateZone(p, first, contains)
    ensures (forall i :: 0 <= i < |first| ==> !contains(first[i].ring, p)) ==>
              CalculateZone(p, first + rest, contains) == CalculateZone(p, rest, contains)
    decreases |first|
  {
    if first == [] {
      assert first + rest == rest;
    } else {
      assert (first + rest)[0] == first[0];
      assert (first + rest)[1..] == first[1..] + rest;
      CalculateZoneAppend(p, first[1..], rest, contains);
      assert forall i :: 1 <= i < |first| ==> first[i] == first[1..][i - 1];
    }
  }

  /** The point of a row: `float(Longitude)`, then `float(Latitude)`. */
  function RowPoint(parse: NumberParser, row: PointRow): Result<Option<XY>, ParseError>
  {
    match parse(row.longitude)
    case None => Failure(InvalidCoordinate)
    case Some(x) =>
      match parse(row.latitude)
      case None => Failure(InvalidCoordinate)
      case Some(y) => Success(Some(XY(x, y)))
  }

  function RowPointFn(parse: NumberParser): PointRow -> Result<Option<XY>, ParseError>
  {
    row => RowPoint(parse, row)
  }

  /** The Zone column `_complete_layer_info` computes: every row's point first (the
      first non-numeric coordinate raises), then every point's zone. */
  function ZoneColumn(rows: seq<PointRow>, zones: seq<Zone>, parse: NumberParser, contains: Containment): Result<seq<string>, ParseError>
  {
    var points :- FilterMap(rows, RowPointFn(parse));
    Success(seq(|points|, k requires 0 <= k < |points| => CalculateZone(points[k], zones, contains)))
  }

  /** The column exists exactly when every row has a numeric longitude and latitude;
      it then holds one value per row, the zone of that row's point. */
  lemma ZoneColumnSpec(rows: seq<PointRow>, zones: seq<Zone>, parse: NumberParser, contains: Containment)
    ensures ZoneColumn(rows, zones, parse, contains).Success? <==>
              forall k :: 0 <= k < |rows| ==> parse(rows[k].longitude).Some? && parse(rows[k].latitude).Some?
    ensures ZoneColumn(rows, zones, parse, contains).Success? ==>
              var column := ZoneColumn(rows, zones, parse, contains).value;
              |column| == |rows| &&
              forall k :: 0 <= k < |rows| ==>
                column[k] == CalculateZone(XY(parse(rows[k].longitude).value, parse(rows[k].latitude).value), zones, contains)
  {
    var f := RowPointFn(parse);
    FilterMapSpec(rows, f);
    assert forall k :: 0 <= k < |rows| ==> f(rows[k]) == RowPoint(parse, rows[k]);
    if FilterMap(rows, f).Success? {
      FilterMapKeepsAll(rows, f);
    }
  }

  /** The altitude never matters: layers that agree on every longitude and latitude
      get the same Zone column. */
  lemma AltitudeIsIgnored(rows: seq<PointRow>, others: seq<PointRow>, zones: seq<Zone>, parse: NumberParser, contains: Containment)
    requires |rows| == |others|
    requires forall k :: 0 <= k < |rows| ==> rows[k].longitude == others[k].longitude && rows[k].latitude == others[k].latitude
    ensures ZoneColumn(rows, zones, parse, contains) == ZoneColumn(others, zones, parse, contains)
  {
    ZoneColumnSpec(rows, zones, parse, contains);
    ZoneColumnSpec(others, zones, parse, contains);
    var f := RowPointFn(parse);
    FilterMapSpec(rows, f);
    FilterMapSpec(others, f);
    assert forall k :: 0 <= k < |rows| ==> f(rows[k]) == RowPoint(parse, rows[k]) == RowPoint(parse, others[k]) == f(others[k]);
    if ZoneColumn(rows, zones, parse, contains).Success? {
      var column := ZoneColumn(rows, zones, parse, contains).value;
      var otherColumn := ZoneColumn(others, zones, parse, contains).value;
      assert column == otherColumn;
    } else {
      assert ZoneColumn(rows, zones, parse, contains) == Failure(InvalidCoordinate);
      assert ZoneColumn(others, zones, parse, contains) == Failure(InvalidCoordinate);
    }
  }

  /** The first `apply` of `_complete_layer_info`: the point of every row, in order;
      the first row whose longitude or latitude `float` rejects raises. */
  method RowPoints(rows: seq<PointRow>, parse: NumberParser) returns (points: Result<seq<XY>, ParseError>)
    ensures points == FilterMap(rows, RowPointFn(parse))
  {
    ghost var f := RowPointFn(parse);
    var done: seq<XY> := [];
    var k := 0;
    while k < |rows|
      invariant 0 <= k <= |rows|
      invariant FilterMap(rows[..k], f) == Success(done)
    {
      FilterMapStep(rows, k, f);
      assert f(rows[k]) == RowPoint(parse, rows[k]);
      var longitude := parse(rows[k].longitude);
      if longitude.None? {
        FilterMapPrefixFailure(rows, k + 1, f);
        return Failure(InvalidCoordinate);
      }
      var latitude := parse(rows[k].latitude);
      if latitude.None? {
        FilterMapPrefixFailure(rows, k + 1, f);
        return Failure(InvalidCoordinate);
      }
      done := done + [XY(longitude.value, latitude.value)];
      k := k + 1;
    }
    assert rows[..k] == rows;
    return Success(done);
  }

  /** The second `apply` of `_complete_layer_info`: the zone of every point, in order. */
  method PointZones(points: seq<XY>, zones: seq<Zone>, contains: Containment) returns (column: seq<string>)
    ensures |column| == |points|
    ensures forall m :: 0 <= m < |points| ==> column[m] == CalculateZone(points[m], zones, contains)
  {
    column := [];
    var k := 0;
    while k < |points|
      invariant 0 <= k <= |points|
      invariant |column| == k
      invariant forall m :: 0 <= m < k ==> column[m] == CalculateZone(points[m], zones, contains)
    {
      column := column + [CalculateZone(points[k], zones, contains)];
      k := k + 1;
    }
  }

  /** `_complete_layer_info(layer, zones)`: adds the Zone column to the layer, or
      raises and leaves the layer as it was. */
  method CompleteLayerInfo(layer: PointFrame, zones: seq<Zone>, parse: NumberParser, contains: Containment)
    returns (outcome: Outcome<ParseError>)
    modifies layer`zone
    ensures outcome.Pass? <==> ZoneColumn(old(layer.rows), zones, parse, contains).Success?
    ensures outcome.Pass? ==> layer.zone == Some(ZoneColumn(old(layer.rows), zones, parse, contains).value)
    ensures outcome.Fail? ==> outcome.error == ZoneColumn(old(layer.rows), zones, parse, contains).error && layer.zone == old(layer.zone)
  {
    var points := RowPoints(layer.rows, parse);
    if points.Failure? {
      return Fail(points.error);
    }
    var column := PointZones(points.value, zones, contains);
    assert column == ZoneColumn(layer.rows, zones, parse, contains).value;
    layer.zone := Some(column);
    return Pass;
  }
}
