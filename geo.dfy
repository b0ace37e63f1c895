/** Places and their polygons. The geometry itself (great-circle offsets, point-in-polygon)
    belongs to an external library and enters the model only as opaque functions. */
module Geo {

  /** A geographic point, latitude and longitude in degrees. */
  datatype Point = Point(lat: real, lng: real)

  /** A closed polygon given by its vertices in order. */
  datatype Polygon = Polygon(vertices: seq<Point>)

  /** A configured location: its name, its centre and the polygon around it. */
  datatype Place = Place(name: string, point: Point, polygon: Polygon)

  /** Distance of every polygon vertex from the centre, in kilometres. */
  const PointRange: real := 0.04

  /** Bearings of the polygon vertices, in degrees. */
  const Degrees: seq<real> := [0.0, 45.0, 90.0, 135.0, 180.0, 225.0, 270.0, 315.0]

  /** The bearings go once round the compass in equal steps of 45 degrees. */
  lemma DegreesGoRound()
    ensures |Degrees| == 8
    ensures forall i :: 0 <= i < |Degrees| ==> Degrees[i] == 45.0 * i as real
    ensures forall i, j :: 0 <= i < j < |Degrees| ==> 0.0 <= Degrees[i] < Degrees[j] < 360.0
  {
  }

  /** Builds a place: one vertex per bearing, each at PointRange from the centre.
      `pointAt(p, d, b)` is the point at distance d and bearing b from p. */
  method CreatePlace(name: string, lat: real, lon: real, pointAt: (Point, real, real) -> Point)
    returns (place: Place)
    ensures place.name == name && place.point == Point(lat, lon)
    ensures |place.polygon.vertices| == |Degrees|
    ensures forall i :: 0 <= i < |Degrees| ==>
              place.polygon.vertices[i] == pointAt(place.point, PointRange, Degrees[i])
  {
    var point := Point(lat, lon);
    var points: seq<Point> := [];
    for i := 0 to |Degrees|
      invariant |points| == i
      invariant forall j :: 0 <= j < i ==> points[j] == pointAt(point, PointRange, Degrees[j])
    {
      points := points + [pointAt(point, PointRange, Degrees[i])];
    }
    place := Place(name, point, Polygon(points));
  }
}
