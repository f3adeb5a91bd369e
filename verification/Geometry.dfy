/** The GeoJSON geometries that proposals and annotations may carry. */
module Geometry {
  import opened Common

  /** A float; infinities and NaN are only ever compared with finite numbers, and differ from them. */
  datatype Float = Finite(value: real) | NotFinite

  datatype Json =
    | Null
    | Bool(bool)
    | Number(number: Float)
    | Text(text: string)
    | Array(items: seq<Json>)
    | Object(members: map<string, Json>)

  type JsonObject = map<string, Json>

  const POINTS := {"Point"}
  const LINES := {"LineString", "MultiLineString"}
  const AREAS := {"Polygon", "MultiPolygon"}

  predicate Within(number: Float, low: real, high: real) {
    number.Finite? && low <= number.value <= high
  }

  /** Two or three finite coordinates, the first two normalized to [0, 1] or in WGS84 bounds. */
  predicate Position(value: Json, normalized: bool) {
    && value.Array? && |value.items| in {2, 3}
    && (forall item <- value.items :: item.Number? && item.number.Finite?)
    && (if normalized
        then Within(value.items[0].number, 0.0, 1.0) && Within(value.items[1].number, 0.0, 1.0)
        else Within(value.items[0].number, -180.0, 180.0) && Within(value.items[1].number, -90.0, 90.0))
  }

  predicate Line(value: Json, normalized: bool) {
    value.Array? && |value.items| >= 2 && forall item <- value.items :: Position(item, normalized)
  }

  predicate Ring(value: Json, normalized: bool) {
    && Line(value, normalized) && |value.items| >= 4
    && value.items[0] == value.items[|value.items| - 1]
  }

  predicate Rings(value: Json, normalized: bool) {
    value.Array? && value.items != [] && forall ring <- value.items :: Ring(ring, normalized)
  }

  predicate Lines(value: Json, normalized: bool) {
    value.Array? && value.items != [] && forall line <- value.items :: Line(line, normalized)
  }

  predicate Polygons(value: Json, normalized: bool) {
    value.Array? && value.items != [] && forall polygon <- value.items :: Rings(polygon, normalized)
  }

  predicate Coordinates(kind: string, value: Json, normalized: bool) {
    if kind == "Point" then Position(value, normalized)
    else if kind == "LineString" then Line(value, normalized)
    else if kind == "MultiLineString" then Lines(value, normalized)
    else if kind == "Polygon" then Rings(value, normalized)
    else Polygons(value, normalized)
  }

  /** Does the geometry validator accept the object? */
  predicate Accepts(geometry: JsonObject, allowed: set<string>, normalized: bool) {
    && "type" in geometry && geometry["type"].Text? && geometry["type"].text in allowed
    && "coordinates" in geometry && !geometry["coordinates"].Null?
    && Coordinates(geometry["type"].text, geometry["coordinates"], normalized)
  }

  predicate IsPoint(geometry: JsonObject) {
    "type" in geometry && geometry["type"] == Text("Point")
  }

  function PointGeometry(x: Float, y: Float): JsonObject {
    map["type" := Text("Point"), "coordinates" := Array([Number(x), Number(y)])]
  }

  /** The first two coordinates of an accepted point. */
  function PointOf(geometry: JsonObject, normalized: bool): (Float, Float)
    requires IsPoint(geometry) && Accepts(geometry, POINTS, normalized)
  {
    (geometry["coordinates"].items[0].number, geometry["coordinates"].items[1].number)
  }

  lemma PointGeometryAccepted(x: Float, y: Float, normalized: bool)
    ensures var geometry := PointGeometry(x, y);
      && IsPoint(geometry)
      && (Accepts(geometry, POINTS, normalized) <==>
          if normalized then Within(x, 0.0, 1.0) && Within(y, 0.0, 1.0)
          else Within(x, -180.0, 180.0) && Within(y, -90.0, 90.0))
      && (Accepts(geometry, POINTS, normalized) ==> PointOf(geometry, normalized) == (x, y))
  {
    var coordinates := PointGeometry(x, y)["coordinates"];
    assert coordinates.items[0] == Number(x) && coordinates.items[1] == Number(y);
  }

  /** However deep the arrays nest, what they end in is positions. */
  predicate EndsInPositions(value: Json, normalized: bool) {
    if value.Array? && value.items != [] && forall item <- value.items :: item.Array?
    then forall item <- value.items :: EndsInPositions(item, normalized)
    else Position(value, normalized)
  }

  lemma LineEndsInPositions(value: Json, normalized: bool)
    requires Line(value, normalized)
    ensures EndsInPositions(value, normalized)
  {
    forall item <- value.items ensures EndsInPositions(item, normalized) {
      assert Position(item, normalized) && !item.items[0].Array?;
    }
  }

  lemma RingsEndInPositions(value: Json, normalized: bool)
    requires Rings(value, normalized)
    ensures EndsInPositions(value, normalized)
  {
    forall ring <- value.items ensures EndsInPositions(ring, normalized) {
      LineEndsInPositions(ring, normalized);
    }
  }

  /** Whatever its type, an accepted geometry holds positions in bounds and nothing else. */
  lemma AcceptedEndsInPositions(geometry: JsonObject, allowed: set<string>, normalized: bool)
    requires Accepts(geometry, allowed, normalized)
    ensures EndsInPositions(geometry["coordinates"], normalized)
  {
    var kind, value := geometry["type"].text, geometry["coordinates"];
    if kind == "Point" {
      assert !value.items[0].Array?;
    } else if kind == "LineString" {
      LineEndsInPositions(value, normalized);
    } else if kind == "MultiLineString" {
      forall line <- value.items ensures EndsInPositions(line, normalized) {
        LineEndsInPositions(line, normalized);
      }
    } else if kind == "Polygon" {
      RingsEndInPositions(value, normalized);
    } else {
      forall polygon <- value.items ensures EndsInPositions(polygon, normalized) {
        RingsEndInPositions(polygon, normalized);
      }
    }
  }

  // ---- The same by depth ----

  /** Two finite coordinates in bounds, and perhaps a finite third one. */
  predicate InPlace(value: Json, normalized: bool) {
    && value.Array? && 2 <= |value.items| <= 3
    && (forall k :: 0 <= k < |value.items| ==> value.items[k].Number? && value.items[k].number.Finite?)
    && var x, y := value.items[0].number.value, value.items[1].number.value;
    if normalized then 0.0 <= x <= 1.0 && 0.0 <= y <= 1.0
    else -180.0 <= x <= 180.0 && -90.0 <= y <= 90.0
  }

  /** Positions nested `depth` deep; a path has two positions, a closed path four and returns to its first. */
  predicate Nested(value: Json, depth: nat, closed: bool, normalized: bool) {
    if depth == 0 then InPlace(value, normalized)
    else
      && value.Array?
      && |value.items| >= (if depth > 1 then 1 else if closed then 4 else 2)
      && (depth == 1 && closed ==> value.items[0] == value.items[|value.items| - 1])
      && forall k :: 0 <= k < |value.items| ==> Nested(value.items[k], depth - 1, closed, normalized)
  }

  /** A geometry of this type whose coordinates are nested as the type demands. */
  predicate Shaped(geometry: JsonObject, kind: string, depth: nat, closed: bool, normalized: bool) {
    && "type" in geometry && geometry["type"] == Text(kind)
    && "coordinates" in geometry && Nested(geometry["coordinates"], depth, closed, normalized)
  }

  predicate PointShaped(geometry: JsonObject, normalized: bool) {
    Shaped(geometry, "Point", 0, false, normalized)
  }

  predicate LineShaped(geometry: JsonObject, normalized: bool) {
    || Shaped(geometry, "LineString", 1, false, normalized)
    || Shaped(geometry, "MultiLineString", 2, false, normalized)
  }

  predicate AreaShaped(geometry: JsonObject, normalized: bool) {
    || Shaped(geometry, "Polygon", 2, true, normalized)
    || Shaped(geometry, "MultiPolygon", 3, true, normalized)
  }

  lemma PositionIsInPlace(value: Json, normalized: bool)
    ensures Position(value, normalized) <==> Nested(value, 0, false, normalized)
    ensures Position(value, normalized) <==> Nested(value, 0, true, normalized)
  {
    if value.Array? {
      assert (forall item <- value.items :: item.Number? && item.number.Finite?) <==>
             forall k :: 0 <= k < |value.items| ==> value.items[k].Number? && value.items[k].number.Finite?;
    }
  }

  lemma LineIsPath(value: Json, normalized: bool)
    ensures Line(value, normalized) <==> Nested(value, 1, false, normalized)
    ensures Ring(value, normalized) <==> Nested(value, 1, true, normalized)
  {
    if value.Array? {
      forall k | 0 <= k < |value.items|
        ensures Position(value.items[k], normalized) <==> Nested(value.items[k], 0, false, normalized)
        ensures Position(value.items[k], normalized) <==> Nested(value.items[k], 0, true, normalized)
      {
        PositionIsInPlace(value.items[k], normalized);
      }
      assert (forall item <- value.items :: Position(item, normalized)) <==>
             forall k :: 0 <= k < |value.items| ==> Position(value.items[k], normalized);
    }
  }

  lemma PathsAreNested(value: Json, normalized: bool)
    ensures Lines(value, normalized) <==> Nested(value, 2, false, normalized)
    ensures Rings(value, normalized) <==> Nested(value, 2, true, normalized)
  {
    if value.Array? {
      forall k | 0 <= k < |value.items|
        ensures Line(value.items[k], normalized) <==> Nested(value.items[k], 1, false, normalized)
        ensures Ring(value.items[k], normalized) <==> Nested(value.items[k], 1, true, normalized)
      {
        LineIsPath(value.items[k], normalized);
      }
      assert (forall item <- value.items :: Line(item, normalized)) <==>
             forall k :: 0 <= k < |value.items| ==> Line(value.items[k], normalized);
      assert (forall item <- value.items :: Ring(item, normalized)) <==>
             forall k :: 0 <= k < |value.items| ==> Ring(value.items[k], normalized);
    }
  }

  lemma PolygonsAreNested(value: Json, normalized: bool)
    ensures Polygons(value, normalized) <==> Nested(value, 3, true, normalized)
  {
    if value.Array? {
      forall k | 0 <= k < |value.items|
        ensures Rings(value.items[k], normalized) <==> Nested(value.items[k], 2, true, normalized)
      {
        PathsAreNested(value.items[k], normalized);
      }
      assert (forall item <- value.items :: Rings(item, normalized)) <==>
             forall k :: 0 <= k < |value.items| ==> Rings(value.items[k], normalized);
    }
  }

  /** Each family of types is accepted exactly in its nested shapes. */
  lemma AcceptedExactlyWhenShaped(geometry: JsonObject, normalized: bool)
    ensures Accepts(geometry, POINTS, normalized) <==> PointShaped(geometry, normalized)
    ensures Accepts(geometry, LINES, normalized) <==> LineShaped(geometry, normalized)
    ensures Accepts(geometry, AREAS, normalized) <==> AreaShaped(geometry, normalized)
  {
    if "coordinates" in geometry {
      var value := geometry["coordinates"];
      PositionIsInPlace(value, normalized);
      LineIsPath(value, normalized);
      PathsAreNested(value, normalized);
      PolygonsAreNested(value, normalized);
    }
  }
}
