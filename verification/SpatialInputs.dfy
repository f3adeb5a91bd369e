/**
 Which annotations and proposals are accepted, said of the input alone: what a worker must
 supply, field by field, and what the accepted object then holds.
 */
module SpatialInputs {
  import opened Common
  import opened Geometry
  import opened SpatialContract
  import S = Sha256Check

  /** A finite number between two bounds, if there is one at all. */
  predicate Between(number: Option<Float>, low: real, high: real) {
    number.Some? ==> number.value.Finite? && low <= number.value.value && number.value.value <= high
  }

  function PointAt(x: Float, y: Float): JsonObject {
    map["type" := Text("Point"), "coordinates" := Array([Number(x), Number(y)])]
  }

  /** The coordinate of a point geometry. */
  function Coordinate(geometry: JsonObject, k: nat): Option<Float> {
    if "coordinates" in geometry && geometry["coordinates"].Array? && k < |geometry["coordinates"].items|
       && geometry["coordinates"].items[k].Number?
    then Some(geometry["coordinates"].items[k].number) else None
  }

  // ---- Annotations ----

  /** A front takes lines, a burned area takes areas, every other anchor takes a point. */
  predicate AnchorTakes(anchor: Anchor, geometry: JsonObject) {
    && (anchor == VisibleFireFront ==> LineShaped(geometry, true))
    && (anchor == BurnedAreaPolygon ==> AreaShaped(geometry, true))
    && (anchor != VisibleFireFront && anchor != BurnedAreaPolygon ==> PointShaped(geometry, true))
  }

  /** The geometry that was supplied, or the point that stands for it. */
  function SuppliedGeometry(a: Annotation): Option<JsonObject> {
    if a.geometry.Some? then a.geometry
    else if a.point.Some? then Some(PointAt(a.point.value.0, a.point.value.1))
    else None
  }

  /** What a source annotation must supply. */
  predicate AcceptableAnnotation(a: Annotation) {
    && Between(a.score, 0.0, 1.0)
    && SuppliedGeometry(a).Some? && AnchorTakes(a.anchor, SuppliedGeometry(a).value)
    && (a.point.Some? ==>
          && SuppliedGeometry(a).value["type"] == Text("Point")
          && Coordinate(SuppliedGeometry(a).value, 0) == Some(a.point.value.0)
          && Coordinate(SuppliedGeometry(a).value, 1) == Some(a.point.value.1))
  }

  lemma AnchorTakesItsTypes(anchor: Anchor, geometry: JsonObject)
    ensures Accepts(geometry, AnchorTypes(anchor), true) <==> AnchorTakes(anchor, geometry)
  {
    AcceptedExactlyWhenShaped(geometry, true);
  }

  lemma PointCoordinates(geometry: JsonObject, normalized: bool)
    requires IsPoint(geometry) && Accepts(geometry, POINTS, normalized)
    ensures PointOf(geometry, normalized).0.Finite? && PointOf(geometry, normalized).1.Finite?
    ensures Coordinate(geometry, 0) == Some(PointOf(geometry, normalized).0)
    ensures Coordinate(geometry, 1) == Some(PointOf(geometry, normalized).1)
  {
    var items := geometry["coordinates"].items;
    assert items[0] in items && items[1] in items;
  }

  /** Only the point anchors take points. */
  lemma PointsArePoints(anchor: Anchor, geometry: JsonObject)
    requires Accepts(geometry, AnchorTypes(anchor), true)
    ensures IsPoint(geometry) <==> anchor != VisibleFireFront && anchor != BurnedAreaPolygon
    ensures IsPoint(geometry) ==> Accepts(geometry, POINTS, true)
  {
  }

  /** What an acceptable annotation becomes. */
  function FinishedAnnotation(a: Annotation): Annotation
    requires SuppliedGeometry(a).Some?
  {
    var g := SuppliedGeometry(a).value;
    var x, y := Coordinate(g, 0), Coordinate(g, 1);
    Annotation(
      a.anchor,
      if a.anchor == VisibleFireFront || a.anchor == BurnedAreaPolygon || x.None? || y.None? then None
      else Some((x.value, y.value)),
      Some(g), a.score)
  }

  /** Accepted exactly when acceptable, and then finished with the supplied geometry and its own point. */
  lemma AnnotationAcceptedExactlyWhen(before: Annotation)
    ensures (exists a :: CompletesAnnotation(before, a) && CoherentAnnotation(a)) <==> AcceptableAnnotation(before)
    ensures forall a :: CompletesAnnotation(before, a) && CoherentAnnotation(a) ==> a == FinishedAnnotation(before)
  {
    if SuppliedGeometry(before).Some? {
      var g := SuppliedGeometry(before).value;
      AnchorTakesItsTypes(before.anchor, g);
      if Accepts(g, AnchorTypes(before.anchor), true) {
        PointsArePoints(before.anchor, g);
        if IsPoint(g) {
          PointCoordinates(g, true);
        }
      }
      if AcceptableAnnotation(before) {
        AcceptableIsFinished(before);
      }
    }
  }

  lemma AcceptableIsFinished(a: Annotation)
    requires AcceptableAnnotation(a)
    ensures CompletesAnnotation(a, FinishedAnnotation(a)) && CoherentAnnotation(FinishedAnnotation(a))
  {
    var g := SuppliedGeometry(a).value;
    AnchorTakesItsTypes(a.anchor, g);
    PointsArePoints(a.anchor, g);
    if IsPoint(g) {
      PointCoordinates(g, true);
    }
  }

  // ---- Proposals ----

  /** What every proposal must keep to, field by field. */
  predicate AcceptableFields(p: Proposal) {
    && Between(p.longitude, -180.0, 180.0) && Between(p.latitude, -90.0, 90.0)
    && (p.altitude.Some? ==> p.altitude.value != NotFinite)
    && Between(p.accuracy, 0.0, 100000.0) && p.accuracy != Some(Finite(0.0))
    && (p.bundle.Some? ==> S.IsDigest(p.bundle.value))
    && !(|p.codes| > 12)
    && (p.observedAt.Some? ==> p.observedAt.value.aware)
  }

  /** A ground point: coordinates with their source, and at most a point geometry. */
  predicate AcceptableGround(p: Proposal) {
    && p.annotation.Some? && p.origin.Some? && p.accuracy.Some? && p.bundle.Some?
    && p.longitude.Some? && p.latitude.Some?
    && (p.kind == None || p.kind == Some(LegacyGroundPoint))
    && (p.geometry == None || p.geometry == Some(map[]) || PointShaped(p.geometry.value, false))
  }

  /** Points for fire and smoke, lines for a front, areas for an envelope or a burned area. */
  predicate KindTakes(kind: Kind, geometry: JsonObject) {
    && (kind == FirePoint || kind == SmokePoint ==> PointShaped(geometry, false))
    && (kind == FireFront ==> LineShaped(geometry, false))
    && (kind == ActivityEnvelope || kind == BurnedArea ==> AreaShaped(geometry, false))
    && kind != LegacyGroundPoint
  }

  /** A projected geometry of its kind, dated and sourced; only a point goes with coordinates, its own. */
  predicate AcceptableProjected(p: Proposal) {
    && p.origin.Some? && p.accuracy.Some? && p.bundle.Some? && p.observedAt.Some?
    && (p.origin == Some(ExplicitSourceGeometry) || p.annotation.Some?)
    && p.kind.Some? && p.geometry.Some? && KindTakes(p.kind.value, p.geometry.value)
    && if p.kind.value == FirePoint || p.kind.value == SmokePoint then
         && (p.longitude == None || p.longitude == Coordinate(p.geometry.value, 0))
         && (p.latitude == None || p.latitude == Coordinate(p.geometry.value, 1))
       else p.longitude == None && p.latitude == None && p.altitude == None
  }

  /** An abstention: nothing projected, and a reason. */
  predicate AcceptableAbstention(p: Proposal) {
    && p.kind == None && p.origin == None && p.geometry == None && p.accuracy == None
    && p.longitude == None && p.latitude == None && p.altitude == None
    && |p.codes| > 0
  }

  predicate AcceptableProposal(p: Proposal) {
    && AcceptableFields(p)
    && (p.status == GroundPoint ==> AcceptableGround(p))
    && (p.status == ProjectedGeometry ==> AcceptableProjected(p))
    && (p.status == InsufficientGeometry ==> AcceptableAbstention(p))
  }

  /** What an acceptable proposal becomes. */
  function FinishedProposal(p: Proposal): Proposal {
    if p.status == GroundPoint && p.longitude.Some? && p.latitude.Some? then
      p.(kind := Some(LegacyGroundPoint),
         geometry := if p.geometry == None || p.geometry == Some(map[])
                     then Some(PointAt(p.longitude.value, p.latitude.value)) else p.geometry)
    else if p.status == ProjectedGeometry && p.geometry.Some?
            && (p.kind == Some(FirePoint) || p.kind == Some(SmokePoint)) then
      p.(longitude := Coordinate(p.geometry.value, 0), latitude := Coordinate(p.geometry.value, 1))
    else p
  }

  lemma KindTakesItsTypes(kind: Kind, geometry: JsonObject)
    requires kind != LegacyGroundPoint
    ensures Accepts(geometry, KindTypes(kind), false) <==> KindTakes(kind, geometry)
    ensures Accepts(geometry, KindTypes(kind), false) ==>
              (IsPoint(geometry) <==> kind == FirePoint || kind == SmokePoint)
    ensures Accepts(geometry, KindTypes(kind), false) && IsPoint(geometry) ==> Accepts(geometry, POINTS, false)
  {
    AcceptedExactlyWhenShaped(geometry, false);
  }

  lemma AcceptableGroundIsFinished(p: Proposal)
    requires AcceptableProposal(p) && p.status == GroundPoint
    ensures Completes(p, FinishedProposal(p)) && Coherent(FinishedProposal(p))
  {
    if p.geometry.Some? {
      AcceptedExactlyWhenShaped(p.geometry.value, false);
    }
    PointGeometryAccepted(p.longitude.value, p.latitude.value, false);
  }

  lemma AcceptableProjectedIsFinished(p: Proposal)
    requires AcceptableProposal(p) && p.status == ProjectedGeometry
    ensures Completes(p, FinishedProposal(p)) && Coherent(FinishedProposal(p))
  {
    KindTakesItsTypes(p.kind.value, p.geometry.value);
    if IsPoint(p.geometry.value) {
      PointCoordinates(p.geometry.value, false);
      PointWithin(p.geometry.value);
    }
  }

  lemma PointWithin(geometry: JsonObject)
    requires IsPoint(geometry) && Accepts(geometry, POINTS, false)
    ensures Within(PointOf(geometry, false).0, -180.0, 180.0) && Within(PointOf(geometry, false).1, -90.0, 90.0)
  {
  }

  lemma GroundIsAcceptable(before: Proposal, p: Proposal)
    requires before.status == GroundPoint && Completes(before, p) && Coherent(p)
    ensures AcceptableProposal(before) && p == FinishedProposal(before)
  {
    AcceptedExactlyWhenShaped(p.geometry.value, false);
  }

  lemma ProjectedIsAcceptable(before: Proposal, p: Proposal)
    requires before.status == ProjectedGeometry && Completes(before, p) && Coherent(p)
    ensures AcceptableProposal(before) && p == FinishedProposal(before)
  {
    KindTakesItsTypes(p.kind.value, p.geometry.value);
    if IsPoint(p.geometry.value) {
      PointCoordinates(p.geometry.value, false);
    }
  }

  /** Accepted exactly when acceptable, and then finished. */
  lemma ProposalAcceptedExactlyWhen(before: Proposal)
    ensures (exists p :: Completes(before, p) && Coherent(p)) <==> AcceptableProposal(before)
    ensures forall p :: Completes(before, p) && Coherent(p) ==> p == FinishedProposal(before)
  {
    forall p | Completes(before, p) && Coherent(p)
      ensures AcceptableProposal(before) && p == FinishedProposal(before)
    {
      match before.status
      case GroundPoint => GroundIsAcceptable(before, p);
      case ProjectedGeometry => ProjectedIsAcceptable(before, p);
      case InsufficientGeometry =>
    }
    if AcceptableProposal(before) {
      match before.status {
        case GroundPoint => AcceptableGroundIsFinished(before);
        case ProjectedGeometry => AcceptableProjectedIsFinished(before);
        case InsufficientGeometry => assert Completes(before, before) && Coherent(before);
      }
    }
  }
}
