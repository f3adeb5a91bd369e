/**
 Source annotations, spatial proposals and facts: validators that complete an object in
 place, the coherent objects they must end with, and the database rows those become.
 */
module SpatialContract {
  import opened Common
  import opened Geometry
  import S = Sha256Check

  // ---- Source annotations ----

  datatype Anchor =
    | ActiveFirePoint | VisibleFireFrontPoint | VisibleFireFront
    | SmokeColumnBase | SmokeOriginPoint | BurnedAreaPolygon

  datatype Annotation = Annotation(
    anchor: Anchor,
    point: Option<(Float, Float)>,
    geometry: Option<JsonObject>,
    score: Option<Float>)

  function AnchorTypes(anchor: Anchor): set<string> {
    match anchor
    case VisibleFireFront => LINES
    case BurnedAreaPolygon => AREAS
    case _ => POINTS
  }

  predicate ScoreOk(score: Option<Float>) {
    score.Some? ==> Within(score.value, 0.0, 1.0)
  }

  /** A finished annotation: it has a source point exactly when its geometry is a Point, and they agree. */
  predicate CoherentAnnotation(a: Annotation) {
    && ScoreOk(a.score)
    && a.geometry.Some? && Accepts(a.geometry.value, AnchorTypes(a.anchor), true)
    && (a.point.Some? <==> IsPoint(a.geometry.value))
    && (a.point.Some? ==> a.point.value == PointOf(a.geometry.value, true))
  }

  /** Validation keeps all that was supplied; a missing geometry is the Point at the supplied position. */
  predicate CompletesAnnotation(before: Annotation, after: Annotation) {
    && after.anchor == before.anchor && after.score == before.score
    && (before.point.Some? ==> after.point == before.point)
    && (if before.geometry.Some? then after.geometry == before.geometry
        else before.point.Some? && after.geometry == Some(PointGeometry(before.point.value.0, before.point.value.1)))
  }

  class SourceAnnotation {
    const anchor: Anchor
    const score: Option<Float>
    var point: Option<(Float, Float)>
    var geometry: Option<JsonObject>

    constructor (a: Annotation)
      ensures Value() == a
    {
      anchor, score, point, geometry := a.anchor, a.score, a.point, a.geometry;
    }

    function Value(): Annotation
      reads this
    {
      Annotation(anchor, point, geometry, score)
    }

    /** Accepts exactly when some completion is coherent, and then becomes that completion. */
    method Validate() returns (accepted: bool)
      modifies this
      ensures accepted ==> CompletesAnnotation(old(Value()), Value()) && CoherentAnnotation(Value())
      ensures !accepted ==> forall a :: CompletesAnnotation(old(Value()), a) ==> !CoherentAnnotation(a)
    {
      if !ScoreOk(score) {
        return false;
      }
      if geometry.None? {
        if point.None? {
          return false;
        }
        geometry := Some(PointGeometry(point.value.0, point.value.1));
      }
      if !Accepts(geometry.value, AnchorTypes(anchor), true) {
        return false;
      }
      if point.Some? {
        if !IsPoint(geometry.value) {
          return false;
        }
        if PointOf(geometry.value, true) != point.value {
          return false;
        }
      } else if IsPoint(geometry.value) {
        point := Some(PointOf(geometry.value, true));
      }
      return true;
    }
  }

  /** A coherent completion is unique, and a coherent annotation is its own: validating twice changes nothing. */
  lemma AnnotationSettles(before: Annotation, a: Annotation, b: Annotation)
    requires CompletesAnnotation(before, a) && CoherentAnnotation(a)
    ensures CompletesAnnotation(before, b) && CoherentAnnotation(b) ==> b == a
    ensures CompletesAnnotation(a, b) && CoherentAnnotation(b) <==> b == a
  {
  }

  datatype AnnotationRow = AnnotationRow(
    x: Option<Float>, y: Option<Float>, geometry: Option<JsonObject>, score: Option<Float>)

  function AnnotationRowOf(a: Annotation): AnnotationRow {
    if a.point.Some? then AnnotationRow(Some(a.point.value.0), Some(a.point.value.1), a.geometry, a.score)
    else AnnotationRow(None, None, a.geometry, a.score)
  }

  /** The NOT NULL and CHECK constraints of the annotation table. */
  predicate AnnotationRowOk(row: AnnotationRow) {
    && row.geometry.Some?
    && (row.x.None? || Within(row.x.value, 0.0, 1.0))
    && (row.y.None? || Within(row.y.value, 0.0, 1.0))
    && ((row.x.None? && row.y.None?) || (row.x.Some? && row.y.Some?))
    && (row.score.None? || Within(row.score.value, 0.0, 1.0))
  }

  /** Every accepted annotation fits its table, with a source position exactly when it is a Point. */
  lemma AnnotationFitsTable(a: Annotation)
    requires CoherentAnnotation(a)
    ensures AnnotationRowOk(AnnotationRowOf(a))
    ensures AnnotationRowOf(a).geometry == a.geometry && AnnotationRowOf(a).score == a.score
    ensures a.point.Some? ==>
      AnnotationRowOf(a).x == Some(a.point.value.0) && AnnotationRowOf(a).y == Some(a.point.value.1)
    ensures AnnotationRowOf(a).x.Some? <==> AnchorTypes(a.anchor) == POINTS
  {
    assert "Point" in POINTS && "Point" !in LINES && "Point" !in AREAS;
  }

  // ---- Spatial proposals ----

  datatype Status = GroundPoint | ProjectedGeometry | InsufficientGeometry

  datatype Kind =
    | FirePoint | SmokePoint | FireFront | ActivityEnvelope | BurnedArea | LegacyGroundPoint

  datatype Origin = SatelliteGeotransform | CameraRaycast | CrossViewRaycast | ExplicitSourceGeometry

  datatype Moment = Moment(aware: bool, seconds: int)

  datatype Proposal = Proposal(
    status: Status,
    annotation: Option<string>,
    kind: Option<Kind>,
    observedAt: Option<Moment>,
    origin: Option<Origin>,
    longitude: Option<Float>,
    latitude: Option<Float>,
    altitude: Option<Float>,
    geometry: Option<JsonObject>,
    accuracy: Option<Float>,
    bundle: Option<string>,
    codes: seq<string>)

  function KindTypes(kind: Kind): set<string> {
    match kind
    case FireFront => LINES
    case ActivityEnvelope => AREAS
    case BurnedArea => AREAS
    case _ => POINTS
  }

  /** What the declared fields demand of each value by itself. */
  predicate FieldsOk(p: Proposal) {
    && (p.longitude.Some? ==> Within(p.longitude.value, -180.0, 180.0))
    && (p.latitude.Some? ==> Within(p.latitude.value, -90.0, 90.0))
    && (p.altitude.Some? ==> p.altitude.value.Finite?)
    && (p.accuracy.Some? ==> Within(p.accuracy.value, 0.0, 100000.0) && p.accuracy.value != Finite(0.0))
    && (p.bundle.Some? ==> S.IsDigest(p.bundle.value))
    && |p.codes| <= 12
  }

  predicate Sourced(p: Proposal) {
    p.origin.Some? && p.accuracy.Some? && p.bundle.Some?
  }

  predicate CoherentGround(p: Proposal) {
    && Sourced(p) && p.annotation.Some? && p.kind == Some(LegacyGroundPoint)
    && p.longitude.Some? && p.latitude.Some?
    && p.geometry.Some? && Accepts(p.geometry.value, POINTS, false)
  }

  predicate CoherentProjected(p: Proposal) {
    && Sourced(p) && p.observedAt.Some?
    && (p.annotation.Some? || p.origin.value.ExplicitSourceGeometry?)
    && p.kind.Some? && !p.kind.value.LegacyGroundPoint?
    && p.geometry.Some? && Accepts(p.geometry.value, KindTypes(p.kind.value), false)
    && if IsPoint(p.geometry.value) then
         var point := PointOf(p.geometry.value, false);
         p.longitude == Some(point.0) && p.latitude == Some(point.1)
       else p.longitude.None? && p.latitude.None? && p.altitude.None?
  }

  predicate CoherentAbstention(p: Proposal) {
    && p.kind.None? && p.origin.None? && p.longitude.None? && p.latitude.None? && p.altitude.None?
    && p.geometry.None? && p.accuracy.None? && p.codes != []
  }

  /** A finished proposal. */
  predicate Coherent(p: Proposal) {
    && FieldsOk(p)
    && (p.observedAt.Some? ==> p.observedAt.value.aware)
    && match p.status
       case GroundPoint => CoherentGround(p)
       case ProjectedGeometry => CoherentProjected(p)
       case InsufficientGeometry => CoherentAbstention(p)
  }

  /** Neither a missing geometry nor an empty object says where a ground point is. */
  predicate Blank(geometry: Option<JsonObject>) {
    geometry.None? || geometry.value == map[]
  }

  /**
   Validation keeps all that was supplied and adds no more than: the kind of a ground point,
   the geometry of a ground point that has none, and the coordinates of a projected point.
   */
  predicate Completes(before: Proposal, after: Proposal) {
    && after == before.(kind := after.kind, geometry := after.geometry,
                        longitude := after.longitude, latitude := after.latitude)
    && (after.kind == before.kind || (before.status.GroundPoint? && before.kind.None?))
    && (after.longitude == before.longitude || (before.status.ProjectedGeometry? && before.longitude.None?))
    && (after.latitude == before.latitude || (before.status.ProjectedGeometry? && before.latitude.None?))
    && if before.status.GroundPoint? && Blank(before.geometry)
       then && after.longitude.Some? && after.latitude.Some?
            && after.geometry == Some(PointGeometry(after.longitude.value, after.latitude.value))
       else after.geometry == before.geometry
  }

  class SpatialProposal {
    const status: Status
    const annotation: Option<string>
    const observedAt: Option<Moment>
    const origin: Option<Origin>
    const altitude: Option<Float>
    const accuracy: Option<Float>
    const bundle: Option<string>
    const codes: seq<string>
    var kind: Option<Kind>
    var longitude: Option<Float>
    var latitude: Option<Float>
    var geometry: Option<JsonObject>

    constructor (p: Proposal)
      ensures Value() == p
    {
      status, annotation, observedAt, origin := p.status, p.annotation, p.observedAt, p.origin;
      altitude, accuracy, bundle, codes := p.altitude, p.accuracy, p.bundle, p.codes;
      kind, longitude, latitude, geometry := p.kind, p.longitude, p.latitude, p.geometry;
    }

    function Value(): Proposal
      reads this
    {
      Proposal(status, annotation, kind, observedAt, origin, longitude, latitude, altitude,
               geometry, accuracy, bundle, codes)
    }

    /** Accepts exactly when some completion is coherent, and then becomes that completion. */
    method Validate() returns (accepted: bool)
      modifies this
      ensures accepted ==> Completes(old(Value()), Value()) && Coherent(Value())
      ensures !accepted ==> forall p :: Completes(old(Value()), p) ==> !Coherent(p)
    {
      if !FieldsOk(Value()) || (observedAt.Some? && !observedAt.value.aware) {
        return false;
      }
      match status {
        case GroundPoint => accepted := ValidateGround();
        case ProjectedGeometry => accepted := ValidateProjected();
        case InsufficientGeometry =>
          if kind.Some? || origin.Some? || longitude.Some? || latitude.Some? || altitude.Some?
             || geometry.Some? || accuracy.Some? {
            return false;
          }
          return codes != [];
      }
    }

    method ValidateGround() returns (accepted: bool)
      requires status.GroundPoint? && FieldsOk(Value())
      modifies this
      ensures accepted ==> Completes(old(Value()), Value()) && FieldsOk(Value()) && CoherentGround(Value())
      ensures !accepted ==> forall p :: Completes(old(Value()), p) ==> !CoherentGround(p)
    {
      if annotation.None? || origin.None? || longitude.None? || latitude.None? || accuracy.None? || bundle.None? {
        return false;
      }
      if kind.Some? && kind != Some(LegacyGroundPoint) {
        return false;
      }
      kind := Some(LegacyGroundPoint);
      var point := if Blank(geometry) then PointGeometry(longitude.value, latitude.value) else geometry.value;
      if !Accepts(point, POINTS, false) {
        return false;
      }
      geometry := Some(point);
      return true;
    }

    method ValidateProjected() returns (accepted: bool)
      requires status.ProjectedGeometry? && FieldsOk(Value())
      modifies this
      ensures accepted ==> Completes(old(Value()), Value()) && FieldsOk(Value()) && CoherentProjected(Value())
      ensures !accepted ==> forall p :: Completes(old(Value()), p) ==> !CoherentProjected(p)
    {
      if kind.None? || kind == Some(LegacyGroundPoint) || origin.None? || accuracy.None? || bundle.None?
         || observedAt.None? || geometry.None? {
        return false;
      }
      if !origin.value.ExplicitSourceGeometry? && annotation.None? {
        return false;
      }
      if !Accepts(geometry.value, KindTypes(kind.value), false) {
        return false;
      }
      if IsPoint(geometry.value) {
        var point := PointOf(geometry.value, false);
        if longitude.Some? && longitude.value != point.0 {
          return false;
        }
        if latitude.Some? && latitude.value != point.1 {
          return false;
        }
        longitude, latitude := Some(point.0), Some(point.1);
      } else if longitude.Some? || latitude.Some? || altitude.Some? {
        return false;
      }
      return true;
    }
  }

  /** A coherent completion is unique, and a coherent proposal is its own: validating twice changes nothing. */
  lemma ProposalSettles(before: Proposal, a: Proposal, b: Proposal)
    requires Completes(before, a) && Coherent(a)
    ensures Completes(before, b) && Coherent(b) ==> b == a
    ensures Completes(a, b) && Coherent(b) <==> b == a
  {
  }

  /** A stored proposal; it refers to the row of its annotation. */
  datatype ProposalRow = ProposalRow(values: Proposal, annotationId: Option<nat>)

  /** Storing a ground point writes its geometry afresh from longitude and latitude. */
  function ProposalRowOf(p: Proposal, annotations: map<string, nat>): ProposalRow
    requires p.annotation.Some? ==> p.annotation.value in annotations
  {
    var id := if p.annotation.Some? then Some(annotations[p.annotation.value]) else None;
    if p.status.GroundPoint? && p.longitude.Some? && p.latitude.Some? then
      ProposalRow(p.(kind := Some(LegacyGroundPoint),
                     geometry := Some(PointGeometry(p.longitude.value, p.latitude.value))), id)
    else ProposalRow(p, id)
  }

  /** The CHECK constraints of the proposal table that concern a new row. */
  predicate ProposalRowOk(row: ProposalRow) {
    var p := row.values;
    && (p.longitude.None? || Within(p.longitude.value, -180.0, 180.0))
    && (p.latitude.None? || Within(p.latitude.value, -90.0, 90.0))
    && (p.accuracy.None? || (p.accuracy.value.Finite? && p.accuracy.value.value > 0.0))
    && (p.bundle.None? || S.Passes(S.HexCheck("reference_bundle_sha256"), p.bundle))
    && ProposalShapeOk(row)
  }

  predicate ProposalShapeOk(row: ProposalRow) {
    var p := row.values;
    || (p.status.GroundPoint? && row.annotationId.Some?
        && p.kind == Some(LegacyGroundPoint) && p.geometry.Some?
        && p.origin.Some? && p.longitude.Some? && p.latitude.Some?
        && p.accuracy.Some? && p.bundle.Some?)
    || (p.status.ProjectedGeometry? && p.kind.Some?
        && p.kind != Some(LegacyGroundPoint) && p.geometry.Some?
        && p.observedAt.Some? && p.origin.Some?
        && p.accuracy.Some? && p.bundle.Some?
        && (p.origin == Some(ExplicitSourceGeometry) || row.annotationId.Some?))
    || (p.status.InsufficientGeometry? && p.origin.None?
        && p.kind.None? && p.geometry.None?
        && p.longitude.None? && p.latitude.None? && p.altitude.None?
        && p.accuracy.None?)
  }

  /** Does a row with a Point geometry hold that point's own coordinates? */
  predicate PointAgrees(p: Proposal) {
    p.geometry.Some? && IsPoint(p.geometry.value) ==>
      && Accepts(p.geometry.value, POINTS, false)
      && p.longitude == Some(PointOf(p.geometry.value, false).0)
      && p.latitude == Some(PointOf(p.geometry.value, false).1)
  }

  /** Every accepted proposal fits its table, and what is stored there agrees with its own point. */
  lemma ProposalFitsTable(p: Proposal, annotations: map<string, nat>)
    requires Coherent(p) && (p.annotation.Some? ==> p.annotation.value in annotations)
    ensures ProposalRowOk(ProposalRowOf(p, annotations))
    ensures PointAgrees(ProposalRowOf(p, annotations).values)
  {
    if p.bundle.Some? {
      S.PassesExactlyForDigest("reference_bundle_sha256", p.bundle.value);
    }
    if p.status.GroundPoint? {
      PointGeometryAccepted(p.longitude.value, p.latitude.value, false);
    }
  }

  /**
   Before storage the agreement fails for exactly one family of accepted proposals: ground
   points that supplied a geometry of their own for another place.
   */
  lemma AcceptedPointAgreesExactlyWhen(before: Proposal, after: Proposal)
    requires Completes(before, after) && Coherent(after)
    ensures PointAgrees(after) <==>
            before.status.GroundPoint? && !Blank(before.geometry) ==>
              PointOf(before.geometry.value, false) == (before.longitude.value, before.latitude.value)
  {
    if after.status.GroundPoint? {
      PointGeometryAccepted(after.longitude.value, after.latitude.value, false);
    }
  }

  /** The validator receives such a proposal and accepts it as it is. */
  lemma GroundPointMayDisagree(bundle: string)
    requires S.IsDigest(bundle)
    ensures exists p :: Completes(p, p) && Coherent(p) && !PointAgrees(p)
  {
    var zero, one := Finite(0.0), Finite(1.0);
    var p := Proposal(GroundPoint, Some("A1"), Some(LegacyGroundPoint), None, Some(CameraRaycast),
                      Some(zero), Some(zero), None, Some(PointGeometry(one, one)), Some(one), Some(bundle), []);
    PointGeometryAccepted(one, one, false);
    assert Completes(p, p) && Coherent(p) && !PointAgrees(p);
  }

  // ---- Facts ----

  datatype Fact = Fact(
    asOf: Moment, number: Option<Float>, text: Option<string>, boolean: Option<bool>, unit: Option<string>)

  function Supplied<T>(value: Option<T>): nat {
    if value.Some? then 1 else 0
  }

  predicate FactAccepted(f: Fact) {
    && (f.number.Some? ==> f.number.value.Finite?)
    && (f.text.Some? ==> 1 <= |f.text.value| <= 2000)
    && (f.unit.Some? ==> 1 <= |f.unit.value| <= 64)
    && f.asOf.aware
    && Supplied(f.number) + Supplied(f.text) + Supplied(f.boolean) == 1
    && !(f.unit.Some? && f.number.None?)
  }

  /** The CHECK constraints of the fact table on a value and its unit. */
  predicate FactRowOk(f: Fact) {
    && (if f.number.None? then 0 else 1) + (if f.text.None? then 0 else 1) + (if f.boolean.None? then 0 else 1) == 1
    && (f.unit.None? || f.number.Some?)
  }

  datatype FactValue = Quantity(number: real, unit: Option<string>) | Statement(text: string) | YesNo(boolean: bool)

  /** The fact that states one typed value. */
  function FactOf(asOf: Moment, value: FactValue): Fact {
    match value
    case Quantity(number, unit) => Fact(asOf, Some(Finite(number)), None, None, unit)
    case Statement(text) => Fact(asOf, None, Some(text), None, None)
    case YesNo(boolean) => Fact(asOf, None, None, Some(boolean), None)
  }

  /** Text and units that are neither empty nor too long. */
  predicate Sized(value: FactValue) {
    match value
    case Quantity(_, unit) => unit.Some? ==> unit.value != "" && |unit.value| < 65
    case Statement(text) => text != "" && |text| < 2001
    case YesNo(_) => true
  }

  /** A fact is accepted exactly if it is dated with a timezone and states one typed value; then it fits its table. */
  lemma FactIsOneValue(f: Fact)
    ensures FactAccepted(f) <==>
            f.asOf.aware && exists value :: f == FactOf(f.asOf, value) && Sized(value)
    ensures FactAccepted(f) ==>
              FactRowOk(f)
              && exists value ::
                   f == FactOf(f.asOf, value) && forall other :: f == FactOf(f.asOf, other) ==> other == value
  {
    if FactAccepted(f) {
      var value := if f.number.Some? then Quantity(f.number.value.value, f.unit)
                   else if f.text.Some? then Statement(f.text.value)
                   else YesNo(f.boolean.value);
      assert f == FactOf(f.asOf, value) && Sized(value);
    }
  }
}
