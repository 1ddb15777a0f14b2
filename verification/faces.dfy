/**
 * The six face templates shared by every mesher of the split revision and the
 * monolith, and `Face::use_template`, which stretches a template over a cuboid.
 */
module Faces {
  import opened Coords
  import opened Assets

  /** A unit-cube face: its outward normal and its four corners, each coordinate 0 or 1. */
  datatype FaceTemplate = FaceTemplate(normal: Vec3i, corners: seq<Vec3i>)

  /** `FACE_TEMPLATES[i]`, in order +Z, -Z, +X, -X, +Y, -Y. */
  function Template(i: nat): (t: FaceTemplate)
    requires i < 6
    ensures |t.corners| == 4
  {
    if i == 0 then FaceTemplate(Vec3i(0, 0, 1), [Vec3i(0, 0, 1), Vec3i(1, 0, 1), Vec3i(1, 1, 1), Vec3i(0, 1, 1)])
    else if i == 1 then FaceTemplate(Vec3i(0, 0, -1), [Vec3i(1, 0, 0), Vec3i(0, 0, 0), Vec3i(0, 1, 0), Vec3i(1, 1, 0)])
    else if i == 2 then FaceTemplate(Vec3i(1, 0, 0), [Vec3i(1, 0, 1), Vec3i(1, 0, 0), Vec3i(1, 1, 0), Vec3i(1, 1, 1)])
    else if i == 3 then FaceTemplate(Vec3i(-1, 0, 0), [Vec3i(0, 0, 0), Vec3i(0, 0, 1), Vec3i(0, 1, 1), Vec3i(0, 1, 0)])
    else if i == 4 then FaceTemplate(Vec3i(0, 1, 0), [Vec3i(0, 1, 1), Vec3i(1, 1, 1), Vec3i(1, 1, 0), Vec3i(0, 1, 0)])
    else FaceTemplate(Vec3i(0, -1, 0), [Vec3i(0, 0, 0), Vec3i(1, 0, 0), Vec3i(1, 0, 1), Vec3i(0, 0, 1)])
  }

  /** The outward normal of face `i`. */
  function Normal(i: nat): Vec3i
    requires i < 6
  {
    Template(i).normal
  }

  /** A unit axis vector: exactly one coordinate is nonzero and it is 1 or -1. */
  predicate IsAxisUnit(v: Vec3i) {
    || v == Vec3i(1, 0, 0) || v == Vec3i(-1, 0, 0)
    || v == Vec3i(0, 1, 0) || v == Vec3i(0, -1, 0)
    || v == Vec3i(0, 0, 1) || v == Vec3i(0, 0, -1)
  }

  predicate IsBit(n: int) {
    n == 0 || n == 1
  }

  /** A vertex of the unit cube. */
  predicate IsCubeVertex(c: Vec3i) {
    IsBit(c.x) && IsBit(c.y) && IsBit(c.z)
  }

  /** The corner lies on the face with normal `n`: coordinate 1 on the axis of a + face, 0 on that of a - face. */
  predicate OnFace(n: Vec3i, c: Vec3i) {
    && (n.x == 1 ==> c.x == 1) && (n.x == -1 ==> c.x == 0)
    && (n.y == 1 ==> c.y == 1) && (n.y == -1 ==> c.y == 0)
    && (n.z == 1 ==> c.z == 1) && (n.z == -1 ==> c.z == 0)
  }

  /** Two cube vertices joined by an edge of the cube: they differ in exactly one coordinate. */
  predicate CubeEdge(a: Vec3i, b: Vec3i) {
    || (a.x != b.x && a.y == b.y && a.z == b.z)
    || (a.x == b.x && a.y != b.y && a.z == b.z)
    || (a.x == b.x && a.y == b.y && a.z != b.z)
  }

  /** Face `i` is an axis face whose four corners are unit-cube vertices lying on it. */
  predicate WellFormedFace(i: nat)
    requires i < 6
  {
    var t := Template(i);
    && IsAxisUnit(t.normal)
    && (forall j :: 0 <= j < 4 ==> IsCubeVertex(t.corners[j]) && OnFace(t.normal, t.corners[j]))
  }

  /**
   * The corners run around the border of the square in order: consecutive
   * corners (cyclically) share a cube edge, so the triangles (0, 1, 2) and
   * (0, 2, 3) the meshers emit tile the square without overlap.
   */
  predicate BoundaryOrder(i: nat)
    requires i < 6
  {
    var v := Template(i).corners;
    CubeEdge(v[0], v[1]) && CubeEdge(v[1], v[2]) && CubeEdge(v[2], v[3]) && CubeEdge(v[3], v[0])
  }

  /** The templates are six axis faces whose corners are unit-cube vertices on the named face. */
  lemma TemplatesWellFormed(i: nat)
    requires i < 6
    ensures WellFormedFace(i)
  {
  }

  /** Every template lists its corners in border order. */
  lemma TemplatesInBorderOrder(i: nat)
    requires i < 6
    ensures BoundaryOrder(i)
  {
  }

  /** `b - a`. */
  function Delta(a: Vec3i, b: Vec3i): Vec3i {
    Vec3i(b.x - a.x, b.y - a.y, b.z - a.z)
  }

  /** `n` is the cross product `a x b`. */
  predicate IsCross(a: Vec3i, b: Vec3i, n: Vec3i) {
    && a.y * b.z - a.z * b.y == n.x
    && a.z * b.x - a.x * b.z == n.y
    && a.x * b.y - a.y * b.x == n.z
  }

  /**
   * Both triangles the meshers emit for a face, (0, 1, 2) and (0, 2, 3), turn
   * counter-clockwise seen from outside the cube: the cross products of their
   * edges from corner 0 are the outward normal itself.
   */
  predicate WindsOutward(t: FaceTemplate)
    requires |t.corners| == 4
  {
    QuadWinds(t.corners[0], t.corners[1], t.corners[2], t.corners[3], t.normal)
  }

  /** Both triangles of a quad with corners a, b, c, d wind around n. */
  predicate QuadWinds(a: Vec3i, b: Vec3i, c: Vec3i, d: Vec3i, n: Vec3i) {
    IsCross(Delta(a, b), Delta(a, c), n) && IsCross(Delta(a, c), Delta(a, d), n)
  }

  // Each face is checked on its own corners in three small steps: the
  // template's corners, the quad's winding from those corners, and the two
  // cross products of its edge vectors.

  lemma FrontCorners(i: nat)
    requires i == 0
    ensures Template(i).corners[0] == Vec3i(0, 0, 1) && Template(i).corners[1] == Vec3i(1, 0, 1)
    ensures Template(i).corners[2] == Vec3i(1, 1, 1) && Template(i).corners[3] == Vec3i(0, 1, 1)
    ensures Template(i).normal == Vec3i(0, 0, 1)
  {
  }

  lemma FrontWinds(a: Vec3i, b: Vec3i, c: Vec3i, d: Vec3i, n: Vec3i)
    requires a == Vec3i(0, 0, 1) && b == Vec3i(1, 0, 1) && c == Vec3i(1, 1, 1) && d == Vec3i(0, 1, 1) && n == Vec3i(0, 0, 1)
    ensures QuadWinds(a, b, c, d, n)
  {
    FrontCrosses(Delta(a, b), Delta(a, c), Delta(a, d), n);
  }

  lemma FrontCrosses(u: Vec3i, v: Vec3i, w: Vec3i, n: Vec3i)
    requires u == Vec3i(1, 0, 0) && v == Vec3i(1, 1, 0) && w == Vec3i(0, 1, 0) && n == Vec3i(0, 0, 1)
    ensures IsCross(u, v, n) && IsCross(v, w, n)
  {
  }

  lemma BackCorners(i: nat)
    requires i == 1
    ensures Template(i).corners[0] == Vec3i(1, 0, 0) && Template(i).corners[1] == Vec3i(0, 0, 0)
    ensures Template(i).corners[2] == Vec3i(0, 1, 0) && Template(i).corners[3] == Vec3i(1, 1, 0)
    ensures Template(i).normal == Vec3i(0, 0, -1)
  {
  }

  lemma BackWinds(a: Vec3i, b: Vec3i, c: Vec3i, d: Vec3i, n: Vec3i)
    requires a == Vec3i(1, 0, 0) && b == Vec3i(0, 0, 0) && c == Vec3i(0, 1, 0) && d == Vec3i(1, 1, 0) && n == Vec3i(0, 0, -1)
    ensures QuadWinds(a, b, c, d, n)
  {
    BackCrosses(Delta(a, b), Delta(a, c), Delta(a, d), n);
  }

  lemma BackCrosses(u: Vec3i, v: Vec3i, w: Vec3i, n: Vec3i)
    requires u == Vec3i(-1, 0, 0) && v == Vec3i(-1, 1, 0) && w == Vec3i(0, 1, 0) && n == Vec3i(0, 0, -1)
    ensures IsCross(u, v, n) && IsCross(v, w, n)
  {
  }

  lemma RightCorners(i: nat)
    requires i == 2
    ensures Template(i).corners[0] == Vec3i(1, 0, 1) && Template(i).corners[1] == Vec3i(1, 0, 0)
    ensures Template(i).corners[2] == Vec3i(1, 1, 0) && Template(i).corners[3] == Vec3i(1, 1, 1)
    ensures Template(i).normal == Vec3i(1, 0, 0)
  {
  }

  lemma RightWinds(a: Vec3i, b: Vec3i, c: Vec3i, d: Vec3i, n: Vec3i)
    requires a == Vec3i(1, 0, 1) && b == Vec3i(1, 0, 0) && c == Vec3i(1, 1, 0) && d == Vec3i(1, 1, 1) && n == Vec3i(1, 0, 0)
    ensures QuadWinds(a, b, c, d, n)
  {
    RightCrosses(Delta(a, b), Delta(a, c), Delta(a, d), n);
  }

  lemma RightCrosses(u: Vec3i, v: Vec3i, w: Vec3i, n: Vec3i)
    requires u == Vec3i(0, 0, -1) && v == Vec3i(0, 1, -1) && w == Vec3i(0, 1, 0) && n == Vec3i(1, 0, 0)
    ensures IsCross(u, v, n) && IsCross(v, w, n)
  {
  }

  lemma LeftCorners(i: nat)
    requires i == 3
    ensures Template(i).corners[0] == Vec3i(0, 0, 0) && Template(i).corners[1] == Vec3i(0, 0, 1)
    ensures Template(i).corners[2] == Vec3i(0, 1, 1) && Template(i).corners[3] == Vec3i(0, 1, 0)
    ensures Template(i).normal == Vec3i(-1, 0, 0)
  {
  }

  lemma LeftWinds(a: Vec3i, b: Vec3i, c: Vec3i, d: Vec3i, n: Vec3i)
    requires a == Vec3i(0, 0, 0) && b == Vec3i(0, 0, 1) && c == Vec3i(0, 1, 1) && d == Vec3i(0, 1, 0) && n == Vec3i(-1, 0, 0)
    ensures QuadWinds(a, b, c, d, n)
  {
    LeftCrosses(Delta(a, b), Delta(a, c), Delta(a, d), n);
  }

  lemma LeftCrosses(u: Vec3i, v: Vec3i, w: Vec3i, n: Vec3i)
    requires u == Vec3i(0, 0, 1) && v == Vec3i(0, 1, 1) && w == Vec3i(0, 1, 0) && n == Vec3i(-1, 0, 0)
    ensures IsCross(u, v, n) && IsCross(v, w, n)
  {
  }

  lemma TopCorners(i: nat)
    requires i == 4
    ensures Template(i).corners[0] == Vec3i(0, 1, 1) && Template(i).corners[1] == Vec3i(1, 1, 1)
    ensures Template(i).corners[2] == Vec3i(1, 1, 0) && Template(i).corners[3] == Vec3i(0, 1, 0)
    ensures Template(i).normal == Vec3i(0, 1, 0)
  {
  }

  lemma TopWinds(a: Vec3i, b: Vec3i, c: Vec3i, d: Vec3i, n: Vec3i)
    requires a == Vec3i(0, 1, 1) && b == Vec3i(1, 1, 1) && c == Vec3i(1, 1, 0) && d == Vec3i(0, 1, 0) && n == Vec3i(0, 1, 0)
    ensures QuadWinds(a, b, c, d, n)
  {
    TopCrosses(Delta(a, b), Delta(a, c), Delta(a, d), n);
  }

  lemma TopCrosses(u: Vec3i, v: Vec3i, w: Vec3i, n: Vec3i)
    requires u == Vec3i(1, 0, 0) && v == Vec3i(1, 0, -1) && w == Vec3i(0, 0, -1) && n == Vec3i(0, 1, 0)
    ensures IsCross(u, v, n) && IsCross(v, w, n)
  {
  }

  lemma BottomCorners(i: nat)
    requires i == 5
    ensures Template(i).corners[0] == Vec3i(0, 0, 0) && Template(i).corners[1] == Vec3i(1, 0, 0)
    ensures Template(i).corners[2] == Vec3i(1, 0, 1) && Template(i).corners[3] == Vec3i(0, 0, 1)
    ensures Template(i).normal == Vec3i(0, -1, 0)
  {
  }

  lemma BottomWinds(a: Vec3i, b: Vec3i, c: Vec3i, d: Vec3i, n: Vec3i)
    requires a == Vec3i(0, 0, 0) && b == Vec3i(1, 0, 0) && c == Vec3i(1, 0, 1) && d == Vec3i(0, 0, 1) && n == Vec3i(0, -1, 0)
    ensures QuadWinds(a, b, c, d, n)
  {
    BottomCrosses(Delta(a, b), Delta(a, c), Delta(a, d), n);
  }

  lemma BottomCrosses(u: Vec3i, v: Vec3i, w: Vec3i, n: Vec3i)
    requires u == Vec3i(1, 0, 0) && v == Vec3i(1, 0, 1) && w == Vec3i(0, 0, 1) && n == Vec3i(0, -1, 0)
    ensures IsCross(u, v, n) && IsCross(v, w, n)
  {
  }

  /**
   * Every template winds counter-clockwise around its outward normal, so
   * back-face culling keeps exactly the faces seen from outside.
   */
  lemma TemplatesWindOutward(i: nat)
    requires i < 6
    ensures WindsOutward(Template(i))
  {
    var c := Template(i).corners;
    var n := Template(i).normal;
    if i == 0 { FrontCorners(i); FrontWinds(c[0], c[1], c[2], c[3], n); }
    else if i == 1 { BackCorners(i); BackWinds(c[0], c[1], c[2], c[3], n); }
    else if i == 2 { RightCorners(i); RightWinds(c[0], c[1], c[2], c[3], n); }
    else if i == 3 { LeftCorners(i); LeftWinds(c[0], c[1], c[2], c[3], n); }
    else if i == 4 { TopCorners(i); TopWinds(c[0], c[1], c[2], c[3], n); }
    else { BottomCorners(i); BottomWinds(c[0], c[1], c[2], c[3], n); }
  }



  /** Faces 2k and 2k+1 look in opposite directions, so `i ^ 1` names the opposite face. */
  lemma OppositePairs(i: nat)
    requires i < 6
    ensures Normal(FlipSide(i)) == Normal(i).Scale(-1)
    ensures FlipSide(FlipSide(i)) == i
  {
  }

  /** `i ^ 1` on the face indices 0 to 5. */
  function FlipSide(i: nat): (j: nat)
    requires i < 6
    ensures j < 6
  {
    if i % 2 == 0 then i + 1 else i - 1
  }

  /** The six normals are pairwise different, so each face index names one direction. */
  lemma NormalsDistinct(i: nat, j: nat)
    requires i < 6 && j < 6 && i != j
    ensures Normal(i) != Normal(j)
  {
  }

  /** `Face::use_template`: each corner takes `from` on an axis where the template has 0 and `to` where it has 1. */
  function UseTemplate(t: FaceTemplate, from: Vec3r, to: Vec3r): (corners: seq<Vec3r>)
    ensures |corners| == |t.corners|
  {
    seq(|t.corners|, j requires 0 <= j < |t.corners| =>
      Vec3r(if t.corners[j].x == 0 then from.x else to.x,
            if t.corners[j].y == 0 then from.y else to.y,
            if t.corners[j].z == 0 then from.z else to.z))
  }

  function ToReal(v: Vec3i): Vec3r {
    Vec3r(v.x as real, v.y as real, v.z as real)
  }

  /** Stretched over the unit cube, a template gives back its own corners. */
  lemma UseTemplateUnitCube(i: nat)
    requires i < 6
    ensures var c := UseTemplate(Template(i), Vec3r(0.0, 0.0, 0.0), Vec3r(1.0, 1.0, 1.0));
      forall j :: 0 <= j < 4 ==> c[j] == ToReal(Template(i).corners[j])
  {
    TemplatesWellFormed(i);
    var t := Template(i);
    var c := UseTemplate(t, Vec3r(0.0, 0.0, 0.0), Vec3r(1.0, 1.0, 1.0));
    forall j | 0 <= j < 4 ensures c[j] == ToReal(t.corners[j]) {
      assert IsCubeVertex(t.corners[j]);
    }
  }

  /**
   * Stretched over any cuboid, the corners lie on the matching face of that
   * cuboid: at `to` on the axis of a + face and at `from` on the axis of a - face.
   */
  lemma UseTemplateOnCuboidFace(i: nat, from: Vec3r, to: Vec3r)
    requires i < 6
    ensures var c := UseTemplate(Template(i), from, to);
      var n := Normal(i);
      forall j :: 0 <= j < 4 ==>
        (n.x == 1 ==> c[j].x == to.x) && (n.x == -1 ==> c[j].x == from.x)
        && (n.y == 1 ==> c[j].y == to.y) && (n.y == -1 ==> c[j].y == from.y)
        && (n.z == 1 ==> c[j].z == to.z) && (n.z == -1 ==> c[j].z == from.z)
  {
    TemplatesWellFormed(i);
  }
}
