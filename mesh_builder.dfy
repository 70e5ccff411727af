/// Procedural mesh construction of the RotatingMesh demo: the regular
/// polygons, the transition polygon between an n-gon and an (n+1)-gon, the
/// closed prism built over it, and the flattening of that prism into a
/// vertex/index buffer (src/RotatingMesh/main.cpp).
///
/// Coordinates are computed by the demo with cos/sin in floating point; this
/// model keeps every point symbolic, so that the claims are about counts,
/// index ranges and which point goes where.
module MeshBuilder {

  /** A point of the plane, kept as the term that names it. */
  datatype Vec2 =
    | Corner(sides: nat, index: nat)               // corner `index` of the regular `sides`-gon
    | Lerp(from: Vec2, to: Vec2, fraction: real)   // from + (to - from) * fraction
    | Scaled(p: Vec2)                              // p scaled by the prism radius, sqrt 2
    | Origin

  /** A mesh vertex: a point of the plane lifted to height z. */
  datatype Vertex = Vertex(xy: Vec2, z: int)

  /** A triangle, as three indexes into the mesh's vertex list. */
  datatype Face = Face(a: nat, b: nat, c: nat)
  {
    function At(corner: nat): nat
      requires corner < 3
    {
      if corner == 0 then a else if corner == 1 then b else c
    }
  }

  /** A triangle mesh: the vertex list and the face list, both grown by appending. */
  datatype Mesh = Mesh(vertexes: seq<Vertex>, faces: seq<Face>)
  {
    function AddVertex(v: Vertex): Mesh { Mesh(vertexes + [v], faces) }
    function AddFace(f: Face): Mesh { Mesh(vertexes, faces + [f]) }
  }

  predicate FaceInRange(f: Face, vertexCount: nat)
  {
    f.a < vertexCount && f.b < vertexCount && f.c < vertexCount
  }

  /** Every face refers to existing vertexes only. */
  predicate ValidMesh(m: Mesh)
  {
    forall f :: 0 <= f < |m.faces| ==> FaceInRange(m.faces[f], |m.vertexes|)
  }

  // ---------------------------------------------------------------------
  // Polygons
  // ---------------------------------------------------------------------

  /** The regular n-gon: its corners in order. */
  function Polygon(n: nat): seq<Vec2>
  {
    seq(n, i requires 0 <= i < n => Corner(n, i))
  }

  /** make_polygon: one point per loop iteration, the i-th being corner i. */
  method MakePolygon(n: nat) returns (result: seq<Vec2>)
    ensures |result| == n
    ensures forall i :: 0 <= i < n ==> result[i] == Corner(n, i)
    ensures result == Polygon(n)
  {
    result := [];
    for i := 0 to n
      invariant |result| == i
      invariant forall j :: 0 <= j < i ==> result[j] == Corner(n, j)
    {
      result := result + [Corner(n, i)];
    }
  }

  /** What make_transition_polygon needs of its caller: with 0 < fraction < 1
      it reads the first corner of the n-gon, which exists only when n >= 1. */
  predicate TransitionDefined(n: nat, fraction: real)
  {
    n >= 1 || fraction <= 0.0 || fraction >= 1.0
  }

  /** The polygon part way between the n-gon and the (n+1)-gon. */
  function TransitionPolygon(n: nat, fraction: real): seq<Vec2>
    requires TransitionDefined(n, fraction)
  {
    if fraction <= 0.0 then Polygon(n)
    else if fraction >= 1.0 then Polygon(n + 1)
    else
      seq(n, i requires 0 <= i < n => Lerp(Corner(n, i), Corner(n + 1, i), fraction))
      + [Lerp(Corner(n, 0), Corner(n + 1, n), fraction)]
  }

  /** The side count make_polygon_mesh uses after its adjustment `n += 1`. */
  function SideCount(n: nat, fraction: real): nat
  {
    if fraction > 0.0 then n + 1 else n
  }

  /** make_transition_polygon. */
  method MakeTransitionPolygon(n: nat, fraction: real) returns (result: seq<Vec2>)
    requires TransitionDefined(n, fraction)
    ensures result == TransitionPolygon(n, fraction)
  {
    if fraction <= 0.0 {
      result := MakePolygon(n);
      return;
    }
    if fraction >= 1.0 {
      result := MakePolygon(n + 1);
      return;
    }
    var points0 := MakePolygon(n);
    var points1 := MakePolygon(n + 1);
    result := [];
    for i := 0 to n
      invariant |result| == i
      invariant forall j :: 0 <= j < i ==> result[j] == Lerp(points0[j], points1[j], fraction)
    {
      result := result + [Lerp(points0[i], points1[i], fraction)];
    }
    result := result + [Lerp(points0[0], points1[|points1| - 1], fraction)];
  }

  /** The adjusted side count of make_polygon_mesh is the number of points
      the transition polygon has. */
  lemma TransitionPolygonSize(n: nat, fraction: real)
    requires TransitionDefined(n, fraction)
    ensures |TransitionPolygon(n, fraction)| == SideCount(n, fraction)
  {
  }

  /** Where a point of the transition polygon starts from as the fraction
      goes to 0, and where it ends as the fraction goes to 1. */
  function MorphStart(p: Vec2): Vec2 { if p.Lerp? then p.from else p }
  function MorphEnd(p: Vec2): Vec2 { if p.Lerp? then p.to else p }

  /** Strictly between the two polygons, the transition polygon moves the
      corners of the n-gon, plus a second copy of its corner 0, onto the
      corners of the (n+1)-gon: the new corner grows out of corner 0. */
  lemma TransitionMorph(n: nat, fraction: real)
    requires n >= 1 && 0.0 < fraction < 1.0
    ensures var t := TransitionPolygon(n, fraction);
      && |t| == n + 1
      && (forall i :: 0 <= i < n ==> MorphStart(t[i]) == Corner(n, i))
      && MorphStart(t[n]) == Corner(n, 0)
      && (forall i :: 0 <= i <= n ==> MorphEnd(t[i]) == Polygon(n + 1)[i])
  {
  }

  // ---------------------------------------------------------------------
  // The closed prism
  // ---------------------------------------------------------------------

  /** The rim vertexes: point i gives vertex 2i at z = -1 and 2i+1 at z = 1. */
  function Rims(points: seq<Vec2>): seq<Vertex>
  {
    if points == [] then []
    else
      var p := Scaled(points[|points| - 1]);
      Rims(points[..|points| - 1]) + [Vertex(p, -1), Vertex(p, 1)]
  }

  /** The point after point q around a k-gon, wrapping to 0. */
  function Next(q: nat, k: nat): nat
  {
    if q + 1 < k then q + 1 else 0
  }

  /** The two rings of faces of the prism: the side walls and the two caps. */
  datatype Ring = Walls | Caps

  /** The two triangles a ring has for the edge from point q to point Next(q, k):
      a wall quad, or one triangle of each cap (top first, then bottom). */
  function RingPair(ring: Ring, k: nat, q: nat): seq<Face>
  {
    var j, m := 2 * q, 2 * Next(q, k);
    match ring
    case Walls => [Face(j, m, j + 1), Face(m, m + 1, j + 1)]
    case Caps => [Face(j + 1, m + 1, 2 * k + 1), Face(m, j, 2 * k)]
  }

  /** The faces of a ring for its first `edges` edges, in edge order. */
  function RingFaces(ring: Ring, k: nat, edges: nat): seq<Face>
  {
    if edges == 0 then [] else RingFaces(ring, k, edges - 1) + RingPair(ring, k, edges - 1)
  }

  /** The faces of the closed prism over k points: all walls, then all caps. */
  function PrismFaces(k: nat): seq<Face>
  {
    RingFaces(Walls, k, k) + RingFaces(Caps, k, k)
  }

  /** The closed prism over the given points: rims, then the bottom and top centres. */
  function PrismMesh(points: seq<Vec2>): Mesh
  {
    Mesh(Rims(points) + [Vertex(Origin, -1), Vertex(Origin, 1)], PrismFaces(|points|))
  }

  /** make_polygon_mesh. The source computes `n - 1` and `2 * n - 2` in unsigned
      arithmetic, so it needs at least one point (see EmptyPolygonWrapsAround).
      The part after the vertex loop is the method AddPrismFaces. */
  method MakePolygonMesh(n: nat, fraction: real) returns (mesh: Mesh)
    requires n >= 1 || fraction >= 1.0
    ensures mesh == PrismMesh(TransitionPolygon(n, fraction))
  {
    var points := MakeTransitionPolygon(n, fraction);
    mesh := Mesh([], []);
    for i := 0 to |points|
      invariant mesh.vertexes == Rims(points[..i]) && mesh.faces == []
    {
      var p := Scaled(points[i]);
      assert points[..i + 1][..i] == points[..i];
      mesh := mesh.AddVertex(Vertex(p, -1));
      mesh := mesh.AddVertex(Vertex(p, 1));
    }
    assert points[..|points|] == points;
    RimsLength(points);
    TransitionPolygonSize(n, fraction);
    mesh := AddPrismFaces(mesh, n, fraction);
  }

  /** The rest of make_polygon_mesh: the side count adjustment, the wall
      quads, the two centres and the cap triangles. */
  method AddPrismFaces(mesh: Mesh, n: nat, fraction: real) returns (result: Mesh)
    requires SideCount(n, fraction) >= 1
    requires mesh.faces == [] && |mesh.vertexes| == 2 * SideCount(n, fraction)
    ensures result == Mesh(mesh.vertexes + [Vertex(Origin, -1), Vertex(Origin, 1)], PrismFaces(SideCount(n, fraction)))
  {
    var n := n;
    if fraction > 0.0 {
      n := n + 1;
    }
    result := AddWallQuads(mesh, n);
    assert result.faces == RingFaces(Walls, n, n - 1);
    var bottomCentre := |result.vertexes|;
    result := result.AddVertex(Vertex(Origin, -1));
    var topCentre := |result.vertexes|;
    result := result.AddVertex(Vertex(Origin, 1));
    result := result.AddFace(Face(2 * n - 2, 0, 2 * n - 1));
    result := result.AddFace(Face(0, 1, 2 * n - 1));
    WallsClose(n);
    ghost var walls := RingFaces(Walls, n, n);
    assert result.faces == walls;
    result := AddCapTriangles(result, n, topCentre, bottomCentre);
    assert result.faces == walls + RingFaces(Caps, n, n - 1);
    result := result.AddFace(Face(2 * n - 1, 1, topCentre));
    result := result.AddFace(Face(0, 2 * n - 2, bottomCentre));
    CapsClose(n);
    AppendTwo(walls, RingFaces(Caps, n, n - 1),
              Face(2 * n - 1, 1, topCentre), Face(0, 2 * n - 2, bottomCentre));
    assert result.faces == PrismFaces(n);
    AppendTwo(mesh.vertexes, [], Vertex(Origin, -1), Vertex(Origin, 1));
    assert result.vertexes == mesh.vertexes + [Vertex(Origin, -1), Vertex(Origin, 1)];
  }

  /** The first face loop of make_polygon_mesh: the wall quads of every edge
      but the last. */
  method AddWallQuads(mesh: Mesh, sides: nat) returns (result: Mesh)
    requires sides >= 1
    ensures result.vertexes == mesh.vertexes
    ensures result.faces == mesh.faces + RingFaces(Walls, sides, sides - 1)
  {
    result := mesh;
    for i := 0 to sides - 1
      invariant result.vertexes == mesh.vertexes
      invariant result.faces == mesh.faces + RingFaces(Walls, sides, i)
    {
      var j := i * 2;
      WallStep(sides, i);
      result := result.AddFace(Face(j, j + 2, j + 1));
      result := result.AddFace(Face(j + 2, j + 3, j + 1));
    }
  }

  /** The second face loop of make_polygon_mesh: the cap triangles of every
      edge but the last. */
  method AddCapTriangles(mesh: Mesh, sides: nat, topCentre: nat, bottomCentre: nat) returns (result: Mesh)
    requires sides >= 1 && topCentre == 2 * sides + 1 && bottomCentre == 2 * sides
    ensures result.vertexes == mesh.vertexes
    ensures result.faces == mesh.faces + RingFaces(Caps, sides, sides - 1)
  {
    result := mesh;
    for i := 0 to sides - 1
      invariant result.vertexes == mesh.vertexes
      invariant result.faces == mesh.faces + RingFaces(Caps, sides, i)
    {
      var j := i * 2;
      CapStep(sides, i);
      result := result.AddFace(Face(j + 1, j + 3, topCentre));
      result := result.AddFace(Face(j + 2, j, bottomCentre));
    }
  }

  lemma AppendTwo<T>(xs: seq<T>, ys: seq<T>, a: T, b: T)
    ensures xs + ys + [a] + [b] == xs + (ys + [a] + [b])
    ensures ys == [] ==> xs + [a] + [b] == xs + [a, b]
  {
  }

  /** One more wall quad, as the loop of make_polygon_mesh adds it. */
  lemma WallStep(k: nat, q: nat)
    requires q + 1 < k
    ensures RingFaces(Walls, k, q + 1)
         == RingFaces(Walls, k, q) + [Face(2 * q, 2 * q + 2, 2 * q + 1)] + [Face(2 * q + 2, 2 * q + 3, 2 * q + 1)]
  {
  }

  /** The last wall quad is the wrap-around quad make_polygon_mesh adds by hand. */
  lemma WallsClose(k: nat)
    requires k >= 1
    ensures RingFaces(Walls, k, k)
         == RingFaces(Walls, k, k - 1) + [Face(2 * k - 2, 0, 2 * k - 1)] + [Face(0, 1, 2 * k - 1)]
  {
  }

  /** One more pair of cap triangles, top then bottom. */
  lemma CapStep(k: nat, q: nat)
    requires q + 1 < k
    ensures RingFaces(Caps, k, q + 1)
         == RingFaces(Caps, k, q) + [Face(2 * q + 1, 2 * q + 3, 2 * k + 1)] + [Face(2 * q + 2, 2 * q, 2 * k)]
  {
  }

  /** The last cap pair is the closing pair make_polygon_mesh adds by hand. */
  lemma CapsClose(k: nat)
    requires k >= 1
    ensures RingFaces(Caps, k, k)
         == RingFaces(Caps, k, k - 1) + [Face(2 * k - 1, 1, 2 * k + 1)] + [Face(0, 2 * k - 2, 2 * k)]
  {
  }

  lemma {:induction false} RimsLength(points: seq<Vec2>)
    ensures |Rims(points)| == 2 * |points|
  {
    if points != [] {
      RimsLength(points[..|points| - 1]);
    }
  }

  /** Point i of the polygon gives vertex 2i on the bottom and 2i+1 on the top. */
  lemma {:induction false} RimsAt(points: seq<Vec2>, i: nat)
    requires i < |points|
    ensures |Rims(points)| == 2 * |points|
    ensures Rims(points)[2 * i] == Vertex(Scaled(points[i]), -1)
    ensures Rims(points)[2 * i + 1] == Vertex(Scaled(points[i]), 1)
  {
    RimsLength(points);
    var init := points[..|points| - 1];
    if i < |init| {
      RimsAt(init, i);
    } else {
      RimsLength(init);
    }
  }

  /** The faces of a ring come in pairs, edge q giving faces 2q and 2q+1. */
  lemma {:induction false} RingFacesAt(ring: Ring, k: nat, edges: nat, q: nat)
    requires q < edges
    ensures |RingFaces(ring, k, edges)| == 2 * edges
    ensures RingFaces(ring, k, edges)[2 * q] == RingPair(ring, k, q)[0]
    ensures RingFaces(ring, k, edges)[2 * q + 1] == RingPair(ring, k, q)[1]
  {
    RingFacesLength(ring, k, edges - 1);
    if q < edges - 1 {
      RingFacesAt(ring, k, edges - 1, q);
    }
  }

  lemma {:induction false} RingFacesLength(ring: Ring, k: nat, edges: nat)
    ensures |RingFaces(ring, k, edges)| == 2 * edges
  {
    if edges > 0 {
      RingFacesLength(ring, k, edges - 1);
    }
  }

  /** The three corners of a face are all even or all odd. */
  predicate SameParity(f: Face)
  {
    f.a % 2 == f.b % 2 == f.c % 2
  }

  /** Every face of the first `edges` edges of a ring (edges <= k) uses
      indexes below 2k+2; a cap face has corners of one parity, a wall face
      does not. */
  lemma {:induction false} RingFacesWellPlaced(ring: Ring, k: nat, edges: nat)
    requires edges <= k
    ensures forall i :: 0 <= i < |RingFaces(ring, k, edges)| ==>
      FaceInRange(RingFaces(ring, k, edges)[i], 2 * k + 2) &&
      (SameParity(RingFaces(ring, k, edges)[i]) <==> ring == Caps)
  {
    if edges > 0 {
      RingFacesWellPlaced(ring, k, edges - 1);
    }
  }

  /** The rim vertex v sits on the bottom plane when v is even, on the top
      plane when v is odd. */
  lemma {:induction false} RimsHeight(points: seq<Vec2>)
    ensures forall v :: 0 <= v < |Rims(points)| ==> Rims(points)[v].z == if v % 2 == 0 then -1 else 1
  {
    if points != [] {
      RimsHeight(points[..|points| - 1]);
      RimsLength(points[..|points| - 1]);
    }
  }

  /** The prism over k points has 2k+2 vertexes and 4k faces, every face index
      is a vertex of the mesh, the rims sit where make_polygon_mesh put them and
      the two centres are vertexes 2k (bottom) and 2k+1 (top). */
  lemma PrismMeshShape(points: seq<Vec2>)
    ensures var m, k := PrismMesh(points), |points|;
      && |m.vertexes| == 2 * k + 2
      && |m.faces| == 4 * k
      && ValidMesh(m)
      && (forall i :: 0 <= i < k ==>
            m.vertexes[2 * i] == Vertex(Scaled(points[i]), -1) &&
            m.vertexes[2 * i + 1] == Vertex(Scaled(points[i]), 1))
      && m.vertexes[2 * k] == Vertex(Origin, -1)
      && m.vertexes[2 * k + 1] == Vertex(Origin, 1)
  {
    var m, k := PrismMesh(points), |points|;
    RimsLength(points);
    RingFacesLength(Walls, k, k);
    RingFacesLength(Caps, k, k);
    forall i | 0 <= i < k
      ensures m.vertexes[2 * i] == Vertex(Scaled(points[i]), -1)
      ensures m.vertexes[2 * i + 1] == Vertex(Scaled(points[i]), 1)
    {
      RimsAt(points, i);
    }
    RingFacesWellPlaced(Walls, k, k);
    RingFacesWellPlaced(Caps, k, k);
    forall f | 0 <= f < |m.faces|
      ensures FaceInRange(m.faces[f], |m.vertexes|)
    {
      if f >= 2 * k {
        assert m.faces[f] == RingFaces(Caps, k, k)[f - 2 * k];
      }
    }
  }

  /** The z of every prism vertex is fixed by its index: even indexes are on
      the bottom plane (z = -1), odd ones on the top plane (z = 1). */
  lemma PrismVertexHeight(points: seq<Vec2>)
    ensures var m := PrismMesh(points);
      forall v :: 0 <= v < |m.vertexes| ==> m.vertexes[v].z == if v % 2 == 0 then -1 else 1
  {
    RimsLength(points);
    RimsHeight(points);
  }

  /** Every cap face lies flat in one of the two planes, and every wall face
      has a vertex on each plane. */
  lemma PrismFacesOrientation(points: seq<Vec2>, f: nat)
    requires f < 4 * |points|
    ensures var m, k := PrismMesh(points), |points|;
      |m.faces| == 4 * k && FaceInRange(m.faces[f], |m.vertexes|) &&
      var a, b, c := m.vertexes[m.faces[f].a].z, m.vertexes[m.faces[f].b].z, m.vertexes[m.faces[f].c].z;
      if f < 2 * k then !(a == b == c) else a == b == c
  {
    var m, k := PrismMesh(points), |points|;
    PrismMeshShape(points);
    PrismVertexHeight(points);
    RingFacesLength(Walls, k, k);
    RingFacesWellPlaced(Walls, k, k);
    RingFacesWellPlaced(Caps, k, k);
    if f >= 2 * k {
      assert m.faces[f] == RingFaces(Caps, k, k)[f - 2 * k];
    }
  }

  /** The face list make_polygon_mesh writes, with its special wrap-around and
      closing faces, is the uniform one: wall quad q and cap pair q join point q
      to point Next(q, k). */
  lemma PrismFaceOrder(k: nat, q: nat)
    requires q < k
    ensures |PrismFaces(k)| == 4 * k
    ensures PrismFaces(k)[2 * q] == Face(2 * q, 2 * Next(q, k), 2 * q + 1)
    ensures PrismFaces(k)[2 * q + 1] == Face(2 * Next(q, k), 2 * Next(q, k) + 1, 2 * q + 1)
    ensures PrismFaces(k)[2 * k + 2 * q] == Face(2 * q + 1, 2 * Next(q, k) + 1, 2 * k + 1)
    ensures PrismFaces(k)[2 * k + 2 * q + 1] == Face(2 * Next(q, k), 2 * q, 2 * k)
  {
    RingFacesAt(Walls, k, k, q);
    RingFacesAt(Caps, k, k, q);
  }

  /** 32-bit unsigned arithmetic, as the source's `unsigned` computes it. */
  function U32(x: int): nat
  {
    x % 0x1_0000_0000
  }

  /** With n = 0 and fraction <= 0 the source's loop bound `n - 1` wraps to
      2^32 - 1 and the first closing face index `2 * n - 2` to 2^32 - 2, far
      outside the two vertexes the mesh then has: the construction needs at
      least one point, which MakePolygonMesh requires. */
  lemma EmptyPolygonWrapsAround(fraction: real)
    requires fraction <= 0.0
    ensures |TransitionPolygon(0, fraction)| == SideCount(0, fraction) == 0
    ensures U32(SideCount(0, fraction) - 1) == 0xFFFF_FFFF
    ensures U32(2 * SideCount(0, fraction) - 2) == 0xFFFF_FFFE
    ensures U32(2 * SideCount(0, fraction) - 2) >= |PrismMesh(TransitionPolygon(0, fraction)).vertexes|
  {
  }

  // ---------------------------------------------------------------------
  // The vertex/index buffer
  // ---------------------------------------------------------------------

  /** A face normal, kept symbolic: the normal of the triangle a, b, c. */
  datatype Normal = FaceNormal(a: Vertex, b: Vertex, c: Vertex)

  /** One buffer row: a position and a normal (the demo's Point struct). */
  datatype BufferPoint = BufferPoint(coords: Vertex, normal: Normal)

  /** The buffer that the demo uploads: the vertex rows and the index list.
      Indexes are stored exactly as added, with no offset by the rows the
      buffer already holds; both buffers the demo fills start empty. */
  class ArrayBuffer {
    var vertexes: seq<BufferPoint>
    var indexes: seq<int>

    constructor()
      ensures vertexes == [] && indexes == []
    {
      vertexes := [];
      indexes := [];
    }

    method AddVertex(p: BufferPoint)
      modifies this`vertexes
      ensures vertexes == old(vertexes) + [p]
    {
      vertexes := vertexes + [p];
    }

    method AddIndexes(i0: int, i1: int, i2: int)
      modifies this`indexes
      ensures indexes == old(indexes) + [i0, i1, i2]
    {
      indexes := indexes + [i0, i1, i2];
    }
  }

  function FaceNormalOf(m: Mesh, face: Face): Normal
    requires FaceInRange(face, |m.vertexes|)
  {
    FaceNormal(m.vertexes[face.a], m.vertexes[face.b], m.vertexes[face.c])
  }

  /** The three rows of one face: its corners' positions, all with its normal. */
  function FaceRows(m: Mesh, face: Face): seq<BufferPoint>
    requires FaceInRange(face, |m.vertexes|)
  {
    var normal := FaceNormalOf(m, face);
    [BufferPoint(m.vertexes[face.a], normal),
     BufferPoint(m.vertexes[face.b], normal),
     BufferPoint(m.vertexes[face.c], normal)]
  }

  /** The rows of the first `count` faces, in face order. */
  function Flatten(m: Mesh, count: nat): seq<BufferPoint>
    requires ValidMesh(m) && count <= |m.faces|
  {
    if count == 0 then [] else Flatten(m, count - 1) + FaceRows(m, m.faces[count - 1])
  }

  /** The indexes 0, 1, ..., count - 1. */
  function Iota(count: nat): seq<int>
  {
    seq(count, i => i)
  }

  /** add_mesh: three rows per face and the indexes n, n+1, n+2 with n
      stepping by 3. */
  method AddMesh(buffer: ArrayBuffer, mesh: Mesh)
    requires ValidMesh(mesh)
    modifies buffer
    ensures buffer.vertexes == old(buffer.vertexes) + Flatten(mesh, |mesh.faces|)
    ensures buffer.indexes == old(buffer.indexes) + Iota(3 * |mesh.faces|)
  {
    var n := 0;
    for f := 0 to |mesh.faces|
      invariant n == 3 * f
      invariant buffer.vertexes == old(buffer.vertexes) + Flatten(mesh, f)
      invariant buffer.indexes == old(buffer.indexes) + Iota(n)
    {
      var face := mesh.faces[f];
      var normal := FaceNormalOf(mesh, face);
      buffer.AddVertex(BufferPoint(mesh.vertexes[face.a], normal));
      buffer.AddVertex(BufferPoint(mesh.vertexes[face.b], normal));
      buffer.AddVertex(BufferPoint(mesh.vertexes[face.c], normal));
      buffer.AddIndexes(n, n + 1, n + 2);
      assert Iota(n + 3) == Iota(n) + [n, n + 1, n + 2];
      n := n + 3;
    }
  }

  /** Row 3f + c of the flattened buffer is corner c of face f, carrying the
      normal of face f; there are exactly three rows per face. */
  lemma {:induction false} FlattenAt(m: Mesh, count: nat, f: nat, corner: nat)
    requires ValidMesh(m) && count <= |m.faces|
    requires f < count && corner < 3
    ensures |Flatten(m, count)| == 3 * count
    ensures Flatten(m, count)[3 * f + corner]
         == BufferPoint(m.vertexes[m.faces[f].At(corner)], FaceNormalOf(m, m.faces[f]))
  {
    FlattenLength(m, count - 1);
    if f < count - 1 {
      FlattenAt(m, count - 1, f, corner);
    }
  }

  lemma {:induction false} FlattenLength(m: Mesh, count: nat)
    requires ValidMesh(m) && count <= |m.faces|
    ensures |Flatten(m, count)| == 3 * count
  {
    if count > 0 {
      FlattenLength(m, count - 1);
    }
  }

  /** Flattening a prism: the buffer of the mesh over k points has 12k rows
      and 12k indexes, and every index names a row of the buffer. */
  lemma PrismBufferSize(points: seq<Vec2>)
    ensures ValidMesh(PrismMesh(points))
    ensures |Flatten(PrismMesh(points), |PrismMesh(points).faces|)| == 12 * |points|
    ensures |Iota(3 * |PrismMesh(points).faces|)| == 12 * |points|
    ensures forall i :: 0 <= i < 12 * |points| ==> 0 <= Iota(12 * |points|)[i] < 12 * |points|
  {
    PrismMeshShape(points);
    FlattenLength(PrismMesh(points), |PrismMesh(points).faces|);
  }
}
