/** The maze mesh built from a level grid: a floor quad, then for every Wall
    cell a top face and a side face towards each in-grid non-Wall neighbour.
    Every coordinate, normal and texture coordinate is a small integer, so
    vertices are integer triples here. Three revisions of the generator
    exist; they differ only in the floor normal, the texture coordinates,
    the index winding and whether the output buffers start empty. */
module MazeMesh {
  import opened LevelGrid

  datatype IVec3 = IVec3(x: int, y: int, z: int)
  datatype IVec2 = IVec2(u: int, v: int)

  /** `Vertex3DNormTex`: position, normal and texture coordinate. */
  datatype Vertex = Vertex(pos: IVec3, normal: IVec3, uv: IVec2)

  /** Which generator: the one beside the 3D entities (no texture
      coordinates), the one in the generation file (texture coordinates on
      every quad), and the older one that appends to the caller's buffers. */
  datatype Revision = Plain | Textured | Appending

  datatype Face = Top | South | North | East | West

  /** One emitted face of the wall cell (i, j). */
  datatype Quad = Quad(face: Face, i: int, j: int)

  /** The outward normal of a face. */
  function Normal(f: Face): (n: IVec3)
    ensures n.y == (if f == Top then 1 else 0)
    ensures (f == Top) == (n.x == 0 && n.z == 0)
  {
    match f
    case Top => IVec3(0, 1, 0)
    case South => IVec3(0, 0, -1)
    case North => IVec3(0, 0, 1)
    case East => IVec3(1, 0, 0)
    case West => IVec3(-1, 0, 0)
  }

  /** Corner k (0 to 3) of a face of the unit cube, in push order. */
  function Corner(f: Face, k: int): IVec3
    requires 0 <= k < 4
  {
    match f
    case Top => [IVec3(0, 1, 0), IVec3(0, 1, 1), IVec3(1, 1, 0), IVec3(1, 1, 1)][k]
    case South => [IVec3(1, 0, 0), IVec3(0, 0, 0), IVec3(1, 1, 0), IVec3(0, 1, 0)][k]
    case North => [IVec3(1, 0, 1), IVec3(0, 0, 1), IVec3(1, 1, 1), IVec3(0, 1, 1)][k]
    case East => [IVec3(1, 0, 0), IVec3(1, 0, 1), IVec3(1, 1, 0), IVec3(1, 1, 1)][k]
    case West => [IVec3(0, 0, 0), IVec3(0, 0, 1), IVec3(0, 1, 0), IVec3(0, 1, 1)][k]
  }

  /** The texture coordinates of the k-th vertex of a quad: (0,0), (0,1),
      (1,0), (1,1) in the textured revision, all zero otherwise. */
  function TexCoord(rev: Revision, k: int): IVec2
    requires 0 <= k < 4
  {
    if rev == Textured then [IVec2(0, 0), IVec2(0, 1), IVec2(1, 0), IVec2(1, 1)][k] else IVec2(0, 0)
  }

  function AddI(a: IVec3, b: IVec3): IVec3 { IVec3(a.x + b.x, a.y + b.y, a.z + b.z) }

  /** The four vertices of a face of the cube at cell (i, j). */
  function FaceVertices(rev: Revision, f: Face, i: int, j: int): (vs: seq<Vertex>)
    ensures |vs| == 4
  {
    var o := IVec3(i, 0, j);
    [Vertex(AddI(o, Corner(f, 0)), Normal(f), TexCoord(rev, 0)),
     Vertex(AddI(o, Corner(f, 1)), Normal(f), TexCoord(rev, 1)),
     Vertex(AddI(o, Corner(f, 2)), Normal(f), TexCoord(rev, 2)),
     Vertex(AddI(o, Corner(f, 3)), Normal(f), TexCoord(rev, 3))]
  }

  /** A face's four vertices carry its normal and the revision's texture
      coordinates, are four different corners of the cube at cell (i, j),
      and lie in the side of the cube the normal points to. */
  lemma FaceGeometry(rev: Revision, f: Face, i: int, j: int)
    ensures var vs := FaceVertices(rev, f, i, j);
      && (forall k :: 0 <= k < 4 ==> vs[k].normal == Normal(f) && vs[k].uv == TexCoord(rev, k))
      && (forall k :: 0 <= k < 4 ==>
            i <= vs[k].pos.x <= i + 1 && 0 <= vs[k].pos.y <= 1 && j <= vs[k].pos.z <= j + 1)
      && (forall k :: 0 <= k < 4 ==>
            (Normal(f).x == 1 ==> vs[k].pos.x == i + 1) && (Normal(f).x == -1 ==> vs[k].pos.x == i) &&
            (Normal(f).z == 1 ==> vs[k].pos.z == j + 1) && (Normal(f).z == -1 ==> vs[k].pos.z == j) &&
            (Normal(f).y == 1 ==> vs[k].pos.y == 1))
      && (forall k, l :: 0 <= k < l < 4 ==> vs[k].pos != vs[l].pos)
  {
  }

  /** The six indices of a face whose first vertex is number `base`: two
      triangles over the quad's four vertices. */
  function FaceIndices(rev: Revision, f: Face, base: int): (ix: seq<int>)
    ensures |ix| == 6
  {
    var rel :=
      if rev == Appending then [0, 1, 2, 1, 2, 3]
      else if f == North || f == East then [2, 1, 0, 1, 2, 3]
      else [0, 1, 2, 3, 2, 1];
    [base + rel[0], base + rel[1], base + rel[2], base + rel[3], base + rel[4], base + rel[5]]
  }

  /** A face's six indices name exactly its own four vertices. */
  lemma FaceIndicesRange(rev: Revision, f: Face, base: int)
    ensures forall k :: 0 <= k < 6 ==> base <= FaceIndices(rev, f, base)[k] < base + 4
    ensures (set k | 0 <= k < 6 :: FaceIndices(rev, f, base)[k]) == {base, base + 1, base + 2, base + 3}
  {
    var ix := FaceIndices(rev, f, base);
    var named := set k | 0 <= k < 6 :: ix[k];
    assert ix[0] == base + 0 || ix[0] == base + 2;
    assert base in named && base + 1 in named && base + 2 in named && base + 3 in named by {
      assert (ix[1] == base + 1 && ix[5] == base + 3) || (ix[3] == base + 3 && ix[5] == base + 1);
      assert ix[0] in named && ix[1] in named && ix[2] in named;
      assert ix[3] in named && ix[4] in named && ix[5] in named;
    }
  }

  /** The floor: corners (0,0,0), (0,0,h), (w,0,0), (w,0,h), facing up, except
      in the appending revision, whose floor normal faces down. */
  function FloorVertices(rev: Revision, w: int, h: int): (vs: seq<Vertex>)
    ensures |vs| == 4
    ensures forall k :: 0 <= k < 4 ==>
              vs[k].normal == (if rev == Appending then IVec3(0, -1, 0) else IVec3(0, 1, 0)) &&
              vs[k].uv == TexCoord(rev, k) && vs[k].pos.y == 0
  {
    var n := if rev == Appending then IVec3(0, -1, 0) else IVec3(0, 1, 0);
    [Vertex(IVec3(0, 0, 0), n, TexCoord(rev, 0)), Vertex(IVec3(0, 0, h), n, TexCoord(rev, 1)),
     Vertex(IVec3(w, 0, 0), n, TexCoord(rev, 2)), Vertex(IVec3(w, 0, h), n, TexCoord(rev, 3))]
  }

  /** The floor's indices are absolute: they name vertices 0 to 3 whatever
      the buffer held before. */
  function FloorIndices(rev: Revision): (ix: seq<int>)
    ensures |ix| == 6 && forall k :: 0 <= k < 6 ==> 0 <= ix[k] < 4
  {
    if rev == Appending then [0, 1, 2, 1, 2, 3] else [0, 1, 2, 3, 2, 1]
  }

  /** A side face is emitted toward a neighbour inside the grid that is not a
      Wall. */
  predicate OpenNeighbour(g: Grid, x: int, y: int)
    requires g.Valid()
  {
    0 <= x < g.width && 0 <= y < g.height && (GetInGrid(g, x, y); Get(g, x, y) != WallCell)
  }

  /** The faces of cell (i, j), in emission order: nothing for a non-Wall
      cell; for a Wall, its top and then south, north, east and west faces
      towards open neighbours. */
  function CellQuads(g: Grid, i: int, j: int): (qs: seq<Quad>)
    requires g.Valid() && 0 <= i < g.width && 0 <= j < g.height
  {
    GetInGrid(g, i, j);
    if Get(g, i, j) != WallCell then []
    else
      WallQuads(i, j, OpenNeighbour(g, i, j - 1), OpenNeighbour(g, i, j + 1),
                OpenNeighbour(g, i + 1, j), OpenNeighbour(g, i - 1, j))
  }

  /** A Wall's faces given which of its south, north, east and west
      neighbours are open: the top first, then the open sides in that order. */
  function WallQuads(i: int, j: int, south: bool, north: bool, east: bool, west: bool): seq<Quad> {
    [Quad(Top, i, j)]
      + Optional(south, Quad(South, i, j)) + Optional(north, Quad(North, i, j))
      + Optional(east, Quad(East, i, j)) + Optional(west, Quad(West, i, j))
  }

  function Optional(b: bool, q: Quad): seq<Quad> { if b then [q] else [] }

  /** The faces of cells 0 .. n-1 of row j. */
  function RowQuads(g: Grid, j: int, n: int): seq<Quad>
    requires g.Valid() && 0 <= j < g.height && 0 <= n <= g.width
  {
    if n == 0 then [] else RowQuads(g, j, n - 1) + CellQuads(g, n - 1, j)
  }

  /** The faces of rows 0 .. m-1: the source's loops, row j outer, column i
      inner. */
  function GridQuads(g: Grid, m: int): seq<Quad>
    requires g.Valid() && 0 <= m <= g.height
  {
    if m == 0 then [] else GridQuads(g, m - 1) + RowQuads(g, m - 1, g.width)
  }

  /** All faces of the maze. */
  function Quads(g: Grid): seq<Quad>
    requires g.Valid()
  {
    GridQuads(g, g.height)
  }

  /** The neighbour a face looks at. */
  function Facing(q: Quad): (int, int) {
    (q.i + Normal(q.face).x, q.j + Normal(q.face).z)
  }

  /** A face the generator emits: the top of an in-grid Wall cell, or a side
      of one whose normal points at an open neighbour. */
  predicate Exposed(g: Grid, q: Quad)
    requires g.Valid()
  {
    && 0 <= q.i < g.width && 0 <= q.j < g.height
    && (GetInGrid(g, q.i, q.j); Get(g, q.i, q.j) == WallCell)
    && (q.face == Top || OpenNeighbour(g, Facing(q).0, Facing(q).1))
  }

  /** A cell's faces are exactly its exposed faces. */
  lemma CellQuadsSpec(g: Grid, i: int, j: int)
    requires g.Valid() && 0 <= i < g.width && 0 <= j < g.height
    ensures forall q :: q in CellQuads(g, i, j) <==> q.i == i && q.j == j && Exposed(g, q)
    ensures Increasing(CellQuads(g, i, j))
  {
    CellQuadsIncreasing(g, i, j);
    forall q: Quad
      ensures q in CellQuads(g, i, j) <==> q.i == i && q.j == j && Exposed(g, q)
    {
      InCellQuads(g, i, j, q);
    }
  }

  /** `CellQuadsSpec` for one face q. */
  lemma InCellQuads(g: Grid, i: int, j: int, q: Quad)
    requires g.Valid() && 0 <= i < g.width && 0 <= j < g.height
    ensures q in CellQuads(g, i, j) <==> q.i == i && q.j == j && Exposed(g, q)
  {
    GetInGrid(g, i, j);
    if Get(g, i, j) == WallCell {
      WallCellQuads(g, i, j);
      var s, n, e, w := OpenNeighbour(g, i, j - 1), OpenNeighbour(g, i, j + 1),
                        OpenNeighbour(g, i + 1, j), OpenNeighbour(g, i - 1, j);
      assert q in WallQuads(i, j, s, n, e, w) <==>
        q == Quad(Top, i, j) || (s && q == Quad(South, i, j)) || (n && q == Quad(North, i, j))
        || (e && q == Quad(East, i, j)) || (w && q == Quad(West, i, j));
      if q.i == i && q.j == j {
        ExposedAtWall(g, q);
      }
    }
  }

  /** A face of a Wall cell is exposed when it is the top or its side looks
      at an open neighbour. */
  lemma ExposedAtWall(g: Grid, q: Quad)
    requires g.Valid() && 0 <= q.i < g.width && 0 <= q.j < g.height
    requires (GetInGrid(g, q.i, q.j); Get(g, q.i, q.j) == WallCell)
    ensures Exposed(g, q) <==>
      || q.face == Top
      || (q.face == South && OpenNeighbour(g, q.i, q.j - 1))
      || (q.face == North && OpenNeighbour(g, q.i, q.j + 1))
      || (q.face == East && OpenNeighbour(g, q.i + 1, q.j))
      || (q.face == West && OpenNeighbour(g, q.i - 1, q.j))
  {
    var (x, y) := Facing(q);
    match q.face
    case Top =>
    case South => assert (x, y) == (q.i, q.j - 1);
    case North => assert (x, y) == (q.i, q.j + 1);
    case East => assert (x, y) == (q.i + 1, q.j);
    case West => assert (x, y) == (q.i - 1, q.j);
  }

  /** A row's faces are exactly the exposed faces of its scanned cells. */
  lemma RowQuadsSpec(g: Grid, j: int, n: int)
    requires g.Valid() && 0 <= j < g.height && 0 <= n <= g.width
    ensures forall q :: q in RowQuads(g, j, n) <==> q.j == j && q.i < n && Exposed(g, q)
    ensures Increasing(RowQuads(g, j, n))
  {
    RowQuadsIncreasing(g, j, n);
    forall q: Quad
      ensures q in RowQuads(g, j, n) <==> q.j == j && q.i < n && Exposed(g, q)
    {
      InRowQuads(g, j, n, q);
    }
  }

  /** `RowQuadsSpec` for one face q. */
  lemma {:induction false} InRowQuads(g: Grid, j: int, n: int, q: Quad)
    requires g.Valid() && 0 <= j < g.height && 0 <= n <= g.width
    ensures q in RowQuads(g, j, n) <==> q.j == j && q.i < n && Exposed(g, q)
  {
    if n > 0 {
      InRowQuads(g, j, n - 1, q);
      InCellQuads(g, n - 1, j, q);
      var prev: seq<Quad>, cell: seq<Quad> := RowQuads(g, j, n - 1), CellQuads(g, n - 1, j);
      assert RowQuads(g, j, n) == prev + cell;
      assert q in prev + cell <==> q in prev || q in cell;
    }
  }

  /** The maze's faces are exactly the exposed faces: one top per Wall cell
      and one side per open neighbour of a Wall cell. In particular a Wall on
      the edge of the grid gets no face towards the outside, and no face is
      emitted between two Walls. They come in emission order, so each of
      them once. */
  lemma GridQuadsSpec(g: Grid, m: int)
    requires g.Valid() && 0 <= m <= g.height
    ensures forall q :: q in GridQuads(g, m) <==> q.j < m && Exposed(g, q)
    ensures Increasing(GridQuads(g, m))
  {
    GridQuadsIncreasing(g, m);
    forall q: Quad
      ensures q in GridQuads(g, m) <==> q.j < m && Exposed(g, q)
    {
      InGridQuads(g, m, q);
    }
  }

  /** `GridQuadsSpec` for one face q. */
  lemma {:induction false} InGridQuads(g: Grid, m: int, q: Quad)
    requires g.Valid() && 0 <= m <= g.height
    ensures q in GridQuads(g, m) <==> q.j < m && Exposed(g, q)
  {
    if m > 0 {
      InGridQuads(g, m - 1, q);
      InRowQuads(g, m - 1, g.width, q);
      var prev: seq<Quad>, row: seq<Quad> := GridQuads(g, m - 1), RowQuads(g, m - 1, g.width);
      assert GridQuads(g, m) == prev + row;
      assert q in prev + row <==> q in prev || q in row;
    }
  }

  /** Emission order of the faces: row by row, then column by column, then
      top, south, north, east, west within a cell. */
  function Rank(f: Face): int {
    match f
    case Top => 0
    case South => 1
    case North => 2
    case East => 3
    case West => 4
  }

  predicate EmittedBefore(p: Quad, q: Quad) {
    || p.j < q.j
    || (p.j == q.j && p.i < q.i)
    || (p.j == q.j && p.i == q.i && Rank(p.face) < Rank(q.face))
  }

  /** Strictly increasing in emission order, so no face occurs twice. */
  predicate Increasing(s: seq<Quad>) {
    forall a, b | 0 <= a < b < |s| :: EmittedBefore(s[a], s[b])
  }

  lemma IncreasingAppend(x: seq<Quad>, y: seq<Quad>)
    requires Increasing(x) && Increasing(y)
    requires forall p, q | p in x && q in y :: EmittedBefore(p, q)
    ensures Increasing(x + y)
  {
    forall a, b | 0 <= a < b < |x + y|
      ensures EmittedBefore((x + y)[a], (x + y)[b])
    {
      if b < |x| {
        assert (x + y)[a] == x[a] && (x + y)[b] == x[b];
      } else if a >= |x| {
        assert (x + y)[a] == y[a - |x|] && (x + y)[b] == y[b - |x|];
      } else {
        assert x[a] in x && y[b - |x|] in y;
      }
    }
  }

  /** Pushing (or not) a face of the cell whose faces so far all rank below it. */
  lemma PushAfter(x: seq<Quad>, b: bool, q: Quad)
    requires Increasing(x)
    requires forall p | p in x :: p.i == q.i && p.j == q.j && Rank(p.face) < Rank(q.face)
    ensures Increasing(x + Optional(b, q))
    ensures forall p | p in x + Optional(b, q) :: p.i == q.i && p.j == q.j && Rank(p.face) <= Rank(q.face)
  {
    IncreasingAppend(x, Optional(b, q));
  }

  lemma WallQuadsIncreasing(i: int, j: int, s: bool, n: bool, e: bool, w: bool)
    ensures Increasing(WallQuads(i, j, s, n, e, w))
  {
    var top := [Quad(Top, i, j)];
    PushAfter(top, s, Quad(South, i, j));
    var a := top + Optional(s, Quad(South, i, j));
    PushAfter(a, n, Quad(North, i, j));
    var b := a + Optional(n, Quad(North, i, j));
    PushAfter(b, e, Quad(East, i, j));
    var c := b + Optional(e, Quad(East, i, j));
    PushAfter(c, w, Quad(West, i, j));
  }

  lemma CellQuadsIncreasing(g: Grid, i: int, j: int)
    requires g.Valid() && 0 <= i < g.width && 0 <= j < g.height
    ensures Increasing(CellQuads(g, i, j))
  {
    GetInGrid(g, i, j);
    if Get(g, i, j) == WallCell {
      WallCellQuads(g, i, j);
      WallQuadsIncreasing(i, j, OpenNeighbour(g, i, j - 1), OpenNeighbour(g, i, j + 1),
                          OpenNeighbour(g, i + 1, j), OpenNeighbour(g, i - 1, j));
    }
  }

  lemma {:induction false} RowQuadsIncreasing(g: Grid, j: int, n: int)
    requires g.Valid() && 0 <= j < g.height && 0 <= n <= g.width
    ensures Increasing(RowQuads(g, j, n))
  {
    if n > 0 {
      var prev, cell := RowQuads(g, j, n - 1), CellQuads(g, n - 1, j);
      RowQuadsIncreasing(g, j, n - 1);
      CellQuadsIncreasing(g, n - 1, j);
      forall p, q | p in prev && q in cell
        ensures EmittedBefore(p, q)
      {
        CellAfterRow(g, j, n, p, q);
      }
      IncreasingAppend(prev, cell);
    }
  }

  lemma {:induction false} GridQuadsIncreasing(g: Grid, m: int)
    requires g.Valid() && 0 <= m <= g.height
    ensures Increasing(GridQuads(g, m))
  {
    if m > 0 {
      var prev, row := GridQuads(g, m - 1), RowQuads(g, m - 1, g.width);
      GridQuadsIncreasing(g, m - 1);
      RowQuadsIncreasing(g, m - 1, g.width);
      forall p, q | p in prev && q in row
        ensures EmittedBefore(p, q)
      {
        RowAfterRows(g, m, p, q);
      }
      IncreasingAppend(prev, row);
    }
  }

  lemma CellAfterRow(g: Grid, j: int, n: int, p: Quad, q: Quad)
    requires g.Valid() && 0 <= j < g.height && 0 < n <= g.width
    requires p in RowQuads(g, j, n - 1) && q in CellQuads(g, n - 1, j)
    ensures EmittedBefore(p, q)
  {
    InRowQuads(g, j, n - 1, p);
    InCellQuads(g, n - 1, j, q);
    assert p.j == q.j && p.i < q.i;
  }

  lemma RowAfterRows(g: Grid, m: int, p: Quad, q: Quad)
    requires g.Valid() && 0 < m <= g.height
    requires p in GridQuads(g, m - 1) && q in RowQuads(g, m - 1, g.width)
    ensures EmittedBefore(p, q)
  {
    InGridQuads(g, m - 1, p);
    InRowQuads(g, m - 1, g.width, q);
    assert p.j < q.j;
  }

  const AllFaces: set<Face> := {Top, South, North, East, West}

  /** The exposed faces of the maze as a set: what the generator is meant
      to emit, independently of the order of its loops. */
  ghost function ExposedFaces(g: Grid): set<Quad>
    requires g.Valid()
  {
    set f, i, j | f in AllFaces && 0 <= i < g.width && 0 <= j < g.height && Exposed(g, Quad(f, i, j))
      :: Quad(f, i, j)
  }

  lemma InExposedFaces(g: Grid, q: Quad)
    requires g.Valid()
    ensures q in ExposedFaces(g) <==> Exposed(g, q)
  {
    if Exposed(g, q) {
      assert q == Quad(q.face, q.i, q.j) && q.face in AllFaces;
    }
  }

  /** A run with no repeated face has as many faces as its set. */
  lemma {:induction false} IncreasingCard(s: seq<Quad>)
    requires Increasing(s)
    ensures |set q | q in s| == |s|
  {
    if |s| > 0 {
      var k := |s| - 1;
      var t := s[..k];
      assert Increasing(t) by {
        forall a, b | 0 <= a < b < |t| ensures EmittedBefore(t[a], t[b]) {
          assert t[a] == s[a] && t[b] == s[b];
        }
      }
      IncreasingCard(t);
      assert s == t + [s[k]];
      assert (set q | q in s) == (set q | q in t) + {s[k]};
      assert s[k] !in t by {
        forall a | 0 <= a < k ensures t[a] != s[k] {
          assert EmittedBefore(s[a], s[k]);
        }
      }
    }
  }

  /** The generator emits every exposed face exactly once: the number of
      faces it emits is the number of exposed faces. */
  lemma ExposedFaceCount(g: Grid)
    requires g.Valid()
    ensures |Quads(g)| == |ExposedFaces(g)|
  {
    var qs := Quads(g);
    assert (set q | q in qs) == ExposedFaces(g) by {
      forall q | q in qs
        ensures q in ExposedFaces(g)
      {
        InGridQuads(g, g.height, q);
        InExposedFaces(g, q);
      }
      forall q | q in ExposedFaces(g)
        ensures q in qs
      {
        InExposedFaces(g, q);
        InGridQuads(g, g.height, q);
      }
    }
    GridQuadsIncreasing(g, g.height);
    IncreasingCard(qs);
  }

  /** The generator's two output buffers. */
  datatype Mesh = Mesh(vertices: seq<Vertex>, indices: seq<int>)

  /** Pushes one face: its four vertices, then six indices offset by the
      number of vertices already in the buffer (`index_offset`). */
  function AddFace(m: Mesh, rev: Revision, q: Quad): Mesh {
    Mesh(m.vertices + FaceVertices(rev, q.face, q.i, q.j),
         m.indices + FaceIndices(rev, q.face, |m.vertices|))
  }

  /** Pushes a run of faces in order. */
  function AddFaces(m: Mesh, rev: Revision, qs: seq<Quad>): Mesh {
    if |qs| == 0 then m else AddFace(AddFaces(m, rev, qs[..|qs| - 1]), rev, qs[|qs| - 1])
  }

  /** Pushes the floor; its indices are 0 to 3 whatever the buffers held. */
  function AddFloor(m: Mesh, rev: Revision, w: int, h: int): Mesh {
    Mesh(m.vertices + FloorVertices(rev, w, h), m.indices + FloorIndices(rev))
  }

  /** The buffers after the generator ran on grid g, starting from m0
      (empty for the two returning revisions). */
  function LevelMesh(g: Grid, rev: Revision, m0: Mesh): Mesh
    requires g.Valid()
  {
    AddFaces(AddFloor(m0, rev, g.width, g.height), rev, Quads(g))
  }

  /** Pushing two runs one after the other pushes their concatenation. */
  lemma {:induction false} AddFacesAppend(m: Mesh, rev: Revision, a: seq<Quad>, b: seq<Quad>)
    ensures AddFaces(m, rev, a + b) == AddFaces(AddFaces(m, rev, a), rev, b)
    decreases |b|
  {
    if |b| == 0 {
      assert a + b == a;
    } else {
      var n := |b| - 1;
      assert (a + b)[..|a + b| - 1] == a + b[..n];
      AddFacesAppend(m, rev, a, b[..n]);
    }
  }

  /** A run of faces keeps what the buffers held and adds four vertices and
      six indices per face. */
  lemma {:induction false} AddFacesSize(m: Mesh, rev: Revision, qs: seq<Quad>)
    ensures var r := AddFaces(m, rev, qs);
      && |r.vertices| == |m.vertices| + 4 * |qs| && |r.indices| == |m.indices| + 6 * |qs|
      && r.vertices[..|m.vertices|] == m.vertices && r.indices[..|m.indices|] == m.indices
  {
    if |qs| > 0 {
      var k := |qs| - 1;
      AddFacesSize(m, rev, qs[..k]);
      var p := AddFaces(m, rev, qs[..k]);
      var fv, fi := FaceVertices(rev, qs[k].face, qs[k].i, qs[k].j), FaceIndices(rev, qs[k].face, |p.vertices|);
      SliceOfAppend(p.vertices, fv, 0, |m.vertices|);
      SliceOfAppend(p.indices, fi, 0, |m.indices|);
    }
  }

  /** Face n of a run occupies vertices |m.vertices| + 4n and on. */
  lemma {:induction false} FaceVertexSlice(m: Mesh, rev: Revision, qs: seq<Quad>, n: int)
    requires 0 <= n < |qs|
    ensures var r := AddFaces(m, rev, qs);
      && |m.vertices| + 4 * n + 4 <= |r.vertices|
      && r.vertices[|m.vertices| + 4 * n .. |m.vertices| + 4 * n + 4] == FaceVertices(rev, qs[n].face, qs[n].i, qs[n].j)
    decreases |qs|
  {
    var k := |qs| - 1;
    AddFacesSize(m, rev, qs[..k]);
    var p := AddFaces(m, rev, qs[..k]);
    var r := AddFaces(m, rev, qs);
    assert r == AddFace(p, rev, qs[k]);
    var x := |m.vertices| + 4 * n;
    var fv := FaceVertices(rev, qs[n].face, qs[n].i, qs[n].j);
    if n < k {
      FaceVertexSlice(m, rev, qs[..k], n);
      assert qs[..k][n] == qs[n];
      assert p.vertices[x..x + 4] == fv;
      AddFaceKeepsVertices(p, rev, qs[k], x, x + 4);
      assert r.vertices[x..x + 4] == fv;
    } else {
      assert x == |p.vertices|;
      AddFaceLastVertices(p, rev, qs[k]);
      assert r.vertices[x..x + 4] == fv;
    }
  }

  /** Face n of a run occupies indices |m.indices| + 6n and on, and they are
      offset by the vertex count before it. */
  lemma {:induction false} FaceIndexSlice(m: Mesh, rev: Revision, qs: seq<Quad>, n: int)
    requires 0 <= n < |qs|
    ensures var r := AddFaces(m, rev, qs);
      && |m.indices| + 6 * n + 6 <= |r.indices|
      && r.indices[|m.indices| + 6 * n .. |m.indices| + 6 * n + 6] == FaceIndices(rev, qs[n].face, |m.vertices| + 4 * n)
    decreases |qs|
  {
    var k := |qs| - 1;
    AddFacesSize(m, rev, qs[..k]);
    var p := AddFaces(m, rev, qs[..k]);
    var r := AddFaces(m, rev, qs);
    assert r == AddFace(p, rev, qs[k]);
    var u := |m.indices| + 6 * n;
    var fi := FaceIndices(rev, qs[n].face, |m.vertices| + 4 * n);
    if n < k {
      FaceIndexSlice(m, rev, qs[..k], n);
      assert qs[..k][n] == qs[n];
      assert p.indices[u..u + 6] == fi;
      AddFaceKeepsIndices(p, rev, qs[k], u, u + 6);
      assert r.indices[u..u + 6] == fi;
    } else {
      assert u == |p.indices| && |m.vertices| + 4 * n == |p.vertices|;
      AddFaceLastIndices(p, rev, qs[k]);
      assert r.indices[u..u + 6] == fi;
    }
  }

  /** Pushing a face keeps every slice of the vertex buffer. */
  lemma AddFaceKeepsVertices(p: Mesh, rev: Revision, q: Quad, x: int, y: int)
    requires 0 <= x <= y <= |p.vertices|
    ensures |AddFace(p, rev, q).vertices| == |p.vertices| + 4
    ensures AddFace(p, rev, q).vertices[x..y] == p.vertices[x..y]
  {
    SliceOfAppend(p.vertices, FaceVertices(rev, q.face, q.i, q.j), x, y);
  }

  /** Pushing a face keeps every slice of the index buffer. */
  lemma AddFaceKeepsIndices(p: Mesh, rev: Revision, q: Quad, u: int, w: int)
    requires 0 <= u <= w <= |p.indices|
    ensures |AddFace(p, rev, q).indices| == |p.indices| + 6
    ensures AddFace(p, rev, q).indices[u..w] == p.indices[u..w]
  {
    SliceOfAppend(p.indices, FaceIndices(rev, q.face, |p.vertices|), u, w);
  }

  /** A pushed face is the last four vertices. */
  lemma AddFaceLastVertices(p: Mesh, rev: Revision, q: Quad)
    ensures var r := AddFace(p, rev, q);
      && |r.vertices| == |p.vertices| + 4
      && r.vertices[|p.vertices| .. |p.vertices| + 4] == FaceVertices(rev, q.face, q.i, q.j)
  {
    SliceOfAppend(p.vertices, FaceVertices(rev, q.face, q.i, q.j), 0, 0);
  }

  /** A pushed face is the last six indices. */
  lemma AddFaceLastIndices(p: Mesh, rev: Revision, q: Quad)
    ensures var r := AddFace(p, rev, q);
      && |r.indices| == |p.indices| + 6
      && r.indices[|p.indices| .. |p.indices| + 6] == FaceIndices(rev, q.face, |p.vertices|)
  {
    SliceOfAppend(p.indices, FaceIndices(rev, q.face, |p.vertices|), 0, 0);
  }

  /** The whole layout of a run of faces. */
  lemma AddFacesLayout(m: Mesh, rev: Revision, qs: seq<Quad>)
    ensures var r := AddFaces(m, rev, qs);
      && |r.vertices| == |m.vertices| + 4 * |qs| && |r.indices| == |m.indices| + 6 * |qs|
      && r.vertices[..|m.vertices|] == m.vertices && r.indices[..|m.indices|] == m.indices
      && forall n :: 0 <= n < |qs| ==>
           && r.vertices[|m.vertices| + 4 * n .. |m.vertices| + 4 * n + 4] == FaceVertices(rev, qs[n].face, qs[n].i, qs[n].j)
           && r.indices[|m.indices| + 6 * n .. |m.indices| + 6 * n + 6] == FaceIndices(rev, qs[n].face, |m.vertices| + 4 * n)
  {
    AddFacesSize(m, rev, qs);
    forall n | 0 <= n < |qs|
      ensures AddFaces(m, rev, qs).vertices[|m.vertices| + 4 * n .. |m.vertices| + 4 * n + 4] == FaceVertices(rev, qs[n].face, qs[n].i, qs[n].j)
      ensures AddFaces(m, rev, qs).indices[|m.indices| + 6 * n .. |m.indices| + 6 * n + 6] == FaceIndices(rev, qs[n].face, |m.vertices| + 4 * n)
    {
      FaceVertexSlice(m, rev, qs, n);
      FaceIndexSlice(m, rev, qs, n);
    }
  }

  /** A slice inside the front part of a concatenation is a slice of that
      part, and the back part is the slice after it. */
  lemma SliceOfAppend<T>(a: seq<T>, b: seq<T>, x: int, y: int)
    requires 0 <= x <= y <= |a|
    ensures (a + b)[x..y] == a[x..y]
    ensures (a + b)[|a|..|a| + |b|] == b
    ensures (a + b)[..y] == a[..y]
  {
  }

  /** Appends one face at cell (i, j); its indices start at the current
      vertex count (`index_offset`). */
  method EmitFace(rev: Revision, f: Face, i: int, j: int, m: Mesh) returns (m': Mesh)
    ensures m' == AddFace(m, rev, Quad(f, i, j))
  {
    var indexOffset := |m.vertices|;
    var vertices := m.vertices + FaceVertices(rev, f, i, j);
    var indices := m.indices + FaceIndices(rev, f, indexOffset);
    m' := Mesh(vertices, indices);
  }

  /** The body of the generator's inner loop for cell (i, j). */
  method EmitCell(g: Grid, rev: Revision, i: int, j: int, m: Mesh) returns (m': Mesh)
    requires g.Valid() && 0 <= i < g.width && 0 <= j < g.height
    ensures m' == AddFaces(m, rev, CellQuads(g, i, j))
  {
    GetInGrid(g, i, j);
    if Get(g, i, j) != WallCell {
      m' := m;
      assert CellQuads(g, i, j) == [];
    } else {
      var south := j - 1 >= 0 && (GetInGrid(g, i, j - 1); Get(g, i, j - 1) != WallCell);
      var north := j + 1 < g.height && (GetInGrid(g, i, j + 1); Get(g, i, j + 1) != WallCell);
      var east := i + 1 < g.width && (GetInGrid(g, i + 1, j); Get(g, i + 1, j) != WallCell);
      var west := i - 1 >= 0 && (GetInGrid(g, i - 1, j); Get(g, i - 1, j) != WallCell);
      assert south == OpenNeighbour(g, i, j - 1) && north == OpenNeighbour(g, i, j + 1);
      assert east == OpenNeighbour(g, i + 1, j) && west == OpenNeighbour(g, i - 1, j);
      WallCellQuads(g, i, j);
      m' := EmitWall(rev, i, j, south, north, east, west, m);
    }
  }

  /** The faces of a Wall cell, by its open neighbours. */
  lemma WallCellQuads(g: Grid, i: int, j: int)
    requires g.Valid() && 0 <= i < g.width && 0 <= j < g.height
    requires (GetInGrid(g, i, j); Get(g, i, j) == WallCell)
    ensures CellQuads(g, i, j) == WallQuads(i, j, OpenNeighbour(g, i, j - 1), OpenNeighbour(g, i, j + 1),
                                           OpenNeighbour(g, i + 1, j), OpenNeighbour(g, i - 1, j))
  {
  }

  /** A Wall cell: its top, then a side towards each open neighbour. */
  method EmitWall(rev: Revision, i: int, j: int, south: bool, north: bool, east: bool, west: bool, m: Mesh)
    returns (m': Mesh)
    ensures m' == AddFaces(m, rev, WallQuads(i, j, south, north, east, west))
  {
    m' := EmitFace(rev, Top, i, j, m);
    ghost var done: seq<Quad> := [Quad(Top, i, j)];
    assert done[..0] == [];
    m', done := EmitQuad(south, rev, Quad(South, i, j), m, done, m');
    m', done := EmitQuad(north, rev, Quad(North, i, j), m, done, m');
    m', done := EmitQuad(east, rev, Quad(East, i, j), m, done, m');
    m', done := EmitQuad(west, rev, Quad(West, i, j), m, done, m');
  }

  /** Emits face q when `emit` holds, after the faces `done` that already
      went out from m. */
  method EmitQuad(emit: bool, rev: Revision, q: Quad, m: Mesh, ghost done: seq<Quad>, cur: Mesh)
    returns (m': Mesh, ghost done': seq<Quad>)
    requires cur == AddFaces(m, rev, done)
    ensures done' == done + Optional(emit, q)
    ensures m' == AddFaces(m, rev, done')
  {
    if emit {
      m' := EmitFace(rev, q.face, q.i, q.j, cur);
      done' := done + [q];
      assert done'[..|done|] == done;
    } else {
      m', done' := cur, done;
      assert done + Optional(emit, q) == done;
    }
  }

  /** The inner loop over the cells of row j. */
  method EmitRow(g: Grid, rev: Revision, j: int, m: Mesh) returns (m': Mesh)
    requires g.Valid() && 0 <= j < g.height
    ensures m' == AddFaces(m, rev, RowQuads(g, j, g.width))
  {
    m' := m;
    var i := 0;
    while i < g.width
      invariant 0 <= i <= g.width
      invariant m' == AddFaces(m, rev, RowQuads(g, j, i))
    {
      ghost var before := RowQuads(g, j, i);
      ghost var cell := CellQuads(g, i, j);
      m' := EmitCell(g, rev, i, j, m');
      AddFacesAppend(m, rev, before, cell);
      assert RowQuads(g, j, i + 1) == before + cell;
      i := i + 1;
    }
  }

  /** The generator: the floor, then the cells row by row (j outer, i
      inner), each Wall emitting its faces. The two returning revisions start
      from empty buffers; the appending one adds to whatever the caller's
      buffers hold. */
  method AppendLevelMesh(g: Grid, rev: Revision, m0: Mesh) returns (m: Mesh)
    requires g.Valid()
    ensures m == LevelMesh(g, rev, m0)
  {
    var floor := AddFloor(m0, rev, g.width, g.height);
    m := floor;
    var j := 0;
    while j < g.height
      invariant 0 <= j <= g.height
      invariant m == AddFaces(floor, rev, GridQuads(g, j))
    {
      ghost var done := GridQuads(g, j);
      ghost var row := RowQuads(g, j, g.width);
      m := EmitRow(g, rev, j, m);
      AddFacesAppend(floor, rev, done, row);
      assert GridQuads(g, j + 1) == done + row;
      j := j + 1;
    }
  }

  /** Sizes of the generated mesh: four vertices and six indices for the
      floor and for every exposed face, so three vertices for every two
      indices added; what the buffers held before is kept in front. */
  lemma LevelMeshSize(g: Grid, rev: Revision, m0: Mesh)
    requires g.Valid()
    ensures var m := LevelMesh(g, rev, m0);
      && |m.vertices| == |m0.vertices| + 4 + 4 * |Quads(g)|
      && |m.indices| == |m0.indices| + 6 + 6 * |Quads(g)|
      && 2 * (|m.indices| - |m0.indices|) == 3 * (|m.vertices| - |m0.vertices|)
      && m.vertices[..|m0.vertices|] == m0.vertices && m.indices[..|m0.indices|] == m0.indices
    ensures |Quads(g)| == |ExposedFaces(g)|
  {
    ExposedFaceCount(g);
    var floor := AddFloor(m0, rev, g.width, g.height);
    AddFacesSize(floor, rev, Quads(g));
    var m := LevelMesh(g, rev, m0);
    assert m.vertices[..|m0.vertices|] == m.vertices[..|floor.vertices|][..|m0.vertices|];
    assert m.indices[..|m0.indices|] == m.indices[..|floor.indices|][..|m0.indices|];
  }

  /** Face n of the maze is four consecutive vertices after the floor and
      six consecutive indices after the floor's. */
  lemma LevelMeshSlices(g: Grid, rev: Revision, m0: Mesh, n: int)
    requires g.Valid() && 0 <= n < |Quads(g)|
    ensures var m := LevelMesh(g, rev, m0);
      var v, x := |m0.vertices| + 4 + 4 * n, |m0.indices| + 6 + 6 * n;
      var q := Quads(g)[n];
      && v + 4 <= |m.vertices| && x + 6 <= |m.indices|
      && m.vertices[v .. v + 4] == FaceVertices(rev, q.face, q.i, q.j)
      && m.indices[x .. x + 6] == FaceIndices(rev, q.face, v)
  {
    var floor := AddFloor(m0, rev, g.width, g.height);
    assert |floor.vertices| == |m0.vertices| + 4 && |floor.indices| == |m0.indices| + 6;
    FaceVertexSlice(floor, rev, Quads(g), n);
    FaceIndexSlice(floor, rev, Quads(g), n);
  }

  /** Each exposed face n of the maze carries the face's normal and the
      revision's texture coordinates on its four vertices. */
  lemma LevelMeshFaceVertices(g: Grid, rev: Revision, m0: Mesh, n: int)
    requires g.Valid() && 0 <= n < |Quads(g)|
    ensures var m := LevelMesh(g, rev, m0);
      var v := |m0.vertices| + 4 + 4 * n;
      && v + 4 <= |m.vertices|
      && forall k :: v <= k < v + 4 ==>
           m.vertices[k].normal == Normal(Quads(g)[n].face) && m.vertices[k].uv == TexCoord(rev, k - v)
  {
    var m := LevelMesh(g, rev, m0);
    var q := Quads(g)[n];
    var v := |m0.vertices| + 4 + 4 * n;
    LevelMeshSlices(g, rev, m0, n);
    var fv := m.vertices[v .. v + 4];
    FaceGeometry(rev, q.face, q.i, q.j);
    forall k | v <= k < v + 4
      ensures m.vertices[k] == fv[k - v]
    {
    }
  }

  /** The six indices at position x of s name exactly the four vertices
      v .. v+3: each of them names one of the four, and each of the four is
      named. */
  predicate NamesQuad(s: seq<int>, x: int, v: int)
    requires 0 <= x && x + 6 <= |s|
  {
    && (forall k :: x <= k < x + 6 ==> v <= s[k] < v + 4)
    && v in s[x .. x + 6] && v + 1 in s[x .. x + 6] && v + 2 in s[x .. x + 6] && v + 3 in s[x .. x + 6]
  }

  /** The six indices of exposed face n name exactly its four vertices. */
  lemma LevelMeshFaceIndices(g: Grid, rev: Revision, m0: Mesh, n: int)
    requires g.Valid() && 0 <= n < |Quads(g)|
    ensures var m := LevelMesh(g, rev, m0);
      var v, x := |m0.vertices| + 4 + 4 * n, |m0.indices| + 6 + 6 * n;
      x + 6 <= |m.indices| && NamesQuad(m.indices, x, v)
  {
    var m := LevelMesh(g, rev, m0);
    var v, x := |m0.vertices| + 4 + 4 * n, |m0.indices| + 6 + 6 * n;
    LevelMeshSlices(g, rev, m0, n);
    FaceIndicesAt(m.indices, x, rev, Quads(g)[n].face, v);
  }

  /** Six indices of a face, found at position x of an index buffer, name
      exactly the face's four vertices. */
  lemma FaceIndicesAt(s: seq<int>, x: int, rev: Revision, f: Face, v: int)
    requires 0 <= x && x + 6 <= |s| && s[x .. x + 6] == FaceIndices(rev, f, v)
    ensures NamesQuad(s, x, v)
  {
    var fi := FaceIndices(rev, f, v);
    FaceIndicesRange(rev, f, v);
    forall k | x <= k < x + 6
      ensures s[k] == fi[k - x]
    {
      assert s[x .. x + 6][k - x] == s[k];
    }
    FaceIndicesNames(rev, f, v, v);
    FaceIndicesNames(rev, f, v, v + 1);
    FaceIndicesNames(rev, f, v, v + 2);
    FaceIndicesNames(rev, f, v, v + 3);
  }

  /** Each of a face's four vertices is named by one of its indices. */
  lemma FaceIndicesNames(rev: Revision, f: Face, v: int, c: int)
    requires v <= c < v + 4
    ensures c in FaceIndices(rev, f, v)
  {
    FaceIndicesRange(rev, f, v);
    assert c in {v, v + 1, v + 2, v + 3};
    var k :| 0 <= k < 6 && FaceIndices(rev, f, v)[k] == c;
  }

  /** The floor's indices are 0 to 3: they name the new floor vertices only
      when the buffers started empty. The appending revision, called on a
      non-empty vertex buffer, draws the floor's triangles over the caller's
      first four vertices instead. */
  lemma LevelMeshFloor(g: Grid, rev: Revision, m0: Mesh)
    requires g.Valid()
    ensures var m := LevelMesh(g, rev, m0);
      && |m0.indices| + 6 <= |m.indices| && |m0.vertices| + 4 <= |m.vertices|
      && m.indices[|m0.indices| .. |m0.indices| + 6] == FloorIndices(rev)
      && m.vertices[|m0.vertices| .. |m0.vertices| + 4] == FloorVertices(rev, g.width, g.height)
      && (forall k :: |m0.indices| <= k < |m0.indices| + 6 ==> 0 <= m.indices[k] < 4)
      && (m0.vertices == [] <==>
            forall k :: |m0.indices| <= k < |m0.indices| + 6 ==> m.indices[k] >= |m0.vertices|)
  {
    var floor := AddFloor(m0, rev, g.width, g.height);
    AddFacesSize(floor, rev, Quads(g));
    var m := LevelMesh(g, rev, m0);
    assert m.indices[|m0.indices| .. |m0.indices| + 6] == m.indices[..|floor.indices|][|m0.indices| ..];
    assert m.vertices[|m0.vertices| .. |m0.vertices| + 4] == m.vertices[..|floor.vertices|][|m0.vertices| ..];
    var fi := FloorIndices(rev);
    assert fi[0] == 0;
    forall k | |m0.indices| <= k < |m0.indices| + 6
      ensures m.indices[k] == fi[k - |m0.indices|]
    {
      assert m.indices[|m0.indices| .. |m0.indices| + 6][k - |m0.indices|] == m.indices[k];
    }
  }

  /** Every index the generator emits names a vertex of the output buffer,
      whatever the buffers held before. */
  lemma LevelMeshNewIndicesInRange(g: Grid, rev: Revision, m0: Mesh)
    requires g.Valid()
    ensures var m := LevelMesh(g, rev, m0);
      && |m0.indices| <= |m.indices|
      && forall k :: |m0.indices| <= k < |m.indices| ==> 0 <= m.indices[k] < |m.vertices|
  {
    var m := LevelMesh(g, rev, m0);
    LevelMeshSize(g, rev, m0);
    LevelMeshFloor(g, rev, m0);
    forall k | |m0.indices| + 6 <= k < |m.indices|
      ensures 0 <= m.indices[k] < |m.vertices|
    {
      var d := k - |m0.indices| - 6;
      var n := d / 6;
      assert 6 * n <= d < 6 * n + 6;
      assert n < |Quads(g)|;
      var x := |m0.indices| + 6 + 6 * n;
      var v := |m0.vertices| + 4 + 4 * n;
      LevelMeshFaceIndices(g, rev, m0, n);
      assert v + 4 <= |m.vertices| && x <= k < x + 6;
    }
  }

  /** So if the caller's indices were in range, all of them are. */
  lemma LevelMeshIndicesInRange(g: Grid, rev: Revision, m0: Mesh)
    requires g.Valid()
    requires forall k :: 0 <= k < |m0.indices| ==> 0 <= m0.indices[k] < |m0.vertices|
    ensures var m := LevelMesh(g, rev, m0);
      forall k :: 0 <= k < |m.indices| ==> 0 <= m.indices[k] < |m.vertices|
  {
    var m := LevelMesh(g, rev, m0);
    LevelMeshSize(g, rev, m0);
    LevelMeshNewIndicesInRange(g, rev, m0);
    forall k | 0 <= k < |m0.indices|
      ensures 0 <= m.indices[k] < |m.vertices|
    {
      assert m.indices[k] == m.indices[..|m0.indices|][k];
    }
  }

  /** No face looks out of the grid or at another Wall: every side face of
      the maze faces an in-grid non-Wall cell, and every face belongs to a
      Wall cell. */
  lemma NoOutwardFaces(g: Grid)
    requires g.Valid()
    ensures forall q :: q in Quads(g) ==>
              Holds(g, Coord(q.i, q.j), WallCell) && (q.face != Top ==> OpenNeighbour(g, Facing(q).0, Facing(q).1))
  {
    GridQuadsSpec(g, g.height);
    forall q | q in Quads(g)
      ensures Holds(g, Coord(q.i, q.j), WallCell)
    {
      GetInGrid(g, q.i, q.j);
    }
  }
}
