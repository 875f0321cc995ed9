/** The 3D game's level set-up and its two moving parts: the maze mesh, the
    search for Pacman's start cell, the pellet centroids and their removal
    when Pacman comes close, and Pacman's steering and wall-checked step. */
module Maze3D {
  import opened Geometry
  import opened Results
  import opened LevelGrid
  import opened MazeMesh
  import Input

  /** What set-up can fail with: no Pacman cell (`findPacman` throws), or the
      sample sequence ran out before four ghosts were placed. */
  datatype SetupError = PacmanNotFound | SamplesExhausted

  /** The point above the centre of cell c at height y. */
  function Centre(c: Coord, y: real): Vec3 {
    Vec3(c.i as real + 0.5, y, c.j as real + 0.5)
  }

  /** Different cells have different centres at any one height. */
  lemma CentreInjective(c: Coord, d: Coord, y: real)
    ensures Centre(c, y) == Centre(d, y) <==> c == d
  {
  }

  /** `genLevelMesh` of the 3D entities file: the plain revision, into empty
      buffers. */
  method GenLevelMesh(g: Grid) returns (m: Mesh)
    requires g.Valid()
    ensures m == LevelMesh(g, Plain, Mesh([], []))
  {
    m := AppendLevelMesh(g, Plain, Mesh([], []));
  }

  /** `findPacman`: scans rows j, then columns i, and answers the centre of
      the first Pacman cell at height 0.5; with no Pacman cell it fails. */
  method FindPacman(g: Grid) returns (r: Result<Vec3, SetupError>)
    requires g.Valid()
    ensures r.Err? <==> forall c :: !Holds(g, c, PacmanCell)
    ensures r.Err? ==> r.error == PacmanNotFound
    ensures r.Ok? ==> exists c :: && Holds(g, c, PacmanCell) && r.value == Centre(c, 0.5)
                                  && forall d :: Holds(g, d, PacmanCell) ==> !Before(d, c)
  {
    var j := 0;
    while j < g.height
      invariant 0 <= j <= g.height
      invariant forall d :: Holds(g, d, PacmanCell) ==> d.j >= j
    {
      var i := 0;
      while i < g.width
        invariant 0 <= i <= g.width
        invariant forall d :: Holds(g, d, PacmanCell) ==> d.j > j || (d.j == j && d.i >= i)
      {
        GetInGrid(g, i, j);
        if Get(g, i, j) == PacmanCell {
          assert Holds(g, Coord(i, j), PacmanCell);
          return Ok(Centre(Coord(i, j), 0.5));
        }
        i := i + 1;
      }
      j := j + 1;
    }
    return Err(PacmanNotFound);
  }

  /** The centres at height y of a run of cells, in order. */
  function Centres(cs: seq<Coord>, y: real): (ps: seq<Vec3>)
    ensures |ps| == |cs|
  {
    if |cs| == 0 then [] else Centres(cs[..|cs| - 1], y) + [Centre(cs[|cs| - 1], y)]
  }

  /** Centre k is the centre of cell k. */
  lemma {:induction false} CentresAt(cs: seq<Coord>, y: real)
    ensures forall k :: 0 <= k < |cs| ==> Centres(cs, y)[k] == Centre(cs[k], y)
  {
    if |cs| > 0 {
      var n := |cs| - 1;
      CentresAt(cs[..n], y);
    }
  }

  lemma {:induction false} CentresAppend(a: seq<Coord>, b: seq<Coord>, y: real)
    ensures Centres(a + b, y) == Centres(a, y) + Centres(b, y)
    decreases |b|
  {
    if |b| == 0 {
      assert a + b == a;
    } else {
      var n := |b| - 1;
      assert (a + b)[..|a + b| - 1] == a + b[..n];
      CentresAppend(a, b[..n], y);
    }
  }

  /** Pellet centroids sit a quarter above the floor. */
  const PelletHeight: real := 0.25

  /** `genPellets`: the same row-major scan, pushing the centroid of every
      Tunnel cell. */
  method GenPellets(g: Grid) returns (ps: seq<Vec3>)
    requires g.Valid()
    ensures ps == Centres(CellsWhere(g, Tunnel, g.height), PelletHeight)
  {
    ps := [];
    var j := 0;
    while j < g.height
      invariant 0 <= j <= g.height
      invariant ps == Centres(CellsWhere(g, Tunnel, j), PelletHeight)
    {
      var row := RowPellets(g, j);
      CentresAppend(CellsWhere(g, Tunnel, j), RowCellsWhere(g, Tunnel, j, g.width), PelletHeight);
      ps := ps + row;
      j := j + 1;
    }
  }

  /** The inner loop of `genPellets` over row j. */
  method RowPellets(g: Grid, j: int) returns (row: seq<Vec3>)
    requires g.Valid() && 0 <= j < g.height
    ensures row == Centres(RowCellsWhere(g, Tunnel, j, g.width), PelletHeight)
  {
    row := [];
    var i := 0;
    while i < g.width
      invariant 0 <= i <= g.width
      invariant row == Centres(RowCellsWhere(g, Tunnel, j, i), PelletHeight)
    {
      ghost var done := RowCellsWhere(g, Tunnel, j, i);
      GetInGrid(g, i, j);
      var offset := Centre(Coord(i, j), PelletHeight);
      if Get(g, i, j) == Tunnel {
        row := row + [offset];
        assert RowCellsWhere(g, Tunnel, j, i + 1) == done + [Coord(i, j)];
        assert (done + [Coord(i, j)])[..|done|] == done;
        assert Centres(done + [Coord(i, j)], PelletHeight) == Centres(done, PelletHeight) + [offset];
      } else {
        assert RowCellsWhere(g, Tunnel, j, i + 1) == done + [];
        assert done + [] == done;
      }
      i := i + 1;
    }
  }

  /** The pellets are exactly one centroid per Tunnel cell, at pellet
      height, in row-major order (by z, then by x). */
  lemma GenPelletsSpec(g: Grid)
    requires g.Valid()
    ensures var ps := Centres(CellsWhere(g, Tunnel, g.height), PelletHeight);
      && (forall c :: Centre(c, PelletHeight) in ps <==> Holds(g, c, Tunnel))
      && (forall p :: p in ps ==> p.y == PelletHeight)
      && (forall k, l :: 0 <= k < l < |ps| ==> ps[k].z < ps[l].z || (ps[k].z == ps[l].z && ps[k].x < ps[l].x))
  {
    var cs := CellsWhere(g, Tunnel, g.height);
    var ps := Centres(cs, PelletHeight);
    CellsWhereSpec(g, Tunnel, g.height);
    CentresAt(cs, PelletHeight);
    forall c
      ensures Centre(c, PelletHeight) in ps <==> Holds(g, c, Tunnel)
    {
      if Centre(c, PelletHeight) in ps {
        var k :| 0 <= k < |ps| && ps[k] == Centre(c, PelletHeight);
        CentreInjective(c, cs[k], PelletHeight);
        assert cs[k] in cs;
      }
      if Holds(g, c, Tunnel) {
        var k :| 0 <= k < |cs| && cs[k] == c;
        assert ps[k] == Centre(c, PelletHeight);
      }
    }
  }

  /** Pacman eats a pellet whose centroid is within this distance. */
  const EatRadius: real := 0.4

  /** The centroids farther than the eating distance from Pacman, in their
      original order (`std::remove_if` followed by `erase`). */
  function Far(cs: seq<Vec3>, pacman: Vec3): (r: seq<Vec3>)
    ensures |r| <= |cs|
  {
    if |cs| == 0 then []
    else Far(cs[..|cs| - 1], pacman) + (if Within3(cs[|cs| - 1], pacman, EatRadius) then [] else [cs[|cs| - 1]])
  }

  /** Exactly the centroids within the eating distance are removed. */
  lemma {:induction false} FarSpec(cs: seq<Vec3>, pacman: Vec3)
    ensures forall c :: c in Far(cs, pacman) <==> c in cs && !Within3(c, pacman, EatRadius)
  {
    if |cs| > 0 {
      var n := |cs| - 1;
      FarSpec(cs[..n], pacman);
      assert cs == cs[..n] + [cs[n]];
    }
  }

  /** The survivors keep their relative order: filtering a concatenation
      filters each part. */
  lemma {:induction false} FarAppend(a: seq<Vec3>, b: seq<Vec3>, pacman: Vec3)
    ensures Far(a + b, pacman) == Far(a, pacman) + Far(b, pacman)
    decreases |b|
  {
    if |b| == 0 {
      assert a + b == a;
    } else {
      var n := |b| - 1;
      assert (a + b)[..|a + b| - 1] == a + b[..n];
      FarAppend(a, b[..n], pacman);
    }
  }

  /** The count changes iff some centroid was within the eating distance. */
  lemma {:induction false} FarKeepsAll(cs: seq<Vec3>, pacman: Vec3)
    ensures |Far(cs, pacman)| == |cs| <==> forall k :: 0 <= k < |cs| ==> !Within3(cs[k], pacman, EatRadius)
  {
    if |cs| > 0 {
      var n := |cs| - 1;
      FarKeepsAll(cs[..n], pacman);
      assert forall k :: 0 <= k < n ==> cs[..n][k] == cs[k];
    }
  }

  /** The erase-remove pass as a scan. */
  method KeepFar(cs: seq<Vec3>, pacman: Vec3) returns (kept: seq<Vec3>)
    ensures kept == Far(cs, pacman)
  {
    kept := [];
    for k := 0 to |cs|
      invariant kept == Far(cs[..k], pacman)
    {
      assert cs[..k + 1][..k] == cs[..k];
      if !Within3(cs[k], pacman, EatRadius) {
        kept := kept + [cs[k]];
      }
    }
    assert cs[..|cs|] == cs;
  }

  /** The pellets still on the board. */
  class Pellets {
    var centroids: seq<Vec3>

    constructor(cs: seq<Vec3>)
      ensures centroids == cs
    {
      centroids := cs;
    }

    /** `Pellets::update`: removes the centroids within reach of Pacman and
        reports whether the instance data must be uploaded again, which is
        when the count changed. */
    method Update(pacman: Vec3) returns (reupload: bool)
      modifies this
      ensures centroids == Far(old(centroids), pacman)
      ensures reupload <==> |centroids| != |old(centroids)|
    {
      var before := |centroids|;
      centroids := KeepFar(centroids, pacman);
      var after := |centroids|;
      reupload := before != after;
    }
  }

  /** Pacman's steering vector: no vertical part, and each horizontal part
      is -1, 0 or 1. */
  predicate Steering(f: Vec3) {
    f.y == 0.0 && (f.x == -1.0 || f.x == 0.0 || f.x == 1.0) && (f.z == -1.0 || f.z == 0.0 || f.z == 1.0)
  }

  /** `Pacman::input`: pressing W or S sets z to 1 or -1 and pressing A or D
      sets x to 1 or -1; releasing W or S zeroes z and releasing A or D
      zeroes x; anything else leaves the vector alone. */
  function Steer(f: Vec3, ev: Input.InputEvent): (r: Vec3)
    ensures Steering(f) ==> Steering(r)
    ensures r.y == f.y
  {
    match ev.state
    case Pressed =>
      (match ev.code
       case W => f.(z := 1.0)
       case S => f.(z := -1.0)
       case A => f.(x := 1.0)
       case D => f.(x := -1.0)
       case _ => f)
    case Released =>
      (match ev.code
       case W => f.(z := 0.0)
       case S => f.(z := 0.0)
       case A => f.(x := 0.0)
       case D => f.(x := 0.0)
       case _ => f)
    case Held => f
  }

  /** Only the four movement keys matter, only on press or release, and each
      touches one axis: a press sets it to the key's sign, a release zeroes it. */
  lemma SteerSpec(f: Vec3, ev: Input.InputEvent)
    ensures ev.state == Input.Held || ev.code !in {Input.W, Input.S, Input.A, Input.D} ==> Steer(f, ev) == f
    ensures ev.state == Input.Pressed && ev.code == Input.W ==> Steer(f, ev).z == 1.0
    ensures ev.state == Input.Pressed && ev.code == Input.S ==> Steer(f, ev).z == -1.0
    ensures ev.state == Input.Pressed && ev.code == Input.A ==> Steer(f, ev).x == 1.0
    ensures ev.state == Input.Pressed && ev.code == Input.D ==> Steer(f, ev).x == -1.0
    ensures ev.code in {Input.W, Input.S} ==> Steer(f, ev).x == f.x
    ensures ev.code in {Input.A, Input.D} ==> Steer(f, ev).z == f.z
    ensures ev.state == Input.Released && ev.code in {Input.W, Input.S} ==> Steer(f, ev).z == 0.0
    ensures ev.state == Input.Released && ev.code in {Input.A, Input.D} ==> Steer(f, ev).x == 0.0
  {
  }

  /** Releasing S while W is still held stops the forward motion too: the
      release does not check which key set the axis. */
  lemma ReleaseStopsEitherKey(f: Vec3)
    ensures Steer(Steer(f, Input.InputEvent(Input.W, Input.Pressed)), Input.InputEvent(Input.S, Input.Released)).z == 0.0
  {
  }

  /** The cell a position is in for the wall test: (round(x - 0.5), round(z - 0.5)). */
  function CellUnder(t: Vec3): Coord {
    Coord(Round(t.x - 0.5), Round(t.z - 0.5))
  }

  /** A cell's centre is in that cell. */
  lemma CellUnderCentre(c: Coord, y: real)
    ensures CellUnder(Centre(c, y)) == c
  {
    RoundOfInteger(c.i);
    RoundOfInteger(c.j);
  }

  /** `Pacman::update`: the candidate translation + forward * dt is committed
      unless its cell is a Wall. The cell is read with the clamped query, so
      a candidate outside the grid is tested against the nearest border cell. */
  function Advance(t: Vec3, f: Vec3, dt: real, g: Grid): Vec3
    requires g.Valid() && g.width > 0 && g.height > 0
  {
    var candidate := Add3(t, Scale3(dt, f));
    var cell := CellUnder(candidate);
    if ClampedGet(g, cell.i, cell.j) == WallCell then t else candidate
  }

  /** The step either commits the candidate or stays put, commits exactly
      when the candidate's cell is not a Wall, never changes the height when
      steering, and never ends in a Wall cell unless it started there. */
  lemma AdvanceSpec(t: Vec3, f: Vec3, dt: real, g: Grid)
    requires g.Valid() && g.width > 0 && g.height > 0
    ensures var r := Advance(t, f, dt, g);
      var candidate := Add3(t, Scale3(dt, f));
      && (r == candidate <==> ClampedGet(g, CellUnder(candidate).i, CellUnder(candidate).j) != WallCell || candidate == t)
      && (r != candidate ==> r == t)
      && (Steering(f) ==> r.y == t.y)
      && (ClampedGet(g, CellUnder(r).i, CellUnder(r).j) == WallCell ==> r == t)
  {
  }

  /** Pacman in the 3D game: a steering vector and a translation. */
  class Pacman {
    var forward: Vec3
    var translation: Vec3

    ghost predicate Valid()
      reads this
    {
      Steering(forward)
    }

    /** Starts at the given position, standing still. */
    constructor(position: Vec3)
      ensures Valid()
      ensures translation == position && forward == Vec3(0.0, 0.0, 0.0)
    {
      forward := Vec3(0.0, 0.0, 0.0);
      translation := position;
    }

    function GetPosition(): Vec3
      reads this
    {
      translation
    }

    /** `Pacman::input`. */
    method HandleInput(ev: Input.InputEvent)
      requires Valid()
      modifies this
      ensures Valid()
      ensures forward == Steer(old(forward), ev) && translation == old(translation)
    {
      forward := Steer(forward, ev);
    }

    /** `Pacman::update`. */
    method Update(dt: real, g: Grid)
      requires Valid() && g.Valid() && g.width > 0 && g.height > 0
      modifies this
      ensures Valid()
      ensures translation == Advance(old(translation), forward, dt, g) && forward == old(forward)
    {
      var candidate := Add3(translation, Scale3(dt, forward));
      var collision := ClampedGet(g, Round(candidate.x - 0.5), Round(candidate.z - 0.5)) == WallCell;
      if !collision {
        translation := candidate;
      }
    }
  }
}
