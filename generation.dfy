/** The later revision of the 3D level set-up: the textured maze mesh and the
    placement of the four ghosts on randomly sampled Tunnel cells. Its
    `findPacman` and `genPellets` are the same scans as the 3D entities
    file's and are modelled once, by `Maze3D.FindPacman` and
    `Maze3D.GenPellets`. */
module Generation {
  import opened Geometry
  import opened Results
  import opened LevelGrid
  import opened MazeMesh
  import opened Maze3D

  /** `genLevelMesh` of the generation file: the textured revision, into
      empty buffers. */
  method GenLevelMesh(g: Grid) returns (m: Mesh)
    requires g.Valid()
    ensures m == LevelMesh(g, Textured, Mesh([], []))
  {
    m := AppendLevelMesh(g, Textured, Mesh([], []));
  }

  /** How many ghosts a level gets. */
  const GhostCount: nat := 4

  /** One draw of the uniform distribution on [0, 1), per coordinate. */
  predicate UnitSample(s: (real, real)) {
    0.0 <= s.0 < 1.0 && 0.0 <= s.1 < 1.0
  }

  /** The cell a sample picks: (floor(u * width), floor(v * height)). */
  function SampleCell(g: Grid, s: (real, real)): Coord {
    Coord((s.0 * g.width as real).Floor, (s.1 * g.height as real).Floor)
  }

  /** A sample in [0, 1) x [0, 1) picks a cell inside a non-empty grid. */
  lemma SampleCellInGrid(g: Grid, s: (real, real))
    requires g.width > 0 && g.height > 0 && UnitSample(s)
    ensures 0 <= SampleCell(g, s).i < g.width && 0 <= SampleCell(g, s).j < g.height
  {
    FloorOfScaled(s.0, g.width);
    FloorOfScaled(s.1, g.height);
  }

  /** floor(u * n) lies in [0, n) for u in [0, 1). */
  lemma FloorOfScaled(u: real, n: int)
    requires 0.0 <= u < 1.0 && n > 0
    ensures 0 <= (u * n as real).Floor < n
  {
    var x := u * n as real;
    assert 0.0 <= x < n as real by {
      assert n as real - x == (1.0 - u) * n as real;
    }
  }

  /** A result with `front` put before its value; errors pass unchanged. */
  function Prepend(front: seq<Vec3>, r: Result<seq<Vec3>, SetupError>): Result<seq<Vec3>, SetupError> {
    match r
    case Ok(rest) => Ok(front + rest)
    case Err(e) => Err(e)
  }

  /** The rejection sampling of `genGhosts` over a finite sample sequence:
      each sample that picks a Tunnel cell places a ghost at that cell's
      centre at height 0.5, every other sample is discarded, and it stops as
      soon as `need` ghosts are placed. Running out of samples first is an
      error (the source would keep drawing). */
  function PlaceGhosts(g: Grid, samples: seq<(real, real)>, need: nat): Result<seq<Vec3>, SetupError>
    requires g.Valid() && g.width > 0 && g.height > 0
    requires forall k :: 0 <= k < |samples| ==> UnitSample(samples[k])
  {
    if need == 0 then Ok([])
    else if |samples| == 0 then Err(SamplesExhausted)
    else
      var c := SampleCell(g, samples[0]);
      SampleCellInGrid(g, samples[0]);
      GetInGrid(g, c.i, c.j);
      if Get(g, c.i, c.j) == Tunnel then Prepend([Centre(c, 0.5)], PlaceGhosts(g, samples[1..], need - 1))
      else PlaceGhosts(g, samples[1..], need)
  }

  /** How many of the samples pick a Tunnel cell. */
  function Accepted(g: Grid, samples: seq<(real, real)>): (n: nat)
    requires g.Valid() && g.width > 0 && g.height > 0
    requires forall k :: 0 <= k < |samples| ==> UnitSample(samples[k])
    ensures n <= |samples|
  {
    if |samples| == 0 then 0
    else
      var c := SampleCell(g, samples[0]);
      SampleCellInGrid(g, samples[0]);
      GetInGrid(g, c.i, c.j);
      (if Get(g, c.i, c.j) == Tunnel then 1 else 0) + Accepted(g, samples[1..])
  }

  /** Placement succeeds exactly when at least `need` samples pick a Tunnel
      cell; then it yields exactly `need` ghosts, each at the centre of a
      Tunnel cell at height 0.5. */
  lemma {:induction false} PlaceGhostsSpec(g: Grid, samples: seq<(real, real)>, need: nat)
    requires g.Valid() && g.width > 0 && g.height > 0
    requires forall k :: 0 <= k < |samples| ==> UnitSample(samples[k])
    ensures PlaceGhosts(g, samples, need).Ok? <==> Accepted(g, samples) >= need
    ensures PlaceGhosts(g, samples, need).Err? ==> PlaceGhosts(g, samples, need).error == SamplesExhausted
    ensures PlaceGhosts(g, samples, need).Ok? ==>
              && |PlaceGhosts(g, samples, need).value| == need
              && forall p :: p in PlaceGhosts(g, samples, need).value ==>
                   exists c :: Holds(g, c, Tunnel) && p == Centre(c, 0.5)
    decreases |samples|
  {
    if need > 0 && |samples| > 0 {
      var c := SampleCell(g, samples[0]);
      SampleCellInGrid(g, samples[0]);
      GetInGrid(g, c.i, c.j);
      if Get(g, c.i, c.j) == Tunnel {
        PlaceGhostsSpec(g, samples[1..], need - 1);
        assert Holds(g, c, Tunnel);
      } else {
        PlaceGhostsSpec(g, samples[1..], need);
      }
    }
  }

  /** The grid is not changed as ghosts are placed, so two ghosts may share
      a cell: in a level whose only Tunnel is cell (0, 0), four samples of
      (0, 0) place all four ghosts at its centre. */
  lemma GhostsMayShareACell()
    ensures PlaceGhosts(Grid(1, 1, [Tunnel]), [(0.0, 0.0), (0.0, 0.0), (0.0, 0.0), (0.0, 0.0)], GhostCount)
            == Ok([Vec3(0.5, 0.5, 0.5), Vec3(0.5, 0.5, 0.5), Vec3(0.5, 0.5, 0.5), Vec3(0.5, 0.5, 0.5)])
  {
    var g := Grid(1, 1, [Tunnel]);
    var s := (0.0, 0.0);
    var c := Vec3(0.5, 0.5, 0.5);
    var none: seq<(real, real)> := [];
    assert SampleCell(g, s) == Coord(0, 0);
    assert Centre(Coord(0, 0), 0.5) == c;
    assert RawIndex(g, 0, 0) == 0 && Get(g, 0, 0) == Tunnel;
    assert PlaceGhosts(g, none, 0) == Ok([]);
    assert [s][1..] == none;
    assert [c] + [] == [c];
    assert PlaceGhosts(g, [s], 1) == Ok([c]);
    assert [s, s][1..] == [s];
    assert [c] + [c] == [c, c];
    assert PlaceGhosts(g, [s, s], 2) == Ok([c, c]);
    assert [s, s, s][1..] == [s, s];
    assert [c] + [c, c] == [c, c, c];
    assert PlaceGhosts(g, [s, s, s], 3) == Ok([c, c, c]);
    assert [c] + [c, c, c] == [c, c, c, c];
    assert [s, s, s, s][1..] == [s, s, s];
  }

  /** Putting two fronts before a result one after the other puts their
      concatenation before it. */
  lemma PrependTwice(a: seq<Vec3>, b: seq<Vec3>, r: Result<seq<Vec3>, SetupError>)
    ensures Prepend(a, Prepend(b, r)) == Prepend(a + b, r)
    ensures Prepend([], r) == r
  {
    if r.Ok? {
      assert a + (b + r.value) == (a + b) + r.value;
      assert [] + r.value == r.value;
    }
  }

  /** `genGhosts`: for each of the four ghosts, draw samples until one picks
      a Tunnel cell and place the ghost at that cell's centre. */
  method GenGhosts(g: Grid, samples: seq<(real, real)>) returns (r: Result<seq<Vec3>, SetupError>)
    requires g.Valid() && g.width > 0 && g.height > 0
    requires forall k :: 0 <= k < |samples| ==> UnitSample(samples[k])
    ensures r == PlaceGhosts(g, samples, GhostCount)
  {
    var ghosts: seq<Vec3> := [];
    var p := 0;
    assert samples[0..] == samples;
    PrependTwice([], [], PlaceGhosts(g, samples, GhostCount));
    for k := 0 to GhostCount
      invariant 0 <= p <= |samples|
      invariant PlaceGhosts(g, samples, GhostCount) == Prepend(ghosts, PlaceGhosts(g, samples[p..], GhostCount - k))
    {
      var drawn := DrawGhost(g, samples, p, GhostCount - k);
      if drawn.None? {
        return Err(SamplesExhausted);
      }
      ghost var rest := PlaceGhosts(g, samples[drawn.value.1..], GhostCount - k - 1);
      assert PlaceGhosts(g, samples[p..], GhostCount - k) == Prepend([drawn.value.0], rest);
      PrependTwice(ghosts, [drawn.value.0], rest);
      ghosts := ghosts + [drawn.value.0];
      p := drawn.value.1;
    }
    assert ghosts + [] == ghosts;
    return Ok(ghosts);
  }

  /** The inner loop of `genGhosts`: draws samples from position p on until
      one picks a Tunnel cell, and answers that cell's ghost and the position
      after the sample; nothing if the samples run out first. */
  method DrawGhost(g: Grid, samples: seq<(real, real)>, p: int, ghost need: nat)
    returns (r: Option<(Vec3, int)>)
    requires g.Valid() && g.width > 0 && g.height > 0
    requires forall k :: 0 <= k < |samples| ==> UnitSample(samples[k])
    requires 0 <= p <= |samples| && need > 0
    ensures r.None? ==> PlaceGhosts(g, samples[p..], need) == Err(SamplesExhausted)
    ensures r.Some? ==>
              && p < r.value.1 <= |samples|
              && PlaceGhosts(g, samples[p..], need) == Prepend([r.value.0], PlaceGhosts(g, samples[r.value.1..], need - 1))
  {
    var q := p;
    while q < |samples|
      invariant p <= q <= |samples|
      invariant PlaceGhosts(g, samples[p..], need) == PlaceGhosts(g, samples[q..], need)
    {
      var c := SampleCell(g, samples[q]);
      SampleCellInGrid(g, samples[q]);
      var i, j := c.i, c.j;
      GetInGrid(g, i, j);
      assert samples[q..][1..] == samples[q + 1..];
      if Get(g, i, j) == Tunnel {
        return Some((Centre(Coord(i, j), 0.5), q + 1));
      }
      q := q + 1;
    }
    return None;
  }
}
