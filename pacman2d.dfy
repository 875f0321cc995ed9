/** The 2D Pacman level: it reads the grid, turns four random Tunnel cells
    into Ghost cells, spawns one entity per cell, and then drives the
    simulation one tick at a time. It also keeps the won / over flags. */
module Pacman2D {
  import opened Geometry
  import opened Results
  import opened LevelGrid
  import opened Entities2D
  import Input

  const NumGhosts: nat := 4

  datatype PlaceError = SamplesExhausted

  /** The cell a random sample in [0, 1) picks: `rnd() * grid.size()`
      truncated to an index. */
  function SampleIndex(s: real, n: nat): int {
    (s * n as real).Floor
  }

  /** A sample in [0, 1) always picks a cell of a non-empty grid. */
  lemma SampleIndexInRange(s: real, n: nat)
    requires 0.0 <= s < 1.0 && n > 0
    ensures 0 <= SampleIndex(s, n) < n
  {
    assert 0.0 <= s * n as real < n as real;
  }

  /** Rejection sampling of ghost cells: each sample picks a cell; a Tunnel
      cell becomes a Ghost cell and counts as placed, any other pick is
      discarded. A sample outside the grid (which only an empty grid or a
      sample outside [0, 1) produces) is discarded too. Running out of
      samples before `need` ghosts are placed is an error; the source would
      keep drawing. */
  function PlaceGhosts(cells: seq<int>, samples: seq<real>, need: nat): Result<seq<int>, PlaceError>
    decreases |samples|
  {
    if need == 0 then Ok(cells)
    else if |samples| == 0 then Err(SamplesExhausted)
    else
      var k := SampleIndex(samples[0], |cells|);
      if 0 <= k < |cells| && cells[k] == Tunnel
      then PlaceGhosts(cells[k := GhostCell], samples[1..], need - 1)
      else PlaceGhosts(cells, samples[1..], need)
  }

  /** Writing a code into a cell that held another raises its count by one. */
  lemma CountAfterWrite(cells: seq<int>, p: int, code: int)
    requires 0 <= p < |cells| && cells[p] != code
    ensures Count(cells[p := code], code) == Count(cells, code) + 1
  {
    var u := cells[p := code];
    assert u[p := cells[p]] == cells;
    CountAfterUpdate(u, p, code, cells[p]);
  }

  /** A successful placement turns exactly `need` Tunnel cells into Ghost
      cells and changes no other cell. */
  lemma {:induction false} PlaceGhostsSpec(cells: seq<int>, samples: seq<real>, need: nat)
    requires PlaceGhosts(cells, samples, need).Ok?
    ensures var r := PlaceGhosts(cells, samples, need).value;
      && |r| == |cells|
      && (forall k :: 0 <= k < |cells| ==> r[k] == cells[k] || (cells[k] == Tunnel && r[k] == GhostCell))
      && Count(r, Tunnel) == Count(cells, Tunnel) - need
      && Count(r, GhostCell) == Count(cells, GhostCell) + need
    decreases |samples|
  {
    if need > 0 {
      var k := SampleIndex(samples[0], |cells|);
      if 0 <= k < |cells| && cells[k] == Tunnel {
        var u := cells[k := GhostCell];
        PlaceGhostsSpec(u, samples[1..], need - 1);
        CountAfterUpdate(cells, k, Tunnel, GhostCell);
        CountAfterWrite(cells, k, GhostCell);
      } else {
        PlaceGhostsSpec(cells, samples[1..], need);
      }
    }
  }

  /** With fewer Tunnel cells than ghosts to place, no sample sequence lets
      placement finish (the source's loop would never end). */
  lemma {:induction false} PlaceGhostsNeedsTunnels(cells: seq<int>, samples: seq<real>, need: nat)
    requires Count(cells, Tunnel) < need
    ensures PlaceGhosts(cells, samples, need).Err?
    decreases |samples|
  {
    if |samples| > 0 {
      var k := SampleIndex(samples[0], |cells|);
      if 0 <= k < |cells| && cells[k] == Tunnel {
        CountAfterUpdate(cells, k, Tunnel, GhostCell);
        PlaceGhostsNeedsTunnels(cells[k := GhostCell], samples[1..], need - 1);
      } else {
        PlaceGhostsNeedsTunnels(cells, samples[1..], need);
      }
    }
  }

  /** `indexToCoord` on integers: column i mod w, and the row counted from the
      top, h - i / w. Indices are never negative, so C++'s truncating
      division agrees with Dafny's. */
  function IndexToCell(i: nat, w: int, h: int): (int, int)
    requires w > 0
  {
    (i % w, h - i / w)
  }

  /** `indexToCoord`: the same as a position. */
  function IndexToCoord(i: nat, w: int, h: int): Vec2
    requires w > 0
  {
    var (x, y) := IndexToCell(i, w, h);
    Vec2(x as real, y as real)
  }

  /** `coordToIndex`. */
  function CoordToIndex(x: int, y: int, w: int): int {
    x + y * w
  }

  /** For an index inside the grid, the coordinate has x in [0, w) and y in
      [1, h] (not [0, h)); flipping y back gives the index again, but
      converting straight back is off by (h - 2 * (i / w)) rows. */
  lemma {:induction false} IndexToCellSpec(i: nat, w: int, h: int)
    requires w > 0 && h >= 0 && i < w * h
    ensures var (x, y) := IndexToCell(i, w, h);
      && 0 <= x < w && 1 <= y <= h
      && CoordToIndex(x, h - y, w) == i
      && CoordToIndex(x, y, w) == i + (h - 2 * (i / w)) * w
  {
    var q, r := i / w, i % w;
    assert i == q * w + r;
    if q >= h {
      assert q * w >= h * w by { MulMonotone(h, q, w); }
    }
  }

  /** The flip in action: cell 0 of any non-empty level is at (0, h), and
      converting that straight back gives h * w, never 0. */
  lemma IndexToCellNotInverse(w: int, h: int)
    requires w > 0 && h > 0
    ensures IndexToCell(0, w, h).0 == 0 && IndexToCell(0, w, h).1 == h
    ensures CoordToIndex(0, h, w) == h * w > 0
  {
    assert 0 / w == 0 && 0 % w == 0;
    assert h * w >= w by { MulMonotone(1, h, w); }
  }

  /** What the spawn pass makes of one cell. Pellet-code and unknown cells
      make nothing. */
  function SpawnCell(code: int, pos: Vec2, bounds: Bounds): seq<Entity> {
    if code == WallCell then [Entities2D.Wall(pos)]
    else if code == Tunnel then [Pellet(NewPellet(pos))]
    else if code == PacmanCell then [Pacman(NewPacman(pos, bounds))]
    else if code == GhostCell then [Ghost(NewGhost(pos, bounds))]
    else []
  }

  /** The spawn pass over a grid of width w and height h, in cell order. */
  function Spawn(cells: seq<int>, w: int, h: int, bounds: Bounds): seq<Entity>
    requires w > 0 || |cells| == 0
  {
    if |cells| == 0 then []
    else
      var n := |cells| - 1;
      Spawn(cells[..n], w, h, bounds) + SpawnCell(cells[n], IndexToCoord(n, w, h), bounds)
  }

  /** How many entities of a kind a collection holds. */
  function CountKind(es: seq<Entity>, kind: Kind): (n: nat)
    ensures n <= |es|
  {
    if |es| == 0 then 0
    else CountKind(es[..|es| - 1], kind) + (if es[|es| - 1].KindOf() == kind then 1 else 0)
  }

  lemma {:induction false} CountKindAppend(a: seq<Entity>, b: seq<Entity>, kind: Kind)
    ensures CountKind(a + b, kind) == CountKind(a, kind) + CountKind(b, kind)
    decreases |b|
  {
    if |b| == 0 {
      assert a + b == a;
    } else {
      var n := |b| - 1;
      assert (a + b)[..|a + b| - 1] == a + b[..n];
      CountKindAppend(a, b[..n], kind);
    }
  }

  /** The cell code each entity kind is spawned from. */
  function CellOf(kind: Kind): int {
    match kind
    case WallKind => WallCell
    case PelletKind => Tunnel
    case PacmanKind => PacmanCell
    case GhostKind => GhostCell
  }

  /** One cell spawns one entity of the matching kind, or nothing. */
  lemma SpawnCellKind(code: int, pos: Vec2, bounds: Bounds, kind: Kind)
    ensures CountKind(SpawnCell(code, pos, bounds), kind) == if code == CellOf(kind) then 1 else 0
  {
    var c := SpawnCell(code, pos, bounds);
    if |c| == 1 {
      assert c[..0] == [];
    }
  }

  /** The spawn pass makes exactly one entity of a kind per cell of the
      matching code: one wall per Wall cell, one pellet per Tunnel cell, one
      Pacman per Pacman cell and one ghost per Ghost cell. */
  lemma {:induction false} SpawnCountsKind(cells: seq<int>, w: int, h: int, bounds: Bounds, kind: Kind)
    requires w > 0 || |cells| == 0
    ensures CountKind(Spawn(cells, w, h, bounds), kind) == Count(cells, CellOf(kind))
  {
    if |cells| > 0 {
      var n := |cells| - 1;
      var pos := IndexToCoord(n, w, h);
      SpawnCountsKind(cells[..n], w, h, bounds, kind);
      CountKindAppend(Spawn(cells[..n], w, h, bounds), SpawnCell(cells[n], pos, bounds), kind);
      SpawnCellKind(cells[n], pos, bounds, kind);
    }
  }

  /** Nothing else is spawned: Pellet-code cells and unknown codes make no
      entity. */
  lemma SpawnSize(cells: seq<int>, w: int, h: int, bounds: Bounds)
    requires w > 0 || |cells| == 0
    ensures |Spawn(cells, w, h, bounds)| ==
              Count(cells, WallCell) + Count(cells, Tunnel) + Count(cells, PacmanCell) + Count(cells, GhostCell)
  {
    var es := Spawn(cells, w, h, bounds);
    SplitCountKind(es);
    SpawnCountsKind(cells, w, h, bounds, WallKind);
    SpawnCountsKind(cells, w, h, bounds, PelletKind);
    SpawnCountsKind(cells, w, h, bounds, PacmanKind);
    SpawnCountsKind(cells, w, h, bounds, GhostKind);
  }

  /** Every entity is of one of the four kinds. */
  lemma {:induction false} SplitCountKind(es: seq<Entity>)
    ensures |es| == CountKind(es, WallKind) + CountKind(es, PelletKind) +
                    CountKind(es, PacmanKind) + CountKind(es, GhostKind)
  {
    if |es| > 0 {
      SplitCountKind(es[..|es| - 1]);
    }
  }

  /** `Pacman::onInput` delivered to every Pacman from index k on, in
      collection order. */
  function TurnFrom(es: seq<Entity>, key: Input.InputCode, k: nat): seq<Entity>
    decreases |es| - k
  {
    if k >= |es| then es
    else if es[k].Pacman? then TurnFrom(es[k := Pacman(TurnSpec(es[k].pacman, key, es))], key, k + 1)
    else TurnFrom(es, key, k + 1)
  }

  /** The input step of `update`: with a non-empty queue, its last event's
      key goes to every Pacman; the queue is only read. */
  function DeliverInput(es: seq<Entity>, queue: seq<Input.InputEvent>): seq<Entity> {
    if |queue| == 0 then es else TurnFrom(es, queue[|queue| - 1].code, 0)
  }

  /** One tick of every entity from index k on, in collection order: Pacman
      and Ghost are updated against the collection as it is at that moment;
      Walls and Pellets are not ticked. */
  function TickFrom(es: seq<Entity>, dt: real, k: nat): seq<Entity>
    decreases |es| - k
  {
    if k >= |es| then es
    else match es[k]
      case Pacman(p) =>
        var t := PacmanStep(p, dt, es);
        TickFrom(t.entities[k := Pacman(t.pacman)], dt, k + 1)
      case Ghost(g) => TickFrom(es[k := Ghost(GhostStep(g, dt, es))], dt, k + 1)
      case _ => TickFrom(es, dt, k + 1)
  }

  /** How a collection may change over ticks: same length and kinds, walls
      fixed, pellets fixed in place and never reactivated, no Pacman's
      pellet count going down. */
  ghost predicate Evolves(es: seq<Entity>, es': seq<Entity>) {
    && |es'| == |es|
    && (forall k :: 0 <= k < |es| ==> es'[k].KindOf() == es[k].KindOf())
    && (forall k :: 0 <= k < |es| && es[k].Wall? ==> es'[k] == es[k])
    && (forall k :: 0 <= k < |es| && es[k].Pellet? ==>
          es'[k].pellet.pos == es[k].pellet.pos && (es'[k].pellet.active ==> es[k].pellet.active))
    && (forall k :: 0 <= k < |es| && es[k].Pacman? ==> es'[k].pacman.eaten >= es[k].pacman.eaten)
  }

  lemma EvolvesTransitive(a: seq<Entity>, b: seq<Entity>, c: seq<Entity>)
    requires Evolves(a, b) && Evolves(b, c)
    ensures Evolves(a, c)
  {
  }

  /** One entity's tick is such a change. */
  lemma TickOneEvolves(es: seq<Entity>, dt: real, k: nat)
    requires k < |es|
    ensures es[k].Pacman? ==> Evolves(es, PacmanStep(es[k].pacman, dt, es).entities[k := Pacman(PacmanStep(es[k].pacman, dt, es).pacman)])
    ensures es[k].Ghost? ==> Evolves(es, es[k := Ghost(GhostStep(es[k].spook, dt, es))])
  {
    if es[k].Pacman? {
      PacmanStepSpec(es[k].pacman, dt, es);
    }
  }

  /** Ticking keeps every entity's kind, keeps walls and pellet positions,
      never reactivates an eaten pellet and never lowers a Pacman's count. */
  lemma {:induction false} TickFromEvolves(es: seq<Entity>, dt: real, k: nat)
    ensures Evolves(es, TickFrom(es, dt, k))
    decreases |es| - k
  {
    if k < |es| {
      TickOneEvolves(es, dt, k);
      match es[k]
      case Pacman(p) =>
        var t := PacmanStep(p, dt, es);
        var next := t.entities[k := Pacman(t.pacman)];
        TickFromEvolves(next, dt, k + 1);
        EvolvesTransitive(es, next, TickFrom(next, dt, k + 1));
      case Ghost(g) =>
        var next := es[k := Ghost(GhostStep(g, dt, es))];
        TickFromEvolves(next, dt, k + 1);
        EvolvesTransitive(es, next, TickFrom(next, dt, k + 1));
      case _ =>
        TickFromEvolves(es, dt, k + 1);
    }
  }

  /** Delivering a key changes nothing but the facing of Pacman entities. */
  lemma {:induction false} TurnFromOnlyFacing(es: seq<Entity>, key: Input.InputCode, k: nat)
    ensures |TurnFrom(es, key, k)| == |es|
    ensures forall j :: 0 <= j < |es| && !es[j].Pacman? ==> TurnFrom(es, key, k)[j] == es[j]
    ensures forall j :: 0 <= j < |es| && es[j].Pacman? ==>
              TurnFrom(es, key, k)[j].Pacman? &&
              TurnFrom(es, key, k)[j].pacman == es[j].pacman.(dir := TurnFrom(es, key, k)[j].pacman.dir)
    decreases |es| - k
  {
    if k < |es| {
      if es[k].Pacman? {
        var next := es[k := Pacman(TurnSpec(es[k].pacman, key, es))];
        TurnChangesOnlyFacing(es[k].pacman, key, es);
        TurnFromOnlyFacing(next, key, k + 1);
      } else {
        TurnFromOnlyFacing(es, key, k + 1);
      }
    }
  }

  /** The ghost-placement loop of `Level::Level`: for each of the four
      ghosts, draw samples until one picks a Tunnel cell, and make it a Ghost
      cell. */
  method PlaceGhostCells(cells: seq<int>, samples: seq<real>) returns (grid: seq<int>)
    requires PlaceGhosts(cells, samples, NumGhosts).Ok?
    ensures grid == PlaceGhosts(cells, samples, NumGhosts).value
  {
    grid := cells;
    ghost var target := PlaceGhosts(cells, samples, NumGhosts);
    var next := 0;
    for i := 0 to NumGhosts
      invariant next <= |samples|
      invariant PlaceGhosts(grid, samples[next..], NumGhosts - i) == target
    {
      var placed := false;
      while !placed
        invariant next <= |samples|
        invariant placed ==> PlaceGhosts(grid, samples[next..], NumGhosts - i - 1) == target
        invariant !placed ==> PlaceGhosts(grid, samples[next..], NumGhosts - i) == target
        decreases |samples| - next, if placed then 0 else 1
      {
        var pos := SampleIndex(samples[next], |grid|);
        assert samples[next..][1..] == samples[next + 1..];
        if 0 <= pos < |grid| && grid[pos] == Tunnel {
          grid := grid[pos := GhostCell];
          placed := true;
        }
        next := next + 1;
      }
    }
  }

  /** The spawn loop of `Level::Level`: one entity per cell in index order,
      counting the Tunnel cells as the pellet total. */
  method SpawnEntities(grid: seq<int>, w: int, h: int, bounds: Bounds) returns (total: int, spawned: seq<Entity>)
    requires w > 0 || |grid| == 0
    ensures total == Count(grid, Tunnel)
    ensures spawned == Spawn(grid, w, h, bounds)
  {
    total := 0;
    spawned := [];
    for i := 0 to |grid|
      invariant total == Count(grid[..i], Tunnel)
      invariant spawned == Spawn(grid[..i], w, h, bounds)
    {
      var pos := IndexToCoord(i, w, h);
      assert grid[..i + 1][..i] == grid[..i];
      if grid[i] == WallCell {
        spawned := spawned + [Entities2D.Wall(pos)];
      } else if grid[i] == Tunnel {
        total := total + 1;
        spawned := spawned + [Pellet(NewPellet(pos))];
      } else if grid[i] == PacmanCell {
        spawned := spawned + [Pacman(NewPacman(pos, bounds))];
      } else if grid[i] == GhostCell {
        spawned := spawned + [Ghost(NewGhost(pos, bounds))];
      }
    }
    assert grid[..|grid|] == grid;
  }

  /** The input half of `Level::update`. */
  method PassInput(es: seq<Entity>, queue: seq<Input.InputEvent>) returns (es': seq<Entity>)
    ensures es' == DeliverInput(es, queue)
  {
    es' := es;
    if |queue| > 0 {
      var key := queue[|queue| - 1].code;
      for k := 0 to |es'|
        invariant |es'| == |es|
        invariant TurnFrom(es', key, k) == DeliverInput(es, queue)
      {
        if es'[k].Pacman? {
          var p := OnInput(es'[k].pacman, key, es');
          es' := es'[k := Pacman(p)];
        }
      }
    }
  }

  /** The tick half of `Level::update`: each Pacman and each ghost, in
      collection order, updated in place against the current collection. */
  method TickAll(es: seq<Entity>, dt: real) returns (es': seq<Entity>)
    ensures es' == TickFrom(es, dt, 0)
  {
    es' := es;
    for k := 0 to |es'|
      invariant |es'| == |es|
      invariant TickFrom(es', dt, k) == TickFrom(es, dt, 0)
    {
      match es'[k] {
        case Pacman(p) =>
          var t := PacmanUpdate(p, dt, es');
          es' := t.entities[k := Pacman(t.pacman)];
        case Ghost(g) =>
          var g' := GhostUpdate(g, dt, es');
          es' := es'[k := Ghost(g')];
        case _ =>
      }
    }
  }

  /** The 2D level. `entities` is the vector of entity variants, held by
      value; the flags and counters are the level's own. */
  class Level {
    var gameOver: bool
    var gameWon: bool
    var pelletCount: int
    var totalPellets: int
    var width: int
    var height: int
    var entities: seq<Entity>

    /** `Level::Level`, with the level file given as its integer tokens, the
        random source as a sample sequence long enough to place every ghost,
        and the bounds each moving entity keeps. The level holds at most one
        Pacman cell: the spawn pass hands the Pacman animations over to the
        first Pacman, and a second one would read them from an empty
        pointer. */
    constructor (tokens: seq<int>, samples: seq<real>, bounds: Bounds)
      requires WellFormedTokens(tokens)
      requires Count(tokens[2..2 + tokens[0] * tokens[1]], PacmanCell) <= 1
      requires PlaceGhosts(tokens[2..2 + tokens[0] * tokens[1]], samples, NumGhosts).Ok?
      ensures width == tokens[0] && height == tokens[1]
      ensures !gameOver && !gameWon && pelletCount == 0
      ensures var placed := PlaceGhosts(tokens[2..2 + tokens[0] * tokens[1]], samples, NumGhosts).value;
        && |placed| == width * height && (width > 0 || |placed| == 0)
        && totalPellets == Count(placed, Tunnel)
        && entities == Spawn(placed, width, height, bounds)
    {
      var g := Load(tokens);
      var grid := PlaceGhostCells(g.cells, samples);
      PlaceGhostsSpec(g.cells, samples, NumGhosts);
      var total, spawned := SpawnEntities(grid, g.width, g.height, bounds);
      gameOver, gameWon, pelletCount := false, false, 0;
      width, height := g.width, g.height;
      totalPellets := total;
      entities := spawned;
    }

    /** `Level::update`: deliver the newest queued key to every Pacman (the
        queue, shared with the window, is read and not popped), then tick
        every entity once in collection order. */
    method Update(dt: real, queue: seq<Input.InputEvent>)
      modifies this
      ensures entities == TickFrom(DeliverInput(old(entities), queue), dt, 0)
      ensures gameOver == old(gameOver) && gameWon == old(gameWon)
      ensures pelletCount == old(pelletCount) && totalPellets == old(totalPellets)
      ensures width == old(width) && height == old(height)
    {
      var turned := PassInput(entities, queue);
      entities := TickAll(turned, dt);
    }

    /** `pickupPellet`: one more pellet; the game is won once the count
        reaches the total, and stays won. */
    method PickupPellet()
      modifies this
      ensures pelletCount == old(pelletCount) + 1
      ensures gameWon == (old(gameWon) || pelletCount >= totalPellets)
      ensures gameOver == old(gameOver) && totalPellets == old(totalPellets)
      ensures entities == old(entities) && width == old(width) && height == old(height)
    {
      pelletCount := pelletCount + 1;
      if pelletCount >= totalPellets {
        gameWon := true;
      }
    }

    /** `endGame`: the game is over, and stays over. */
    method EndGame()
      modifies this
      ensures gameOver
      ensures gameWon == old(gameWon) && pelletCount == old(pelletCount)
      ensures totalPellets == old(totalPellets) && entities == old(entities)
      ensures width == old(width) && height == old(height)
    {
      gameOver := true;
    }

    /** `gameOver`: lost or won. */
    predicate IsGameOver()
      reads this
    {
      gameOver || gameWon
    }
  }

  /** The (won, count) pair after one pickup. A won game stays won, a game
      is won only once its count reaches the total, and the count only
      grows. */
  function PickupFlags(won: bool, count: int, total: int): (r: (bool, int))
    ensures won ==> r.0
    ensures r.0 && !won ==> r.1 >= total
    ensures r.1 > count
  {
    (won || count + 1 >= total, count + 1)
  }

  /** n pickups from a fresh count of 0: won exactly when n >= total (for a
      total of at least 1) and, once won, always won. */
  function PickupsFrom(n: nat, total: int): (bool, int)
  {
    if n == 0 then (false, 0) else
      var (won, count) := PickupsFrom(n - 1, total);
      PickupFlags(won, count, total)
  }

  lemma {:induction false} PickupsWin(n: nat, total: int)
    requires total >= 1
    ensures PickupsFrom(n, total).1 == n
    ensures PickupsFrom(n, total).0 <==> n >= total
  {
    if n > 0 {
      PickupsWin(n - 1, total);
    }
  }
}
