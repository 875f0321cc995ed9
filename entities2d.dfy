/** The 2D Pacman entities and their per-tick behaviour: walls, pellets,
    ghosts and Pacman stored together, by value, in one ordered collection
    (the source's variant of the four entity classes); the radius collision
    scan over that collection; Pacman's turn and move rules; and the ghost's
    fixed turning cycle. Positions and time are reals. */
module Entities2D {
  import opened Geometry
  import opened Results
  import Input

  datatype Direction = Left | Right | Up | Down

  /** `direction_to_delta`. */
  function Delta(d: Direction): (v: Vec2)
    ensures Sq(v.x) + Sq(v.y) == 1.0
    ensures v.x == 0.0 || v.y == 0.0
    ensures (d == Up || d == Down) <==> v.x == 0.0
  {
    match d
    case Up => Vec2(0.0, 1.0)
    case Down => Vec2(0.0, -1.0)
    case Right => Vec2(1.0, 0.0)
    case Left => Vec2(-1.0, 0.0)
  }

  /** The four directions have four different deltas, opposite directions
      opposite deltas. */
  lemma DeltaInjective(d1: Direction, d2: Direction)
    ensures d1 != d2 ==> Delta(d1) != Delta(d2)
    ensures Delta(Up) == Scale2(-1.0, Delta(Down)) && Delta(Right) == Scale2(-1.0, Delta(Left))
  {
  }

  /** The level's world-space corners. */
  datatype Bounds = Bounds(min: Vec2, max: Vec2)

  /** `checkBounds`: inclusive on every side. */
  predicate CheckBounds(p: Vec2, b: Bounds) {
    p.x >= b.min.x && p.y >= b.min.y && p.x <= b.max.x && p.y <= b.max.y
  }

  /** Both corners of a non-empty box are inside it, and a point past a side
      is not. */
  lemma CheckBoundsInclusive(b: Bounds, e: real)
    requires b.min.x <= b.max.x && b.min.y <= b.max.y && e > 0.0
    ensures CheckBounds(b.min, b) && CheckBounds(b.max, b)
    ensures !CheckBounds(Vec2(b.max.x + e, b.max.y), b) && !CheckBounds(Vec2(b.min.x, b.min.y - e), b)
  {
  }

  /** A pellet: where it is and whether it is still there to be eaten. */
  datatype PelletState = PelletState(pos: Vec2, active: bool)

  /** A ghost keeps its facing and the level bounds. */
  datatype GhostState = GhostState(pos: Vec2, dir: Direction, bounds: Bounds)

  /** Pacman keeps its facing, the level bounds, the pellets eaten, and
      whether it is still alive. */
  datatype PacmanState = PacmanState(pos: Vec2, dir: Direction, eaten: int, bounds: Bounds, active: bool)

  datatype Kind = WallKind | PelletKind | GhostKind | PacmanKind

  /** One alternative of the entity variant. */
  datatype Entity =
    | Wall(wallPos: Vec2)
    | Pellet(pellet: PelletState)
    | Ghost(spook: GhostState)
    | Pacman(pacman: PacmanState)
  {
    function KindOf(): Kind {
      match this
      case Wall(_) => WallKind
      case Pellet(_) => PelletKind
      case Ghost(_) => GhostKind
      case Pacman(_) => PacmanKind
    }

    /** `getPosition`, whatever the alternative. */
    function GetPosition(): Vec2 {
      match this
      case Wall(p) => p
      case Pellet(s) => s.pos
      case Ghost(s) => s.pos
      case Pacman(s) => s.pos
    }
  }

  /** A freshly constructed pellet is active. */
  function NewPellet(pos: Vec2): (s: PelletState)
    ensures s.active && s.pos == pos
  {
    PelletState(pos, true)
  }

  /** A freshly constructed Pacman: facing Right, nothing eaten, active. */
  function NewPacman(pos: Vec2, bounds: Bounds): (s: PacmanState)
    ensures s.dir == Right && s.eaten == 0 && s.active
    ensures s.pos == pos && s.bounds == bounds
  {
    PacmanState(pos, Right, 0, bounds, true)
  }

  /** A freshly constructed ghost faces Right, the direction whose animation
      it starts playing. */
  function NewGhost(pos: Vec2, bounds: Bounds): (s: GhostState)
    ensures s.dir == Right && s.pos == pos && s.bounds == bounds
  {
    GhostState(pos, Right, bounds)
  }

  /** `Pellet::pickup`: the pellet becomes inactive, and nothing else about it
      changes. */
  function Pickup(s: PelletState): (r: PelletState)
    ensures !r.active && r.pos == s.pos
  {
    s.(active := false)
  }

  /** Picking a pellet up twice is the same as once. */
  lemma PickupIdempotent(s: PelletState)
    ensures Pickup(Pickup(s)) == Pickup(s)
  {
  }

  /** Entity k is of the wanted kind and within `dist` of point p. */
  predicate Hits(es: seq<Entity>, k: int, kind: Kind, p: Vec2, dist: real)
    requires 0 <= k < |es|
  {
    es[k].KindOf() == kind && Within2(es[k].GetPosition(), p, dist)
  }

  /** The first index at or after `from` whose entity is of the kind and
      within the distance. */
  function FirstHitFrom(es: seq<Entity>, kind: Kind, p: Vec2, dist: real, from: nat): (r: Option<nat>)
    ensures r.Some? ==> from <= r.value < |es| && Hits(es, r.value, kind, p, dist)
    ensures r.Some? ==> forall j :: from <= j < r.value ==> !Hits(es, j, kind, p, dist)
    ensures r.None? ==> forall j :: from <= j < |es| ==> !Hits(es, j, kind, p, dist)
    decreases |es| - from
  {
    if from >= |es| then None
    else if Hits(es, from, kind, p, dist) then Some(from)
    else FirstHitFrom(es, kind, p, dist, from + 1)
  }

  /** The first entity of the kind within the distance, if any. */
  function FirstHit(es: seq<Entity>, kind: Kind, p: Vec2, dist: real): Option<nat> {
    FirstHitFrom(es, kind, p, dist, 0)
  }

  /** `checkCollision<T>`: scans the collection in order and reports the first
      entity of the kind within `dist`; entities of other kinds are skipped.
      The in-out `index` keeps its old value when nothing is hit. */
  method CheckCollision(p: Vec2, es: seq<Entity>, kind: Kind, dist: real, index: nat)
    returns (hit: bool, index': nat)
    ensures hit <==> exists k :: 0 <= k < |es| && Hits(es, k, kind, p, dist)
    ensures hit ==> index' < |es| && Hits(es, index', kind, p, dist)
    ensures hit ==> forall j :: 0 <= j < index' ==> !Hits(es, j, kind, p, dist)
    ensures !hit ==> index' == index
    ensures hit == FirstHit(es, kind, p, dist).Some? && (hit ==> index' == FirstHit(es, kind, p, dist).value)
  {
    var i := 0;
    while i < |es|
      invariant 0 <= i <= |es|
      invariant FirstHitFrom(es, kind, p, dist, i) == FirstHit(es, kind, p, dist)
      invariant forall j :: 0 <= j < i ==> !Hits(es, j, kind, p, dist)
    {
      if es[i].KindOf() == kind && Within2(es[i].GetPosition(), p, dist) {
        return true, i;
      }
      i := i + 1;
    }
    return false, index;
  }

  /** A scan finds nothing exactly when no entity of the kind is within the
      distance. */
  lemma FirstHitNone(es: seq<Entity>, kind: Kind, p: Vec2, dist: real)
    ensures FirstHit(es, kind, p, dist).None? <==>
              forall k :: 0 <= k < |es| && es[k].KindOf() == kind ==> !Within2(es[k].GetPosition(), p, dist)
  {
    var r := FirstHit(es, kind, p, dist);
    if r.Some? {
      assert Hits(es, r.value, kind, p, dist);
    } else {
      forall k | 0 <= k < |es| && es[k].KindOf() == kind
        ensures !Within2(es[k].GetPosition(), p, dist)
      {
        assert !Hits(es, k, kind, p, dist);
      }
    }
  }

  const TurnClearance: real := 0.80
  const WallRadius: real := 0.95
  const PelletRadius: real := 0.20
  const GhostRadius: real := 0.35
  const PacmanSpeed: real := 2.0
  const GhostSpeed: real := 1.5

  /** W, S, A and D steer; every other key is ignored. */
  function KeyDirection(key: Input.InputCode): (r: Option<Direction>)
    ensures r.Some? <==> key in {Input.InputCode.W, Input.InputCode.S, Input.InputCode.A, Input.InputCode.D}
    ensures key == Input.InputCode.W ==> r == Some(Up)
    ensures key == Input.InputCode.S ==> r == Some(Down)
    ensures key == Input.InputCode.A ==> r == Some(Left)
    ensures key == Input.InputCode.D ==> r == Some(Right)
  {
    match key
    case W => Some(Up)
    case S => Some(Down)
    case A => Some(Left)
    case D => Some(Right)
    case _ => None
  }

  /** What `Pacman::onInput` makes of Pacman. */
  function TurnSpec(p: PacmanState, key: Input.InputCode, es: seq<Entity>): PacmanState {
    match KeyDirection(key)
    case None => p
    case Some(d) =>
      if FirstHit(es, WallKind, Add2(p.pos, Delta(d)), TurnClearance).None? && d != p.dir
      then p.(dir := d) else p
  }

  /** `Pacman::onInput`. */
  method OnInput(p: PacmanState, key: Input.InputCode, es: seq<Entity>) returns (p': PacmanState)
    ensures p' == TurnSpec(p, key, es)
  {
    p' := p;
    var d: Direction;
    match key {
      case W => d := Up;
      case S => d := Down;
      case A => d := Left;
      case D => d := Right;
      case _ => return;
    }
    var collision, _ := CheckCollision(Add2(p.pos, Delta(d)), es, WallKind, TurnClearance, 0);
    if !collision && d != p.dir {
      p' := p.(dir := d);
    }
  }

  /** Turning changes nothing but the facing, and the facing changes exactly
      when a steering key names a new direction and no wall lies within 0.80
      of the point one unit that way. */
  lemma TurnChangesOnlyFacing(p: PacmanState, key: Input.InputCode, es: seq<Entity>)
    ensures TurnSpec(p, key, es) == p.(dir := TurnSpec(p, key, es).dir)
    ensures TurnSpec(p, key, es).dir != p.dir <==>
              KeyDirection(key).Some? && KeyDirection(key).value != p.dir &&
              forall k :: 0 <= k < |es| && es[k].Wall? ==>
                !Within2(es[k].wallPos, Add2(p.pos, Delta(KeyDirection(key).value)), TurnClearance)
    ensures TurnSpec(p, key, es).dir != p.dir ==> TurnSpec(p, key, es).dir == KeyDirection(key).value
  {
    match KeyDirection(key)
    case None =>
    case Some(d) =>
      FirstHitNone(es, WallKind, Add2(p.pos, Delta(d)), TurnClearance);
  }

  /** The position a mover would reach this tick at the given speed. */
  function Candidate(pos: Vec2, dir: Direction, speed: real, dt: real): Vec2 {
    Add2(pos, Scale2(dt * speed, Delta(dir)))
  }

  /** Tunnel snapping: the coordinate across the direction of travel is
      rounded to the grid. */
  function Snap(pos: Vec2, dir: Direction): Vec2 {
    if dir == Up || dir == Down then pos.(x := Round(pos.x) as real)
    else pos.(y := Round(pos.y) as real)
  }

  /** A move to q is refused: q is out of bounds or within 0.95 of a wall. */
  predicate Blocked(es: seq<Entity>, q: Vec2, b: Bounds) {
    !CheckBounds(q, b) || FirstHit(es, WallKind, q, WallRadius).Some?
  }

  /** The first pellet within reach of q, deactivated (the scan does not look
      at the active flag). */
  function EatPellet(es: seq<Entity>, q: Vec2): (r: seq<Entity>)
    ensures |r| == |es|
    ensures forall k :: 0 <= k < |es| ==> r[k].KindOf() == es[k].KindOf()
    ensures forall k :: 0 <= k < |es| && !es[k].Pellet? ==> r[k] == es[k]
    ensures forall k :: 0 <= k < |es| && es[k].Pellet? ==>
              r[k].Pellet? && r[k].pellet.pos == es[k].pellet.pos && (r[k].pellet.active ==> es[k].pellet.active)
  {
    var pellet := FirstHit(es, PelletKind, q, PelletRadius);
    if pellet.Some? then es[pellet.value := Pellet(Pickup(es[pellet.value].pellet))] else es
  }

  /** The result of one Pacman tick: the updated Pacman and the collection
      with the eaten pellet (if any) deactivated. */
  datatype PacmanTick = PacmanTick(pacman: PacmanState, entities: seq<Entity>)

  /** What `Pacman::update` does. The pellet and ghost checks use the
      candidate position whether or not the move is committed. */
  function PacmanStep(p: PacmanState, dt: real, es: seq<Entity>): PacmanTick {
    var q := Candidate(p.pos, p.dir, PacmanSpeed, dt);
    var eaten := if FirstHit(es, PelletKind, q, PelletRadius).Some? then p.eaten + 1 else p.eaten;
    var es' := EatPellet(es, q);
    var active := p.active && FirstHit(es', GhostKind, q, GhostRadius).None?;
    var pos := if Blocked(es', q, p.bounds) then Snap(p.pos, p.dir) else q;
    PacmanTick(p.(pos := pos, eaten := eaten, active := active), es')
  }

  /** `Pacman::update`. */
  method PacmanUpdate(p: PacmanState, dt: real, es: seq<Entity>) returns (r: PacmanTick)
    ensures r == PacmanStep(p, dt, es)
  {
    var position := Candidate(p.pos, p.dir, PacmanSpeed, dt);
    var inBounds := CheckBounds(position, p.bounds);
    var collision, _ := CheckCollision(position, es, WallKind, WallRadius, 0);
    var pelletEaten, index := CheckCollision(position, es, PelletKind, PelletRadius, 0);
    var entities := es;
    var pacman := p;
    if pelletEaten {
      entities := entities[index := Pellet(Pickup(entities[index].pellet))];
      pacman := pacman.(eaten := pacman.eaten + 1);
    }
    assert entities == EatPellet(es, position);
    var hitGhost, _ := CheckCollision(position, entities, GhostKind, GhostRadius, 0);
    if hitGhost {
      pacman := pacman.(active := false);
    }
    FirstHitIgnoresOtherKinds(es, entities, WallKind, position, WallRadius, 0);
    assert (!collision && inBounds) == !Blocked(entities, position, p.bounds);
    if !collision && inBounds {
      pacman := pacman.(pos := position);
    } else if p.dir == Up || p.dir == Down {
      pacman := pacman.(pos := pacman.pos.(x := Round(pacman.pos.x) as real));
    } else {
      pacman := pacman.(pos := pacman.pos.(y := Round(pacman.pos.y) as real));
    }
    r := PacmanTick(pacman, entities);
  }

  /** Changing entities of other kinds (keeping every entity's kind and the
      wanted kind's entities) does not change a scan for that kind. */
  lemma {:induction false} FirstHitIgnoresOtherKinds(es: seq<Entity>, es': seq<Entity>, kind: Kind, p: Vec2, dist: real, from: nat)
    requires |es| == |es'|
    requires forall k :: 0 <= k < |es| ==> es[k].KindOf() == es'[k].KindOf()
    requires forall k :: 0 <= k < |es| && es[k].KindOf() == kind ==> es[k] == es'[k]
    ensures FirstHitFrom(es, kind, p, dist, from) == FirstHitFrom(es', kind, p, dist, from)
    decreases |es| - from
  {
    if from < |es| {
      FirstHitIgnoresOtherKinds(es, es', kind, p, dist, from + 1);
    }
  }

  /** Pacman's tick in the source's terms. The candidate is committed exactly
      when it is in bounds and clear of every wall by more than 0.95;
      otherwise Pacman stays put with the coordinate across its travel
      rounded. The eaten count grows by one exactly when some pellet lies
      within 0.20 of the candidate, and only the first such pellet is
      deactivated; a ghost within 0.35 deactivates Pacman. Facing and bounds
      do not change, nor does any non-pellet entity. */
  lemma PacmanStepSpec(p: PacmanState, dt: real, es: seq<Entity>)
    ensures var r := PacmanStep(p, dt, es);
      var q := Candidate(p.pos, p.dir, PacmanSpeed, dt);
      && r.pacman.dir == p.dir && r.pacman.bounds == p.bounds
      && |r.entities| == |es|
      && (forall k :: 0 <= k < |es| ==> r.entities[k].KindOf() == es[k].KindOf())
      && (forall k :: 0 <= k < |es| && !es[k].Pellet? ==> r.entities[k] == es[k])
      && (r.pacman.pos == (if CheckBounds(q, p.bounds) &&
                              (forall k :: 0 <= k < |es| && es[k].Wall? ==> !Within2(es[k].wallPos, q, WallRadius))
                           then q else Snap(p.pos, p.dir)))
      && (r.pacman.eaten == p.eaten + 1 <==>
            exists k :: 0 <= k < |es| && es[k].Pellet? && Within2(es[k].pellet.pos, q, PelletRadius))
      && (r.pacman.eaten == p.eaten || r.pacman.eaten == p.eaten + 1)
      && (r.pacman.active <==> (p.active &&
            forall k :: 0 <= k < |es| && es[k].Ghost? ==> !Within2(es[k].spook.pos, q, GhostRadius)))
  {
    var q := Candidate(p.pos, p.dir, PacmanSpeed, dt);
    var r := PacmanStep(p, dt, es);
    FirstHitIgnoresOtherKinds(es, r.entities, WallKind, q, WallRadius, 0);
    FirstHitIgnoresOtherKinds(es, r.entities, GhostKind, q, GhostRadius, 0);
    FirstHitNone(es, PelletKind, q, PelletRadius);
    FirstHitNone(es, WallKind, q, WallRadius);
    FirstHitNone(es, GhostKind, q, GhostRadius);
  }

  /** Only the first pellet within reach is deactivated; every other pellet
      keeps its state. */
  lemma EatPelletOnlyFirst(es: seq<Entity>, q: Vec2, k: nat)
    requires k < |es| && es[k].Pellet?
    ensures EatPellet(es, q)[k] ==
              if FirstHit(es, PelletKind, q, PelletRadius) == Some(k) then Pellet(Pickup(es[k].pellet)) else es[k]
  {
  }

  /** A refused move snaps: moving up or down leaves x an integer and y
      unchanged, moving left or right the other way round, and the snap
      moves Pacman by at most one half. */
  lemma SnapAligns(pos: Vec2, dir: Direction)
    ensures dir == Up || dir == Down ==>
              Snap(pos, dir).y == pos.y && Snap(pos, dir).x == Round(pos.x) as real
    ensures dir == Left || dir == Right ==>
              Snap(pos, dir).x == pos.x && Snap(pos, dir).y == Round(pos.y) as real
    ensures DistSq2(Snap(pos, dir), pos) <= 0.25
  {
    RoundIsNearest(pos.x);
    RoundIsNearest(pos.y);
    SquareOfHalfBound(Round(pos.x) as real - pos.x);
    SquareOfHalfBound(Round(pos.y) as real - pos.y);
    assert Sq(pos.x - pos.x) == 0.0 && Sq(pos.y - pos.y) == 0.0;
  }

  lemma SquareOfHalfBound(a: real)
    requires -0.5 <= a <= 0.5
    ensures Sq(a) <= 0.25
  {
    if a >= 0.0 {
      assert a * a <= 0.5 * a;
    } else {
      assert a * a <= -0.5 * a;
    }
  }

  /** The pellet check ignores the active flag: a pellet that was already
      deactivated is found, and counted, again. */
  lemma EatenPelletCountsAgain(p: PacmanState, dt: real, es: seq<Entity>, k: nat)
    requires FirstHit(es, PelletKind, Candidate(p.pos, p.dir, PacmanSpeed, dt), PelletRadius) == Some(k)
    requires !es[k].pellet.active
    ensures PacmanStep(p, dt, es).pacman.eaten == p.eaten + 1
    ensures PacmanStep(p, dt, es).entities[k] == es[k]
  {
  }

  /** A concrete instance: standing still on a pellet (a zero-length tick)
      eats it on the first tick and counts it again on the second. */
  lemma PelletCountedTwiceExample()
    ensures var b := Bounds(Vec2(0.0, 0.0), Vec2(5.0, 5.0));
      var first := PacmanStep(PacmanState(Vec2(1.0, 1.0), Right, 0, b, true), 0.0, [Pellet(PelletState(Vec2(1.0, 1.0), true))]);
      var second := PacmanStep(first.pacman, 0.0, first.entities);
      first.pacman.eaten == 1 && !first.entities[0].pellet.active && second.pacman.eaten == 2
  {
    var b := Bounds(Vec2(0.0, 0.0), Vec2(5.0, 5.0));
    var here := Vec2(1.0, 1.0);
    var es1 := [Pellet(PelletState(here, false))];
    var p1 := PacmanState(here, Right, 1, b, true);
    ExampleFirstTick();
    ZeroTickStays(here, Right, PacmanSpeed);
    assert Hits(es1, 0, PelletKind, here, PelletRadius);
    assert FirstHit(es1, PelletKind, here, PelletRadius) == Some(0);
    EatenPelletCountsAgain(p1, 0.0, es1, 0);
  }

  /** A tick of zero length proposes the current position. */
  lemma ZeroTickStays(pos: Vec2, dir: Direction, speed: real)
    ensures Candidate(pos, dir, speed, 0.0) == pos
  {
    var d := Delta(dir);
    assert Scale2(0.0 * speed, d) == Vec2(0.0, 0.0);
  }

  /** The first tick of the example: the pellet is eaten and Pacman stays. */
  lemma ExampleFirstTick()
    ensures var b := Bounds(Vec2(0.0, 0.0), Vec2(5.0, 5.0));
      PacmanStep(PacmanState(Vec2(1.0, 1.0), Right, 0, b, true), 0.0, [Pellet(PelletState(Vec2(1.0, 1.0), true))])
      == PacmanTick(PacmanState(Vec2(1.0, 1.0), Right, 1, b, true), [Pellet(PelletState(Vec2(1.0, 1.0), false))])
  {
    var here := Vec2(1.0, 1.0);
    ZeroTickStays(here, Right, PacmanSpeed);
    ExampleEats();
    ExampleClear();
  }

  /** In the example, the pellet under Pacman is the one eaten. */
  lemma ExampleEats()
    ensures var here := Vec2(1.0, 1.0);
      var es := [Pellet(PelletState(here, true))];
      FirstHit(es, PelletKind, here, PelletRadius) == Some(0)
      && EatPellet(es, here) == [Pellet(PelletState(here, false))]
  {
    var here := Vec2(1.0, 1.0);
    var es := [Pellet(PelletState(here, true))];
    assert Hits(es, 0, PelletKind, here, PelletRadius);
  }

  /** In the example, nothing blocks Pacman and no ghost is near. */
  lemma ExampleClear()
    ensures var here := Vec2(1.0, 1.0);
      var es1 := [Pellet(PelletState(here, false))];
      && FirstHit(es1, GhostKind, here, GhostRadius) == None
      && !Blocked(es1, here, Bounds(Vec2(0.0, 0.0), Vec2(5.0, 5.0)))
  {
    var here := Vec2(1.0, 1.0);
    var es1 := [Pellet(PelletState(here, false))];
    assert !Hits(es1, 0, GhostKind, here, GhostRadius);
    assert !Hits(es1, 0, WallKind, here, WallRadius);
  }

  /** The ghost's turning cycle Up -> Right -> Down -> Left -> Up: each step
      turns the movement a quarter clockwise. */
  function NextClockwise(d: Direction): (r: Direction)
    ensures r != d
    ensures Delta(r) == Vec2(Delta(d).y, -Delta(d).x)
  {
    match d
    case Up => Right
    case Right => Down
    case Down => Left
    case Left => Up
  }

  /** The cycle has period four and passes through every direction. */
  lemma ClockwisePeriodFour(d: Direction)
    ensures NextClockwise(NextClockwise(NextClockwise(NextClockwise(d)))) == d
    ensures NextClockwise(NextClockwise(d)) != d
    ensures {d, NextClockwise(d), NextClockwise(NextClockwise(d)),
             NextClockwise(NextClockwise(NextClockwise(d)))} == {Left, Right, Up, Down}
  {
    match d
    case Up =>
    case Right =>
    case Down =>
    case Left =>
  }

  /** What `Ghost::update` does: blocked, it turns clockwise and stays put;
      otherwise it moves 1.5 * dt along its facing. */
  function GhostStep(g: GhostState, dt: real, es: seq<Entity>): GhostState {
    var q := Candidate(g.pos, g.dir, GhostSpeed, dt);
    if FirstHit(es, WallKind, q, WallRadius).Some? || !CheckBounds(q, g.bounds)
    then g.(dir := NextClockwise(g.dir))
    else g.(pos := q)
  }

  /** `Ghost::update`. */
  method GhostUpdate(g: GhostState, dt: real, es: seq<Entity>) returns (g': GhostState)
    ensures g' == GhostStep(g, dt, es)
  {
    var position := Candidate(g.pos, g.dir, GhostSpeed, dt);
    var inBounds := CheckBounds(position, g.bounds);
    var collideWithWall, _ := CheckCollision(position, es, WallKind, WallRadius, 0);
    if collideWithWall || !inBounds {
      g' := g.(dir := NextClockwise(g.dir));
    } else {
      g' := g.(pos := position);
    }
  }

  /** A ghost tick either turns in place or moves forward, never both; it
      moves exactly when the candidate is in bounds and clear of every wall
      by more than 0.95. */
  lemma GhostStepSpec(g: GhostState, dt: real, es: seq<Entity>)
    ensures var r := GhostStep(g, dt, es);
      var q := Candidate(g.pos, g.dir, GhostSpeed, dt);
      && r.bounds == g.bounds
      && ((r.pos == g.pos && r.dir == NextClockwise(g.dir)) || (r.pos == q && r.dir == g.dir))
      && (r.dir == g.dir <==> (CheckBounds(q, g.bounds) &&
          forall k :: 0 <= k < |es| && es[k].Wall? ==> !Within2(es[k].wallPos, q, WallRadius)))
  {
    FirstHitNone(es, WallKind, Candidate(g.pos, g.dir, GhostSpeed, dt), WallRadius);
  }
}
