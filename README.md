# Pacman on a grid: a verified model

This project models the game logic of a small OpenGL Pacman: the level grid
read from a file of integer codes, the 2D game (walls, pellets, ghosts and
Pacman held together in one vector of entity variants, a radius collision
scan, Pacman's turn and move rules, the ghost's clockwise turning), the 3D
game's set-up (the maze mesh of wall faces in three revisions, Pacman's start
cell, the pellet centroids, the random placement of four ghosts) and its two
moving parts (pellet removal and Pacman's wall-checked step), the sprite-sheet
animation playhead, the engine's stack of game states with its input loop, and
the loading of shader sources with the stage chosen from the file name.

Positions, distances and time steps are reals; every mesh coordinate, normal,
texture coordinate and index is an integer, so the mesh is modelled exactly.
A distance test `length(a - b) <= r` is stated as a squared distance `<= r * r`.
Random numbers are a finite sequence of samples in [0, 1), files are given as
their content (integer tokens for a level, a map from path to text for
shaders), and what a game state answers to a key or a time step is given by two
functions.

Modules, one per part of the program:

- `Geometry`, `Results`, `Input`: vectors, `std::round`, Option/Result, key codes.
- `LevelGrid`: `Level` of the 3D game and the grid of the 2D one.
- `Entities2D`, `Pacman2D`: the 2D entities and the 2D `Level` class.
- `MazeMesh`: the shared face emitter of the three `genLevelMesh` revisions.
- `Maze3D`, `Generation`, `Entities3D`: the three 3D set-up files and the 3D
  `Pellets` and `Pacman` classes.
- `Sprite`: `SpriteSheetAnimation` and `AnimatedSpriteSheet`.
- `GameState`: `StateTransition` and `Core`.
- `Shaders`: the source-loading half of the `ShaderProgram` constructor.

The later revision of the 3D set-up (apps/pacman3d/generation.cpp) repeats
`findPacman` and `genPellets` of apps/pacman3d/Entities.cpp line for line;
each is modelled once, by `Maze3D.FindPacman` and `Maze3D.GenPellets`. The
older `ShaderProgram` constructor in lib/lib.cpp is the same code as the one in
lib/ShaderProgram.cpp and is modelled once, by `Shaders.LoadShaders`.

## Model

| member | source | states |
|---|---|---|
| Geometry.Round | apps/Entities.cpp:121-124 | `std::round`: the integer within one half of x, halves going away from zero |
| Geometry.RoundIsNearest | apps/Entities.cpp:121-124 | rounding moves a value by at most one half and is symmetric about zero |
| Geometry.RoundOfInteger | apps/pacman3d/Entities.cpp:352-354 | rounding an integer gives it back |
| Geometry.RoundHalfAwayFromZero | apps/Entities.cpp:122 | k + 0.5 rounds to k + 1 and -(k + 0.5) to -(k + 1) |
| LevelGrid.Get | apps/pacman3d/Level.h:30-34 | `get` as written, clamp included; its meaning inside and outside the grid is `GetInGrid`, `GetNegativeClampsToZero`, `GetWidthAliasesNextRow` and `GetHeightReadsPastEnd` |
| LevelGrid.GetSize | apps/pacman3d/Level.h:40-42 | the (width, height) pair, width first |
| LevelGrid.GetInGrid | apps/pacman3d/Level.h:30-34 | inside the grid the clamp is the identity and `get(x, y)` reads cell y * width + x, which is in range |
| LevelGrid.GetNegativeClampsToZero | apps/pacman3d/Level.h:31-32 | a negative x reads column 0, a negative y reads row 0 |
| LevelGrid.GetWidthAliasesNextRow | apps/pacman3d/Level.h:31-33 | x == width passes the clamp and reads cell (0, y + 1) |
| LevelGrid.GetHeightReadsPastEnd | apps/pacman3d/Level.h:31-33 | y == height passes the clamp and the index is at or past the end of the grid for every x >= 0 |
| LevelGrid.GetPastEndExample | apps/pacman3d/Level.h:31-33 | in a 2 x 2 grid, get(0, 2) would read index 4 of a 4-cell grid |
| LevelGrid.ClampTo | apps/pacman3d/Level.h:31-32 | the corrected clamp: the result is in [0, hi], equals v inside, 0 below and hi above |
| LevelGrid.ClampedGet | apps/pacman3d/Level.h:30-34 | the corrected query agrees with `get` everywhere inside the grid |
| LevelGrid.ClampedGetNearestCell | apps/pacman3d/Level.h:30-34 | outside the grid the corrected query answers the nearest border cell of the same row or column |
| LevelGrid.Load | apps/pacman3d/Level.cpp:13-24 | width is the first token and height the second, the grid has exactly width * height cells, cell k is token k + 2, later tokens are ignored, codes are not range-checked |
| LevelGrid.RowCellsWhereSpec | apps/pacman3d/Entities.cpp:239-246 | a row scan yields exactly the cells of that row holding the code, in increasing column order |
| LevelGrid.CellsWhereSpec | apps/pacman3d/Entities.cpp:238-247 | the nested row-then-column scan yields exactly the in-grid cells holding the code, strictly increasing in row-major order |
| Entities2D.Delta | apps/Entities.cpp:8-18 | each direction maps to a unit vector along one axis, vertical exactly for Up and Down |
| Entities2D.DeltaInjective | apps/Entities.cpp:8-18 | the four deltas are distinct and opposite directions have opposite deltas |
| Entities2D.CheckBounds | apps/Entities.cpp:26-31 | the bounds test, whose inclusive sides `CheckBoundsInclusive` states |
| Entities2D.CheckBoundsInclusive | apps/Entities.cpp:26-31 | both corners are inside the bounds and a point just past a side is not |
| Entities2D.NewPellet | apps/Entities.h:127 | a new pellet is active at its position |
| Entities2D.NewPacman | apps/Entities.h:42-65 | a new Pacman faces Right, has eaten nothing and is active |
| Entities2D.NewGhost | apps/Entities.h:74-82 | a new ghost is at its position with the level bounds, facing Right (the model's choice, see "Left out") |
| Entities2D.Pickup | apps/Entities.h:124 | picking up makes the pellet inactive and keeps its position |
| Entities2D.PickupIdempotent | apps/Entities.h:124 | a second pickup changes nothing |
| Entities2D.FirstHitFrom | apps/Entities.cpp:45-60 | the answer is the smallest index from `from` on whose entity is of the kind and within the distance, or none when there is no such index |
| Entities2D.CheckCollision | apps/Entities.cpp:45-60 | true iff some entity of the kind is within the distance; then the index is the smallest such one, otherwise the index is unchanged |
| Entities2D.FirstHit | apps/Entities.cpp:45-60 | the collision scan from index 0; `FirstHitFrom`, `FirstHitNone` and `FirstHitIgnoresOtherKinds` state what it finds |
| Entities2D.FirstHitNone | apps/Entities.cpp:45-60 | the scan finds nothing exactly when no entity of the kind is within the distance |
| Entities2D.FirstHitIgnoresOtherKinds | apps/Entities.cpp:48-50 | changing entities of other kinds does not change a scan for a kind |
| Entities2D.KeyDirection | apps/Entities.cpp:64-71 | W, S, A and D steer Up, Down, Left and Right; every other key is ignored |
| Entities2D.OnInput | apps/Entities.cpp:62-85 | the turn step computes the turn rule (checked against `TurnChangesOnlyFacing`) |
| Entities2D.TurnSpec | apps/Entities.cpp:62-85 | Pacman's turn rule, whose meaning `TurnChangesOnlyFacing` states |
| Entities2D.TurnChangesOnlyFacing | apps/Entities.cpp:62-85 | only the facing changes; it changes iff a steering key names a new direction and no wall is within 0.80 of the point one unit that way |
| Entities2D.EatPellet | apps/Entities.cpp:97-106 | only pellets change, keep their position and are never reactivated |
| Entities2D.PacmanUpdate | apps/Entities.cpp:87-125 | the method computes Pacman's tick (whose meaning is `PacmanStepSpec`) |
| Entities2D.PacmanStep | apps/Entities.cpp:87-125 | Pacman's tick, whose meaning `PacmanStepSpec` states |
| Entities2D.PacmanStepSpec | apps/Entities.cpp:87-125 | the candidate pos + 2 dt delta is committed iff in bounds and no wall is within 0.95; otherwise the position snaps; the count grows by one iff a pellet is within 0.20 of the candidate; a ghost within 0.35 deactivates Pacman; facing, bounds and non-pellet entities are kept |
| Entities2D.EatPelletOnlyFirst | apps/Entities.cpp:97-106 | only the first pellet within reach is deactivated, every other keeps its state |
| Entities2D.SnapAligns | apps/Entities.cpp:118-125 | a refused move rounds only the coordinate across the travel, moving Pacman by at most one half |
| Entities2D.EatenPelletCountsAgain | apps/Entities.cpp:97-106 | an inactive pellet within reach is still counted, and stays as it is |
| Entities2D.PelletCountedTwiceExample | apps/Entities.cpp:97-106 | standing on one pellet for two ticks counts it twice |
| Entities2D.NextClockwise | apps/Entities.cpp:142-148 | each turn differs from the old facing and turns the delta a quarter clockwise |
| Entities2D.ClockwisePeriodFour | apps/Entities.cpp:142-148 | four turns come back, two do not, and the cycle passes through all four directions |
| Entities2D.GhostUpdate | apps/Entities.cpp:130-152 | the method computes the ghost's tick (whose meaning is `GhostStepSpec`) |
| Entities2D.GhostStep | apps/Entities.cpp:130-152 | the ghost's tick, whose meaning `GhostStepSpec` states |
| Entities2D.GhostStepSpec | apps/Entities.cpp:130-152 | a ghost either turns clockwise in place or moves 1.5 dt forward, and moves iff the candidate is in bounds and no wall is within 0.95 |
| Pacman2D.SampleIndexInRange | apps/pacman.cpp:187-188 | a sample in [0, 1) picks an index inside a non-empty grid |
| Pacman2D.PlaceGhosts | apps/pacman.cpp:185-193 | the rejection placement of ghost cells, whose meaning `PlaceGhostsSpec` and `PlaceGhostsNeedsTunnels` state |
| Pacman2D.PlaceGhostsSpec | apps/pacman.cpp:185-193 | a successful placement turns exactly `need` Tunnel cells into Ghost cells and changes no other cell |
| Pacman2D.PlaceGhostsNeedsTunnels | apps/pacman.cpp:185-193 | with fewer Tunnel cells than ghosts no sample sequence completes the placement |
| Pacman2D.IndexToCoord | apps/pacman.cpp:294-299 | `indexToCoord`: column i mod w and row h - i / w, as a position; its ranges are in `IndexToCellSpec` |
| Pacman2D.CoordToIndex | apps/pacman.cpp:301-308 | `coordToIndex`: x + y w; how it fails to invert `IndexToCoord` is `IndexToCellSpec` and `IndexToCellNotInverse` |
| Pacman2D.IndexToCellSpec | apps/pacman.cpp:294-308 | for i in the grid x is in [0, w) and y in [1, h]; coordToIndex((x, h - y)) gives i back, while coordToIndex((x, y)) is off by (h - 2 (i / w)) rows |
| Pacman2D.IndexToCellNotInverse | apps/pacman.cpp:294-308 | cell 0 maps to (0, h), which converts back to h * w, not 0 |
| Pacman2D.SpawnCell | apps/pacman.cpp:205-225 | what one cell spawns, stated by `SpawnCellKind` |
| Pacman2D.Spawn | apps/pacman.cpp:203-226 | the spawn pass in cell order, whose counts `SpawnCountsKind` and `SpawnSize` state |
| Pacman2D.SpawnCellKind | apps/pacman.cpp:205-225 | one cell spawns one entity of the kind matching its code, and nothing for any other code |
| Pacman2D.SpawnCountsKind | apps/pacman.cpp:203-226 | the spawn pass makes as many entities of a kind as there are cells of the matching code |
| Pacman2D.SpawnSize | apps/pacman.cpp:203-226 | Pellet-code and unknown cells spawn nothing: the entity count is the number of Wall, Tunnel, Pacman and Ghost cells |
| Pacman2D.TickFrom | apps/pacman.cpp:268-291 | the tick pass from index k on, whose preserved facts `TickOneEvolves` and `TickFromEvolves` state |
| Pacman2D.TickOneEvolves | apps/pacman.cpp:284-290 | one Pacman or ghost tick keeps kinds, walls and pellet positions, never reactivates a pellet, never lowers a count |
| Pacman2D.TickFromEvolves | apps/pacman.cpp:271-291 | the whole tick pass keeps those facts too |
| Pacman2D.DeliverInput | apps/pacman.cpp:258-266 | the newest queued key to every Pacman, or nothing for an empty queue; `TurnFromOnlyFacing` states what it changes |
| Pacman2D.TurnFromOnlyFacing | apps/pacman.cpp:258-266 | delivering a key changes only the facing of Pacman entities |
| Pacman2D.PlaceGhostCells | apps/pacman.cpp:185-193 | the nested rejection loops compute the placement of `PlaceGhostsSpec` |
| Pacman2D.SpawnEntities | apps/pacman.cpp:195-226 | the spawn loop's total is the number of Tunnel cells and its entities are the spawn pass of `SpawnCountsKind` |
| Pacman2D.PassInput | apps/pacman.cpp:258-266 | only the last queued key is delivered, to every Pacman in order, and the queue is not consumed |
| Pacman2D.TickAll | apps/pacman.cpp:268-291 | each Pacman and ghost is ticked once, in collection order, against the collection as it is at that moment |
| Pacman2D.Level.constructor | apps/pacman.cpp:169-226 | for a level with at most one Pacman cell: the level has the file's size, four Tunnel cells made Ghost cells, the spawned entities, the Tunnel count as pellet total, and neither flag set |
| Pacman2D.Level.Update | apps/pacman.cpp:256-292 | input first, then the tick pass; flags, counters and size unchanged |
| Pacman2D.Level.PickupPellet | apps/pacman.cpp:313-318 | the count grows by one; won becomes set once the count reaches the total and is never cleared |
| Pacman2D.Level.IsGameOver | apps/pacman.cpp:346 | the game is over when lost or won; `EndGame` and `PickupPellet` only ever set these flags |
| Pacman2D.Level.EndGame | apps/pacman.cpp:323-326 | the game is over; nothing else changes |
| Pacman2D.PickupFlags | apps/pacman.cpp:313-318 | one pickup never clears won, sets it only once the count reaches the total, and the count only grows |
| Pacman2D.PickupsWin | apps/pacman.cpp:313-318 | after n pickups from zero the count is n and the game is won iff n reaches the total |
| MazeMesh.Normal | apps/pacman3d/Entities.cpp:70-186 | the top face's normal points up, every side face's normal is horizontal |
| MazeMesh.FaceVertices | apps/pacman3d/Entities.cpp:70-83 | one face's four vertices, whose geometry `FaceGeometry` states |
| MazeMesh.FaceGeometry | apps/pacman3d/Entities.cpp:70-186 | a face's four vertices carry its normal and the revision's UVs, are four distinct corners of the cell's unit cube, on the side the normal points to |
| MazeMesh.FaceIndices | apps/pacman3d/Entities.cpp:84-90 | one face's six indices at a vertex offset, whose range `FaceIndicesRange` states |
| MazeMesh.FaceIndicesRange | apps/pacman3d/Entities.cpp:84-90 | a face's six indices name exactly its four vertices |
| MazeMesh.FloorVertices | apps/pacman3d/Entities.cpp:16-27 | the floor has four vertices at height 0 with normal up (down in the appending revision) and the revision's UVs |
| MazeMesh.FloorIndices | apps/pacman3d/Entities.cpp:29-34 | the floor's six indices are absolute, between 0 and 3 |
| MazeMesh.CellQuads | apps/pacman3d/Entities.cpp:40-186 | the faces one cell emits, in emission order, stated by `CellQuadsSpec` |
| MazeMesh.CellQuadsSpec | apps/pacman3d/Entities.cpp:40-186 | a cell emits exactly its exposed faces, each once in top, south, north, east, west order: none unless it is a Wall, then its top and a side per in-grid non-Wall neighbour |
| MazeMesh.RowQuadsSpec | apps/pacman3d/Entities.cpp:39-187 | a row emits exactly the exposed faces of its cells, in column order and each once |
| MazeMesh.GridQuadsSpec | apps/pacman3d/Entities.cpp:38-188 | the maze emits exactly the exposed faces of all cells, strictly increasing in (row, column, top/south/north/east/west) order, so each once |
| MazeMesh.AddFacesLayout | apps/pacman3d/Entities.cpp:43-113 | faces are appended four vertices and six indices at a time, each face's indices offset by the vertex count before it, earlier content kept |
| MazeMesh.EmitFace | apps/pacman3d/Entities.cpp:70-90 | one face is pushed at the running vertex offset |
| MazeMesh.EmitCell | apps/pacman3d/Entities.cpp:40-186 | the inner loop body pushes exactly the cell's faces |
| MazeMesh.EmitWall | apps/pacman3d/Entities.cpp:70-186 | a Wall pushes its top and then each open side in south, north, east, west order |
| MazeMesh.EmitQuad | apps/pacman3d/Entities.cpp:92-114 | a guarded side face is pushed exactly when its guard holds |
| MazeMesh.EmitRow | apps/pacman3d/Entities.cpp:39-187 | the inner loop pushes the faces of one row in column order |
| MazeMesh.AppendLevelMesh | apps/pacman3d/Entities.cpp:8-191 | the generator pushes the floor and then every cell's faces, row by row |
| MazeMesh.LevelMesh | apps/pacman3d/Entities.cpp:8-191 | the buffers after generation, as the floor and then `AddFaces` of the maze's faces; its shape is stated by the `LevelMesh...` lemmas below |
| MazeMesh.ExposedFaceCount | apps/pacman3d/Entities.cpp:38-188 | the number of faces emitted is the number of exposed faces: each exposed face is emitted exactly once |
| MazeMesh.LevelMeshSize | apps/Entities3d.cpp:3-181 | the buffers grow by 4 (1 + faces) vertices and 6 (1 + faces) indices, where the face count is the number of exposed faces, so 2 indices for every 3 vertices, earlier content kept |
| MazeMesh.LevelMeshSlices | apps/pacman3d/Entities.cpp:43-90 | face n occupies four consecutive vertices and six consecutive indices after the floor |
| MazeMesh.LevelMeshFaceVertices | apps/pacman3d/generation.cpp:46-152 | every face's vertices carry its normal and the revision's UVs, (0,0), (0,1), (1,0), (1,1) in the textured revision |
| MazeMesh.LevelMeshFaceIndices | apps/pacman3d/generation.cpp:43-64 | face n's six indices name exactly its four vertices |
| MazeMesh.LevelMeshFloor | apps/Entities3d.cpp:8-26 | the floor's indices are 0 to 3, naming the new floor vertices iff the vertex buffer started empty |
| MazeMesh.LevelMeshNewIndicesInRange | apps/Entities3d.cpp:35-177 | every index the generator pushes names a vertex of the output, whatever the buffers held |
| MazeMesh.LevelMeshIndicesInRange | apps/pacman3d/generation.cpp:43-163 | if every earlier index was in range, every index is in range at return |
| MazeMesh.NoOutwardFaces | apps/pacman3d/Entities.cpp:92-165 | every face belongs to a Wall cell and every side face looks at an in-grid non-Wall cell |
| Maze3D.CentreInjective | apps/pacman3d/Entities.cpp:200 | different cells have different centres |
| Maze3D.GenLevelMesh | apps/pacman3d/Entities.cpp:8-191 | the plain revision's mesh, into empty buffers |
| Maze3D.FindPacman | apps/pacman3d/Entities.cpp:193-206 | an error iff no cell holds Pacman; otherwise the centre of a Pacman cell at height 0.5, the first in row-major order |
| Maze3D.GenPellets | apps/pacman3d/Entities.cpp:234-250 | the centroids of the Tunnel cells in row-major scan order |
| Maze3D.RowPellets | apps/pacman3d/Entities.cpp:239-246 | the inner loop yields the centroids of one row's Tunnel cells |
| Maze3D.GenPelletsSpec | apps/pacman3d/Entities.cpp:234-250 | a centroid at height 0.25 is produced iff its cell is a Tunnel, one per cell, in row-major order |
| Maze3D.Far | apps/pacman3d/Entities.cpp:285-289 | the centroids not within 0.4 of Pacman, in order, never more than before; `FarSpec`, `FarAppend` and `FarKeepsAll` state the rest |
| Maze3D.FarSpec | apps/pacman3d/Entities.cpp:285-289 | exactly the centroids within 0.4 of Pacman are removed |
| Maze3D.FarAppend | apps/pacman3d/Entities.cpp:285-289 | survivors keep their relative order |
| Maze3D.FarKeepsAll | apps/pacman3d/Entities.cpp:291-295 | the count is unchanged iff no centroid was within 0.4 |
| Maze3D.KeepFar | apps/pacman3d/Entities.cpp:285-289 | the erase-remove pass computes the filter of `FarSpec` |
| Maze3D.Pellets.constructor | apps/pacman3d/Entities.cpp:257-258 | the board starts with the given centroids |
| Maze3D.Pellets.Update | apps/pacman3d/Entities.cpp:279-296 | the close centroids are removed and a re-upload is requested iff the count changed |
| Maze3D.Steer | apps/pacman3d/Entities.cpp:329-347 | steering keeps the height and keeps each horizontal part in {-1, 0, 1} |
| Maze3D.SteerSpec | apps/pacman3d/Entities.cpp:329-347 | only W, S, A, D on press or release matter; W/S touch only z, A/D only x; pressing W, S, A, D sets z = 1, z = -1, x = 1, x = -1; a release zeroes that axis |
| Maze3D.ReleaseStopsEitherKey | apps/pacman3d/Entities.cpp:340-345 | releasing S after pressing W stops the forward motion |
| Maze3D.CellUnder | apps/pacman3d/Entities.cpp:352-354 | the cell a point is tested against, round(x - 0.5) and round(z - 0.5); `CellUnderCentre` states it on cell centres |
| Maze3D.CellUnderCentre | apps/pacman3d/Entities.cpp:352-354 | the wall test's cell of a cell centre is that cell |
| Maze3D.Advance | apps/pacman3d/Entities.cpp:349-359 | the wall-checked step, whose meaning `AdvanceSpec` states |
| Maze3D.AdvanceSpec | apps/pacman3d/Entities.cpp:349-359 | the candidate is committed iff its cell is not a Wall, otherwise Pacman stays; the height never changes; Pacman never moves into a Wall cell |
| Maze3D.Pacman.constructor | apps/pacman3d/Entities.cpp:321-327 | Pacman starts at the given position, standing still |
| Maze3D.Pacman.HandleInput | apps/pacman3d/Entities.cpp:329-347 | the key updates the steering vector and nothing else |
| Maze3D.Pacman.Update | apps/pacman3d/Entities.cpp:349-359 | the translation takes the wall-checked step; the steering is kept |
| Generation.GenLevelMesh | apps/pacman3d/generation.cpp:8-166 | the textured revision's mesh, into empty buffers |
| Generation.SampleCellInGrid | apps/pacman3d/generation.cpp:198-200 | floor(u w), floor(v h) of a sample in [0, 1)² is a cell of the grid |
| Generation.PlaceGhosts | apps/pacman3d/generation.cpp:196-207 | the rejection placement of ghost positions, whose meaning `PlaceGhostsSpec` states |
| Generation.PlaceGhostsSpec | apps/pacman3d/generation.cpp:196-207 | placement succeeds iff at least `need` samples pick Tunnel cells; then exactly `need` ghosts, each at the centre of a Tunnel cell at height 0.5 |
| Generation.GhostsMayShareACell | apps/pacman3d/generation.cpp:196-207 | the grid is not updated, so all four ghosts can land on the same cell |
| Generation.GenGhosts | apps/pacman3d/generation.cpp:183-210 | the loops compute the placement of `PlaceGhostsSpec` for four ghosts |
| Generation.DrawGhost | apps/pacman3d/generation.cpp:197-206 | the inner loop discards samples up to the first that picks a Tunnel cell, or reports that the samples ran out |
| Entities3D.GenLevelMesh | apps/Entities3d.cpp:3-181 | the appending revision pushes after the caller's content and keeps it |
| Sprite.SpriteSheetAnimation.constructor | include/glove/AnimatedSpriteSheet.h:24-30 | an animation holds the given key frames |
| Sprite.SpriteSheetAnimation.PushKeyFrame | include/glove/AnimatedSpriteSheet.h:36 | one key frame is appended at the end and the others are kept |
| Sprite.Tick | lib/AnimatedSpriteSheet.cpp:9-30 | one update of the playhead, whose meaning `TickSpec` states |
| Sprite.TickSpec | lib/AnimatedSpriteSheet.cpp:9-30 | paused: nothing changes; otherwise elapsed grows and below the frame time nothing else changes; at the frame time elapsed restarts at 0, the frame moves on by one modulo the count, pausing at the wrap iff not looping; the index stays in range |
| Sprite.TickAtMostOneFrame | lib/AnimatedSpriteSheet.cpp:16-18 | one update moves at most one key frame, however large dt is |
| Sprite.LoopingNeverPauses | lib/AnimatedSpriteSheet.cpp:21-28 | a looping animation never pauses itself |
| Sprite.NonLoopingStops | lib/AnimatedSpriteSheet.cpp:21-28 | a non-looping animation stops, paused at frame 0, after enough full-frame updates |
| Sprite.StaysPaused | lib/AnimatedSpriteSheet.cpp:10-11 | a paused playhead does not move under any run of updates |
| Sprite.AnimatedSpriteSheet.constructor | include/glove/AnimatedSpriteSheet.h:112-116 | a fresh sheet is unpaused, looping, at frame 0 with no elapsed time, playing the given animation |
| Sprite.AnimatedSpriteSheet.Update | lib/AnimatedSpriteSheet.cpp:9-30 | the playhead takes one tick of `TickSpec`, the index stays in range, nothing else changes |
| Sprite.AnimatedSpriteSheet.PlayAnimation | lib/AnimatedSpriteSheet.cpp:32-37 | the new animation plays from frame 0, unpaused, with no elapsed time, restoring the index invariant |
| Sprite.AnimatedSpriteSheet.Play | include/glove/AnimatedSpriteSheet.h:87 | paused becomes not b and nothing else changes |
| Sprite.AnimatedSpriteSheet.Loop | include/glove/AnimatedSpriteSheet.h:93 | looped becomes b and nothing else changes |
| Sprite.AnimatedSpriteSheet.GetUniform | include/glove/AnimatedSpriteSheet.h:99-102 | for a non-empty animation the answer is one of its key frames |
| GameState.Apply | include/glove/GameState.h:8-34 | a transition applied to the stack, whose meaning `ApplySpec` states |
| GameState.ApplySpec | include/glove/GameState.h:8-34 | None keeps the stack, Pop removes the top, Push adds a new top, Transition replaces the top |
| GameState.TransitionIsPopThenPush | include/glove/GameState.h:28-34 | a Transition is a Pop followed by a Push |
| GameState.Drain | lib/GameState.cpp:48-59 | the key-handling loop, whose meaning `DrainSpec` states |
| GameState.DrainSpec | lib/GameState.cpp:48-59 | keys are handled newest first and removed; the first answer that is not None stops the loop; None iff every key answered None |
| GameState.Decide | lib/GameState.cpp:48-72 | the frame's transition and whether it renders, stated by `DecideSpec` |
| GameState.DecideSpec | lib/GameState.cpp:48-72 | render happens iff every handled key and the update answered None, which is exactly when no transition is made |
| GameState.Frame | lib/GameState.cpp:76-91 | one frame on the stack, whose meaning `FrameSpec` states |
| GameState.FrameSpec | lib/GameState.cpp:76-91 | the stack empties only by popping its last state; it grows by one on Push, shrinks by one on Pop; a new top is initialised; a rendered frame keeps the stack |
| GameState.Core.constructor | lib/GameState.cpp:4-5 | the stack holds exactly the initial state |
| GameState.Core.SetupState | lib/GameState.cpp:95-99 | the top state is initialised; the stack is kept |
| GameState.Core.RunFrame | lib/GameState.cpp:41-91 | one pass of the main loop is one frame of `FrameSpec`; the loop goes on iff the stack is not empty |
| GameState.Core.Run | lib/GameState.cpp:17-93 | the first state is initialised and frames run until they run out or the stack empties |
| Shaders.StageByContainsNotSuffix | lib/ShaderProgram.cpp:38-44 | ".vert" anywhere wins over ".frag", and an extension counts even when not at the end |
| Shaders.ExtensionIsClassified | lib/ShaderProgram.cpp:38-49 | a path ending in one of the three extensions is never rejected, and gets its extension's stage unless a higher-priority pattern occurs |
| Shaders.StageOf | lib/lib.cpp:39-50 | the stage from the path, whose meaning `StageByContainsNotSuffix`, `ExtensionIsClassified` and `StageOfRejects` state |
| Shaders.StageOfRejects | lib/lib.cpp:39-50 | a path is rejected, naming it, iff none of ".vert", ".geom", ".frag" occurs in it |
| Shaders.ReadLines | lib/ShaderProgram.cpp:28-32 | the `getline` pieces of a text, stated by `ReadLinesHaveNoBreaks` and `ReadLinesJoined` |
| Shaders.Joined | lib/ShaderProgram.cpp:28-32 | lines appended each with a line break, whose round-trip with `ReadLines` is `ReadLinesJoined` and `SourceIsText` |
| Shaders.ReadLinesHaveNoBreaks | lib/ShaderProgram.cpp:30 | no line read holds a line break |
| Shaders.ReadLinesJoined | lib/ShaderProgram.cpp:28-32 | reading back joined lines gives the lines |
| Shaders.SourceIsText | lib/lib.cpp:29-33 | the source is the file text, with a line break added at the end if it lacks one |
| Shaders.ReadSource | lib/ShaderProgram.cpp:28-32 | the `getline` loop builds the joined lines of `SourceIsText` |
| Shaders.LoadOne | lib/lib.cpp:21-50 | one path: open, read, classify; `OpenFailureFirst` states the order of its checks |
| Shaders.LoadAll | lib/ShaderProgram.cpp:20-49 | the per-path loading that stops at the first failure, whose meaning `LoadAllSpec` and `LoadAllStopsAtError` state |
| Shaders.LoadAllSpec | lib/ShaderProgram.cpp:20-49 | loading succeeds iff every path loads, one shader per path in order; otherwise the error is the first failing path's |
| Shaders.OpenFailureFirst | lib/lib.cpp:23-26 | a file that cannot be opened fails before its name is classified |
| Shaders.LoadAllStopsAtError | lib/ShaderProgram.cpp:20-25 | paths after the first failure are never looked at |
| Shaders.LoadShaders | lib/ShaderProgram.cpp:16-49 | the per-path loop computes the loading of `LoadAllSpec` |

## Left out

- Drawing, GPU buffers, uniforms, shader compilation and linking, textures, windows and buffer swaps: foreign graphics calls. `Pellets::update`'s upload is the `reupload` result of `Maze3D.Pellets.Update`. The draw guard of an inactive pellet is not modelled.
- File reading: a level is its integer tokens, and a shader file system is a map from path to text. A level file that cannot be opened is an assertion failure in the program and is not modelled; `LevelGrid.Load` requires a non-negative width and height and enough tokens for width * height cells.
- Floating point: positions, time steps and distances are reals. `glm::length(d) <= r` is stated as a squared distance. `std::chrono` durations are reals in the same unit.
- Integer width: `int` and `uint32_t` are unbounded integers. Mesh indices and level sizes do not wrap.
- Randomness: samples come from a finite sequence. Running out of samples is an error (`SamplesExhausted`) where the program would keep drawing.
- Pacman2D.PlaceGhostCells, Pacman2D.Level.constructor: require a sample sequence with which all four ghosts get placed, because the program's rejection loop only ends when the samples allow it (fewer than four Tunnel cells never ends, see `Pacman2D.PlaceGhostsNeedsTunnels`).
- Generation.GenGhosts, Generation.PlaceGhosts, Maze3D.Advance, Maze3D.Pacman.Update: require a grid of positive width and height; an empty level has no cell to read.
- Maze3D.Advance uses the corrected clamp of the Findings row instead of `get`'s. A step past the top border reads the border row instead of memory past the grid. A step past the right border, at x == width below the top row, tests cell (width - 1, y), where the program tests cell (0, y + 1): on a 2 x 2 grid whose cell (0, 1) is a Wall and cell (1, 0) a Tunnel, Pacman at (1.5, 0.5, 0.5) moving +x by 1 goes to (2.5, 0.5, 0.5) in the model and stays put in the program.
- Pacman2D.Level.constructor: requires at most one Pacman cell. The spawn pass moves the Pacman animation map into the first Pacman (apps/pacman.cpp:213-217), so a second Pacman's constructor reads an empty pointer (apps/Entities.h:49); that crash is not modelled.
- Entities2D.NewGhost: the ghost of apps/Entities.h:74-82 has no facing. Its facing is the model's own field, started at Right because that is the animation the constructor plays. Pacman's `active` flag stands for the `deactivate()` call of apps/Entities.cpp:110-112, which the header's Pacman does not declare.
- The `genGhosts` of apps/pacman3d/Entities.cpp:208-232: its `Ghost` constructor discards the position, so it places nothing observable.
- Sprite animation side effects in the entities (`playAnimation`, `play`, `update` on an entity's sheet): the sheet is modelled on its own, in `Sprite`.
- The `Ghost::update` of apps/Entities.h:84-89, an older revision that only advances the sprite; the model follows apps/Entities.cpp:130-152. The header's missing bounds and ghost facing are fields of the model's entities.
- The `AnimatedSpriteSheet` constructor is declared without an animation but defined with one; the model follows the definition. The texture it keeps is not modelled.
- The window's input queue: each frame is given the keys pressed since the previous one, because polling the window clears the queue. The frame's `dt` comes from the clock and is a parameter.
- Console logging: the messages of `pickupPellet` and `endGame` (apps/pacman.cpp:313-326) and of the shader loader's error paths are not modelled; only the state changes and the returned errors are.
- `setupState` sets the window title from the state's manifest; only the initialisation is recorded.
- `resized` callbacks, the camera, and the key-code translation from the windowing library.
- apps/pacman3d/Level3d.h is not part of this model.

## Findings

| source | as written | input that shows it | evidently intended | confidence | as-written member | corrected member |
|---|---|---|---|---|---|---|
| apps/pacman3d/Level.h:31-33 | `get` clamps x to [0, width] and y to [0, height], so x == width reads cell (0, y + 1) and y == height reads past the end of the grid | a 2 x 2 grid and `get(0, 2)`: index 4 of a 4-cell grid | clamp to [0, width - 1] and [0, height - 1], so every query reads the nearest cell inside the grid | not executed | LevelGrid.GetHeightReadsPastEnd | LevelGrid.ClampedGetNearestCell |
