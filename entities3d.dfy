/** The oldest revision of the maze generator, which appends to buffers the
    caller owns instead of returning new ones. */
module Entities3D {
  import opened LevelGrid
  import opened MazeMesh

  /** `genLevelMesh` with out-parameters: the floor and the wall faces are
      pushed after whatever the two buffers already hold, and nothing is
      cleared. */
  method GenLevelMesh(g: Grid, m0: Mesh) returns (m: Mesh)
    requires g.Valid()
    ensures m == LevelMesh(g, Appending, m0)
    ensures |m0.vertices| <= |m.vertices| && |m0.indices| <= |m.indices|
    ensures m.vertices[..|m0.vertices|] == m0.vertices && m.indices[..|m0.indices|] == m0.indices
  {
    m := AppendLevelMesh(g, Appending, m0);
    LevelMeshSize(g, Appending, m0);
  }
}
