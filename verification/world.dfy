/** The world list of `rustmine_server/src/world/mod.rs`.  An `Arc` is
    modelled by the value it shares, and the `dyn ChunkGenerator` by an
    opaque generator identity. */
module Worlds {
  import Dimension

  /** A world: the dimension type it was created with and its generator. */
  datatype World = World(dimensionType: Dimension.DimensionType, generator: nat)

  /** `WorldManager`: the worlds in creation order. */
  datatype WorldManager = WorldManager(worlds: seq<World>)

  /** `WorldManager::default`. */
  function Default(): (m: WorldManager)
    ensures |m.worlds| == 0
  {
    WorldManager([])
  }

  /** `WorldManager::create_world`: the new world is pushed at the end of
      the list and returned; the worlds already there keep their order. */
  function CreateWorld(m: WorldManager, d: Dimension.DimensionType, generator: nat): (r: (WorldManager, World))
    ensures |r.0.worlds| == |m.worlds| + 1
    ensures r.0.worlds[|m.worlds|] == r.1
    ensures r.1.dimensionType == d && r.1.generator == generator
    ensures r.0.worlds[..|m.worlds|] == m.worlds
  {
    var w := World(d, generator);
    (WorldManager(m.worlds + [w]), w)
  }

  /** The worlds left by a run of `create_world` calls, one per
      (dimension type, generator) pair. */
  function CreateAll(m: WorldManager, requests: seq<(Dimension.DimensionType, nat)>): (r: WorldManager)
    ensures |r.worlds| == |m.worlds| + |requests|
    ensures r.worlds[..|m.worlds|] == m.worlds
    decreases |requests|
  {
    if |requests| == 0 then m
    else CreateAll(CreateWorld(m, requests[0].0, requests[0].1).0, requests[1..])
  }

  /** Creating worlds one after another appends them after the existing
      ones, in the order they were asked for, each with its own
      arguments. */
  lemma {:induction false} CreatedInOrder(m: WorldManager, requests: seq<(Dimension.DimensionType, nat)>)
    ensures var after := CreateAll(m, requests).worlds;
            |after| == |m.worlds| + |requests| && after[..|m.worlds|] == m.worlds &&
            forall i :: 0 <= i < |requests| ==> after[|m.worlds| + i] == World(requests[i].0, requests[i].1)
    decreases |requests|
  {
    if |requests| > 0 {
      var m1 := CreateWorld(m, requests[0].0, requests[0].1).0;
      CreatedInOrder(m1, requests[1..]);
      var after := CreateAll(m, requests).worlds;
      assert after[..|m1.worlds|] == m1.worlds;
      assert after[..|m.worlds|] == m1.worlds[..|m.worlds|];
      forall i | 0 <= i < |requests|
        ensures after[|m.worlds| + i] == World(requests[i].0, requests[i].1)
      {
        if i > 0 {
          assert requests[1..][i - 1] == requests[i];
          assert after[|m1.worlds| + (i - 1)] == World(requests[i].0, requests[i].1);
        } else {
          assert after[|m.worlds|] == m1.worlds[|m.worlds|];
        }
      }
    }
  }
}
