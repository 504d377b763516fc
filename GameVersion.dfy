/** `GameVersion.IsManiaPlanet`: a replay, ghost or map is a ManiaPlanet-era
    file when one of its chunk ids lies in the range of chunks that only
    ManiaPlanet writes for that class. */
module GameVersion {

  /** A chunk id, an unsigned 32-bit value. */
  newtype ChunkId = x: int | 0 <= x < 0x1_0000_0000

  /** The range (lo, hi]: lower bound excluded, upper bound included. */
  predicate InRange(id: ChunkId, lo: ChunkId, hi: ChunkId) {
    id > lo && id <= hi
  }

  /** `chunks.Any(chunk => chunk.Id > lo && chunk.Id <= hi)`. */
  function AnyInRange(ids: seq<ChunkId>, lo: ChunkId, hi: ChunkId): (r: bool)
    ensures r <==> exists i :: 0 <= i < |ids| && InRange(ids[i], lo, hi)
  {
    if ids == [] then false
    else InRange(ids[0], lo, hi) || AnyInRange(ids[1..], lo, hi)
  }

  const ReplayLow: ChunkId := 0x03093015
  const ReplayHigh: ChunkId := 0x03093FFF
  const GhostLow: ChunkId := 0x03092019
  const GhostHigh: ChunkId := 0x03092FFF
  const MapLow: ChunkId := 0x0304302A
  const MapHigh: ChunkId := 0x03043FFF

  /** `IsManiaPlanet(CGameCtnReplayRecord)`, over the replay's chunk ids. */
  function IsManiaPlanetReplay(chunkIds: seq<ChunkId>): (r: bool)
    ensures r <==> exists i :: 0 <= i < |chunkIds| && ReplayLow < chunkIds[i] <= ReplayHigh
  {
    AnyInRange(chunkIds, ReplayLow, ReplayHigh)
  }

  /** `IsManiaPlanet(CGameCtnGhost)`, over the ghost's chunk ids. */
  function IsManiaPlanetGhost(chunkIds: seq<ChunkId>): (r: bool)
    ensures r <==> exists i :: 0 <= i < |chunkIds| && GhostLow < chunkIds[i] <= GhostHigh
  {
    AnyInRange(chunkIds, GhostLow, GhostHigh)
  }

  /** `IsManiaPlanet(CGameCtnChallenge)`, over the map's chunk ids. */
  function IsManiaPlanetMap(chunkIds: seq<ChunkId>): (r: bool)
    ensures r <==> exists i :: 0 <= i < |chunkIds| && MapLow < chunkIds[i] <= MapHigh
  {
    AnyInRange(chunkIds, MapLow, MapHigh)
  }

  /** The test over a concatenation is the disjunction of the tests over the
      parts: adding chunks never turns a ManiaPlanet answer into a
      non-ManiaPlanet one, and the order of chunks does not matter. */
  lemma {:induction false} AnyInRangeAppend(a: seq<ChunkId>, b: seq<ChunkId>, lo: ChunkId, hi: ChunkId)
    ensures AnyInRange(a + b, lo, hi) == (AnyInRange(a, lo, hi) || AnyInRange(b, lo, hi))
    decreases |a|
  {
    if a != [] {
      assert (a + b)[0] == a[0];
      assert (a + b)[1..] == a[1..] + b;
      AnyInRangeAppend(a[1..], b, lo, hi);
    } else {
      assert a + b == b;
    }
  }

  /** The three tests are monotone in the chunk list. */
  lemma MoreChunksStayManiaPlanet(chunkIds: seq<ChunkId>, more: seq<ChunkId>)
    ensures IsManiaPlanetReplay(chunkIds) ==> IsManiaPlanetReplay(chunkIds + more)
    ensures IsManiaPlanetGhost(chunkIds) ==> IsManiaPlanetGhost(chunkIds + more)
    ensures IsManiaPlanetMap(chunkIds) ==> IsManiaPlanetMap(chunkIds + more)
  {
    AnyInRangeAppend(chunkIds, more, ReplayLow, ReplayHigh);
    AnyInRangeAppend(chunkIds, more, GhostLow, GhostHigh);
    AnyInRangeAppend(chunkIds, more, MapLow, MapHigh);
  }

  /** A chunk list of one id: the lower bound of each range is excluded, the
      upper bound included, and the ids just outside fail. */
  lemma RangeBounds()
    ensures !IsManiaPlanetReplay([ReplayLow]) && IsManiaPlanetReplay([ReplayLow + 1])
    ensures IsManiaPlanetReplay([ReplayHigh]) && !IsManiaPlanetReplay([ReplayHigh + 1])
    ensures !IsManiaPlanetGhost([GhostLow]) && IsManiaPlanetGhost([GhostLow + 1])
    ensures IsManiaPlanetGhost([GhostHigh]) && !IsManiaPlanetGhost([GhostHigh + 1])
    ensures !IsManiaPlanetMap([MapLow]) && IsManiaPlanetMap([MapLow + 1])
    ensures IsManiaPlanetMap([MapHigh]) && !IsManiaPlanetMap([MapHigh + 1])
  {
  }

  /** No chunks, no ManiaPlanet. */
  lemma NoChunksIsNotManiaPlanet()
    ensures !IsManiaPlanetReplay([]) && !IsManiaPlanetGhost([]) && !IsManiaPlanetMap([])
  {
  }
}
