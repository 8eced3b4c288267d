/** Chunk coordinates, the packets sent to viewers, and the viewer reconciliation
    rule of BaseEntity.checkChunks. */
module Viewing {
  import opened Common
  import opened Linkage

  /** A connected player, identified by a number. */
  type PlayerId = nat

  datatype ChunkPos = ChunkPos(x: int, z: int)

  /** `v >> 4`: an arithmetic shift by 4 is floor division by 16, which is Dafny's `/` on a
      positive divisor (also for negative `v`). */
  function ChunkIndex(v: int): (c: int)
    ensures 16 * c <= v < 16 * c + 16
  {
    v / 16
  }

  /** The chunk index is the only value whose 16-block span contains `v`. */
  lemma ChunkIndexUnique(v: int, c: int)
    requires 16 * c <= v < 16 * c + 16
    ensures ChunkIndex(v) == c
  {
  }

  /** The chunk holding a position: `(floor(x) >> 4, floor(z) >> 4)`. */
  function ChunkOf(p: Vec3): (c: ChunkPos)
    ensures 16 * c.x <= p.x.Floor < 16 * c.x + 16 && 16 * c.z <= p.z.Floor < 16 * c.z + 16
  {
    ChunkPos(ChunkIndex(p.x.Floor), ChunkIndex(p.z.Floor))
  }

  /** The packets of this core: AddEntityPacket with its entity links, the
      SetEntityLinkPacket of a mounted entity, RemoveEntityPacket. */
  datatype Packet = AddEntity(links: seq<LinkType>) | RiderLink | RemoveEntity

  /** The packets each player has been sent about one entity, in the order sent. */
  type Inbox = map<PlayerId, seq<Packet>>

  function Received(m: Inbox, p: PlayerId): seq<Packet> {
    if p in m then m[p] else []
  }

  /** What spawnTo sends: the AddEntity packet, then the rider link when mounted. */
  function SpawnPackets(links: seq<LinkType>, mounted: bool): seq<Packet> {
    [AddEntity(links)] + if mounted then [RiderLink] else []
  }

  /** From `before` to `after`, exactly the players of `to` were sent `packets` (each in
      one piece), and nobody else was sent anything. */
  ghost predicate Delivered(before: Inbox, after: Inbox, to: set<PlayerId>, packets: seq<Packet>) {
    forall q :: Received(after, q) == Received(before, q) + (if q in to then packets else [])
  }

  /** What checkChunks sends player `q` when the entity enters a chunk loaded by `loaders`:
      a RemoveEntity packet to a viewer that does not load it, the spawn packets to an
      in-view loader that was not a viewer, nothing otherwise. */
  function ChunkChangePackets(q: PlayerId, viewers: set<PlayerId>, loaders: set<PlayerId>, inView: set<PlayerId>,
                              links: seq<LinkType>, mounted: bool): seq<Packet>
  {
    if q in viewers && q !in loaders then [RemoveEntity]
    else if q !in viewers && q in loaders && q in inView then SpawnPackets(links, mounted)
    else []
  }

  /** The viewer set checkChunks leaves behind: the old viewers that load the new chunk,
      and every loader that has the chunk in view. */
  function Reconciled(viewers: set<PlayerId>, loaders: set<PlayerId>, inView: set<PlayerId>): (r: set<PlayerId>)
    ensures r <= loaders
  {
    (viewers * loaders) + (loaders * inView)
  }

  /** After reconciliation every viewer loads the chunk, every in-view loader views the
      entity, no viewer that still loads the chunk is dropped, and nobody out of view is added. */
  lemma ReconciledFacts(viewers: set<PlayerId>, loaders: set<PlayerId>, inView: set<PlayerId>, p: PlayerId)
    ensures p in Reconciled(viewers, loaders, inView) ==> p in loaders
    ensures p in loaders && p in inView ==> p in Reconciled(viewers, loaders, inView)
    ensures p in viewers && p in loaders ==> p in Reconciled(viewers, loaders, inView)
    ensures p in Reconciled(viewers, loaders, inView) && p !in viewers ==> p in inView
  {
  }
}
