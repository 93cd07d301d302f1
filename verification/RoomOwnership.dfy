/**
 The room ownership protocol: nodes that share a Redis store and keep local caches. One step is
 one Redis command, one message delivery or one local update; a call of the registry is an
 operation that goes through several of them, interleaved with everything else.
 */
module RoomOwnership {
  import opened Options
  import opened NodeValues
  import opened CacheView

  /** The fixed address of each node. */
  datatype Cluster = Cluster(address: string -> string)

  ghost predicate WellConfigured(k: Cluster) {
    forall id :: BarFree(k.address(id)) && k.address(id) != ""
  }

  ghost predicate DistinctAddresses(k: Cluster) {
    forall a, b :: k.address(a) == k.address(b) ==> a == b
  }

  // ---------------------------------------------------------------------------
  // The store
  // ---------------------------------------------------------------------------

  /** `rooms` maps a room to the id of its owner, `nodes` a live node to its value. */
  datatype Redis = Redis(rooms: map<string, string>, nodes: map<string, string>)

  datatype Reply = Fresh | Self | Taken(owner: string) | Owned(value: string)

  /** The claim script; it runs atomically. */
  function Eval(r: Redis, room: string, node: string): (Redis, Reply) {
    if room !in r.rooms then (r.(rooms := r.rooms[room := node]), Fresh)
    else
      var owner := r.rooms[room];
      if owner == node then (r, Self)
      else if owner !in r.nodes then (r.(rooms := r.rooms[room := node]), Taken(owner))
      else (r, Owned(r.nodes[owner]))
  }

  // ---------------------------------------------------------------------------
  // The system
  // ---------------------------------------------------------------------------

  /** Where an operation stands; the comment names what it does next. */
  datatype Op =
    | Refreshing(node: string, room: string, cached: string)                     // GET the room
    | RefreshingNode(node: string, room: string, cached: string, owner: string)  // GET the owner's node
    | Claiming(node: string, room: string)                                       // EVAL
    | Claimed(node: string, room: string, isNew: bool)                           // keep or release
    | Following(node: string, room: string, value: string)                       // cache the owner
    | Releasing(node: string, room: string, best: string)                        // DEL the room
    | Announcing(node: string, room: string)                                     // PUBLISH
    | Resolving(node: string, room: string)                                      // GET the room
    | ResolvingNode(node: string, room: string, owner: string)                   // GET the owner's node
    | Choosing(node: string, room: string)                                       // choose a node for a new room
    | HasNodes(node: string, nodes: map<string, NodeInfo>)                       // merge, or read rooms
    | HasRooms(node: string, nodes: map<string, NodeInfo>, rooms: map<string, string>) // replace the cache

  /**
   What calls returned. A grant is validated by the script, found in the cache, or found by a
   refresh. A referral names the better node after a fresh claim was given back, a proposal the
   node that resolveRoom chooses when it finds no owner; neither claims that the node owns the room.
   */
  datatype Answer =
    | Granted(node: string, room: string)
    | CacheGranted(node: string, room: string)
    | RefreshGranted(node: string, room: string)
    | Redirected(node: string, room: string, address: string)
    | Resolved(node: string, room: string, address: string)
    | Referred(node: string, room: string, address: string)
    | Proposed(node: string, room: string, address: string)

  /**
   `messages` are the published messages, which may arrive anywhere, late, repeatedly or never.
   `owned` holds every (room, node) pair the store has ever recorded.
   */
  datatype System = System(
    redis: Redis, caches: map<string, Cache>, ops: map<nat, Op>,
    messages: set<(Topic, string)>, owned: set<(string, string)>, answers: set<Answer>)

  const INITIAL := System(Redis(map[], map[]), map[], map[], {}, {}, {})

  function CacheOf(s: System, n: string): Cache {
    if n in s.caches then s.caches[n] else EMPTY
  }

  function SetCache(s: System, n: string, c: Cache): System {
    s.(caches := s.caches[n := c])
  }

  function SetOp(s: System, o: nat, op: Op): System {
    s.(ops := s.ops[o := op])
  }

  function Drop(s: System, o: nat): System {
    s.(ops := s.ops - {o})
  }

  function Finish(s: System, o: nat, a: Answer): System {
    s.(ops := s.ops - {o}, answers := s.answers + {a})
  }

  function Send(s: System, channel: Topic, data: string): System {
    s.(messages := s.messages + {(channel, data)})
  }

  datatype Step =
    // node keys: registerNode and updateLoad, expiry and stop
    | StoreNode(node: string, info: NodeInfo) | CacheOwnNode(node: string, info: NodeInfo)
    | PublishNode(node: string, info: NodeInfo) | DropNode(node: string) | PublishNodeGone(node: string)
    // room keys: expiry, and the three effects of unregisterRoom
    | ExpireRoom(room: string) | DeleteRoom(node: string, room: string) | EraseCached(node: string, room: string) | PublishRoomGone(room: string)
    // claimRoom
    | StartClaim(op: nat, node: string, room: string) | RefreshRoom(op: nat) | RefreshNode(op: nat)
    | RunScript(op: nat) | Keep(op: nat) | Release(op: nat, best: string) | DeleteReleased(op: nat)
    | Announce(op: nat) | Follow(op: nat)
    // resolveRoom; a failing lookup goes on to the choice as well
    | StartResolve(op: nat, node: string, room: string) | ResolveRoom(op: nat) | ResolveNode(op: nat)
    | Choose(op: nat, best: string)
    // snapshots; a scan may return any part of the keys
    | ReadNodes(op: nat, node: string, ids: set<string>) | MergeSnapshot(op: nat)
    | ReadRooms(op: nat, rooms: set<string>) | ReplaceCache(op: nat)
    // everything else
    | Deliver(node: string, channel: Topic, data: string) | Evict(node: string, dead: string)
    | Fail(op: nat) | Restart(node: string)

  ghost predicate Enabled(k: Cluster, s: System, step: Step) {
    match step
    case StoreNode(n, info) => info.address == k.address(n)
    case CacheOwnNode(n, info) => info.address == k.address(n)
    case PublishNode(n, info) => info.address == k.address(n) && ValidNodeId(n)
    case PublishNodeGone(n) => ValidNodeId(n)
    case PublishRoomGone(r) => '=' !in r
    case StartClaim(o, _, r) => o !in s.ops && '=' !in r
    case RefreshRoom(o) => o in s.ops && s.ops[o].Refreshing?
    case RefreshNode(o) => o in s.ops && s.ops[o].RefreshingNode?
    case RunScript(o) => o in s.ops && s.ops[o].Claiming?
    case Keep(o) => o in s.ops && s.ops[o].Claimed?
    case Release(o, best) =>
      o in s.ops && s.ops[o].Claimed? && s.ops[o].isNew && best != "" && best != k.address(s.ops[o].node)
    case DeleteReleased(o) => o in s.ops && s.ops[o].Releasing?
    case Announce(o) => o in s.ops && s.ops[o].Announcing?
    case Follow(o) => o in s.ops && s.ops[o].Following?
    case StartResolve(o, _, r) => o !in s.ops
    case ResolveRoom(o) => o in s.ops && s.ops[o].Resolving?
    case ResolveNode(o) => o in s.ops && s.ops[o].ResolvingNode?
    case Choose(o, _) => o in s.ops && (s.ops[o].Resolving? || s.ops[o].ResolvingNode? || s.ops[o].Choosing?)
    case ReadNodes(o, _, _) => o !in s.ops
    case MergeSnapshot(o) => o in s.ops && s.ops[o].HasNodes?
    case ReadRooms(o, _) => o in s.ops && s.ops[o].HasNodes?
    case ReplaceCache(o) => o in s.ops && s.ops[o].HasRooms?
    case Deliver(_, channel, data) => (channel, data) in s.messages
    case _ => true
  }

  // ---------------------------------------------------------------------------
  // Claiming
  // ---------------------------------------------------------------------------

  /** A claim looks into the cache first; an entry for this node itself is granted unchecked. */
  function OnStartClaim(k: Cluster, s: System, o: nat, n: string, r: string): System {
    match RoomAddress(CacheOf(s, n), r)
    case None => SetOp(s, o, Claiming(n, r))
    case Some(a) => if a == k.address(n) then Finish(s, o, CacheGranted(n, r)) else SetOp(s, o, Refreshing(n, r, a))
  }

  /** The cached redirect is stale: forget it and run the script. */
  function OnStale(s: System, o: nat, n: string, r: string): System {
    SetOp(SetCache(s, n, EraseRoom(CacheOf(s, n), r)), o, Claiming(n, r))
  }

  function OnRefreshRoom(s: System, o: nat): System
    requires o in s.ops && s.ops[o].Refreshing?
  {
    var op := s.ops[o];
    if op.room !in s.redis.rooms then OnStale(s, o, op.node, op.room)
    else SetOp(s, o, RefreshingNode(op.node, op.room, op.cached, s.redis.rooms[op.room]))
  }

  function OwnerAnswer(k: Cluster, n: string, r: string, a: string): Answer {
    if a == k.address(n) then RefreshGranted(n, r) else Redirected(n, r, a)
  }

  function OnRefreshNode(k: Cluster, s: System, o: nat): System
    requires o in s.ops && s.ops[o].RefreshingNode?
  {
    var op := s.ops[o];
    var a := if op.owner in s.redis.nodes then Parse(s.redis.nodes[op.owner]).address else "";
    if a == "" then OnStale(s, o, op.node, op.room)
    else if a == op.cached then Finish(s, o, OwnerAnswer(k, op.node, op.room, a))
    else Finish(SetCache(s, op.node, UpsertRoom(CacheOf(s, op.node), op.room, a)), o, OwnerAnswer(k, op.node, op.room, a))
  }

  function OnScript(s: System, o: nat): System
    requires o in s.ops && s.ops[o].Claiming?
  {
    var n, r := s.ops[o].node, s.ops[o].room;
    var (redis, reply) := Eval(s.redis, r, n);
    match reply
    case Owned(value) => SetOp(s, o, Following(n, r, value))
    case _ => SetOp(s.(redis := redis, owned := s.owned + {(r, n)}), o, Claimed(n, r, reply.Fresh?))
  }

  function OnFollow(s: System, o: nat): System
    requires o in s.ops && s.ops[o].Following?
  {
    var op := s.ops[o];
    var a := Parse(op.value).address;
    if a == "" then Drop(s, o)
    else Finish(SetCache(s, op.node, UpsertRoom(CacheOf(s, op.node), op.room, a)), o, Redirected(op.node, op.room, a))
  }

  // ---------------------------------------------------------------------------
  // Resolving and snapshots
  // ---------------------------------------------------------------------------

  function OnStartResolve(s: System, o: nat, n: string, r: string): System {
    match RoomAddress(CacheOf(s, n), r)
    case Some(a) => Finish(s, o, Resolved(n, r, a))
    case None => SetOp(s, o, Resolving(n, r))
  }

  function Remember(s: System, o: nat, n: string, r: string, a: string): System {
    Finish(SetCache(s, n, UpsertRoom(CacheOf(s, n), r, a)), o, Resolved(n, r, a))
  }

  function OnResolveRoom(s: System, o: nat): System
    requires o in s.ops && s.ops[o].Resolving?
  {
    var n, r := s.ops[o].node, s.ops[o].room;
    if r !in s.redis.rooms then SetOp(s, o, Choosing(n, r))
    else
      var owner := s.redis.rooms[r];
      var a := NodeAddress(CacheOf(s, n), owner);
      if a != "" then Remember(s, o, n, r, a) else SetOp(s, o, ResolvingNode(n, r, owner))
  }

  function OnResolveNode(s: System, o: nat): System
    requires o in s.ops && s.ops[o].ResolvingNode?
  {
    var op := s.ops[o];
    if op.owner !in s.redis.nodes then SetOp(s, o, Choosing(op.node, op.room))
    else
      var info := Parse(s.redis.nodes[op.owner]);
      if info.address == "" then SetOp(s, o, Choosing(op.node, op.room))
      else Remember(SetCache(s, op.node, UpsertNode(CacheOf(s, op.node), op.owner, info)), o, op.node, op.room, info.address)
  }

  function NodesRead(r: Redis, ids: set<string>): map<string, NodeInfo> {
    map id | id in ids && id in r.nodes :: Parse(r.nodes[id])
  }

  function RoomsRead(r: Redis, rooms: set<string>, nodes: map<string, NodeInfo>): map<string, string> {
    map room | room in rooms && room in r.rooms && r.rooms[room] in nodes :: nodes[r.rooms[room]].address
  }

  /** Exactly the scanned nodes that are alive, with their current values. */
  ghost predicate NodesAsStored(r: Redis, ids: set<string>, nodes: map<string, NodeInfo>) {
    && (forall id :: id in ids && id in r.nodes ==> id in nodes && nodes[id] == Parse(r.nodes[id]))
    && (forall id :: id in nodes ==> id in ids && id in r.nodes)
  }

  /** Exactly the scanned rooms whose owner was read, each with its owner's address. */
  ghost predicate RoomsAsStored(r: Redis, keys: set<string>, nodes: map<string, NodeInfo>, rooms: map<string, string>) {
    && (forall room :: room in keys && room in r.rooms && r.rooms[room] in nodes ==>
          room in rooms && rooms[room] == nodes[r.rooms[room]].address)
    && (forall room :: room in rooms ==> room in keys && room in r.rooms && r.rooms[room] in nodes)
  }

  lemma {:induction false} SnapshotsMissNothing(r: Redis, ids: set<string>, keys: set<string>, nodes: map<string, NodeInfo>)
    ensures NodesAsStored(r, ids, NodesRead(r, ids))
    ensures RoomsAsStored(r, keys, nodes, RoomsRead(r, keys, nodes))
  {
  }

  // ---------------------------------------------------------------------------
  // Steps
  // ---------------------------------------------------------------------------

  function WithoutRoom(s: System, r: string): System {
    s.(redis := s.redis.(rooms := s.redis.rooms - {r}))
  }

  function Apply(k: Cluster, s: System, step: Step): System
    requires Enabled(k, s, step)
  {
    match step
    case StoreNode(n, info) => s.(redis := s.redis.(nodes := s.redis.nodes[n := Build(info)]))
    case CacheOwnNode(n, info) => SetCache(s, n, UpsertNode(CacheOf(s, n), n, Parse(Build(info))))
    case PublishNode(n, info) => Send(s, Nodes, Message(n, Build(info)))
    case DropNode(n) => s.(redis := s.redis.(nodes := s.redis.nodes - {n}))
    case PublishNodeGone(n) => Send(s, Nodes, Message(n, ""))
    case ExpireRoom(r) => WithoutRoom(s, r)
    case DeleteRoom(_, r) => WithoutRoom(s, r)
    case EraseCached(n, r) => SetCache(s, n, EraseRoom(CacheOf(s, n), r))
    case PublishRoomGone(r) => Send(s, Rooms, Message(r, ""))
    case StartClaim(o, n, r) => OnStartClaim(k, s, o, n, r)
    case RefreshRoom(o) => OnRefreshRoom(s, o)
    case RefreshNode(o) => OnRefreshNode(k, s, o)
    case RunScript(o) => OnScript(s, o)
    case Keep(o) =>
      var n, r := s.ops[o].node, s.ops[o].room;
      SetOp(SetCache(s, n, UpsertRoom(CacheOf(s, n), r, k.address(n))), o, Announcing(n, r))
    case Release(o, best) => SetOp(s, o, Releasing(s.ops[o].node, s.ops[o].room, best))
    case DeleteReleased(o) =>
      var op := s.ops[o];
      Finish(WithoutRoom(s, op.room), o, Referred(op.node, op.room, op.best))
    case Announce(o) =>
      var n, r := s.ops[o].node, s.ops[o].room;
      Finish(Send(s, Rooms, Message(r, k.address(n))), o, Granted(n, r))
    case Follow(o) => OnFollow(s, o)
    case StartResolve(o, n, r) => OnStartResolve(s, o, n, r)
    case ResolveRoom(o) => OnResolveRoom(s, o)
    case ResolveNode(o) => OnResolveNode(s, o)
    case Choose(o, best) => Finish(s, o, Proposed(s.ops[o].node, s.ops[o].room, best))
    case ReadNodes(o, n, ids) => SetOp(s, o, HasNodes(n, NodesRead(s.redis, ids)))
    case MergeSnapshot(o) =>
      var n := s.ops[o].node;
      Drop(SetCache(s, n, MergeNodes(CacheOf(s, n), s.ops[o].nodes)), o)
    case ReadRooms(o, rooms) =>
      var op := s.ops[o];
      SetOp(s, o, HasRooms(op.node, op.nodes, RoomsRead(s.redis, rooms, op.nodes)))
    case ReplaceCache(o) => Drop(SetCache(s, s.ops[o].node, Cache(s.ops[o].nodes, s.ops[o].rooms)), o)
    case Deliver(n, channel, data) => SetCache(s, n, Handle(CacheOf(s, n), channel, data))
    case Evict(n, dead) => SetCache(s, n, EraseNode(CacheOf(s, n), dead))
    case Fail(o) => Drop(s, o)
    case Restart(n) => SetCache(s, n, EMPTY)
  }

  /** A sequence of states in which each follows from the one before by the given step. */
  ghost predicate IsPath<S(!new), T(!new)>(related: (S, T, S) -> bool, run: seq<S>, steps: seq<T>) {
    |run| == |steps| + 1 && forall i :: 0 <= i < |steps| ==> related(run[i], steps[i], run[i + 1])
  }

  ghost function StepRelation(k: Cluster): (System, Step, System) -> bool {
    (s: System, step: Step, s': System) => Enabled(k, s, step) && s' == Apply(k, s, step)
  }

  ghost predicate IsRun(k: Cluster, run: seq<System>, steps: seq<Step>) {
    IsPath(StepRelation(k), run, steps) && run[0] == INITIAL
  }

  lemma StepAt(k: Cluster, run: seq<System>, steps: seq<Step>, i: nat)
    requires IsRun(k, run, steps) && i < |steps|
    ensures Enabled(k, run[i], steps[i]) && run[i + 1] == Apply(k, run[i], steps[i])
  {
    assert StepRelation(k)(run[i], steps[i], run[i + 1]);
  }

  lemma PathSnoc<S(!new), T(!new)>(related: (S, T, S) -> bool, run: seq<S>, steps: seq<T>, step: T, next: S)
    requires IsPath(related, run, steps) && related(run[|run| - 1], step, next)
    ensures IsPath(related, run + [next], steps + [step])
  {
  }
}
