/**
 How long a node forgets a room: once its cache entry is erased, a claim runs the script and a
 resolution asks the store, until a step of the protocol writes the entry again.
 */
module CacheEntries {
  import opened Options
  import opened NodeValues
  import opened CacheView
  import opened RoomOwnership

  ghost predicate Knows(s: System, node: string, room: string) {
    room in CacheOf(s, node).rooms
  }

  /** The steps by which an entry for the room can get into the cache of the node. */
  ghost predicate Writes(s: System, step: Step, node: string, room: string) {
    match step
    case RefreshNode(o) => OnRoom(s, o, node, room)
    case Keep(o) => OnRoom(s, o, node, room)
    case Follow(o) => OnRoom(s, o, node, room)
    case ResolveRoom(o) => OnRoom(s, o, node, room)
    case ResolveNode(o) => OnRoom(s, o, node, room)
    case ReplaceCache(o) => o in s.ops && s.ops[o].HasRooms? && s.ops[o].node == node && room in s.ops[o].rooms
    case Deliver(n, channel, data) => n == node && channel.Rooms? && exists val :: val != "" && SplitMessage(data) == Some((room, val))
    case _ => false
  }

  ghost predicate OnRoom(s: System, o: nat, node: string, room: string) {
    o in s.ops && !s.ops[o].HasNodes? && !s.ops[o].HasRooms? && s.ops[o].node == node && s.ops[o].room == room
  }

  /** The steps by which an entry leaves the cache for the room's own sake: unregistered, found stale, or announced as removed. */
  ghost predicate Erases(s: System, step: Step, node: string, room: string) {
    match step
    case EraseCached(n, r) => n == node && r == room
    case RefreshRoom(o) => o in s.ops && s.ops[o].Refreshing? && s.ops[o].node == node && s.ops[o].room == room && room !in s.redis.rooms
    case RefreshNode(o) =>
      o in s.ops && s.ops[o].RefreshingNode? && s.ops[o].node == node && s.ops[o].room == room && s.ops[o].owner !in s.redis.nodes
    case Deliver(n, channel, data) => n == node && channel.Rooms? && SplitMessage(data) == Some((room, ""))
    case _ => false
  }

  lemma {:induction false} ErasingForgets(k: Cluster, s: System, step: Step, node: string, room: string)
    requires Enabled(k, s, step) && Erases(s, step, node, room)
    ensures !Knows(Apply(k, s, step), node, room)
  {
    RoomWrites(CacheOf(s, node), room, "");
  }

  ghost predicate IsLookup(step: Step) {
    step.StartClaim? || step.RefreshRoom? || step.RefreshNode?
  }

  ghost predicate IsClaim(step: Step) {
    step.RunScript? || step.Follow? || step.Keep?
  }

  ghost predicate IsResolve(step: Step) {
    step.StartResolve? || step.ResolveRoom? || step.ResolveNode?
  }

  lemma {:induction false} LookupsTeachNothing(k: Cluster, s: System, step: Step, node: string, room: string)
    requires Enabled(k, s, step) && !Writes(s, step, node, room) && !Knows(s, node, room) && IsLookup(step)
    ensures !Knows(Apply(k, s, step), node, room)
  {
    match step
    case StartClaim(o, n, r) => assert CacheOf(OnStartClaim(k, s, o, n, r), node) == CacheOf(s, node);
    case RefreshRoom(o) => RoomWrites(CacheOf(s, s.ops[o].node), s.ops[o].room, "");
    case RefreshNode(o) => RoomWrites(CacheOf(s, s.ops[o].node), s.ops[o].room, "");
  }

  lemma {:induction false} ClaimsTeachNothing(k: Cluster, s: System, step: Step, node: string, room: string)
    requires Enabled(k, s, step) && !Writes(s, step, node, room) && !Knows(s, node, room) && IsClaim(step)
    ensures !Knows(Apply(k, s, step), node, room)
  {
    if step.RunScript? { assert CacheOf(OnScript(s, step.op), node) == CacheOf(s, node); }
  }

  lemma {:induction false} ResolvesTeachNothing(k: Cluster, s: System, step: Step, node: string, room: string)
    requires Enabled(k, s, step) && !Writes(s, step, node, room) && !Knows(s, node, room) && IsResolve(step)
    ensures !Knows(Apply(k, s, step), node, room)
  {
    if step.StartResolve? { assert CacheOf(OnStartResolve(s, step.op, step.node, step.room), node) == CacheOf(s, node); }
  }

  lemma {:induction false} OthersTeachNothing(k: Cluster, s: System, step: Step, node: string, room: string)
    requires Enabled(k, s, step) && !Writes(s, step, node, room) && !Knows(s, node, room)
    requires !IsLookup(step) && !IsClaim(step) && !IsResolve(step)
    ensures !Knows(Apply(k, s, step), node, room)
  {
    if step.Deliver? && step.node == node { DeliveryWrites(CacheOf(s, node), step.channel, step.data, room); }
  }

  lemma {:induction false} DeliveryWrites(c: Cache, channel: Topic, data: string, room: string)
    requires room !in c.rooms
    ensures room in Handle(c, channel, data).rooms ==> channel.Rooms? && exists val :: val != "" && SplitMessage(data) == Some((room, val))
  {
    if SplitMessage(data).Some? {
      var (key, val) := SplitMessage(data).value;
      NodeWrites(c, key, NO_NODE, map[]);
    }
  }

  lemma {:induction false} StepTeachesNothing(k: Cluster, s: System, step: Step, node: string, room: string)
    requires Enabled(k, s, step) && !Writes(s, step, node, room) && !Knows(s, node, room)
    ensures !Knows(Apply(k, s, step), node, room)
  {
    if IsLookup(step) {
      LookupsTeachNothing(k, s, step, node, room);
    } else if IsClaim(step) {
      ClaimsTeachNothing(k, s, step, node, room);
    } else if IsResolve(step) {
      ResolvesTeachNothing(k, s, step, node, room);
    } else {
      OthersTeachNothing(k, s, step, node, room);
    }
  }

  lemma {:induction false} StaysForgotten(k: Cluster, run: seq<System>, steps: seq<Step>, i: nat, j: nat, node: string, room: string)
    requires IsRun(k, run, steps) && i <= j < |run| && !Knows(run[i], node, room)
    requires forall m: nat :: i <= m < j ==> !Writes(run[m], steps[m], node, room)
    ensures !Knows(run[j], node, room)
    decreases j - i
  {
    if i < j {
      StaysForgotten(k, run, steps, i, j - 1, node, room);
      StepAt(k, run, steps, j - 1);
      StepTeachesNothing(k, run[j - 1], steps[j - 1], node, room);
    }
  }

  /**
   In every run: after a node has erased a room, its next claim or resolution of that room does not
   answer from the cache, unless the entry was written again in between.
   */
  lemma {:induction false} ErasedRoomIsAskedAgain(k: Cluster, run: seq<System>, steps: seq<Step>, i: nat, j: nat, node: string, room: string)
    requires IsRun(k, run, steps) && i < j < |steps| && Erases(run[i], steps[i], node, room)
    requires forall m: nat :: i < m < j ==> !Writes(run[m], steps[m], node, room)
    ensures steps[j].StartClaim? && steps[j].node == node && steps[j].room == room ==>
              run[j + 1] == SetOp(run[j], steps[j].op, Claiming(node, room))
    ensures steps[j].StartResolve? && steps[j].node == node && steps[j].room == room ==>
              run[j + 1] == SetOp(run[j], steps[j].op, Resolving(node, room))
  {
    StepAt(k, run, steps, i);
    ErasingForgets(k, run[i], steps[i], node, room);
    StaysForgotten(k, run, steps, i + 1, j, node, room);
    StepAt(k, run, steps, j);
  }
}
