/**
 The registry calls of one node as the code runs them against the store. Each call is shown to
 be a sequence of protocol steps, so what holds of every protocol run holds of the object.
 */
module RoomRegistry {
  import opened Options
  import opened NodeValues
  import opened CacheView
  import opened RoomOwnership
  import Safety = RoomOwnershipSafety

  ghost function Last(run: seq<System>): System
    requires run != []
  {
    run[|run| - 1]
  }

  /** The caches of all other nodes and all other operations are as they were, and no answer is taken back. */
  ghost predicate Local(s: System, t: System, node: string, o: nat) {
    && (forall n :: n != node ==> CacheOf(t, n) == CacheOf(s, n))
    && t.ops - {o} == s.ops - {o}
    && s.answers <= t.answers
  }

  ghost predicate Extended(run: seq<System>, longer: seq<System>, node: string, o: nat) {
    run != [] && run <= longer && Local(Last(run), Last(longer), node, o)
  }

  /** The step is one of the node's own, on operation o if on any, or only changes keys of the store. */
  ghost predicate Concerns(s: System, step: Step, node: string, o: nat) {
    match step
    case ExpireRoom(_) => true
    case StoreNode(_, _) => true
    case DropNode(_) => true
    case EraseCached(n, _) => n == node
    case DeleteRoom(n, _) => n == node
    case PublishRoomGone(_) => true
    case StartClaim(p, n, _) => n == node && p == o
    case StartResolve(p, n, _) => n == node && p == o
    case ReadNodes(p, n, _) => n == node && p == o
    case Deliver(n, _, _) => n == node
    case Restart(n) => n == node
    case RefreshRoom(p) => OwnOp(s, p, node, o)
    case RefreshNode(p) => OwnOp(s, p, node, o)
    case RunScript(p) => OwnOp(s, p, node, o)
    case Keep(p) => OwnOp(s, p, node, o)
    case Release(p, _) => OwnOp(s, p, node, o)
    case DeleteReleased(p) => OwnOp(s, p, node, o)
    case Announce(p) => OwnOp(s, p, node, o)
    case Follow(p) => OwnOp(s, p, node, o)
    case ResolveRoom(p) => OwnOp(s, p, node, o)
    case ResolveNode(p) => OwnOp(s, p, node, o)
    case Choose(p, _) => OwnOp(s, p, node, o)
    case MergeSnapshot(p) => OwnOp(s, p, node, o)
    case ReadRooms(p, _) => OwnOp(s, p, node, o)
    case ReplaceCache(p) => OwnOp(s, p, node, o)
    case _ => false
  }

  ghost predicate OwnOp(s: System, p: nat, node: string, o: nat) {
    p == o && p in s.ops && s.ops[p].node == node
  }

  lemma {:induction false} StepIsLocal(k: Cluster, s: System, step: Step, node: string, o: nat)
    requires Enabled(k, s, step) && Concerns(s, step, node, o)
    ensures Local(s, Apply(k, s, step), node, o)
  {
    if step.StartClaim? || step.RefreshRoom? || step.RefreshNode? {
      CacheLookupIsLocal(k, s, step, node, o);
    } else if step.RunScript? || step.Follow? {
      ScriptIsLocal(k, s, step, node, o);
    } else if step.StartResolve? || step.ResolveRoom? || step.ResolveNode? {
      ResolveIsLocal(k, s, step, node, o);
    } else if TouchesNoOp(step) {
      KeyStepIsLocal(k, s, step, node, o);
    } else {
      PlainStepIsLocal(k, s, step, node, o);
    }
  }

  lemma CacheLookupIsLocal(k: Cluster, s: System, step: Step, node: string, o: nat)
    requires Enabled(k, s, step) && Concerns(s, step, node, o)
    requires step.StartClaim? || step.RefreshRoom? || step.RefreshNode?
    ensures Local(s, Apply(k, s, step), node, o)
  {
  }

  lemma ScriptIsLocal(k: Cluster, s: System, step: Step, node: string, o: nat)
    requires Enabled(k, s, step) && Concerns(s, step, node, o) && (step.RunScript? || step.Follow?)
    ensures Local(s, Apply(k, s, step), node, o)
  {
  }

  lemma ResolveIsLocal(k: Cluster, s: System, step: Step, node: string, o: nat)
    requires Enabled(k, s, step) && Concerns(s, step, node, o)
    requires step.StartResolve? || step.ResolveRoom? || step.ResolveNode?
    ensures Local(s, Apply(k, s, step), node, o)
  {
  }

  ghost predicate TouchesNoOp(step: Step) {
    || step.ExpireRoom? || step.StoreNode? || step.DropNode? || step.EraseCached? || step.DeleteRoom?
    || step.PublishRoomGone? || step.Deliver? || step.Restart?
  }

  lemma {:induction false} KeyStepIsLocal(k: Cluster, s: System, step: Step, node: string, o: nat)
    requires Enabled(k, s, step) && Concerns(s, step, node, o) && TouchesNoOp(step)
    ensures Local(s, Apply(k, s, step), node, o)
  {
  }

  lemma {:induction false} PlainStepIsLocal(k: Cluster, s: System, step: Step, node: string, o: nat)
    requires Enabled(k, s, step) && Concerns(s, step, node, o)
    requires !step.StartClaim? && !step.RefreshRoom? && !step.RefreshNode? && !step.RunScript? && !step.Follow?
    requires !step.StartResolve? && !step.ResolveRoom? && !step.ResolveNode? && !TouchesNoOp(step)
    ensures Local(s, Apply(k, s, step), node, o)
  {
  }

  lemma OpsRestored(s: System, t: System, node: string, o: nat)
    requires Local(s, t, node, o) && o !in s.ops && o !in t.ops
    ensures t.ops == s.ops
  {
    assert s.ops - {o} == s.ops && t.ops - {o} == t.ops;
  }

  /**
   The shared store, one command at a time. It also carries the protocol run that the commands
   and local updates of all nodes amount to so far.
   */
  class RedisStore {
    ghost const k: Cluster
    var rooms: map<string, string>
    var nodes: map<string, string>
    ghost var run: seq<System>
    ghost var steps: seq<Step>

    function View(): Redis
      reads this
    {
      Redis(rooms, nodes)
    }

    ghost predicate Valid()
      reads this
    {
      IsRun(k, run, steps) && Last(run).redis == View()
    }

    constructor (ghost k: Cluster)
      ensures Valid() && this.k == k && run == [INITIAL]
    {
      this.k := k;
      rooms, nodes, run, steps := map[], map[], [INITIAL], [];
    }

    /** Extends the run by one step, which concerns only the given node and operation. */
    ghost method Take(step: Step, node: string, o: nat)
      requires IsRun(k, run, steps) && Enabled(k, Last(run), step) && Concerns(Last(run), step, node, o)
      modifies this`run, this`steps
      ensures IsRun(k, run, steps) && Last(run) == Apply(k, old(Last(run)), step)
      ensures Extended(old(run), run, node, o)
    {
      var next := Apply(k, Last(run), step);
      PathSnoc(StepRelation(k), run, steps, step, next);
      StepIsLocal(k, Last(run), step, node, o);
      run, steps := run + [next], steps + [step];
    }

    /** A room key expires. */
    method ExpireRoomKey(room: string, ghost node: string, ghost o: nat)
      requires Valid()
      modifies this
      ensures Valid() && Extended(old(run), run, node, o)
      ensures View() == Redis(old(rooms) - {room}, old(nodes))
      ensures Last(run).caches == old(Last(run)).caches && Last(run).ops == old(Last(run)).ops
    {
      Take(ExpireRoom(room), node, o);
      rooms := rooms - {room};
    }

    /** A node renews its key. */
    method StoreNodeKey(id: string, info: NodeInfo, ghost node: string, ghost o: nat)
      requires Valid() && info.address == k.address(id)
      modifies this
      ensures Valid() && Extended(old(run), run, node, o)
      ensures View() == Redis(old(rooms), old(nodes)[id := Build(info)])
      ensures Last(run).caches == old(Last(run)).caches && Last(run).ops == old(Last(run)).ops
    {
      Take(StoreNode(id, info), node, o);
      nodes := nodes[id := Build(info)];
    }

    /** A node key expires or is removed. */
    method DropNodeKey(id: string, ghost node: string, ghost o: nat)
      requires Valid()
      modifies this
      ensures Valid() && Extended(old(run), run, node, o)
      ensures View() == Redis(old(rooms), old(nodes) - {id})
      ensures Last(run).caches == old(Last(run)).caches && Last(run).ops == old(Last(run)).ops
    {
      Take(DropNode(id), node, o);
      nodes := nodes - {id};
    }

    /** The claim script. */
    method EvalClaim(room: string, node: string) returns (reply: Reply)
      modifies this`rooms
      ensures (View(), reply) == Eval(old(View()), room, node)
    {
      if room !in rooms {
        rooms := rooms[room := node];
        return Fresh;
      }
      var owner := rooms[room];
      if owner == node { return Self; }
      if owner !in nodes {
        rooms := rooms[room := node];
        return Taken(owner);
      }
      reply := Owned(nodes[owner]);
    }
  }

  datatype ClaimResult = Grant | RedirectTo(address: string) | Threw

  /** The address that the store knows for the owner of a room; empty when owner or node key is missing. */
  function RecordedAddress(r: Redis, room: string): string {
    if room in r.rooms && r.rooms[room] in r.nodes then Parse(r.nodes[r.rooms[room]]).address else ""
  }

  /** The store names a live owner other than the node. */
  predicate HeldByOther(r: Redis, room: string, node: string) {
    room in r.rooms && r.rooms[room] != node && r.rooms[room] in r.nodes
  }

  /**
   What a claim deserves, by the store alone: the room of a live node belongs to it, a free room
   goes to the better node if there is one, and any other room to the claimer.
   */
  function Verdict(r: Redis, room: string, node: string, own: string, best: string): ClaimResult {
    Judged(HeldByOther(r, room, node), room !in r.rooms, RecordedAddress(r, room), own, best)
  }

  function Judged(held: bool, free: bool, recorded: string, own: string, best: string): ClaimResult {
    if held then (if recorded == "" then Threw else RedirectTo(recorded))
    else if free && best != "" && best != own then RedirectTo(best)
    else Grant
  }

  /** The owner's address as far as node cache and store know it. */
  function KnownAddress(c: Cache, r: Redis, room: string): string {
    if room !in r.rooms then ""
    else if NodeAddress(c, r.rooms[room]) != "" then NodeAddress(c, r.rooms[room])
    else RecordedAddress(r, room)
  }

  /** Every scanned node that is alive is known with its current value. */
  ghost predicate UpToDate(c: Cache, r: Redis, nodeKeys: seq<string>) {
    forall id :: id in nodeKeys && id in r.nodes ==> id in c.nodes && c.nodes[id] == Parse(r.nodes[id])
  }

  /** No node but this one is known with an address. */
  ghost predicate KnowsNoOther(c: Cache, node: string) {
    forall id :: id in c.nodes && c.nodes[id].address != "" ==> id == node
  }

  /** The choice is nothing, or this node itself for want of any other. */
  predicate KnowsTooLittle(c: Cache, best: string, node: string, own: string) {
    best == "" || (best == own && !exists id :: id in c.nodes && id != node && c.nodes[id].address != "")
  }

  /** The node for a new room: the choice of the cache, or of the cache with the nodes read again. */
  function Chosen(choose: Cache -> string, c: Cache, r: Redis, nodeKeys: seq<string>, node: string, own: string): string {
    if KnowsTooLittle(c, choose(c), node, own) then choose(MergeNodes(c, NodesRead(r, set id | id in nodeKeys)))
    else choose(c)
  }

  /** A claim that looks into the cache first, and at the recorded owner when the cache names another node. */
  function ClaimOutcome(c: Cache, r: Redis, room: string, node: string, own: string, best: string): ClaimResult {
    AfterCache(RoomAddress(c, room), RecordedAddress(r, room), own, Verdict(r, room, node, own, best))
  }

  function AfterCache(cached: Option<string>, recorded: string, own: string, verdict: ClaimResult): ClaimResult {
    if cached.None? then verdict
    else if cached.value == own then Grant
    else if recorded == "" then verdict
    else if recorded == own then Grant
    else RedirectTo(recorded)
  }

  /** Node values in store and cache carry the addresses of their nodes. */
  ghost predicate AddressesOk(k: Cluster, c: Cache, r: Redis) {
    && (forall id :: id in r.nodes ==> Parse(r.nodes[id]).address == k.address(id) != "")
    && (forall id :: id in c.nodes ==> c.nodes[id].address == k.address(id))
  }

  /** Apart from an entry for the node itself, the cache has no influence on a claim. */
  lemma {:induction false} OnlyOwnEntryMatters(k: Cluster, c: Cache, r: Redis, room: string, node: string, best: string)
    requires AddressesOk(k, c, r)
    ensures var result := ClaimOutcome(c, r, room, node, k.address(node), best);
            && !result.Threw?
            && (DistinctAddresses(k) && RoomAddress(c, room) != Some(k.address(node)) ==>
                  result == Verdict(r, room, node, k.address(node), best))
  {
    RecordedIsOwner(k, c, r, room);
    var own, recorded, held := k.address(node), RecordedAddress(r, room), HeldByOther(r, room, node);
    assert held ==> recorded != "";
    assert recorded != "" && !held ==> r.rooms[room] == node && recorded == own;
    assert DistinctAddresses(k) && held ==> recorded != own;
    CacheIsNoMatter(RoomAddress(c, room), held, room !in r.rooms, recorded, own, best);
  }

  lemma RecordedIsOwner(k: Cluster, c: Cache, r: Redis, room: string)
    requires AddressesOk(k, c, r)
    ensures RecordedAddress(r, room) ==
            if room in r.rooms && r.rooms[room] in r.nodes then k.address(r.rooms[room]) else ""
    ensures room in r.rooms && r.rooms[room] in r.nodes ==> k.address(r.rooms[room]) != ""
  {
  }

  lemma CacheIsNoMatter(cached: Option<string>, held: bool, free: bool, recorded: string, own: string, best: string)
    requires (held ==> recorded != "") && (recorded != "" && !held ==> recorded == own && !free)
    ensures var result := AfterCache(cached, recorded, own, Judged(held, free, recorded, own, best));
            && !result.Threw?
            && (cached != Some(own) && (held ==> recorded != own) ==> result == Judged(held, free, recorded, own, best))
  {
  }

  lemma KnownIsOwner(k: Cluster, c: Cache, r: Redis, room: string)
    requires AddressesOk(k, c, r)
    ensures var a := KnownAddress(c, r, room);
            && (a == "" ==> room !in r.rooms || r.rooms[room] !in r.nodes)
            && (a != "" ==> room in r.rooms && a == k.address(r.rooms[room]))
  {
  }

  lemma {:induction false} RemovalIsUnderstood(c: Cache, data: string)
    ensures var d := Handle(c, Topic.Rooms, data);
            forall room :: '=' !in room && data == Message(room, "") ==> room !in d.rooms && SameButRoom(c, d, room)
  {
    forall room | '=' !in room && data == Message(room, "")
      ensures room !in Handle(c, Topic.Rooms, data).rooms && SameButRoom(c, Handle(c, Topic.Rooms, data), room)
    {
      RoomMessagesAreUnderstood(c, room, "");
    }
  }

  class Registry {
    const k: Cluster
    const nodeId: string
    const redis: RedisStore
    const cache: CacheObject

    ghost predicate Valid()
      reads this, redis, cache
    {
      redis.Valid() && redis.k == k && CacheOf(Last(redis.run), nodeId) == cache.View()
    }

    /** A node joins the cluster that uses the store, with an empty cache. */
    constructor (k: Cluster, nodeId: string, redis: RedisStore)
      requires redis.Valid() && redis.k == k
      modifies redis`run, redis`steps
      ensures Valid() && fresh(cache) && this.k == k && this.nodeId == nodeId && this.redis == redis
      ensures old(redis.run) <= redis.run && cache.View() == EMPTY
      ensures Local(old(Last(redis.run)), Last(redis.run), nodeId, 0) && Last(redis.run).ops == old(Last(redis.run)).ops
    {
      this.k, this.nodeId, this.redis := k, nodeId, redis;
      cache := new CacheObject();
      new;
      redis.Take(Restart(nodeId), nodeId, 0);
    }

    /** What the protocol's invariant says about the store and the cache. */
    lemma StoreIsSound()
      requires Valid() && WellConfigured(k)
      ensures AddressesOk(k, cache.View(), redis.View())
    {
      Safety.EveryReachableStateIsSound(k, redis.run, redis.steps, |redis.run| - 1);
      Safety.CachedOk(k, Last(redis.run), nodeId);
    }

    /** refreshCachedRemoteRoomAddressUnlocked: the address of the recorded owner, or empty. */
    method RefreshedAddress(room: string, cached: string, ghost o: nat) returns (address: string)
      requires Valid() && o in Last(redis.run).ops && Last(redis.run).ops[o] == Refreshing(nodeId, room, cached)
      modifies redis`run, redis`steps, cache
      ensures Valid() && Extended(old(redis.run), redis.run, nodeId, o)
      ensures address != "" ==> o !in Last(redis.run).ops
      ensures address == RecordedAddress(redis.View(), room)
      ensures address == "" ==>
                && room !in cache.rooms && SameButRoom(old(cache.View()), cache.View(), room)
                && o in Last(redis.run).ops && Last(redis.run).ops[o] == Claiming(nodeId, room)
      ensures address != "" ==>
                && OwnerAnswer(k, nodeId, room, address) in Last(redis.run).answers
                && cache.View() == if address == cached then old(cache.View()) else UpsertRoom(old(cache.View()), room, address)
    {
      var owner := LookUpOwner(room, cached, o);
      address := "";
      if owner.Some? { address := RefreshedFromNode(room, cached, owner.value, o); }
    }

    /** GET the room; an unowned room is dropped from the cache. */
    method LookUpOwner(room: string, cached: string, ghost o: nat) returns (owner: Option<string>)
      requires Valid() && o in Last(redis.run).ops && Last(redis.run).ops[o] == Refreshing(nodeId, room, cached)
      modifies redis`run, redis`steps, cache
      ensures Valid() && Extended(old(redis.run), redis.run, nodeId, o)
      ensures owner == if room in redis.rooms then Some(redis.rooms[room]) else None
      ensures o in Last(redis.run).ops
      ensures owner.None? ==>
                && Last(redis.run).ops[o] == Claiming(nodeId, room)
                && room !in cache.rooms && SameButRoom(old(cache.View()), cache.View(), room)
      ensures owner.Some? ==>
                Last(redis.run).ops[o] == RefreshingNode(nodeId, room, cached, owner.value) && cache.View() == old(cache.View())
    {
      redis.Take(RefreshRoom(o), nodeId, o);
      if room !in redis.rooms {
        cache.DropRoom(room);
        return None;
      }
      owner := Some(redis.rooms[room]);
    }

    /** GET the owner's node. */
    method RefreshedFromNode(room: string, cached: string, owner: string, ghost o: nat) returns (address: string)
      requires Valid() && o in Last(redis.run).ops && Last(redis.run).ops[o] == RefreshingNode(nodeId, room, cached, owner)
      modifies redis`run, redis`steps, cache
      ensures Valid() && Extended(old(redis.run), redis.run, nodeId, o)
      ensures address != "" ==> o !in Last(redis.run).ops
      ensures address == if owner in redis.nodes then Parse(redis.nodes[owner]).address else ""
      ensures address == "" ==>
                && room !in cache.rooms && SameButRoom(old(cache.View()), cache.View(), room)
                && o in Last(redis.run).ops && Last(redis.run).ops[o] == Claiming(nodeId, room)
      ensures address != "" ==>
                && OwnerAnswer(k, nodeId, room, address) in Last(redis.run).answers
                && cache.View() == if address == cached then old(cache.View()) else UpsertRoom(old(cache.View()), room, address)
    {
      redis.Take(RefreshNode(o), nodeId, o);
      address := "";
      if owner in redis.nodes {
        var info := ParseNodeValue(redis.nodes[owner]);
        address := info.address;
      }
      if address == "" {
        cache.DropRoom(room);
      } else if address != cached {
        cache.PutRoom(room, address);
      }
    }

    /** The script replied with the value of a live owner. */
    method FollowOwner(room: string, value: string, ghost o: nat) returns (result: ClaimResult)
      requires Valid() && o in Last(redis.run).ops && Last(redis.run).ops[o] == Following(nodeId, room, value)
      modifies redis`run, redis`steps, cache
      ensures Valid() && Extended(old(redis.run), redis.run, nodeId, o)
      ensures o !in Last(redis.run).ops
      ensures result == if Parse(value).address == "" then Threw else RedirectTo(Parse(value).address)
      ensures result.RedirectTo? ==>
                && Redirected(nodeId, room, result.address) in Last(redis.run).answers
                && cache.View() == UpsertRoom(old(cache.View()), room, result.address)
    {
      redis.Take(Follow(o), nodeId, o);
      var info := ParseNodeValue(value);
      if info.address == "" { return Threw; }
      cache.PutRoom(room, info.address);
      result := RedirectTo(info.address);
    }

    /** A better node exists: give the fresh claim back. */
    method ReleaseClaim(room: string, best: string, ghost o: nat)
      requires Valid() && o in Last(redis.run).ops && Last(redis.run).ops[o] == Claimed(nodeId, room, true)
      requires best != "" && best != k.address(nodeId)
      modifies redis`run, redis`steps, redis
      ensures Valid() && Extended(old(redis.run), redis.run, nodeId, o)
      ensures o !in Last(redis.run).ops
      ensures redis.View() == Redis(old(redis.rooms) - {room}, old(redis.nodes))
      ensures Referred(nodeId, room, best) in Last(redis.run).answers
    {
      DecideRelease(room, best, o);
      DeleteClaim(room, best, o);
    }

    ghost method DecideRelease(room: string, best: string, o: nat)
      requires Valid() && o in Last(redis.run).ops && Last(redis.run).ops[o] == Claimed(nodeId, room, true)
      requires best != "" && best != k.address(nodeId)
      modifies redis`run, redis`steps
      ensures Valid() && Extended(old(redis.run), redis.run, nodeId, o)
      ensures o in Last(redis.run).ops && Last(redis.run).ops[o] == Releasing(nodeId, room, best)
    {
      redis.Take(Release(o, best), nodeId, o);
    }

    /** DEL the room. */
    method DeleteClaim(room: string, best: string, ghost o: nat)
      requires Valid() && o in Last(redis.run).ops && Last(redis.run).ops[o] == Releasing(nodeId, room, best)
      modifies redis
      ensures Valid() && Extended(old(redis.run), redis.run, nodeId, o)
      ensures o !in Last(redis.run).ops
      ensures redis.View() == Redis(old(redis.rooms) - {room}, old(redis.nodes))
      ensures Referred(nodeId, room, best) in Last(redis.run).answers
    {
      redis.Take(DeleteReleased(o), nodeId, o);
      redis.rooms := redis.rooms - {room};
    }

    /** The room is ours: cache it and tell the others. */
    method KeepClaim(room: string, isNew: bool, ghost o: nat)
      requires Valid() && o in Last(redis.run).ops && Last(redis.run).ops[o] == Claimed(nodeId, room, isNew)
      modifies redis`run, redis`steps, cache
      ensures Valid() && Extended(old(redis.run), redis.run, nodeId, o)
      ensures o !in Last(redis.run).ops
      ensures Granted(nodeId, room) in Last(redis.run).answers
      ensures cache.View() == UpsertRoom(old(cache.View()), room, k.address(nodeId))
      ensures (Topic.Rooms, Message(room, k.address(nodeId))) in Last(redis.run).messages
    {
      KeepRoom(room, isNew, o);
      AnnounceRoom(room, o);
    }

    method KeepRoom(room: string, isNew: bool, ghost o: nat)
      requires Valid() && o in Last(redis.run).ops && Last(redis.run).ops[o] == Claimed(nodeId, room, isNew)
      modifies redis`run, redis`steps, cache
      ensures Valid() && Extended(old(redis.run), redis.run, nodeId, o)
      ensures o in Last(redis.run).ops && Last(redis.run).ops[o] == Announcing(nodeId, room)
      ensures cache.View() == UpsertRoom(old(cache.View()), room, k.address(nodeId))
    {
      redis.Take(Keep(o), nodeId, o);
      cache.PutRoom(room, k.address(nodeId));
    }

    /** PUBLISH the new owner. */
    ghost method AnnounceRoom(room: string, o: nat)
      requires Valid() && o in Last(redis.run).ops && Last(redis.run).ops[o] == Announcing(nodeId, room)
      modifies redis`run, redis`steps
      ensures Valid() && Extended(old(redis.run), redis.run, nodeId, o)
      ensures o !in Last(redis.run).ops && Granted(nodeId, room) in Last(redis.run).answers
      ensures (Topic.Rooms, Message(room, k.address(nodeId))) in Last(redis.run).messages
    {
      redis.Take(Announce(o), nodeId, o);
    }

    method RunScriptOnce(room: string, ghost o: nat) returns (reply: Reply)
      requires Valid() && o in Last(redis.run).ops && Last(redis.run).ops[o] == Claiming(nodeId, room)
      modifies redis`run, redis`steps, redis
      ensures Valid() && Extended(old(redis.run), redis.run, nodeId, o)
      ensures (redis.View(), reply) == Eval(old(redis.View()), room, nodeId)
      ensures o in Last(redis.run).ops
      ensures Last(redis.run).ops[o] == match reply
                                  case Owned(value) => Following(nodeId, room, value)
                                  case _ => Claimed(nodeId, room, reply.Fresh?)
    {
      reply := redis.EvalClaim(room, nodeId);
      redis.Take(RunScript(o), nodeId, o);
    }

    /** Runs the script and acts on its reply; `best` is what findBestNodeCached returns then. */
    method RunClaimScript(room: string, best: string, ghost o: nat) returns (result: ClaimResult)
      requires Valid() && o in Last(redis.run).ops && Last(redis.run).ops[o] == Claiming(nodeId, room)
      modifies redis`run, redis`steps, redis, cache
      ensures Valid() && Extended(old(redis.run), redis.run, nodeId, o)
      ensures o !in Last(redis.run).ops
      ensures result == Verdict(old(redis.View()), room, nodeId, k.address(nodeId), best)
      ensures result.Grant? ==>
                && Granted(nodeId, room) in Last(redis.run).answers
                && redis.View() == Redis(old(redis.rooms)[room := nodeId], old(redis.nodes))
                && cache.View() == UpsertRoom(old(cache.View()), room, k.address(nodeId))
      ensures result.RedirectTo? ==>
                if room in old(redis.rooms) then Redirected(nodeId, room, result.address) in Last(redis.run).answers
                else Referred(nodeId, room, result.address) in Last(redis.run).answers
      ensures !result.Grant? ==> redis.View() == old(redis.View())
    {
      var reply := RunScriptOnce(room, o);
      if reply.Owned? {
        result := FollowOwner(room, reply.value, o);
      } else if reply.Fresh? && best != "" && best != k.address(nodeId) {
        ReleaseClaim(room, best, o);
        result := RedirectTo(best);
      } else {
        KeepClaim(room, reply.Fresh?, o);
        result := Grant;
      }
    }

    /**
     claimRoom. A cached entry for this node itself is granted unchecked; apart from that the
     result is what the store says, so a cached redirect, however stale, never changes it. The
     call throws only if a live owner's value has no address, which no reachable store contains.
     */
    method ClaimRoom(room: string, best: string, ghost o: nat) returns (result: ClaimResult)
      requires Valid() && o !in Last(redis.run).ops && '=' !in room
      modifies redis`run, redis`steps, redis, cache
      ensures Valid() && Extended(old(redis.run), redis.run, nodeId, o)
      ensures o !in Last(redis.run).ops
      ensures RoomAddress(old(cache.View()), room) == Some(k.address(nodeId)) ==>
                result.Grant? && redis.View() == old(redis.View()) && CacheGranted(nodeId, room) in Last(redis.run).answers
      ensures RoomAddress(old(cache.View()), room).None? ==>
                result == Verdict(old(redis.View()), room, nodeId, k.address(nodeId), best)
      ensures WellConfigured(k) && DistinctAddresses(k) && RoomAddress(old(cache.View()), room) != Some(k.address(nodeId)) ==>
                result == Verdict(old(redis.View()), room, nodeId, k.address(nodeId), best)
      ensures result.Threw? ==> HeldByOther(old(redis.View()), room, nodeId) && RecordedAddress(old(redis.View()), room) == ""
      ensures WellConfigured(k) ==> !result.Threw?
      ensures result.Grant? ==>
                || Granted(nodeId, room) in Last(redis.run).answers
                || CacheGranted(nodeId, room) in Last(redis.run).answers
                || RefreshGranted(nodeId, room) in Last(redis.run).answers
      ensures result.RedirectTo? ==>
                || Redirected(nodeId, room, result.address) in Last(redis.run).answers
                || (Referred(nodeId, room, result.address) in Last(redis.run).answers && result.address == best && room !in redis.rooms)
    {
      if WellConfigured(k) {
        StoreIsSound();
        OnlyOwnEntryMatters(k, cache.View(), redis.View(), room, nodeId, best);
      }
      result := DecideClaim(room, best, o);
    }

    method DecideClaim(room: string, best: string, ghost o: nat) returns (result: ClaimResult)
      requires Valid() && o !in Last(redis.run).ops && '=' !in room
      modifies redis`run, redis`steps, redis, cache
      ensures Valid() && Extended(old(redis.run), redis.run, nodeId, o)
      ensures o !in Last(redis.run).ops
      ensures result == ClaimOutcome(old(cache.View()), old(redis.View()), room, nodeId, k.address(nodeId), best)
      ensures RoomAddress(old(cache.View()), room) == Some(k.address(nodeId)) ==>
                redis.View() == old(redis.View()) && CacheGranted(nodeId, room) in Last(redis.run).answers
      ensures result.Grant? ==>
                || Granted(nodeId, room) in Last(redis.run).answers
                || CacheGranted(nodeId, room) in Last(redis.run).answers
                || RefreshGranted(nodeId, room) in Last(redis.run).answers
      ensures result.RedirectTo? ==>
                || Redirected(nodeId, room, result.address) in Last(redis.run).answers
                || (Referred(nodeId, room, result.address) in Last(redis.run).answers && result.address == best && room !in redis.rooms)
    {
      var cached := BeginClaim(room, o);
      if cached.None? {
        result := RunClaimScript(room, best, o);
      } else if cached.value == k.address(nodeId) {
        result := Grant;
      } else {
        result := ClaimCached(room, cached.value, best, o);
      }
    }

    /** What the cache says first. */
    method BeginClaim(room: string, ghost o: nat) returns (cached: Option<string>)
      requires Valid() && o !in Last(redis.run).ops && '=' !in room
      modifies redis`run, redis`steps
      ensures Valid() && Extended(old(redis.run), redis.run, nodeId, o)
      ensures cached == RoomAddress(cache.View(), room)
      ensures cached == Some(k.address(nodeId)) ==> o !in Last(redis.run).ops && CacheGranted(nodeId, room) in Last(redis.run).answers
      ensures cached != Some(k.address(nodeId)) ==>
                && o in Last(redis.run).ops
                && Last(redis.run).ops[o] == if cached.None? then Claiming(nodeId, room) else Refreshing(nodeId, room, cached.value)
    {
      redis.Take(StartClaim(o, nodeId, room), nodeId, o);
      cached := RoomAddress(cache.View(), room);
    }

    /** The cache names another node: confirm it, or forget it and run the script. */
    method ClaimCached(room: string, cached: string, best: string, ghost o: nat) returns (result: ClaimResult)
      requires Valid() && o in Last(redis.run).ops && Last(redis.run).ops[o] == Refreshing(nodeId, room, cached)
      modifies redis`run, redis`steps, redis, cache
      ensures Valid() && Extended(old(redis.run), redis.run, nodeId, o)
      ensures o !in Last(redis.run).ops
      ensures var recorded := RecordedAddress(old(redis.View()), room);
              result == if recorded == "" then Verdict(old(redis.View()), room, nodeId, k.address(nodeId), best)
                        else if recorded == k.address(nodeId) then Grant
                        else RedirectTo(recorded)
      ensures result.Grant? ==> Granted(nodeId, room) in Last(redis.run).answers || RefreshGranted(nodeId, room) in Last(redis.run).answers
      ensures result.RedirectTo? ==>
                || Redirected(nodeId, room, result.address) in Last(redis.run).answers
                || (Referred(nodeId, room, result.address) in Last(redis.run).answers && result.address == best && room !in redis.rooms)
    {
      var refreshed := RefreshedAddress(room, cached, o);
      if refreshed != "" {
        return if refreshed == k.address(nodeId) then Grant else RedirectTo(refreshed);
      }
      result := RunClaimScript(room, best, o);
    }

    /**
     resolveRoom. `choose` is findBestNodeCached for the client, as a function of the cache, and
     `nodeKeys` what a complete scan would return.
     */
    method ResolveRoomOwner(room: string, choose: Cache -> string, nodeKeys: seq<string>, ghost o: nat, ghost sync: nat)
      returns (address: string, isNew: bool)
      requires Valid() && o != sync && o !in Last(redis.run).ops && sync !in Last(redis.run).ops
      modifies redis`run, redis`steps, cache
      ensures Valid() && Extended(old(redis.run), redis.run, nodeId, o)
      ensures o !in Last(redis.run).ops
      ensures isNew <==> RoomAddress(old(cache.View()), room).None? && KnownAddress(old(cache.View()), redis.View(), room) == ""
      ensures isNew ==> address == Chosen(choose, old(cache.View()), redis.View(), nodeKeys, nodeId, k.address(nodeId))
      ensures isNew ==> Proposed(nodeId, room, address) in Last(redis.run).answers && cache.rooms == old(cache.rooms)
      ensures !isNew ==> Resolved(nodeId, room, address) in Last(redis.run).answers && RoomAddress(cache.View(), room) == Some(address)
      ensures !isNew ==> address == match RoomAddress(old(cache.View()), room)
                                    case Some(a) => a
                                    case None => KnownAddress(old(cache.View()), redis.View(), room)
      ensures WellConfigured(k) && isNew ==> room !in redis.rooms || redis.rooms[room] !in redis.nodes
      ensures WellConfigured(k) && !isNew && RoomAddress(old(cache.View()), room).None? ==>
                room in redis.rooms && address == k.address(redis.rooms[room])
    {
      if WellConfigured(k) {
        StoreIsSound();
        KnownIsOwner(k, cache.View(), redis.View(), room);
      }
      address, isNew := DecideResolve(room, choose, nodeKeys, o, sync);
    }

    method DecideResolve(room: string, choose: Cache -> string, nodeKeys: seq<string>, ghost o: nat, ghost sync: nat)
      returns (address: string, isNew: bool)
      requires Valid() && o != sync && o !in Last(redis.run).ops && sync !in Last(redis.run).ops
      modifies redis`run, redis`steps, cache
      ensures Valid() && Extended(old(redis.run), redis.run, nodeId, o)
      ensures o !in Last(redis.run).ops
      ensures isNew <==> RoomAddress(old(cache.View()), room).None? && KnownAddress(old(cache.View()), redis.View(), room) == ""
      ensures isNew ==> address == Chosen(choose, old(cache.View()), redis.View(), nodeKeys, nodeId, k.address(nodeId))
      ensures isNew ==> Proposed(nodeId, room, address) in Last(redis.run).answers && cache.rooms == old(cache.rooms)
      ensures !isNew ==> Resolved(nodeId, room, address) in Last(redis.run).answers && RoomAddress(cache.View(), room) == Some(address)
      ensures !isNew ==> address == match RoomAddress(old(cache.View()), room)
                                    case Some(a) => a
                                    case None => KnownAddress(old(cache.View()), redis.View(), room)
    {
      redis.Take(StartResolve(o, nodeId, room), nodeId, o);
      var cached := RoomAddress(cache.View(), room);
      if cached.Some? { return cached.value, false; }
      address := ResolveFromStore(room, o);
      isNew := address == "";
      if isNew {
        assert sync !in old(Last(redis.run)).ops - {o};
        address := ChooseNode(room, choose, nodeKeys, o, sync);
      }
    }

    /** The end of resolveRoom: choose a node, after reading the nodes again when the cache knows too little. */
    method ChooseNode(room: string, choose: Cache -> string, nodeKeys: seq<string>, ghost o: nat, ghost sync: nat)
      returns (address: string)
      requires Valid() && o in Last(redis.run).ops && Last(redis.run).ops[o] == Choosing(nodeId, room)
      requires sync !in Last(redis.run).ops
      modifies redis`run, redis`steps, cache
      ensures Valid() && Extended(old(redis.run), redis.run, nodeId, o)
      ensures o !in Last(redis.run).ops && cache.rooms == old(cache.rooms)
      ensures address == Chosen(choose, old(cache.View()), redis.View(), nodeKeys, nodeId, k.address(nodeId))
      ensures Proposed(nodeId, room, address) in Last(redis.run).answers
      ensures address == choose(cache.View())
      ensures choose(old(cache.View())) == "" ==> UpToDate(cache.View(), redis.View(), nodeKeys)
      ensures choose(old(cache.View())) == k.address(nodeId) && KnowsNoOther(old(cache.View()), nodeId) ==>
                UpToDate(cache.View(), redis.View(), nodeKeys)
      ensures choose(old(cache.View())) != "" && choose(old(cache.View())) != k.address(nodeId) ==> cache.View() == old(cache.View())
    {
      address := choose(cache.View());
      if KnowsTooLittle(cache.View(), address, nodeId, k.address(nodeId)) {
        ghost var before := Last(redis.run);
        SyncNodesSnapshot(nodeKeys, sync);
        OpsRestored(before, Last(redis.run), nodeId, sync);
        address := choose(cache.View());
      }
      Propose(room, address, o);
    }

    ghost method Propose(room: string, best: string, o: nat)
      requires Valid() && o in Last(redis.run).ops && Last(redis.run).ops[o] == Choosing(nodeId, room)
      modifies redis`run, redis`steps
      ensures Valid() && Extended(old(redis.run), redis.run, nodeId, o)
      ensures o !in Last(redis.run).ops
      ensures Proposed(nodeId, room, best) in Last(redis.run).answers
    {
      redis.Take(Choose(o, best), nodeId, o);
    }

    method ResolveFromStore(room: string, ghost o: nat) returns (address: string)
      requires Valid() && o in Last(redis.run).ops && Last(redis.run).ops[o] == Resolving(nodeId, room)
      modifies redis`run, redis`steps, cache
      ensures Valid() && Extended(old(redis.run), redis.run, nodeId, o)
      ensures address != "" ==> o !in Last(redis.run).ops
      ensures address == KnownAddress(old(cache.View()), redis.View(), room)
      ensures address == "" ==>
                cache.View() == old(cache.View()) && o in Last(redis.run).ops && Last(redis.run).ops[o] == Choosing(nodeId, room)
      ensures address != "" ==> Resolved(nodeId, room, address) in Last(redis.run).answers && RoomAddress(cache.View(), room) == Some(address)
    {
      redis.Take(ResolveRoom(o), nodeId, o);
      if room !in redis.rooms { return ""; }
      var owner := redis.rooms[room];
      address := NodeAddress(cache.View(), owner);
      if address == "" {
        address := ResolveFromNode(room, owner, o);
      } else {
        cache.PutRoom(room, address);
      }
    }

    method ResolveFromNode(room: string, owner: string, ghost o: nat) returns (address: string)
      requires Valid() && o in Last(redis.run).ops && Last(redis.run).ops[o] == ResolvingNode(nodeId, room, owner)
      modifies redis`run, redis`steps, cache
      ensures Valid() && Extended(old(redis.run), redis.run, nodeId, o)
      ensures address != "" ==> o !in Last(redis.run).ops
      ensures address == if owner in redis.nodes then Parse(redis.nodes[owner]).address else ""
      ensures address == "" ==>
                cache.View() == old(cache.View()) && o in Last(redis.run).ops && Last(redis.run).ops[o] == Choosing(nodeId, room)
      ensures address != "" ==>
                && Resolved(nodeId, room, address) in Last(redis.run).answers
                && cache.View() == UpsertRoom(UpsertNode(old(cache.View()), owner, Parse(redis.nodes[owner])), room, address)
    {
      redis.Take(ResolveNode(o), nodeId, o);
      if owner !in redis.nodes { return ""; }
      var info := ParseNodeValue(redis.nodes[owner]);
      address := info.address;
      if address != "" {
        cache.PutNode(owner, info);
        cache.PutRoom(room, address);
      }
    }

    /** unregisterRoom. */
    method UnregisterRoom(room: string, ghost o: nat)
      requires Valid() && '=' !in room
      modifies redis`run, redis`steps, redis, cache
      ensures Valid() && Extended(old(redis.run), redis.run, nodeId, o)
      ensures Last(redis.run).ops == old(Last(redis.run)).ops
      ensures redis.View() == Redis(old(redis.rooms) - {room}, old(redis.nodes))
      ensures room !in redis.rooms && room !in cache.rooms && SameButRoom(old(cache.View()), cache.View(), room)
      ensures (Topic.Rooms, Message(room, "")) in Last(redis.run).messages
    {
      redis.Take(EraseCached(nodeId, room), nodeId, o);
      cache.DropRoom(room);
      redis.Take(DeleteRoom(nodeId, room), nodeId, o);
      redis.rooms := redis.rooms - {room};
      redis.Take(PublishRoomGone(room), nodeId, o);
    }

    /** A published message reaches this node. */
    method OnMessage(channel: Topic, data: string, ghost o: nat)
      requires Valid() && (channel, data) in Last(redis.run).messages
      modifies redis`run, redis`steps, cache
      ensures Valid() && Extended(old(redis.run), redis.run, nodeId, o)
      ensures Last(redis.run).ops == old(Last(redis.run)).ops
      ensures cache.View() == Handle(old(cache.View()), channel, data)
      ensures channel == Topic.Rooms ==>
                forall room :: '=' !in room && data == Message(room, "") ==>
                  room !in cache.rooms && SameButRoom(old(cache.View()), cache.View(), room)
    {
      if channel == Topic.Rooms { RemovalIsUnderstood(cache.View(), data); }
      redis.Take(Deliver(nodeId, channel, data), nodeId, o);
      cache.HandlePubSubMessage(channel, data);
    }

    method ReadNodeValues(keys: seq<string>) returns (tmpNodes: map<string, NodeInfo>)
      ensures tmpNodes == NodesRead(redis.View(), set id | id in keys)
      ensures NodesAsStored(redis.View(), (set id | id in keys), tmpNodes)
    {
      tmpNodes := map[];
      for i := 0 to |keys|
        invariant forall id :: id in tmpNodes <==> id in keys[..i] && id in redis.nodes
        invariant forall id :: id in tmpNodes ==> tmpNodes[id] == Parse(redis.nodes[id])
      {
        if keys[i] in redis.nodes {
          var info := ParseNodeValue(redis.nodes[keys[i]]);
          tmpNodes := tmpNodes[keys[i] := info];
        }
      }
      assert tmpNodes == NodesRead(redis.View(), set id | id in keys);
      SnapshotsMissNothing(redis.View(), (set id | id in keys), {}, map[]);
    }

    method ReadRoomOwners(keys: seq<string>, tmpNodes: map<string, NodeInfo>) returns (tmpRooms: map<string, string>)
      ensures tmpRooms == RoomsRead(redis.View(), (set r | r in keys), tmpNodes)
      ensures RoomsAsStored(redis.View(), (set r | r in keys), tmpNodes, tmpRooms)
    {
      tmpRooms := map[];
      for i := 0 to |keys|
        invariant forall r :: r in tmpRooms <==> r in keys[..i] && r in redis.rooms && redis.rooms[r] in tmpNodes
        invariant forall r :: r in tmpRooms ==> tmpRooms[r] == tmpNodes[redis.rooms[r]].address
      {
        if keys[i] in redis.rooms && redis.rooms[keys[i]] in tmpNodes {
          tmpRooms := tmpRooms[keys[i] := tmpNodes[redis.rooms[keys[i]]].address];
        }
      }
      assert tmpRooms == RoomsRead(redis.View(), (set r | r in keys), tmpNodes);
      SnapshotsMissNothing(redis.View(), {}, (set r | r in keys), tmpNodes);
    }

    /** syncNodesSnapshot, given the keys that a complete scan returned. */
    method SyncNodesSnapshot(nodeKeys: seq<string>, ghost o: nat)
      requires Valid() && o !in Last(redis.run).ops
      modifies redis`run, redis`steps, cache
      ensures Valid() && Extended(old(redis.run), redis.run, nodeId, o)
      ensures o !in Last(redis.run).ops
      ensures cache.View() == MergeNodes(old(cache.View()), NodesRead(redis.View(), set id | id in nodeKeys))
      ensures UpToDate(cache.View(), redis.View(), nodeKeys) && cache.rooms == old(cache.rooms)
    {
      var tmpNodes := ReadNodeValues(nodeKeys);
      TakeMerge((set id | id in nodeKeys), o);
      cache.Merge(tmpNodes);
    }

    /** The steps that a node snapshot amounts to. */
    ghost method TakeMerge(ids: set<string>, o: nat)
      requires redis.Valid() && redis.k == k && o !in Last(redis.run).ops
      modifies redis`run, redis`steps
      ensures redis.Valid() && Extended(old(redis.run), redis.run, nodeId, o) && o !in Last(redis.run).ops
      ensures Last(redis.run).redis == old(Last(redis.run)).redis
      ensures CacheOf(Last(redis.run), nodeId) ==
              MergeNodes(CacheOf(old(Last(redis.run)), nodeId), NodesRead(old(Last(redis.run)).redis, ids))
    {
      redis.Take(ReadNodes(o, nodeId, ids), nodeId, o);
      assert Last(redis.run).ops[o] == HasNodes(nodeId, NodesRead(old(Last(redis.run)).redis, ids));
      redis.Take(MergeSnapshot(o), nodeId, o);
    }

    /** The steps that a full snapshot amounts to. */
    ghost method TakeSnapshot(ids: set<string>, keys: set<string>, o: nat)
      requires redis.Valid() && redis.k == k && o !in Last(redis.run).ops
      modifies redis`run, redis`steps
      ensures redis.Valid() && Extended(old(redis.run), redis.run, nodeId, o) && o !in Last(redis.run).ops
      ensures Last(redis.run).redis == old(Last(redis.run)).redis
      ensures var tmpNodes := NodesRead(old(Last(redis.run)).redis, ids);
              CacheOf(Last(redis.run), nodeId) == Cache(tmpNodes, RoomsRead(old(Last(redis.run)).redis, keys, tmpNodes))
    {
      redis.Take(ReadNodes(o, nodeId, ids), nodeId, o);
      ghost var s, tmpNodes := old(Last(redis.run)), NodesRead(old(Last(redis.run)).redis, ids);
      assert Last(redis.run) == SetOp(s, o, HasNodes(nodeId, tmpNodes));
      redis.Take(ReadRooms(o, keys), nodeId, o);
      assert Last(redis.run).ops[o] == HasRooms(nodeId, tmpNodes, RoomsRead(s.redis, keys, tmpNodes));
      redis.Take(ReplaceCache(o), nodeId, o);
    }

    /** syncAllSnapshot, given the keys that the two complete scans returned. */
    method SyncAllSnapshot(nodeKeys: seq<string>, roomKeys: seq<string>, ghost o: nat)
      requires Valid() && o !in Last(redis.run).ops
      modifies redis`run, redis`steps, cache
      ensures Valid() && Extended(old(redis.run), redis.run, nodeId, o)
      ensures o !in Last(redis.run).ops
      ensures cache.nodes == NodesRead(redis.View(), set id | id in nodeKeys)
      ensures cache.rooms == RoomsRead(redis.View(), (set r | r in roomKeys), cache.nodes)
      ensures NodesAsStored(redis.View(), (set id | id in nodeKeys), cache.nodes)
      ensures RoomsAsStored(redis.View(), (set r | r in roomKeys), cache.nodes, cache.rooms)
    {
      var tmpNodes := ReadNodeValues(nodeKeys);
      var tmpRooms := ReadRoomOwners(roomKeys, tmpNodes);
      TakeSnapshot((set id | id in nodeKeys), (set r | r in roomKeys), o);
      cache.ReplaceAll(tmpNodes, tmpRooms);
    }
  }

  /** Two nodes of one cluster: the calls of one leave the other as valid as it was, with its cache unchanged. */
  method ClaimBeside(a: Registry, b: Registry, room: string, best: string, ghost o: nat) returns (result: ClaimResult)
    requires a.Valid() && b.Valid() && a.redis == b.redis && a.cache != b.cache && a.nodeId != b.nodeId
    requires o !in Last(b.redis.run).ops && '=' !in room
    modifies b.redis, b.cache
    ensures a.Valid() && b.Valid() && a.cache.View() == old(a.cache.View())
    ensures Last(b.redis.run).ops == old(Last(b.redis.run)).ops
  {
    result := b.ClaimRoom(room, best, o);
    OpsRestored(old(Last(b.redis.run)), Last(b.redis.run), b.nodeId, o);
  }
}
