/** Safety of the room ownership protocol over every run. */
module RoomOwnershipSafety {
  import opened Options
  import opened NodeValues
  import opened CacheView
  import opened RoomOwnership

  // ---------------------------------------------------------------------------
  // A live owner is never displaced
  // ---------------------------------------------------------------------------

  /** The script grants the room to the node: afterwards the store records it as the owner. */
  ghost predicate Acquires(s: System, step: Step, room: string, node: string) {
    && step.RunScript? && step.op in s.ops && s.ops[step.op] == Claiming(node, room)
    && !Eval(s.redis, room, node).1.Owned?
  }

  /** The room key expires or is deleted. */
  ghost predicate KeyGone(s: System, step: Step, room: string) {
    match step
    case ExpireRoom(r) => r == room
    case DeleteRoom(_, r) => r == room
    case DeleteReleased(o) => o in s.ops && s.ops[o].Releasing? && s.ops[o].room == room
    case _ => false
  }

  /** Another node's claim finds that the owner's node key is absent. */
  ghost predicate TakenFrom(s: System, step: Step, room: string, owner: string) {
    && step.RunScript? && step.op in s.ops && s.ops[step.op].Claiming? && s.ops[step.op].room == room
    && s.ops[step.op].node != owner
    && room in s.redis.rooms && s.redis.rooms[room] == owner && owner !in s.redis.nodes
  }

  ghost predicate Records(s: System, room: string, node: string) {
    room in s.redis.rooms && s.redis.rooms[room] == node
  }

  lemma ScriptEffect(k: Cluster, s: System, o: nat)
    requires Enabled(k, s, RunScript(o))
    ensures Apply(k, s, RunScript(o)).redis == Eval(s.redis, s.ops[o].room, s.ops[o].node).0
  {
  }

  ghost predicate SameOwners(s: System, t: System) {
    t.redis.rooms == s.redis.rooms && t.owned == s.owned
  }

  lemma {:induction false} LookupsKeepOwners(k: Cluster, s: System, step: Step)
    requires Enabled(k, s, step)
    requires step.StartClaim? || step.RefreshRoom? || step.RefreshNode? || step.Follow?
             || step.StartResolve? || step.ResolveRoom? || step.ResolveNode?
    ensures SameOwners(s, Apply(k, s, step))
  {
    match step
    case StartClaim(o, n, r) => assert SameOwners(s, OnStartClaim(k, s, o, n, r));
    case RefreshRoom(o) => assert SameOwners(s, OnRefreshRoom(s, o));
    case RefreshNode(o) => assert SameOwners(s, OnRefreshNode(k, s, o));
    case Follow(o) => assert SameOwners(s, OnFollow(s, o));
    case StartResolve(o, n, r) => assert SameOwners(s, OnStartResolve(s, o, n, r));
    case ResolveRoom(o) => assert SameOwners(s, OnResolveRoom(s, o));
    case ResolveNode(o) => assert SameOwners(s, OnResolveNode(s, o));
  }

  /** Only the script, expiry and the two deletions change the owners that the store records. */
  lemma {:induction false} OtherStepsKeepOwners(k: Cluster, s: System, step: Step)
    requires Enabled(k, s, step)
    requires !step.RunScript? && !step.ExpireRoom? && !step.DeleteRoom? && !step.DeleteReleased?
    ensures SameOwners(s, Apply(k, s, step))
  {
    if step.StartClaim? || step.RefreshRoom? || step.RefreshNode? || step.Follow?
       || step.StartResolve? || step.ResolveRoom? || step.ResolveNode? {
      LookupsKeepOwners(k, s, step);
    }
  }

  /** One step changes the recorded owner only by removing the key or by taking over from an absent node. */
  lemma {:induction false} OwnerStays(k: Cluster, s: System, step: Step, room: string, owner: string)
    requires Enabled(k, s, step) && Records(s, room, owner)
    requires !KeyGone(s, step, room) && !TakenFrom(s, step, room, owner)
    ensures Records(Apply(k, s, step), room, owner)
  {
    if step.RunScript? {
      ScriptEffect(k, s, step.op);
    } else if !step.ExpireRoom? && !step.DeleteRoom? && !step.DeleteReleased? {
      OtherStepsKeepOwners(k, s, step);
    }
  }

  lemma {:induction false} OwnerStaysOver(k: Cluster, run: seq<System>, steps: seq<Step>, i: nat, j: nat, room: string, owner: string)
    requires IsRun(k, run, steps) && i <= j <= |steps| && Records(run[i], room, owner)
    requires forall m :: i <= m < j ==> !KeyGone(run[m], steps[m], room) && !TakenFrom(run[m], steps[m], room, owner)
    ensures Records(run[j], room, owner)
    decreases j
  {
    if i < j {
      var m := j - 1;
      OwnerStaysOver(k, run, steps, i, m, room, owner);
      assert !KeyGone(run[m], steps[m], room) && !TakenFrom(run[m], steps[m], room, owner);
      assert Enabled(k, run[m], steps[m]) && run[j] == Apply(k, run[m], steps[m]) by { StepAt(k, run, steps, m); }
      OwnerStays(k, run[m], steps[m], room, owner);
    }
  }

  lemma AcquiringRecords(k: Cluster, s: System, step: Step, room: string, node: string)
    requires Enabled(k, s, step) && Acquires(s, step, room, node)
    ensures Records(Apply(k, s, step), room, node)
  {
    ScriptEffect(k, s, step.op);
  }

  /**
   In every run, between any two grants of one room, to a and then to b != a, the room key was
   removed, or a's node key was absent when a claim took the room over from a.
   */
  lemma OwnerIsOnlyDisplacedWhenGone(k: Cluster, run: seq<System>, steps: seq<Step>, i: nat, j: nat, room: string, a: string, b: string)
    requires IsRun(k, run, steps) && i < j < |steps| && a != b
    requires Acquires(run[i], steps[i], room, a) && Acquires(run[j], steps[j], room, b)
    ensures exists m :: i < m <= j && (KeyGone(run[m], steps[m], room) || TakenFrom(run[m], steps[m], room, a))
  {
    StepAt(k, run, steps, i);
    StepAt(k, run, steps, j);
    AcquiringRecords(k, run[i], steps[i], room, a);
    AcquiringRecords(k, run[j], steps[j], room, b);
    if forall m :: i < m <= j ==> !KeyGone(run[m], steps[m], room) && !TakenFrom(run[m], steps[m], room, a) {
      OwnerStaysOver(k, run, steps, i + 1, j + 1, room, a);
      assert false;
    }
  }

  /**
   For consecutive grants: the key was removed in between, or the second claim itself found
   that a's node key was absent.
   */
  lemma ConsecutiveGrants(k: Cluster, run: seq<System>, steps: seq<Step>, i: nat, j: nat, room: string, a: string, b: string)
    requires IsRun(k, run, steps) && i < j < |steps| && a != b
    requires Acquires(run[i], steps[i], room, a) && Acquires(run[j], steps[j], room, b)
    requires forall m, c :: i < m < j ==> !Acquires(run[m], steps[m], room, c)
    ensures (exists m :: i < m < j && KeyGone(run[m], steps[m], room)) || a !in run[j].redis.nodes
  {
    OwnerIsOnlyDisplacedWhenGone(k, run, steps, i, j, room, a, b);
    var m :| i < m <= j && (KeyGone(run[m], steps[m], room) || TakenFrom(run[m], steps[m], room, a));
    if m < j && !KeyGone(run[m], steps[m], room) {
      TakeoverIsGrant(run[m], steps[m], room, a);
    }
  }

  lemma TakeoverIsGrant(s: System, step: Step, room: string, owner: string)
    requires TakenFrom(s, step, room, owner)
    ensures Acquires(s, step, room, s.ops[step.op].node)
  {
  }

  /** Only a grant to the node itself makes the store record it again. */
  lemma {:induction false} NonOwnerStays(k: Cluster, s: System, step: Step, room: string, node: string)
    requires Enabled(k, s, step) && !Acquires(s, step, room, node)
    requires !Records(s, room, node) || KeyGone(s, step, room) || TakenFrom(s, step, room, node)
    ensures !Records(Apply(k, s, step), room, node)
  {
    if step.RunScript? {
      ScriptEffect(k, s, step.op);
    } else if !step.ExpireRoom? && !step.DeleteRoom? && !step.DeleteReleased? {
      OtherStepsKeepOwners(k, s, step);
    }
  }

  lemma {:induction false} NonOwnerStaysOver(k: Cluster, run: seq<System>, steps: seq<Step>, m: nat, j: nat, room: string, node: string)
    requires IsRun(k, run, steps) && m < j <= |steps|
    requires KeyGone(run[m], steps[m], room) || TakenFrom(run[m], steps[m], room, node)
    requires forall l :: m <= l < j ==> !Acquires(run[l], steps[l], room, node)
    ensures !Records(run[j], room, node)
    decreases j
  {
    var i := j - 1;
    if m < i { NonOwnerStaysOver(k, run, steps, m, i, room, node); }
    assert !Acquires(run[i], steps[i], room, node);
    assert Enabled(k, run[i], steps[i]) && run[j] == Apply(k, run[i], steps[i]) by { StepAt(k, run, steps, i); }
    NonOwnerStays(k, run[i], steps[i], room, node);
  }

  /** Between step i and state j the room key was removed, or taken over from the node. */
  ghost predicate Displaced(run: seq<System>, steps: seq<Step>, i: nat, j: nat, room: string, node: string)
    requires j <= |steps| <= |run|
  {
    exists m :: i < m < j && (KeyGone(run[m], steps[m], room) || TakenFrom(run[m], steps[m], room, node))
  }

  /**
   After the last validated grant of a room to a node, the store still records the node exactly
   when neither a removal of the key nor a takeover has come in between. This is when a grant
   from the node's cache is current, and when the key that its release deletes is its own.
   */
  lemma GrantIsCurrentIff(k: Cluster, run: seq<System>, steps: seq<Step>, i: nat, j: nat, room: string, node: string)
    requires IsRun(k, run, steps) && i < j <= |steps| && Acquires(run[i], steps[i], room, node)
    requires forall m :: i < m < j ==> !Acquires(run[m], steps[m], room, node)
    ensures Records(run[j], room, node) <==> !Displaced(run, steps, i, j, room, node)
  {
    if Displaced(run, steps, i, j, room, node) {
      var m :| i < m < j && (KeyGone(run[m], steps[m], room) || TakenFrom(run[m], steps[m], room, node));
      NonOwnerStaysOver(k, run, steps, m, j, room, node);
    } else {
      StepAt(k, run, steps, i);
      AcquiringRecords(k, run[i], steps[i], room, node);
      OwnerStaysOver(k, run, steps, i + 1, j, room, node);
    }
  }

  // ---------------------------------------------------------------------------
  // Every cached owner once was the owner
  // ---------------------------------------------------------------------------

  type Ownership = set<(string, string)>

  /** Some node with this address was recorded as the owner of the room. */
  ghost predicate OwnedOnce(k: Cluster, owned: Ownership, room: string, address: string) {
    exists id :: (room, id) in owned && k.address(id) == address
  }

  ghost predicate NodesOk(k: Cluster, nodes: map<string, NodeInfo>) {
    forall id :: id in nodes ==> nodes[id].address == k.address(id)
  }

  ghost predicate RoomsOk(k: Cluster, owned: Ownership, rooms: map<string, string>) {
    forall room :: room in rooms ==> OwnedOnce(k, owned, room, rooms[room])
  }

  ghost predicate CacheOk(k: Cluster, owned: Ownership, c: Cache) {
    NodesOk(k, c.nodes) && RoomsOk(k, owned, c.rooms)
  }

  ghost predicate RedisOk(k: Cluster, owned: Ownership, r: Redis) {
    && (forall room :: room in r.rooms ==> (room, r.rooms[room]) in owned)
    && (forall id :: id in r.nodes ==> Parse(r.nodes[id]).address == k.address(id))
  }

  ghost predicate MessageOk(k: Cluster, owned: Ownership, m: (Topic, string)) {
    match SplitMessage(m.1)
    case None => true
    case Some((key, val)) =>
      val == "" || (if m.0.Nodes? then Parse(val).address == k.address(key) else OwnedOnce(k, owned, key, val))
  }

  ghost predicate OpOk(k: Cluster, owned: Ownership, op: Op) {
    match op
    case RefreshingNode(_, room, _, owner) => (room, owner) in owned && '=' !in room
    case Claimed(n, room, _) => (room, n) in owned && '=' !in room
    case Announcing(n, room) => (room, n) in owned && '=' !in room
    case Releasing(n, room, _) => (room, n) in owned
    case Following(_, room, value) => OwnedOnce(k, owned, room, Parse(value).address)
    case Refreshing(_, room, _) => '=' !in room
    case Claiming(_, room) => '=' !in room
    case ResolvingNode(_, room, owner) => (room, owner) in owned
    case HasNodes(_, nodes) => NodesOk(k, nodes)
    case HasRooms(_, nodes, rooms) => NodesOk(k, nodes) && RoomsOk(k, owned, rooms)
    case _ => true
  }

  /** Grants name a node that was recorded, redirects an address that owned the room; the other two promise nothing. */
  ghost predicate AnswerOk(k: Cluster, owned: Ownership, a: Answer) {
    match a
    case Granted(n, room) => (room, n) in owned
    case CacheGranted(n, room) => OwnedOnce(k, owned, room, k.address(n))
    case RefreshGranted(n, room) => OwnedOnce(k, owned, room, k.address(n))
    case Redirected(_, room, address) => OwnedOnce(k, owned, room, address)
    case Resolved(_, room, address) => OwnedOnce(k, owned, room, address)
    case Referred(_, _, _) => true
    case Proposed(_, _, _) => true
  }

  ghost predicate Inv(k: Cluster, s: System) {
    && RedisOk(k, s.owned, s.redis)
    && (forall n :: n in s.caches ==> CacheOk(k, s.owned, s.caches[n]))
    && (forall o :: o in s.ops ==> OpOk(k, s.owned, s.ops[o]))
    && (forall m :: m in s.messages ==> MessageOk(k, s.owned, m))
    && (forall a :: a in s.answers ==> AnswerOk(k, s.owned, a))
  }

  // Each update of one component keeps the invariant when its new value is sound.

  lemma CacheSet(k: Cluster, s: System, n: string, c: Cache)
    requires Inv(k, s) && CacheOk(k, s.owned, c)
    ensures Inv(k, SetCache(s, n, c))
  {
  }

  lemma OpSet(k: Cluster, s: System, o: nat, op: Op)
    requires Inv(k, s) && OpOk(k, s.owned, op)
    ensures Inv(k, SetOp(s, o, op))
  {
  }

  lemma OpDropped(k: Cluster, s: System, o: nat)
    requires Inv(k, s)
    ensures Inv(k, Drop(s, o))
  {
  }

  lemma Finished(k: Cluster, s: System, o: nat, a: Answer)
    requires Inv(k, s) && AnswerOk(k, s.owned, a)
    ensures Inv(k, Finish(s, o, a))
  {
  }

  lemma Sent(k: Cluster, s: System, channel: Topic, data: string)
    requires Inv(k, s) && MessageOk(k, s.owned, (channel, data))
    ensures Inv(k, Send(s, channel, data))
  {
  }

  lemma RedisSet(k: Cluster, s: System, r: Redis)
    requires Inv(k, s) && RedisOk(k, s.owned, r)
    ensures Inv(k, s.(redis := r))
  {
  }

  lemma CachedOk(k: Cluster, s: System, n: string)
    requires Inv(k, s)
    ensures CacheOk(k, s.owned, CacheOf(s, n))
  {
  }

  lemma RoomUpserted(k: Cluster, s: System, n: string, room: string, address: string)
    requires Inv(k, s) && OwnedOnce(k, s.owned, room, address)
    ensures Inv(k, SetCache(s, n, UpsertRoom(CacheOf(s, n), room, address)))
  {
    CachedOk(k, s, n);
    CacheSet(k, s, n, UpsertRoom(CacheOf(s, n), room, address));
  }

  lemma HandleKeeps(k: Cluster, owned: Ownership, c: Cache, channel: Topic, data: string)
    requires CacheOk(k, owned, c) && MessageOk(k, owned, (channel, data))
    ensures CacheOk(k, owned, Handle(c, channel, data))
  {
  }

  // Ownership history only grows.

  lemma OwnedGrows(k: Cluster, owned: Ownership, more: Ownership, room: string, address: string)
    requires owned <= more && OwnedOnce(k, owned, room, address)
    ensures OwnedOnce(k, more, room, address)
  {
    var id :| (room, id) in owned && k.address(id) == address;
    assert (room, id) in more;
  }

  lemma AllOwnedGrows(k: Cluster, owned: Ownership, more: Ownership)
    requires owned <= more
    ensures forall room, a :: OwnedOnce(k, owned, room, a) ==> OwnedOnce(k, more, room, a)
  {
    forall room, a | OwnedOnce(k, owned, room, a) ensures OwnedOnce(k, more, room, a) { OwnedGrows(k, owned, more, room, a); }
  }

  lemma {:induction false} HistoryGrows(k: Cluster, s: System, more: Ownership)
    requires Inv(k, s) && s.owned <= more
    ensures Inv(k, s.(owned := more))
  {
    AllOwnedGrows(k, s.owned, more);
    forall n | n in s.caches ensures CacheOk(k, more, s.caches[n]) { assert CacheOk(k, s.owned, s.caches[n]); }
    forall o | o in s.ops ensures OpOk(k, more, s.ops[o]) { assert OpOk(k, s.owned, s.ops[o]); }
    forall m | m in s.messages ensures MessageOk(k, more, m) { assert MessageOk(k, s.owned, m); }
    forall a | a in s.answers ensures AnswerOk(k, more, a) { assert AnswerOk(k, s.owned, a); }
  }

  // Steps.

  lemma AddressOfBuilt(info: NodeInfo)
    requires BarFree(info.address)
    ensures Build(info) != "" && Parse(Build(info)).address == info.address
  {
    var s := Build(info);
    var rest := s[|info.address| + 1..];
    assert s == info.address + ['|'] + rest;
    FindInConcat(info.address, '|', rest);
    assert s[..|info.address|] == info.address;
  }

  lemma {:induction false} NodeStepKeeps(k: Cluster, s: System, step: Step)
    requires WellConfigured(k) && Inv(k, s) && Enabled(k, s, step)
    requires step.StoreNode? || step.CacheOwnNode? || step.PublishNode? || step.DropNode? || step.PublishNodeGone?
    ensures Inv(k, Apply(k, s, step))
  {
    match step
    case StoreNode(n, info) =>
      AddressOfBuilt(info);
      RedisSet(k, s, s.redis.(nodes := s.redis.nodes[n := Build(info)]));
    case CacheOwnNode(n, info) =>
      AddressOfBuilt(info);
      CachedOk(k, s, n);
      CacheSet(k, s, n, UpsertNode(CacheOf(s, n), n, Parse(Build(info))));
    case PublishNode(n, info) =>
      AddressOfBuilt(info);
      MessageRoundTrip(n, Build(info));
      Sent(k, s, Nodes, Message(n, Build(info)));
    case DropNode(n) => RedisSet(k, s, s.redis.(nodes := s.redis.nodes - {n}));
    case PublishNodeGone(n) =>
      MessageRoundTrip(n, "");
      Sent(k, s, Nodes, Message(n, ""));
  }

  lemma RoomGone(k: Cluster, s: System, room: string)
    requires Inv(k, s)
    ensures Inv(k, WithoutRoom(s, room))
  {
    RedisSet(k, s, s.redis.(rooms := s.redis.rooms - {room}));
  }

  lemma RoomEraseKeeps(k: Cluster, s: System, n: string, room: string)
    requires Inv(k, s)
    ensures Inv(k, SetCache(s, n, EraseRoom(CacheOf(s, n), room)))
  {
    CachedOk(k, s, n);
    CacheSet(k, s, n, EraseRoom(CacheOf(s, n), room));
  }

  lemma StaleKeeps(k: Cluster, s: System, o: nat, n: string, room: string)
    requires Inv(k, s) && '=' !in room
    ensures Inv(k, OnStale(s, o, n, room))
  {
    RoomEraseKeeps(k, s, n, room);
    OpSet(k, SetCache(s, n, EraseRoom(CacheOf(s, n), room)), o, Claiming(n, room));
  }

  lemma StartClaimKeeps(k: Cluster, s: System, o: nat, n: string, room: string)
    requires Inv(k, s) && '=' !in room
    ensures Inv(k, OnStartClaim(k, s, o, n, room))
  {
    CachedOk(k, s, n);
    match RoomAddress(CacheOf(s, n), room)
    case None => OpSet(k, s, o, Claiming(n, room));
    case Some(a) =>
      if a == k.address(n) {
        Finished(k, s, o, CacheGranted(n, room));
      } else {
        OpSet(k, s, o, Refreshing(n, room, a));
      }
  }

  lemma RefreshRoomKeeps(k: Cluster, s: System, o: nat)
    requires Inv(k, s) && o in s.ops && s.ops[o].Refreshing?
    ensures Inv(k, OnRefreshRoom(s, o))
  {
    var op := s.ops[o];
    assert OpOk(k, s.owned, op);
    if op.room in s.redis.rooms {
      OpSet(k, s, o, RefreshingNode(op.node, op.room, op.cached, s.redis.rooms[op.room]));
    } else {
      StaleKeeps(k, s, o, op.node, op.room);
    }
  }

  lemma {:induction false} RefreshNodeKeeps(k: Cluster, s: System, o: nat)
    requires Inv(k, s) && o in s.ops && s.ops[o].RefreshingNode?
    ensures Inv(k, OnRefreshNode(k, s, o))
  {
    var op := s.ops[o];
    assert OpOk(k, s.owned, op);
    var a := if op.owner in s.redis.nodes then Parse(s.redis.nodes[op.owner]).address else "";
    if a == "" {
      StaleKeeps(k, s, o, op.node, op.room);
    } else {
      assert OwnedOnce(k, s.owned, op.room, a);
      RoomUpserted(k, s, op.node, op.room, a);
      Finished(k, s, o, OwnerAnswer(k, op.node, op.room, a));
      Finished(k, SetCache(s, op.node, UpsertRoom(CacheOf(s, op.node), op.room, a)), o, OwnerAnswer(k, op.node, op.room, a));
    }
  }

  lemma {:induction false} ScriptKeeps(k: Cluster, s: System, o: nat)
    requires Inv(k, s) && o in s.ops && s.ops[o].Claiming?
    ensures Inv(k, OnScript(s, o))
  {
    var n, room := s.ops[o].node, s.ops[o].room;
    assert OpOk(k, s.owned, s.ops[o]);
    var (redis, reply) := Eval(s.redis, room, n);
    if reply.Owned? {
      var owner := s.redis.rooms[room];
      assert (room, owner) in s.owned && k.address(owner) == Parse(reply.value).address;
      OpSet(k, s, o, Following(n, room, reply.value));
    } else {
      var t := s.(owned := s.owned + {(room, n)});
      HistoryGrows(k, s, t.owned);
      RedisSet(k, t, redis);
      OpSet(k, t.(redis := redis), o, Claimed(n, room, reply.Fresh?));
    }
  }

  lemma {:induction false} ClaimEndKeeps(k: Cluster, s: System, step: Step)
    requires Inv(k, s) && Enabled(k, s, step) && WellConfigured(k)
    requires step.Keep? || step.Release? || step.DeleteReleased? || step.Announce? || step.Follow?
    ensures Inv(k, Apply(k, s, step))
  {
    var op := s.ops[step.op];
    assert OpOk(k, s.owned, op);
    match step
    case Keep(o) =>
      assert OwnedOnce(k, s.owned, op.room, k.address(op.node));
      RoomUpserted(k, s, op.node, op.room, k.address(op.node));
      OpSet(k, SetCache(s, op.node, UpsertRoom(CacheOf(s, op.node), op.room, k.address(op.node))), o, Announcing(op.node, op.room));
    case Release(o, best) => OpSet(k, s, o, Releasing(op.node, op.room, best));
    case DeleteReleased(o) =>
      RoomGone(k, s, op.room);
      Finished(k, WithoutRoom(s, op.room), o, Referred(op.node, op.room, op.best));
    case Announce(o) =>
      assert OwnedOnce(k, s.owned, op.room, k.address(op.node));
      MessageRoundTrip(op.room, k.address(op.node));
      Sent(k, s, Rooms, Message(op.room, k.address(op.node)));
      Finished(k, Send(s, Rooms, Message(op.room, k.address(op.node))), o, Granted(op.node, op.room));
    case Follow(o) =>
      var a := Parse(op.value).address;
      if a == "" {
        OpDropped(k, s, o);
      } else {
        RoomUpserted(k, s, op.node, op.room, a);
        Finished(k, SetCache(s, op.node, UpsertRoom(CacheOf(s, op.node), op.room, a)), o, Redirected(op.node, op.room, a));
      }
  }

  lemma {:induction false} RememberKeeps(k: Cluster, s: System, o: nat, n: string, room: string, a: string)
    requires Inv(k, s) && OwnedOnce(k, s.owned, room, a)
    ensures Inv(k, Remember(s, o, n, room, a))
  {
    RoomUpserted(k, s, n, room, a);
    Finished(k, SetCache(s, n, UpsertRoom(CacheOf(s, n), room, a)), o, Resolved(n, room, a));
  }

  lemma StartResolveKeeps(k: Cluster, s: System, o: nat, n: string, room: string)
    requires Inv(k, s)
    ensures Inv(k, OnStartResolve(s, o, n, room))
  {
    CachedOk(k, s, n);
    match RoomAddress(CacheOf(s, n), room)
    case Some(a) => Finished(k, s, o, Resolved(n, room, a));
    case None => OpSet(k, s, o, Resolving(n, room));
  }

  lemma ResolveRoomKeeps(k: Cluster, s: System, o: nat)
    requires Inv(k, s) && o in s.ops && s.ops[o].Resolving?
    ensures Inv(k, OnResolveRoom(s, o))
  {
    var n, room := s.ops[o].node, s.ops[o].room;
    if room !in s.redis.rooms {
      OpSet(k, s, o, Choosing(n, room));
    } else {
      var owner := s.redis.rooms[room];
      var a := NodeAddress(CacheOf(s, n), owner);
      CachedOk(k, s, n);
      if a != "" {
        assert (room, owner) in s.owned && k.address(owner) == a;
        RememberKeeps(k, s, o, n, room, a);
      } else {
        OpSet(k, s, o, ResolvingNode(n, room, owner));
      }
    }
  }

  lemma {:induction false} ResolveNodeKeeps(k: Cluster, s: System, o: nat)
    requires Inv(k, s) && o in s.ops && s.ops[o].ResolvingNode?
    ensures Inv(k, OnResolveNode(s, o))
  {
    var op := s.ops[o];
    assert OpOk(k, s.owned, op);
    if op.owner in s.redis.nodes && Parse(s.redis.nodes[op.owner]).address != "" {
      var info := Parse(s.redis.nodes[op.owner]);
      assert (op.room, op.owner) in s.owned && k.address(op.owner) == info.address;
      CachedOk(k, s, op.node);
      var c := UpsertNode(CacheOf(s, op.node), op.owner, info);
      CacheSet(k, s, op.node, c);
      RememberKeeps(k, SetCache(s, op.node, c), o, op.node, op.room, info.address);
    } else {
      OpSet(k, s, o, Choosing(op.node, op.room));
    }
  }

  lemma {:induction false} ReadStepKeeps(k: Cluster, s: System, step: Step)
    requires Inv(k, s) && Enabled(k, s, step) && (step.ReadNodes? || step.ReadRooms?)
    ensures Inv(k, Apply(k, s, step))
  {
    match step
    case ReadNodes(o, n, ids) => OpSet(k, s, o, HasNodes(n, NodesRead(s.redis, ids)));
    case ReadRooms(o, rooms) =>
      var op := s.ops[o];
      assert OpOk(k, s.owned, op);
      var read := RoomsRead(s.redis, rooms, op.nodes);
      forall room | room in read ensures OwnedOnce(k, s.owned, room, read[room]) {
        assert (room, s.redis.rooms[room]) in s.owned;
      }
      OpSet(k, s, o, HasRooms(op.node, op.nodes, read));
  }

  lemma {:induction false} SyncStepKeeps(k: Cluster, s: System, step: Step)
    requires Inv(k, s) && Enabled(k, s, step) && (step.MergeSnapshot? || step.ReplaceCache?)
    ensures Inv(k, Apply(k, s, step))
  {
    var op := s.ops[step.op];
    assert OpOk(k, s.owned, op);
    CachedOk(k, s, op.node);
    var c := if step.MergeSnapshot? then MergeNodes(CacheOf(s, op.node), op.nodes) else Cache(op.nodes, op.rooms);
    CacheSet(k, s, op.node, c);
    OpDropped(k, SetCache(s, op.node, c), step.op);
  }

  lemma {:induction false} CallStepKeeps(k: Cluster, s: System, step: Step)
    requires Inv(k, s) && Enabled(k, s, step)
    requires step.StartClaim? || step.RefreshRoom? || step.RefreshNode? || step.RunScript?
             || step.StartResolve? || step.ResolveRoom? || step.ResolveNode? || step.Choose?
    ensures Inv(k, Apply(k, s, step))
  {
    match step
    case StartClaim(o, n, r) => StartClaimKeeps(k, s, o, n, r);
    case RefreshRoom(o) => RefreshRoomKeeps(k, s, o);
    case RefreshNode(o) => RefreshNodeKeeps(k, s, o);
    case RunScript(o) => ScriptKeeps(k, s, o);
    case StartResolve(o, n, r) => StartResolveKeeps(k, s, o, n, r);
    case ResolveRoom(o) => ResolveRoomKeeps(k, s, o);
    case ResolveNode(o) => ResolveNodeKeeps(k, s, o);
    case Choose(o, best) => Finished(k, s, o, Proposed(s.ops[o].node, s.ops[o].room, best));
  }

  lemma {:induction false} RoomStepKeeps(k: Cluster, s: System, step: Step)
    requires Inv(k, s) && Enabled(k, s, step)
    requires step.ExpireRoom? || step.DeleteRoom? || step.EraseCached? || step.PublishRoomGone?
    ensures Inv(k, Apply(k, s, step))
  {
    match step
    case ExpireRoom(r) => RoomGone(k, s, r);
    case DeleteRoom(_, r) => RoomGone(k, s, r);
    case EraseCached(n, r) => RoomEraseKeeps(k, s, n, r);
    case PublishRoomGone(r) =>
      MessageRoundTrip(r, "");
      Sent(k, s, Rooms, Message(r, ""));
  }

  lemma {:induction false} DeliverKeeps(k: Cluster, s: System, n: string, channel: Topic, data: string)
    requires Inv(k, s) && (channel, data) in s.messages
    ensures Inv(k, SetCache(s, n, Handle(CacheOf(s, n), channel, data)))
  {
    CachedOk(k, s, n);
    assert MessageOk(k, s.owned, (channel, data));
    HandleKeeps(k, s.owned, CacheOf(s, n), channel, data);
    CacheSet(k, s, n, Handle(CacheOf(s, n), channel, data));
  }

  lemma {:induction false} CacheStepKeeps(k: Cluster, s: System, step: Step)
    requires Inv(k, s) && Enabled(k, s, step) && (step.Deliver? || step.Evict? || step.Fail? || step.Restart?)
    ensures Inv(k, Apply(k, s, step))
  {
    match step
    case Deliver(n, channel, data) => DeliverKeeps(k, s, n, channel, data);
    case Evict(n, dead) =>
      CachedOk(k, s, n);
      CacheSet(k, s, n, EraseNode(CacheOf(s, n), dead));
    case Fail(o) => OpDropped(k, s, o);
    case Restart(n) => CacheSet(k, s, n, EMPTY);
  }

  lemma {:induction false} StepKeeps(k: Cluster, s: System, step: Step)
    requires WellConfigured(k) && Inv(k, s) && Enabled(k, s, step)
    ensures Inv(k, Apply(k, s, step))
  {
    if step.StartClaim? || step.RefreshRoom? || step.RefreshNode? || step.RunScript?
       || step.StartResolve? || step.ResolveRoom? || step.ResolveNode? || step.Choose? {
      CallStepKeeps(k, s, step);
    } else if step.Keep? || step.Release? || step.DeleteReleased? || step.Announce? || step.Follow? {
      ClaimEndKeeps(k, s, step);
    } else if step.ReadNodes? || step.ReadRooms? {
      ReadStepKeeps(k, s, step);
    } else if step.MergeSnapshot? || step.ReplaceCache? {
      SyncStepKeeps(k, s, step);
    } else if step.StoreNode? || step.CacheOwnNode? || step.PublishNode? || step.DropNode? || step.PublishNodeGone? {
      NodeStepKeeps(k, s, step);
    } else if step.ExpireRoom? || step.DeleteRoom? || step.EraseCached? || step.PublishRoomGone? {
      RoomStepKeeps(k, s, step);
    } else {
      CacheStepKeeps(k, s, step);
    }
  }

  lemma {:induction false} EveryReachableStateIsSound(k: Cluster, run: seq<System>, steps: seq<Step>, n: nat)
    requires WellConfigured(k) && IsRun(k, run, steps) && n < |run|
    ensures Inv(k, run[n])
  {
    if n > 0 {
      EveryReachableStateIsSound(k, run, steps, n - 1);
      StepAt(k, run, steps, n - 1);
      StepKeeps(k, run[n - 1], steps[n - 1]);
    }
  }

  lemma NewlyOwnedIsRecorded(k: Cluster, s: System, step: Step, room: string, node: string)
    requires Enabled(k, s, step)
    requires (room, node) in Apply(k, s, step).owned && (room, node) !in s.owned
    ensures Records(Apply(k, s, step), room, node)
  {
    if step.RunScript? {
      ScriptEffect(k, s, step.op);
    } else if !step.ExpireRoom? && !step.DeleteRoom? && !step.DeleteReleased? {
      OtherStepsKeepOwners(k, s, step);
    }
  }

  /** The history is true: each pair was recorded in the store at some earlier moment. */
  lemma {:induction false} OwnedWasRecorded(k: Cluster, run: seq<System>, steps: seq<Step>, n: nat, room: string, node: string)
    requires IsRun(k, run, steps) && n < |run| && (room, node) in run[n].owned
    ensures exists m :: 0 <= m <= n && Records(run[m], room, node)
  {
    if n > 0 {
      if (room, node) in run[n - 1].owned {
        OwnedWasRecorded(k, run, steps, n - 1, room, node);
      } else {
        StepAt(k, run, steps, n - 1);
        NewlyOwnedIsRecorded(k, run[n - 1], steps[n - 1], room, node);
      }
    }
  }

  /** At some moment up to n the store recorded a node with this address as the owner of the room. */
  ghost predicate OwnedBefore(k: Cluster, run: seq<System>, n: nat, room: string, address: string) {
    exists m, id :: 0 <= m <= n && m < |run| && Records(run[m], room, id) && k.address(id) == address
  }

  lemma OwnedOnceIsOwnedBefore(k: Cluster, run: seq<System>, steps: seq<Step>, n: nat, room: string, address: string)
    requires IsRun(k, run, steps) && n < |run| && OwnedOnce(k, run[n].owned, room, address)
    ensures OwnedBefore(k, run, n, room, address)
  {
    var id :| (room, id) in run[n].owned && k.address(id) == address;
    OwnedWasRecorded(k, run, steps, n, room, id);
  }

  /**
   In every reachable state, whatever wrote the cache: if a node's cache maps a room to an
   address, then a node with that address was recorded as the room's owner at an earlier moment.
   */
  lemma CacheNeverNamesANeverOwner(k: Cluster, run: seq<System>, steps: seq<Step>, n: nat, node: string, room: string)
    requires WellConfigured(k) && IsRun(k, run, steps) && n < |run| && room in CacheOf(run[n], node).rooms
    ensures OwnedBefore(k, run, n, room, CacheOf(run[n], node).rooms[room])
  {
    EveryReachableStateIsSound(k, run, steps, n);
    CachedOk(k, run[n], node);
    OwnedOnceIsOwnedBefore(k, run, steps, n, room, CacheOf(run[n], node).rooms[room]);
  }

  /**
   No answer about the owner names a never-owner: every grant, validated or straight from the
   cache, goes to an address that owned the room, and so does every redirect and resolution.
   Referrals to a better node and proposals for a new room are excluded: they name no owner.
   */
  lemma AnswersNeverNameANeverOwner(k: Cluster, run: seq<System>, steps: seq<Step>, n: nat, a: Answer)
    requires WellConfigured(k) && IsRun(k, run, steps) && n < |run| && a in run[n].answers
    requires !a.Referred? && !a.Proposed?
    ensures OwnedBefore(k, run, n, a.room, if a.Redirected? || a.Resolved? then a.address else k.address(a.node))
  {
    EveryReachableStateIsSound(k, run, steps, n);
    assert AnswerOk(k, run[n].owned, a);
    var address := if a.Redirected? || a.Resolved? then a.address else k.address(a.node);
    assert OwnedOnce(k, run[n].owned, a.room, address);
    OwnedOnceIsOwnedBefore(k, run, steps, n, a.room, address);
  }

  // ---------------------------------------------------------------------------
  // When a cache grant is current, and when a release deletes its own key
  // ---------------------------------------------------------------------------

  /** The store can only have come to record the node by a grant; this finds the last one. */
  lemma {:induction false} LastGrant(k: Cluster, run: seq<System>, steps: seq<Step>, m: nat, j: nat, room: string, node: string)
    returns (l: nat)
    requires IsRun(k, run, steps) && m <= j <= |steps| && Records(run[m], room, node)
    ensures l < j && Acquires(run[l], steps[l], room, node)
    ensures forall i :: l < i < j ==> !Acquires(run[i], steps[i], room, node)
    decreases j
  {
    assert j > 0;
    var i := j - 1;
    if Acquires(run[i], steps[i], room, node) {
      l := i;
    } else if m < j {
      l := LastGrant(k, run, steps, m, i, room, node);
    } else {
      assert Records(run[i], room, node) by {
        StepAt(k, run, steps, i);
        if !Records(run[i], room, node) { NonOwnerStays(k, run[i], steps[i], room, node); }
      }
      l := LastGrant(k, run, steps, i, i, room, node);
    }
  }

  /**
   Every grant from a node's own cache goes back to a script grant to that node, and it is
   current exactly when the node has not been displaced since the last of them.
   */
  lemma {:induction false} CacheGrantIsCurrentIff(k: Cluster, run: seq<System>, steps: seq<Step>, j: nat, o: nat, node: string, room: string)
    returns (l: nat)
    requires WellConfigured(k) && DistinctAddresses(k) && IsRun(k, run, steps)
    requires j < |steps| && steps[j] == StartClaim(o, node, room)
    requires RoomAddress(CacheOf(run[j], node), room) == Some(k.address(node))
    ensures CacheGranted(node, room) in run[j + 1].answers
    ensures l < j && Acquires(run[l], steps[l], room, node)
    ensures forall i :: l < i < j ==> !Acquires(run[i], steps[i], room, node)
    ensures Records(run[j], room, node) <==> !Displaced(run, steps, l, j, room, node)
  {
    StepAt(k, run, steps, j);
    CacheNeverNamesANeverOwner(k, run, steps, j, node, room);
    var m, id :| 0 <= m <= j && m < |run| && Records(run[m], room, id) && k.address(id) == k.address(node);
    assert id == node;
    l := LastGrant(k, run, steps, m, j, room, node);
    GrantIsCurrentIff(k, run, steps, l, j, room, node);
  }

  /**
   Every release goes back to a script grant to the releasing node, and the key it deletes is the
   node's own exactly when the node has not been displaced since the last of them.
   */
  lemma {:induction false} ReleaseDeletesOwnKeyIff(k: Cluster, run: seq<System>, steps: seq<Step>, j: nat, o: nat, node: string, room: string)
    returns (l: nat)
    requires WellConfigured(k) && IsRun(k, run, steps) && j < |steps| && steps[j] == DeleteReleased(o)
    requires o in run[j].ops && run[j].ops[o].Releasing? && run[j].ops[o].node == node && run[j].ops[o].room == room
    ensures l < j && Acquires(run[l], steps[l], room, node)
    ensures forall i :: l < i < j ==> !Acquires(run[i], steps[i], room, node)
    ensures Records(run[j], room, node) <==> !Displaced(run, steps, l, j, room, node)
  {
    EveryReachableStateIsSound(k, run, steps, j);
    assert OpOk(k, run[j].owned, run[j].ops[o]);
    OwnedWasRecorded(k, run, steps, j, room, node);
    var m :| 0 <= m <= j && Records(run[m], room, node);
    l := LastGrant(k, run, steps, m, j, room, node);
    GrantIsCurrentIff(k, run, steps, l, j, room, node);
  }

  /** Step l is the last grant of the room to the node before state j. */
  ghost predicate IsLastGrant(run: seq<System>, steps: seq<Step>, l: nat, j: nat, room: string, node: string)
    requires j <= |steps| <= |run|
  {
    l < j && Acquires(run[l], steps[l], room, node) && forall i :: l < i < j ==> !Acquires(run[i], steps[i], room, node)
  }

  /** In any state, the store records the node exactly when it was granted the room and not displaced since. */
  lemma {:induction false} RecordedIff(k: Cluster, run: seq<System>, steps: seq<Step>, j: nat, room: string, node: string)
    requires IsRun(k, run, steps) && j <= |steps|
    ensures Records(run[j], room, node) <==>
            exists l :: IsLastGrant(run, steps, l, j, room, node) && !Displaced(run, steps, l, j, room, node)
  {
    if Records(run[j], room, node) {
      var l := LastGrant(k, run, steps, j, j, room, node);
      GrantIsCurrentIff(k, run, steps, l, j, room, node);
      assert IsLastGrant(run, steps, l, j, room, node);
    }
    forall l: nat | IsLastGrant(run, steps, l, j, room, node) && !Displaced(run, steps, l, j, room, node)
      ensures Records(run[j], room, node)
    {
      GrantIsCurrentIff(k, run, steps, l, j, room, node);
    }
  }

  /**
   unregisterRoom deletes whatever key there is. It is the calling node's own exactly when the
   node was once granted the room and has not been displaced since its last grant.
   */
  lemma {:induction false} UnregisterDeletesOwnKeyIff(k: Cluster, run: seq<System>, steps: seq<Step>, j: nat, node: string, room: string)
    requires IsRun(k, run, steps) && j < |steps| && steps[j] == DeleteRoom(node, room)
    ensures room !in run[j + 1].redis.rooms
    ensures Records(run[j], room, node) <==>
            exists l :: IsLastGrant(run, steps, l, j, room, node) && !Displaced(run, steps, l, j, room, node)
  {
    StepAt(k, run, steps, j);
    RecordedIff(k, run, steps, j, room, node);
  }

  // ---------------------------------------------------------------------------
  // What the protocol does not promise
  // ---------------------------------------------------------------------------

  lemma {:induction false} Extend(k: Cluster, run: seq<System>, steps: seq<Step>, step: Step) returns (longer: seq<System>, more: seq<Step>, last: System)
    requires IsRun(k, run, steps) && Enabled(k, run[|run| - 1], step)
    ensures IsRun(k, longer, more) && run <= longer && |longer| == |run| + 1 && more == steps + [step]
    ensures last == longer[|longer| - 1] == Apply(k, run[|run| - 1], step)
  {
    last := Apply(k, run[|run| - 1], step);
    PathSnoc(StepRelation(k), run, steps, step, last);
    longer, more := run + [last], steps + [step];
  }

  /** A claim that the script decides in the node's favour, up to the decision. */
  lemma {:induction false} ClaimRun(k: Cluster, run: seq<System>, steps: seq<Step>, node: string, room: string, o: nat)
    returns (longer: seq<System>, more: seq<Step>, last: System)
    requires IsRun(k, run, steps) && '=' !in room
    requires var s := run[|run| - 1];
             && o !in s.ops && room !in CacheOf(s, node).rooms
             && (room in s.redis.rooms ==> s.redis.rooms[room] != node && s.redis.rooms[room] !in s.redis.nodes)
    ensures IsRun(k, longer, more) && last == longer[|longer| - 1]
    ensures var s := run[|run| - 1];
            && last.redis == s.redis.(rooms := s.redis.rooms[room := node])
            && last.caches == s.caches && last.answers == s.answers
            && last.ops == s.ops[o := Claimed(node, room, room !in s.redis.rooms)]
  {
    var s := run[|run| - 1];
    longer, more, last := Extend(k, run, steps, StartClaim(o, node, room));
    assert last == SetOp(s, o, Claiming(node, room));
    longer, more, last := Extend(k, longer, more, RunScript(o));
    assert s.ops[o := Claiming(node, room)][o := last.ops[o]] == s.ops[o := last.ops[o]];
  }

  /** The end of a claim that keeps the room. */
  lemma {:induction false} KeepRun(k: Cluster, run: seq<System>, steps: seq<Step>, o: nat, node: string, room: string)
    returns (longer: seq<System>, more: seq<Step>, last: System)
    requires IsRun(k, run, steps)
    requires var s := run[|run| - 1]; o in s.ops && s.ops[o].Claimed? && s.ops[o].node == node && s.ops[o].room == room
    ensures IsRun(k, longer, more) && last == longer[|longer| - 1]
    ensures var s := run[|run| - 1];
            && last.redis == s.redis && last.ops == s.ops - {o} && last.answers == s.answers + {Granted(node, room)}
            && last.caches == s.caches[node := UpsertRoom(CacheOf(s, node), room, k.address(node))]
  {
    var s := run[|run| - 1];
    longer, more, last := Extend(k, run, steps, Keep(o));
    assert last.ops[o] == Announcing(node, room);
    longer, more, last := Extend(k, longer, more, Announce(o));
    assert s.ops[o := Announcing(node, room)] - {o} == s.ops - {o};
  }

  /** Any node can be granted any free room on the spot. */
  lemma {:induction false} GrantTo(k: Cluster, run: seq<System>, steps: seq<Step>, node: string, room: string, o: nat)
    returns (longer: seq<System>, more: seq<Step>, last: System)
    requires IsRun(k, run, steps) && '=' !in room
    requires var s := run[|run| - 1]; room !in s.redis.rooms && room !in CacheOf(s, node).rooms && o !in s.ops
    ensures IsRun(k, longer, more) && last == longer[|longer| - 1]
    ensures Records(last, room, node) && Granted(node, room) in last.answers && o !in last.ops
    ensures last.redis.nodes == run[|run| - 1].redis.nodes
    ensures last.caches == run[|run| - 1].caches[node := UpsertRoom(CacheOf(run[|run| - 1], node), room, k.address(node))]
  {
    longer, more, last := ClaimRun(k, run, steps, node, room, o);
    longer, more, last := KeepRun(k, longer, more, o, node, room);
  }

  /**
   A grant from the cache is not validated: there is a run in which it is given although the
   store records another node, alive, as the owner.
   */
  lemma CacheGrantCanBeStale(k: Cluster, info: NodeInfo) returns (run: seq<System>, steps: seq<Step>)
    requires WellConfigured(k) && info.address == k.address("b")
    ensures IsRun(k, run, steps)
    ensures var s := run[|run| - 1];
            && CacheGranted("a", "r") in s.answers
            && Records(s, "r", "b") && "b" in s.redis.nodes && Granted("b", "r") in s.answers
  {
    var s;
    run, steps, s := ExpiredGrant(k, info);
    assert "r" !in CacheOf(s, "b").rooms;
    var before := s.caches;
    run, steps, s := GrantTo(k, run, steps, "b", "r", 0);
    assert CacheOf(s, "a") == before["a"];
    run, steps, s := Extend(k, run, steps, StartClaim(0, "a", "r"));
  }

  /** a was granted the room, whose key has expired since; b is alive. */
  lemma ExpiredGrant(k: Cluster, info: NodeInfo) returns (run: seq<System>, steps: seq<Step>, s: System)
    requires WellConfigured(k) && info.address == k.address("b")
    ensures IsRun(k, run, steps) && s == run[|run| - 1]
    ensures "r" !in s.redis.rooms && "b" in s.redis.nodes && 0 !in s.ops
    ensures s.caches == map["a" := Cache(map[], map["r" := k.address("a")])]
  {
    run, steps := [INITIAL], [];
    run, steps, s := GrantTo(k, run, steps, "a", "r", 0);
    run, steps, s := Extend(k, run, steps, ExpireRoom("r"));
    run, steps, s := Extend(k, run, steps, StoreNode("b", info));
  }

  /**
   unregisterRoom does not check the owner either: there is a run in which a node whose room
   expired deletes the key of the live node that was granted the room after it.
   */
  lemma UnregisterCanUnseatLiveOwner(k: Cluster, info: NodeInfo) returns (run: seq<System>, steps: seq<Step>, granted: nat)
    requires WellConfigured(k) && info.address == k.address("b")
    ensures IsRun(k, run, steps) && granted + 1 < |run|
    ensures var s, t := run[granted], run[granted + 1];
            && Granted("b", "r") in s.answers && Records(s, "r", "b") && "b" in s.redis.nodes
            && steps[granted] == DeleteRoom("a", "r") && "r" !in t.redis.rooms
  {
    var s;
    run, steps, s := ExpiredGrant(k, info);
    assert "r" !in CacheOf(s, "b").rooms;
    run, steps, s := GrantTo(k, run, steps, "b", "r", 0);
    granted := |run| - 1;
    run, steps, s := Extend(k, run, steps, DeleteRoom("a", "r"));
  }

  /** b has claimed the free room r, but is about to give it back in favour of a, which is alive. */
  lemma PendingRelease(k: Cluster, info: NodeInfo) returns (run: seq<System>, steps: seq<Step>, s: System)
    requires WellConfigured(k) && DistinctAddresses(k) && info.address == k.address("a")
    ensures IsRun(k, run, steps) && s == run[|run| - 1]
    ensures s.redis == Redis(map["r" := "b"], map["a" := Build(info)]) && s.caches == map[]
    ensures s.ops == map[0 := Releasing("b", "r", k.address("a"))]
  {
    run, steps := [INITIAL], [];
    run, steps, s := ClaimRun(k, run, steps, "b", "r", 0);
    assert s.ops == map[0 := Claimed("b", "r", true)];
    run, steps, s := Extend(k, run, steps, Release(0, k.address("a")));
    run, steps, s := Extend(k, run, steps, StoreNode("a", info));
  }

  /**
   The key that a release deletes need not be its own any more: there is a run in which a live
   node that was granted the room by a validated claim loses its key to another node's release.
   */
  lemma ReleaseCanUnseatLiveOwner(k: Cluster, info: NodeInfo) returns (run: seq<System>, steps: seq<Step>, granted: nat)
    requires WellConfigured(k) && DistinctAddresses(k) && info.address == k.address("a")
    ensures IsRun(k, run, steps) && granted + 1 < |run|
    ensures var s, t := run[granted], run[granted + 1];
            && Granted("a", "r") in s.answers && Records(s, "r", "a") && "a" in s.redis.nodes
            && steps[granted] == DeleteReleased(0) && s.ops[0].node == "b" && "r" !in t.redis.rooms
  {
    var s;
    run, steps, s := PendingRelease(k, info);
    assert s.redis.rooms["r"] == "b" && "b" !in s.redis.nodes;
    run, steps, s := ClaimRun(k, run, steps, "a", "r", 1);
    run, steps, s := KeepRun(k, run, steps, 1, "a", "r");
    assert s.ops[0] == Releasing("b", "r", k.address("a"));
    granted := |run| - 1;
    run, steps, s := Extend(k, run, steps, DeleteReleased(0));
  }
}
