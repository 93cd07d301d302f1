/**
 A claim with other activity between its commands: other nodes claim and unregister rooms, and
 keys come and go, after the cache lookup and before each Redis command of the claim.
 */
module RoomInterleaving {
  import opened Options
  import opened NodeValues
  import opened CacheView
  import opened RoomOwnership
  import opened RoomRegistry
  import Safety = RoomOwnershipSafety

  /** What happens to the store, or what another node does. */
  datatype Act =
    | Expire(room: string)
    | NodeUp(id: string, info: NodeInfo)
    | NodeDown(id: string)
    | OtherClaims(room: string, best: string)
    | OtherUnregisters(room: string)

  /** The node's cache and its operation o are as they were, and no answer is taken back. */
  ghost predicate Kept(s: System, t: System, node: string, o: nat) {
    && CacheOf(t, node) == CacheOf(s, node)
    && (o in s.ops ==> o in t.ops && t.ops[o] == s.ops[o])
    && s.answers <= t.answers
  }

  lemma LocalKeeps(s: System, t: System, other: string, p: nat, node: string, o: nat)
    requires Local(s, t, other, p) && other != node && (o in s.ops ==> p != o)
    ensures Kept(s, t, node, o)
  {
    if o in s.ops { assert o in s.ops - {p} && (t.ops - {p})[o] == t.ops[o]; }
  }

  lemma {:induction false} Bound(s: set<nat>) returns (b: nat)
    ensures forall x :: x in s ==> x < b
    decreases s
  {
    b := 0;
    if s != {} {
      var x :| x in s;
      var c := Bound(s - {x});
      b := if x < c then c else x + 1;
      forall y | y in s ensures y < b {
        if y != x { assert y in s - {x}; }
      }
    }
  }

  /** Two registries on one store. */
  ghost predicate Both(a: Registry, b: Registry)
    reads a, a.redis, a.cache, b, b.redis, b.cache
  {
    a.Valid() && b.Valid() && a.redis == b.redis && a.cache != b.cache && a.nodeId != b.nodeId
  }

  /** One act leaves the first node's cache and operation alone. */
  method OneAct(a: Registry, b: Registry, act: Act, ghost o: nat)
    requires Both(a, b)
    modifies b.redis, b.cache
    ensures Both(a, b) && old(a.redis.run) <= a.redis.run
    ensures Kept(old(Last(a.redis.run)), Last(a.redis.run), a.nodeId, o)
  {
    ghost var s := Last(b.redis.run);
    ghost var p := Bound(s.ops.Keys);
    match act {
      case Expire(room) =>
        b.redis.ExpireRoomKey(room, b.nodeId, p);
      case NodeUp(id, info) =>
        if info.address == b.k.address(id) { b.redis.StoreNodeKey(id, info, b.nodeId, p); }
      case NodeDown(id) =>
        b.redis.DropNodeKey(id, b.nodeId, p);
      case OtherClaims(room, best) =>
        if '=' !in room { var _ := b.ClaimRoom(room, best, p); }
      case OtherUnregisters(room) =>
        if '=' !in room { b.UnregisterRoom(room, p); }
    }
    LocalKeeps(s, Last(b.redis.run), b.nodeId, p, a.nodeId, o);
  }

  method Interfere(a: Registry, b: Registry, acts: seq<Act>, ghost o: nat)
    requires Both(a, b)
    modifies b.redis, b.cache
    ensures Both(a, b) && old(a.redis.run) <= a.redis.run
    ensures Kept(old(Last(a.redis.run)), Last(a.redis.run), a.nodeId, o)
  {
    for i := 0 to |acts|
      invariant Both(a, b) && old(a.redis.run) <= a.redis.run
      invariant Kept(old(Last(a.redis.run)), Last(a.redis.run), a.nodeId, o)
    {
      OneAct(a, b, acts[i], o);
    }
  }

  /** What happens between the commands of one claim. */
  datatype Meanwhile = Meanwhile(beforeRoom: seq<Act>, beforeNode: seq<Act>, beforeScript: seq<Act>, beforeEnd: seq<Act>)

  /** The result of a claim is among the answers of the protocol. */
  ghost predicate Answered(s: System, node: string, room: string, result: ClaimResult) {
    match result
    case Grant => Granted(node, room) in s.answers || CacheGranted(node, room) in s.answers || RefreshGranted(node, room) in s.answers
    case RedirectTo(address) => Redirected(node, room, address) in s.answers || Referred(node, room, address) in s.answers
    case Threw => true
  }

  /** The cached redirect is checked while others are at work; an address settles the claim. */
  method RefreshAmid(a: Registry, b: Registry, room: string, cached: string, meanwhile: Meanwhile, ghost o: nat)
    returns (address: string)
    requires Both(a, b) && o in Last(a.redis.run).ops && Last(a.redis.run).ops[o] == Refreshing(a.nodeId, room, cached)
    modifies a.redis, a.cache, b.cache
    ensures Both(a, b) && old(a.redis.run) <= a.redis.run
    ensures address == "" ==> o in Last(a.redis.run).ops && Last(a.redis.run).ops[o] == Claiming(a.nodeId, room)
    ensures address != "" ==> o !in Last(a.redis.run).ops && OwnerAnswer(a.k, a.nodeId, room, address) in Last(a.redis.run).answers
  {
    Interfere(a, b, meanwhile.beforeRoom, o);
    var owner := a.LookUpOwner(room, cached, o);
    if owner.None? { return ""; }
    Interfere(a, b, meanwhile.beforeNode, o);
    address := a.RefreshedFromNode(room, cached, owner.value, o);
  }

  /** The script and what follows, while others are at work. */
  method ScriptAmid(a: Registry, b: Registry, room: string, best: string, meanwhile: Meanwhile, ghost o: nat)
    returns (result: ClaimResult)
    requires Both(a, b) && o in Last(a.redis.run).ops && Last(a.redis.run).ops[o] == Claiming(a.nodeId, room)
    modifies a.redis, a.cache, b.cache
    ensures Both(a, b) && old(a.redis.run) <= a.redis.run && o !in Last(a.redis.run).ops
    ensures Answered(Last(a.redis.run), a.nodeId, room, result)
    ensures WellConfigured(a.k) ==> !result.Threw?
  {
    Interfere(a, b, meanwhile.beforeScript, o);
    var reply := ScriptReply(a, b, room, o);
    if reply.Owned? {
      result := a.FollowOwner(room, reply.value, o);
    } else if reply.Fresh? && best != "" && best != a.k.address(a.nodeId) {
      GiveBackAmid(a, b, room, best, meanwhile.beforeEnd, o);
      result := RedirectTo(best);
    } else {
      KeepAmid(a, b, room, reply.Fresh?, meanwhile.beforeEnd, o);
      result := Grant;
    }
  }

  /** The reply of the script; a live owner's value has an address. */
  method ScriptReply(a: Registry, b: Registry, room: string, ghost o: nat) returns (reply: Reply)
    requires Both(a, b) && o in Last(a.redis.run).ops && Last(a.redis.run).ops[o] == Claiming(a.nodeId, room)
    modifies a.redis
    ensures Both(a, b) && old(a.redis.run) <= a.redis.run && o in Last(a.redis.run).ops
    ensures Last(a.redis.run).ops[o] == match reply
                                        case Owned(value) => Following(a.nodeId, room, value)
                                        case _ => Claimed(a.nodeId, room, reply.Fresh?)
    ensures WellConfigured(a.k) && reply.Owned? ==> Parse(reply.value).address != ""
  {
    if WellConfigured(a.k) { a.StoreIsSound(); }
    reply := a.RunScriptOnce(room, o);
  }

  method GiveBackAmid(a: Registry, b: Registry, room: string, best: string, acts: seq<Act>, ghost o: nat)
    requires Both(a, b) && o in Last(a.redis.run).ops && Last(a.redis.run).ops[o] == Claimed(a.nodeId, room, true)
    requires best != "" && best != a.k.address(a.nodeId)
    modifies a.redis, b.cache
    ensures Both(a, b) && old(a.redis.run) <= a.redis.run && o !in Last(a.redis.run).ops
    ensures Referred(a.nodeId, room, best) in Last(a.redis.run).answers
  {
    a.DecideRelease(room, best, o);
    Interfere(a, b, acts, o);
    a.DeleteClaim(room, best, o);
  }

  method KeepAmid(a: Registry, b: Registry, room: string, isNew: bool, acts: seq<Act>, ghost o: nat)
    requires Both(a, b) && o in Last(a.redis.run).ops && Last(a.redis.run).ops[o] == Claimed(a.nodeId, room, isNew)
    modifies a.redis, a.cache, b.cache
    ensures Both(a, b) && old(a.redis.run) <= a.redis.run && o !in Last(a.redis.run).ops
    ensures Granted(a.nodeId, room) in Last(a.redis.run).answers
  {
    a.KeepRoom(room, isNew, o);
    Interfere(a, b, acts, o);
    a.AnnounceRoom(room, o);
  }

  /**
   claimRoom, command by command, with anything of the above in between. The whole is still a run
   of the protocol in which the result is recorded as an answer; so a grant, and a redirect that is
   no referral, names an earlier owner, and the call does not throw.
   */
  method ClaimAmid(a: Registry, b: Registry, room: string, best: string, meanwhile: Meanwhile, ghost o: nat)
    returns (result: ClaimResult)
    requires Both(a, b) && o !in Last(a.redis.run).ops && '=' !in room
    modifies a.redis, a.cache, b.cache
    ensures Both(a, b) && old(a.redis.run) <= a.redis.run && o !in Last(a.redis.run).ops
    ensures Answered(Last(a.redis.run), a.nodeId, room, result)
    ensures WellConfigured(a.k) ==> !result.Threw?
    ensures WellConfigured(a.k) && result.Grant? ==>
              Safety.OwnedBefore(a.k, a.redis.run, |a.redis.run| - 1, room, a.k.address(a.nodeId))
    ensures WellConfigured(a.k) && result.RedirectTo? ==>
              || Referred(a.nodeId, room, result.address) in Last(a.redis.run).answers
              || Safety.OwnedBefore(a.k, a.redis.run, |a.redis.run| - 1, room, result.address)
  {
    result := DecideAmid(a, b, room, best, meanwhile, o);
    if WellConfigured(a.k) { AnsweredMeans(a.k, a.redis.run, a.redis.steps, a.nodeId, room, result); }
  }

  method DecideAmid(a: Registry, b: Registry, room: string, best: string, meanwhile: Meanwhile, ghost o: nat)
    returns (result: ClaimResult)
    requires Both(a, b) && o !in Last(a.redis.run).ops && '=' !in room
    modifies a.redis, a.cache, b.cache
    ensures Both(a, b) && old(a.redis.run) <= a.redis.run && o !in Last(a.redis.run).ops
    ensures Answered(Last(a.redis.run), a.nodeId, room, result)
    ensures WellConfigured(a.k) ==> !result.Threw?
  {
    var cached := a.BeginClaim(room, o);
    if cached == Some(a.k.address(a.nodeId)) { return Grant; }
    if cached.Some? {
      var address := RefreshAmid(a, b, room, cached.value, meanwhile, o);
      if address != "" {
        return if address == a.k.address(a.nodeId) then Grant else RedirectTo(address);
      }
    }
    result := ScriptAmid(a, b, room, best, meanwhile, o);
  }

  lemma {:induction false} AnsweredMeans(k: Cluster, run: seq<System>, steps: seq<Step>, node: string, room: string, result: ClaimResult)
    requires WellConfigured(k) && IsRun(k, run, steps) && Answered(Last(run), node, room, result)
    ensures result.Grant? ==> Safety.OwnedBefore(k, run, |run| - 1, room, k.address(node))
    ensures result.RedirectTo? ==>
              || Referred(node, room, result.address) in Last(run).answers
              || Safety.OwnedBefore(k, run, |run| - 1, room, result.address)
  {
    var n, answers := |run| - 1, Last(run).answers;
    match result
    case Grant =>
      var a := if Granted(node, room) in answers then Granted(node, room)
               else if CacheGranted(node, room) in answers then CacheGranted(node, room)
               else RefreshGranted(node, room);
      Safety.AnswersNeverNameANeverOwner(k, run, steps, n, a);
    case RedirectTo(address) =>
      if Referred(node, room, address) !in answers {
        Safety.AnswersNeverNameANeverOwner(k, run, steps, n, Redirected(node, room, address));
      }
    case Threw =>
  }
}
