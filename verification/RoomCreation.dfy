/**
 Single-flight room creation: the critical sections of the room manager, and every interleaving
 of createRoom and removeRoom calls over them.
 */
module RoomCreation {

  /** A promise shared between a creator and its waiters is named by its position in creation order. */
  datatype Shared = Shared(rooms: map<string, nat>, pending: map<string, nat>, promised: nat)

  datatype Entered = Found(room: nat) | Joined(promise: nat) | Leading(promise: nat)

  // ---------------------------------------------------------------------------
  // Critical sections
  // ---------------------------------------------------------------------------

  function Enter(s: Shared, id: string): (Shared, Entered) {
    if id in s.rooms then (s, Found(s.rooms[id]))
    else if id in s.pending then (s, Joined(s.pending[id]))
    else (s.(pending := s.pending[id := s.promised], promised := s.promised + 1), Leading(s.promised))
  }

  /** The room kept under `id` once a creator has inserted its own, if there was none. */
  function Publish(s: Shared, id: string, room: nat): (Shared, nat) {
    var rooms := if id in s.rooms then s.rooms else s.rooms[id := room];
    (s.(rooms := rooms, pending := s.pending - {id}), rooms[id])
  }

  function Abandon(s: Shared, id: string): Shared {
    s.(pending := s.pending - {id})
  }

  function Remove(s: Shared, id: string): Shared {
    s.(rooms := s.rooms - {id})
  }

  /** The room manager's tables; each method is one section under its mutex. */
  class RoomManager {
    var rooms: map<string, nat>
    var pendingRooms: map<string, nat>
    var promised: nat

    ghost function View(): Shared
      reads this
    {
      Shared(rooms, pendingRooms, promised)
    }

    constructor ()
      ensures View() == Shared(map[], map[], 0)
    {
      rooms, pendingRooms, promised := map[], map[], 0;
    }

    method EnterCreateRoom(id: string) returns (entered: Entered)
      modifies this
      ensures (View(), entered) == Enter(old(View()), id) && rooms == old(rooms)
      ensures id in rooms ==> entered == Found(rooms[id]) && pendingRooms == old(pendingRooms)
      ensures id !in rooms && id in old(pendingRooms) ==>
                entered == Joined(old(pendingRooms)[id]) && pendingRooms == old(pendingRooms)
      ensures id !in rooms && id !in old(pendingRooms) ==>
                entered == Leading(old(promised)) && pendingRooms == old(pendingRooms)[id := old(promised)]
    {
      if id in rooms { return Found(rooms[id]); }
      if id in pendingRooms { return Joined(pendingRooms[id]); }
      entered := Leading(promised);
      pendingRooms, promised := pendingRooms[id := promised], promised + 1;
    }

    method PublishRoom(id: string, room: nat) returns (inserted: bool, kept: nat)
      modifies this
      ensures (View(), kept) == Publish(old(View()), id, room)
      ensures inserted <==> id !in old(rooms)
      ensures id in rooms && rooms[id] == kept && (inserted ==> kept == room) && (!inserted ==> rooms == old(rooms))
      ensures rooms - {id} == old(rooms) - {id} && pendingRooms == old(pendingRooms) - {id}
    {
      inserted := id !in rooms;
      if inserted { rooms := rooms[id := room]; }
      pendingRooms := pendingRooms - {id};
      kept := rooms[id];
    }

    method AbandonCreation(id: string)
      modifies this
      ensures View() == Abandon(old(View()), id) && id !in pendingRooms && rooms == old(rooms)
    {
      pendingRooms := pendingRooms - {id};
    }

    method RemoveRoom(id: string)
      modifies this
      ensures View() == Remove(old(View()), id)
      ensures id !in rooms && rooms - {id} == old(rooms) - {id} && pendingRooms == old(pendingRooms)
    {
      if id in rooms { rooms := rooms - {id}; }
    }
  }

  // ---------------------------------------------------------------------------
  // Interleavings
  // ---------------------------------------------------------------------------

  datatype Outcome = Room(room: nat) | Exception

  /** Where one createRoom call stands. */
  datatype Call =
    | Creating(id: string, promise: nat)                  // between the two critical sections
    | Settling(id: string, promise: nat, outcome: Outcome) // promise not set yet
    | Waiting(id: string, promise: nat)
    | Led(id: string, promise: nat, outcome: Outcome)     // returned, as the creator
    | Followed(id: string, promise: nat, outcome: Outcome) // returned, as a waiter
    | Immediate(id: string, outcome: Outcome)             // returned an existing room

  /**
   `calls` holds every call ever made, `leaders[p]` the call that created promise p, `settled` the
   promises already set, and `duplicates` how often a creator found a room in its place.
   */
  datatype System = System(
    shared: Shared, calls: map<nat, Call>, leaders: seq<nat>, settled: map<nat, Outcome>, duplicates: nat)

  const INITIAL := System(Shared(map[], map[], 0), map[], [], map[], 0)

  datatype Step =
    | Begin(call: nat, id: string)
    | Built(call: nat, room: nat)      // worker and router are ready; second critical section
    | BuildFailed(call: nat)
    | Settle(call: nat)                // set_value or set_exception
    | Wake(call: nat)
    | RemoveOne(id: string)

  ghost predicate Enabled(s: System, step: Step) {
    match step
    case Begin(c, _) => c !in s.calls
    case Built(c, _) => c in s.calls && s.calls[c].Creating?
    case BuildFailed(c) => c in s.calls && s.calls[c].Creating?
    case Settle(c) => c in s.calls && s.calls[c].Settling?
    case Wake(c) => c in s.calls && s.calls[c].Waiting? && s.calls[c].promise in s.settled
    case RemoveOne(_) => true
  }

  function Apply(s: System, step: Step): System
    requires Enabled(s, step)
  {
    match step
    case Begin(c, id) =>
      var (shared, entered) := Enter(s.shared, id);
      (match entered
       case Found(room) => s.(calls := s.calls[c := Immediate(id, Room(room))])
       case Joined(p) => s.(calls := s.calls[c := Waiting(id, p)])
       case Leading(p) => s.(shared := shared, calls := s.calls[c := Creating(id, p)], leaders := s.leaders + [c]))
    case Built(c, room) =>
      var id := s.calls[c].id;
      var (shared, kept) := Publish(s.shared, id, room);
      s.(shared := shared, calls := s.calls[c := Settling(id, s.calls[c].promise, Room(kept))],
         duplicates := if id in s.shared.rooms then s.duplicates + 1 else s.duplicates)
    case BuildFailed(c) =>
      var id := s.calls[c].id;
      s.(shared := Abandon(s.shared, id), calls := s.calls[c := Settling(id, s.calls[c].promise, Exception)])
    case Settle(c) =>
      var call := s.calls[c];
      s.(settled := s.settled[call.promise := call.outcome], calls := s.calls[c := Led(call.id, call.promise, call.outcome)])
    case Wake(c) =>
      var call := s.calls[c];
      s.(calls := s.calls[c := Followed(call.id, call.promise, s.settled[call.promise])])
    case RemoveOne(id) => s.(shared := Remove(s.shared, id))
  }

  ghost predicate IsRun(run: seq<System>, steps: seq<Step>) {
    && |run| == |steps| + 1 && run[0] == INITIAL
    && forall i :: 0 <= i < |steps| ==> Enabled(run[i], steps[i]) && run[i + 1] == Apply(run[i], steps[i])
  }

  /** Call c agrees with the tables. */
  ghost predicate CallOk(s: System, c: nat) {
    c in s.calls ==>
      match s.calls[c]
      case Creating(id, p) =>
        p < |s.leaders| && s.leaders[p] == c && id in s.shared.pending && s.shared.pending[id] == p && p !in s.settled
      case Settling(id, p, _) => p < |s.leaders| && s.leaders[p] == c && p !in s.settled
      case Waiting(id, p) => p < |s.leaders| && s.leaders[p] in s.calls && LeaderOf(s, p).id == id
      case Led(id, p, o) => p < |s.leaders| && s.leaders[p] == c && p in s.settled && s.settled[p] == o
      case Followed(id, p, o) =>
        p < |s.leaders| && s.leaders[p] in s.calls && LeaderOf(s, p).id == id && p in s.settled && s.settled[p] == o
      case Immediate(_, _) => true
  }

  ghost function LeaderOf(s: System, p: nat): Call
    requires p < |s.leaders| && s.leaders[p] in s.calls
  {
    s.calls[s.leaders[p]]
  }

  /** Promise p has one creator, which is at work or has set it. */
  ghost predicate LeaderOk(s: System, p: nat) {
    p < |s.leaders| ==>
      && s.leaders[p] in s.calls
      && var call := LeaderOf(s, p);
         && (call.Creating? || call.Settling? || call.Led?)
         && call.promise == p
         && (call.Led? <==> p in s.settled)
  }

  ghost predicate PendingOk(s: System, id: string) {
    id in s.shared.pending ==>
      && id !in s.shared.rooms
      && s.shared.pending[id] < |s.leaders|
      && s.leaders[s.shared.pending[id]] in s.calls
      && LeaderOf(s, s.shared.pending[id]) == Creating(id, s.shared.pending[id])
  }

  ghost predicate CreatorAtWork(s: System, p: nat) {
    p < |s.leaders| && s.leaders[p] in s.calls && (LeaderOf(s, p).Creating? || LeaderOf(s, p).Settling?)
  }

  ghost predicate Inv(s: System) {
    && s.shared.promised == |s.leaders|
    && s.duplicates == 0
    && (forall c :: CallOk(s, c))
    && (forall p :: LeaderOk(s, p))
    && (forall id :: PendingOk(s, id))
    && (forall p :: p in s.settled ==> p < |s.leaders|)
  }

  lemma BeginKeeps(s: System, c: nat, id: string)
    requires Inv(s) && c !in s.calls
    ensures Inv(Apply(s, Begin(c, id)))
  {
    var s' := Apply(s, Begin(c, id));
    forall d ensures CallOk(s', d) { assert CallOk(s, d); if id in s.shared.pending { assert PendingOk(s, id); } }
    forall p ensures LeaderOk(s', p) { assert LeaderOk(s, p); }
    forall other ensures PendingOk(s', other) { assert PendingOk(s, other); }
  }

  /** A creator that leaves its critical section with an outcome, its id no longer pending. */
  lemma LeaveKeeps(s: System, c: nat, rooms: map<string, nat>, outcome: Outcome)
    requires Inv(s) && c in s.calls && s.calls[c].Creating?
    requires forall id :: id in rooms ==> id in s.shared.rooms || id == s.calls[c].id
    ensures var call := s.calls[c];
            Inv(s.(shared := s.shared.(rooms := rooms, pending := s.shared.pending - {call.id}),
                   calls := s.calls[c := Settling(call.id, call.promise, outcome)]))
  {
    var call := s.calls[c];
    var s' := s.(shared := s.shared.(rooms := rooms, pending := s.shared.pending - {call.id}),
                 calls := s.calls[c := Settling(call.id, call.promise, outcome)]);
    assert CallOk(s, c);
    forall d ensures CallOk(s', d) { assert CallOk(s, d); }
    forall p ensures LeaderOk(s', p) { assert LeaderOk(s, p); }
    forall other ensures PendingOk(s', other) { assert PendingOk(s, other); }
  }

  lemma SettleKeeps(s: System, c: nat)
    requires Inv(s) && c in s.calls && s.calls[c].Settling?
    ensures Inv(Apply(s, Settle(c)))
    ensures s.calls[c].promise !in s.settled
  {
    var s' := Apply(s, Settle(c));
    assert CallOk(s, c);
    forall d ensures CallOk(s', d) { assert CallOk(s, d); }
    forall p ensures LeaderOk(s', p) { assert LeaderOk(s, p); }
    forall other ensures PendingOk(s', other) { assert PendingOk(s, other); }
  }

  lemma WakeKeeps(s: System, c: nat)
    requires Inv(s) && Enabled(s, Wake(c))
    ensures Inv(Apply(s, Wake(c)))
  {
    var s' := Apply(s, Wake(c));
    assert CallOk(s, c);
    forall d ensures CallOk(s', d) { assert CallOk(s, d); }
    forall p ensures LeaderOk(s', p) { assert LeaderOk(s, p); }
    forall other ensures PendingOk(s', other) { assert PendingOk(s, other); }
  }

  lemma RemoveKeeps(s: System, id: string)
    requires Inv(s)
    ensures Inv(Apply(s, RemoveOne(id)))
  {
    var s' := Apply(s, RemoveOne(id));
    forall d ensures CallOk(s', d) { assert CallOk(s, d); }
    forall p ensures LeaderOk(s', p) { assert LeaderOk(s, p); }
    forall other ensures PendingOk(s', other) { assert PendingOk(s, other); }
  }

  lemma StepKeeps(s: System, step: Step)
    requires Inv(s) && Enabled(s, step)
    ensures Inv(Apply(s, step))
  {
    match step
    case Begin(c, id) => BeginKeeps(s, c, id);
    case Built(c, room) =>
      assert CallOk(s, c) && PendingOk(s, s.calls[c].id);
      LeaveKeeps(s, c, s.shared.rooms[s.calls[c].id := room], Room(room));
    case BuildFailed(c) => LeaveKeeps(s, c, s.shared.rooms, Exception);
    case Settle(c) => SettleKeeps(s, c);
    case Wake(c) => WakeKeeps(s, c);
    case RemoveOne(id) => RemoveKeeps(s, id);
  }

  lemma {:induction false} EveryReachableStateIsSound(run: seq<System>, steps: seq<Step>, n: nat)
    requires IsRun(run, steps) && n < |run|
    ensures Inv(run[n])
  {
    if n > 0 {
      EveryReachableStateIsSound(run, steps, n - 1);
      StepKeeps(run[n - 1], steps[n - 1]);
    }
  }

  /**
   In every interleaving: a room id has at most one creator between the two critical sections, a
   pending id is not in the room table, the duplicate branch is never taken, whoever shares a
   promise gets the creator's outcome, and a waiter is either served or its creator is still at work.
   */
  lemma SingleFlight(run: seq<System>, steps: seq<Step>, n: nat, c: nat, d: nat)
    requires IsRun(run, steps) && n < |run| && c in run[n].calls && d in run[n].calls
    ensures var s := run[n];
            var x, y := s.calls[c], s.calls[d];
            && s.duplicates == 0
            && s.shared.pending.Keys !! s.shared.rooms.Keys
            && (x.Creating? && y.Creating? && x.id == y.id ==> c == d)
            && (x.Followed? && y.Led? && x.promise == y.promise ==> x.id == y.id && x.outcome == y.outcome)
            && (x.Waiting? ==> Enabled(s, Wake(c)) || CreatorAtWork(s, x.promise))
  {
    EveryReachableStateIsSound(run, steps, n);
    var s := run[n];
    assert CallOk(s, c) && CallOk(s, d);
    forall id | id in s.shared.pending ensures id !in s.shared.rooms { assert PendingOk(s, id); }
    if s.calls[c].Waiting? || s.calls[c].Followed? { assert LeaderOk(s, s.calls[c].promise); }
  }

  /** No promise is ever set twice. */
  lemma PromiseSetOnce(run: seq<System>, steps: seq<Step>, n: nat)
    requires IsRun(run, steps) && n < |steps| && steps[n].Settle?
    ensures run[n].calls[steps[n].call].promise !in run[n].settled
    ensures run[n].settled.Keys < run[n + 1].settled.Keys
  {
    EveryReachableStateIsSound(run, steps, n);
    assert CallOk(run[n], steps[n].call);
    assert run[n].calls[steps[n].call].promise in run[n + 1].settled.Keys;
  }

  // ---------------------------------------------------------------------------
  // What the table holds
  // ---------------------------------------------------------------------------

  /** The step publishes `room` under the id. */
  ghost predicate Publishes(s: System, step: Step, id: string, room: nat) {
    step.Built? && step.room == room && step.call in s.calls && s.calls[step.call].id == id
  }

  /** Step i published the room, and no step before n has removed it since. */
  ghost predicate StandsSince(run: seq<System>, steps: seq<Step>, i: nat, n: nat, id: string, room: nat) {
    && i < n <= |steps| <= |run| && Publishes(run[i], steps[i], id, room)
    && forall k :: i < k < n ==> steps[k] != RemoveOne(id)
  }

  ghost predicate Holds(s: System, id: string, room: nat) {
    id in s.shared.rooms && s.shared.rooms[id] == room
  }

  /** One step: a room is in the table afterwards if it was just published, or was there and is not just removed. */
  lemma {:induction false} TableStep(s: System, step: Step, id: string, room: nat)
    requires Inv(s) && Enabled(s, step)
    ensures Holds(Apply(s, step), id, room) <==> Publishes(s, step, id, room) || (Holds(s, id, room) && step != RemoveOne(id))
  {
    if step.Built? {
      assert CallOk(s, step.call) && PendingOk(s, s.calls[step.call].id);
    }
  }

  /** In every interleaving the table holds exactly the rooms published and not removed since. */
  lemma {:induction false} TableIsLastPublished(run: seq<System>, steps: seq<Step>, n: nat, id: string, room: nat)
    requires IsRun(run, steps) && n < |run|
    ensures Holds(run[n], id, room) <==> exists i: nat :: StandsSince(run, steps, i, n, id, room)
  {
    if n > 0 {
      var m := n - 1;
      TableIsLastPublished(run, steps, m, id, room);
      EveryReachableStateIsSound(run, steps, m);
      TableStep(run[m], steps[m], id, room);
      if Publishes(run[m], steps[m], id, room) { assert StandsSince(run, steps, m, n, id, room); }
      if i: nat :| StandsSince(run, steps, i, m, id, room) {
        if steps[m] != RemoveOne(id) { assert StandsSince(run, steps, i, n, id, room); }
      }
      if i: nat :| StandsSince(run, steps, i, n, id, room) {
        if i < m { assert StandsSince(run, steps, i, m, id, room); }
      }
    }
  }

  /** A call that begins returns a room at once if and only if that room stands published. */
  lemma {:induction false} FoundIsLastPublished(run: seq<System>, steps: seq<Step>, n: nat, room: nat)
    requires IsRun(run, steps) && n < |steps| && steps[n].Begin?
    ensures var c, id := steps[n].call, steps[n].id;
            && c in run[n + 1].calls
            && (run[n + 1].calls[c] == Immediate(id, Room(room)) <==> exists i: nat :: StandsSince(run, steps, i, n, id, room))
  {
    TableIsLastPublished(run, steps, n, steps[n].id, room);
  }
}
