/**
 Requesting side of the worker IPC channel in pumped mode: the wrapping request-id allocator and
 the table of outstanding requests. A request is named by its position in issue order; resolving
 it means setting its promise, or throwing to the caller when it turns out too big to send.
 */
module ChannelRequests {
  import ChannelFraming

  const MAX_ID: nat := 4294967295

  // ---------------------------------------------------------------------------
  // The id search
  // ---------------------------------------------------------------------------

  function NextCursor(cursor: nat): nat {
    if cursor < MAX_ID then cursor + 1 else 1
  }

  /** The id examined at the k-th attempt (counting from 1) of a search that starts at `cursor`. */
  function Visited(cursor: nat, k: nat): nat
    requires 1 <= k
  {
    (cursor + k - 1) % MAX_ID + 1
  }

  /** The attempt at which `id` is examined. */
  function AttemptOf(cursor: nat, id: nat): int {
    (id - cursor - 1) % MAX_ID + 1
  }

  lemma VisitedStep(cursor: nat, k: nat)
    requires cursor <= MAX_ID
    ensures Visited(cursor, 1) == NextCursor(cursor)
    ensures 1 <= k ==> Visited(cursor, k + 1) == NextCursor(Visited(cursor, k))
  {
  }

  /** From any cursor, 2^32-1 attempts examine each of 1..2^32-1 exactly once. */
  lemma SearchVisitsEachIdOnce(cursor: nat, id: nat)
    requires cursor <= MAX_ID && 1 <= id <= MAX_ID
    ensures var k := AttemptOf(cursor, id);
            1 <= k <= MAX_ID && Visited(cursor, k) == id &&
            forall j :: 1 <= j <= MAX_ID && Visited(cursor, j) == id ==> j == k
  {
  }

  /** The k-th attempt is the first one that finds a free id. */
  ghost predicate FirstFree(sents: map<nat, nat>, cursor: nat, k: nat) {
    && 1 <= k <= MAX_ID
    && Visited(cursor, k) !in sents
    && forall j :: 1 <= j < k ==> Visited(cursor, j) in sents
  }

  ghost predicate Exhausted(sents: map<nat, nat>) {
    forall id :: 1 <= id <= MAX_ID ==> id in sents
  }

  /** The search of requestWithIdLocked; id 0 means that it found nothing. */
  method FindFreeId(sents: map<nat, nat>, nextId: nat) returns (id: nat, cursor: nat)
    requires nextId <= MAX_ID
    ensures cursor <= MAX_ID
    ensures id == 0 <==> Exhausted(sents)
    ensures id != 0 ==> id == cursor <= MAX_ID && exists k :: FirstFree(sents, nextId, k) && id == Visited(nextId, k)
    ensures id == 0 ==> cursor == Visited(nextId, MAX_ID)
  {
    id, cursor := 0, nextId;
    var attempts := 0;
    while attempts < MAX_ID
      invariant attempts <= MAX_ID && cursor <= MAX_ID && id == 0
      invariant attempts == 0 ==> cursor == nextId
      invariant attempts > 0 ==> cursor == Visited(nextId, attempts)
      invariant forall j :: 1 <= j <= attempts ==> Visited(nextId, j) in sents
    {
      VisitedStep(nextId, attempts);
      cursor := NextCursor(cursor);
      if cursor !in sents {
        id := cursor;
        assert FirstFree(sents, nextId, attempts + 1);
        return;
      }
      attempts := attempts + 1;
    }
    forall id | 1 <= id <= MAX_ID
      ensures id in sents
    {
      SearchVisitsEachIdOnce(nextId, id);
      assert Visited(nextId, AttemptOf(nextId, id)) in sents;
    }
  }

  // ---------------------------------------------------------------------------
  // The table as a step system
  // ---------------------------------------------------------------------------

  datatype Outcome = Accepted | Rejected | TimedOut | ChannelClosed | TooBig
  datatype Resolution = Resolution(request: nat, outcome: Outcome)

  /**
   `sents` maps an id to the outstanding request that uses it, `ids[r]` is the id given to
   request r, and `log` lists the resolutions in the order in which they happened.
   */
  datatype Table = Table(nextId: nat, sents: map<nat, nat>, closed: bool, ids: seq<nat>, log: seq<Resolution>)

  const EMPTY := Table(0, map[], false, [], [])

  datatype Step =
    | Request(size: nat, written: bool)
    | Response(id: nat, accepted: bool)
    | Timeout(request: nat)
    | Close

  ghost predicate Resolved(log: seq<Resolution>, r: nat) {
    exists i :: 0 <= i < |log| && log[i].request == r
  }

  ghost predicate EachOnce(log: seq<Resolution>) {
    forall i, j :: 0 <= i < j < |log| ==> log[i].request != log[j].request
  }

  /** The request that holds `id` is resolved and leaves the table. */
  function Settle(t: Table, id: nat, outcome: Outcome): Table
    requires id in t.sents
  {
    t.(sents := t.sents - {id}, log := t.log + [Resolution(t.sents[id], outcome)])
  }

  /** All outstanding requests are rejected, in whatever order the hash map gives. */
  ghost predicate ClosedFrom(t: Table, t': Table) {
    && t' == t.(closed := true, sents := map[], log := t'.log)
    && t.log <= t'.log
    && var added := t'.log[|t.log|..];
       && EachOnce(added)
       && (forall i :: 0 <= i < |added| ==> added[i].outcome.ChannelClosed?)
       && (forall r :: Resolved(added, r) <==> r in t.sents.Values)
  }

  ghost predicate Next(t: Table, step: Step, t': Table) {
    match step
    case Request(size, written) =>
      if t.closed then t' == t
      else if Exhausted(t.sents) then t' == t.(nextId := Visited(t.nextId, MAX_ID))
      else exists k :: FirstFree(t.sents, t.nextId, k) && Issued(t, Visited(t.nextId, k), size, written, t')
    case Response(id, accepted) =>
      t' == if id in t.sents then Settle(t, id, if accepted then Accepted else Rejected) else t
    case Timeout(r) =>
      if r >= |t.ids| || Resolved(t.log, r) || t.ids[r] !in t.sents then t' == t
      else t' == Settle(t, t.ids[r], TimedOut)
    case Close =>
      if t.closed then t' == t else ClosedFrom(t, t')
  }

  /** A request that was given `id`: too big, or sent, or lost to a failing write. */
  ghost predicate Issued(t: Table, id: nat, size: nat, written: bool, t': Table) {
    var sent := t.(nextId := id, sents := t.sents[id := |t.ids|], ids := t.ids + [id]);
    if size > ChannelFraming.MESSAGE_MAX_LEN then t' == Settle(sent, id, TooBig)
    else if written then t' == sent
    else ClosedFrom(sent, t')
  }

  /** The table holds exactly the unresolved requests, each under its own id. */
  ghost predicate Inv(t: Table) {
    && t.nextId <= MAX_ID
    && (forall id :: id in t.sents ==>
          1 <= id <= MAX_ID && t.sents[id] < |t.ids| && t.ids[t.sents[id]] == id && !Resolved(t.log, t.sents[id]))
    && (forall r :: 0 <= r < |t.ids| && !Resolved(t.log, r) ==> t.ids[r] in t.sents && t.sents[t.ids[r]] == r)
    && (forall i :: 0 <= i < |t.log| ==> t.log[i].request < |t.ids|)
    && EachOnce(t.log)
    && (t.closed ==> t.sents == map[])
  }

  lemma ResolvedAppend(a: seq<Resolution>, b: seq<Resolution>, r: nat)
    ensures Resolved(a + b, r) <==> Resolved(a, r) || Resolved(b, r)
  {
    var c := a + b;
    if i :| 0 <= i < |a| && a[i].request == r { assert c[i].request == r; }
    if i :| 0 <= i < |b| && b[i].request == r { assert c[|a| + i].request == r; }
    if i :| 0 <= i < |c| && c[i].request == r { assert if i < |a| then a[i].request == r else b[i - |a|].request == r; }
  }

  lemma ResolvedSnoc(log: seq<Resolution>, x: Resolution, r: nat)
    ensures Resolved(log + [x], r) <==> Resolved(log, r) || r == x.request
  {
    ResolvedAppend(log, [x], r);
    assert [x][0] == x;
  }

  lemma SettleKeepsInv(t: Table, id: nat, outcome: Outcome)
    requires Inv(t) && id in t.sents
    ensures Inv(Settle(t, id, outcome))
  {
    var t' := Settle(t, id, outcome);
    forall r ensures Resolved(t'.log, r) <==> Resolved(t.log, r) || r == t.sents[id] {
      ResolvedSnoc(t.log, Resolution(t.sents[id], outcome), r);
    }
  }

  lemma CloseKeepsInv(t: Table, t': Table)
    requires Inv(t) && ClosedFrom(t, t')
    ensures Inv(t')
  {
    var added := t'.log[|t.log|..];
    assert t'.log == t.log + added;
    forall r ensures Resolved(t'.log, r) <==> Resolved(t.log, r) || Resolved(added, r) {
      ResolvedAppend(t.log, added, r);
    }
    forall i | 0 <= i < |added| ensures added[i].request in t.sents.Values {
      assert Resolved(added, added[i].request);
    }
    forall i, j | 0 <= i < |t.log| && 0 <= j < |added| ensures t.log[i].request != added[j].request {
      assert added[j].request in t.sents.Values;
      var id :| id in t.sents && t.sents[id] == added[j].request;
      assert !Resolved(t.log, t.sents[id]);
    }
    forall r | 0 <= r < |t.ids| ensures Resolved(t'.log, r) {
      if !Resolved(t.log, r) { assert t.sents[t.ids[r]] == r; }
    }
  }

  lemma IssueKeepsInv(t: Table, id: nat)
    requires Inv(t) && !t.closed && 1 <= id <= MAX_ID && id !in t.sents
    ensures Inv(t.(nextId := id, sents := t.sents[id := |t.ids|], ids := t.ids + [id]))
  {
    assert !Resolved(t.log, |t.ids|);
  }

  lemma NextKeepsInv(t: Table, step: Step, t': Table)
    requires Inv(t) && Next(t, step, t')
    ensures Inv(t')
    ensures t.log <= t'.log && t.ids <= t'.ids
    ensures t.closed ==> t'.closed && t' == t
  {
    match step
    case Request(size, written) =>
      if !t.closed && !Exhausted(t.sents) {
        var k :| FirstFree(t.sents, t.nextId, k) && Issued(t, Visited(t.nextId, k), size, written, t');
        var id := Visited(t.nextId, k);
        IssueKeepsInv(t, id);
        var sent := t.(nextId := id, sents := t.sents[id := |t.ids|], ids := t.ids + [id]);
        if size > ChannelFraming.MESSAGE_MAX_LEN {
          SettleKeepsInv(sent, id, TooBig);
        } else if !written {
          CloseKeepsInv(sent, t');
        }
      }
    case Response(id, accepted) =>
      if id in t.sents { SettleKeepsInv(t, id, if accepted then Accepted else Rejected); }
    case Timeout(r) =>
      if r < |t.ids| && !Resolved(t.log, r) && t.ids[r] in t.sents { SettleKeepsInv(t, t.ids[r], TimedOut); }
    case Close =>
      if !t.closed { CloseKeepsInv(t, t'); }
  }

  ghost predicate IsRun(run: seq<Table>, steps: seq<Step>) {
    && |run| == |steps| + 1
    && run[0] == EMPTY
    && forall i :: 0 <= i < |steps| ==> Next(run[i], steps[i], run[i + 1])
  }

  /**
   Over every run: the table holds exactly the unresolved requests, nothing is resolved twice,
   resolutions are never taken back, and a closed table is empty for good.
   */
  lemma {:induction false} EveryRunIsSound(run: seq<Table>, steps: seq<Step>, i: nat, j: nat)
    requires IsRun(run, steps) && i <= j < |run|
    ensures Inv(run[i]) && Inv(run[j])
    ensures run[i].log <= run[j].log
    ensures run[i].closed ==> run[j] == run[i] && run[j].sents == map[]
    decreases j
  {
    if j > 0 {
      EveryRunIsSound(run, steps, if i < j then i else i - 1, j - 1);
      NextKeepsInv(run[j - 1], steps[j - 1], run[j]);
    }
  }

  // ---------------------------------------------------------------------------
  // Why each request ended as it did
  // ---------------------------------------------------------------------------

  /** The write of a request that is not too big failed. */
  ghost predicate LosesWrite(step: Step) {
    step.Request? && !step.written && step.size <= ChannelFraming.MESSAGE_MAX_LEN
  }

  /** The step is what the outcome says: the response with that id, its own deadline, the end of the channel, or its size. */
  ghost predicate Explains(t: Table, step: Step, t': Table, x: Resolution) {
    && x.request < |t'.ids|
    && match x.outcome
       case Accepted => step == Response(t'.ids[x.request], true)
       case Rejected => step == Response(t'.ids[x.request], false)
       case TimedOut => step == Timeout(x.request)
       case ChannelClosed => (step.Close? || LosesWrite(step)) && t'.closed
       case TooBig => step.Request? && step.size > ChannelFraming.MESSAGE_MAX_LEN && x.request == |t.ids|
  }

  /** Whatever a step resolves, it explains. */
  lemma {:induction false} NextExplains(t: Table, step: Step, t': Table, p: nat)
    requires Inv(t) && Next(t, step, t') && |t.log| <= p < |t'.log|
    ensures Explains(t, step, t', t'.log[p])
  {
    NextKeepsInv(t, step, t');
    if step.Request? {
      RequestExplains(t, step, t', p);
    } else if step.Close? {
      assert t'.log[p] == t'.log[|t.log|..][p - |t.log|];
    }
  }

  lemma {:induction false} RequestExplains(t: Table, step: Step, t': Table, p: nat)
    requires Inv(t) && Inv(t') && Next(t, step, t') && step.Request? && |t.log| <= p < |t'.log|
    ensures Explains(t, step, t', t'.log[p])
  {
    var k :| FirstFree(t.sents, t.nextId, k) && Issued(t, Visited(t.nextId, k), step.size, step.written, t');
    if step.size <= ChannelFraming.MESSAGE_MAX_LEN && !step.written {
      assert t'.log[p] == t'.log[|t.log|..][p - |t.log|];
    }
  }

  /**
   Over every run each resolution was made by one step, and the outcome says which: accepted or
   rejected by the response to its own id, timed out by its own deadline, closed with the channel,
   or thrown as too big.
   */
  lemma {:induction false} EveryOutcomeIsExplained(run: seq<Table>, steps: seq<Step>, j: nat, p: nat) returns (n: nat)
    requires IsRun(run, steps) && j < |run| && p < |run[j].log|
    ensures n < j && |run[n].log| <= p < |run[n + 1].log|
    ensures run[j].log[p] == run[n + 1].log[p] && Explains(run[n], steps[n], run[n + 1], run[j].log[p])
    decreases j
  {
    assert run[0] == EMPTY;
    EveryRunIsSound(run, steps, j - 1, j);
    if p < |run[j - 1].log| {
      n := EveryOutcomeIsExplained(run, steps, j - 1, p);
      assert run[j].log[p] == run[j - 1].log[p];
    } else {
      n := j - 1;
      NextExplains(run[n], steps[n], run[j], p);
    }
  }

  // ---------------------------------------------------------------------------
  // The table as the channel keeps it
  // ---------------------------------------------------------------------------

  datatype RequestResult = Sent(request: nat, id: nat) | Threw(reason: Refusal)
  datatype Refusal = AlreadyClosed | NoFreeId | RequestTooBig

  class RequestTable {
    var nextId: nat
    var sents: map<nat, nat>
    var closed: bool
    var ids: seq<nat>              // the id given to each request, in issue order
    var log: seq<Resolution>       // promises set and exceptions thrown, in order

    ghost function View(): Table
      reads this
    {
      Table(nextId, sents, closed, ids, log)
    }

    constructor ()
      ensures View() == EMPTY
    {
      nextId, sents, closed, ids, log := 0, map[], false, [], [];
    }

    method CloseTable()
      requires Inv(View())
      modifies this
      ensures Next(old(View()), Close, View()) && Inv(View())
    {
      if closed { return; }
      closed := true;
      var pending := sents.Keys;
      while pending != {}
        invariant nextId == old(nextId) && sents == old(sents) && ids == old(ids) && closed
        invariant pending <= sents.Keys
        invariant old(log) <= log && EachOnce(log[|old(log)|..])
        invariant forall i :: |old(log)| <= i < |log| ==> log[i].outcome.ChannelClosed?
        invariant forall r :: Resolved(log[|old(log)|..], r) <==> exists id :: id in sents.Keys - pending && sents[id] == r
        decreases pending
      {
        var id :| id in pending;
        ghost var added := log[|old(log)|..];
        var x := Resolution(sents[id], ChannelClosed);
        log := log + [x];
        assert log[|old(log)|..] == added + [x];
        forall r ensures Resolved(added + [x], r) <==> Resolved(added, r) || r == sents[id] { ResolvedSnoc(added, x, r); }
        assert !Resolved(added, sents[id]);
        pending := pending - {id};
      }
      sents := map[];
      assert ClosedFrom(old(View()), View());
      CloseKeepsInv(old(View()), View());
    }

    method MakeRequest(size: nat, written: bool) returns (result: RequestResult)
      requires Inv(View())
      modifies this
      ensures Next(old(View()), Request(size, written), View()) && Inv(View())
      ensures result.Sent? ==> ids == old(ids) + [result.id] && result.request == |old(ids)|
      ensures result == Threw(AlreadyClosed) <==> old(closed)
      ensures result == Threw(NoFreeId) <==> !old(closed) && Exhausted(old(sents))
      ensures result == Threw(RequestTooBig) <==>
                !old(closed) && !Exhausted(old(sents)) && size > ChannelFraming.MESSAGE_MAX_LEN
      ensures result.Sent? && written ==>
                !closed && sents == old(sents)[result.id := result.request] && log == old(log) && result.id !in old(sents)
      ensures result.Sent? && !written ==> closed && sents == map[] && Resolved(log, result.request)
      ensures result == Threw(RequestTooBig) ==> sents == old(sents) && log == old(log) + [Resolution(|old(ids)|, TooBig)]
    {
      if closed { return Threw(AlreadyClosed); }
      var id, cursor := FindFreeId(sents, nextId);
      nextId := cursor;
      if id == 0 { return Threw(NoFreeId); }
      result := SendAs(id, size, written);
    }

    /** The request has its id: enter it, and send it. */
    method SendAs(id: nat, size: nat, written: bool) returns (result: RequestResult)
      requires Inv(View()) && !closed && 1 <= id <= MAX_ID && id !in sents && nextId == id
      modifies this
      ensures Issued(old(View()), id, size, written, View()) && Inv(View())
      ensures ids == old(ids) + [id]
      ensures result == if size > ChannelFraming.MESSAGE_MAX_LEN then Threw(RequestTooBig) else Sent(|old(ids)|, id)
      ensures result.Sent? && written ==> !closed && sents == old(sents)[id := |old(ids)|] && log == old(log)
      ensures result.Sent? && !written ==> closed && sents == map[] && Resolved(log, |old(ids)|)
      ensures result.Threw? ==> sents == old(sents) && log == old(log) + [Resolution(|old(ids)|, TooBig)]
    {
      var request := |ids|;
      IssueKeepsInv(View(), id);
      sents, ids := sents[id := request], ids + [id];
      ghost var sent := View();
      if size > ChannelFraming.MESSAGE_MAX_LEN {
        if id in sents && sents[id] == request {
          sents := sents - {id};
        }
        log := log + [Resolution(request, TooBig)];
        SettleKeepsInv(sent, id, TooBig);
        assert View() == Settle(sent, id, TooBig);
        result := Threw(RequestTooBig);
      } else {
        if !written { CloseTable(); }
        result := Sent(request, id);
      }
    }

    /** processMessage on a response frame. */
    method OnResponse(id: nat, accepted: bool)
      requires Inv(View())
      modifies this
      ensures Next(old(View()), Response(id, accepted), View()) && Inv(View())
      ensures id in old(sents) && accepted ==> log == old(log) + [Resolution(old(sents)[id], Accepted)]
      ensures id in old(sents) && !accepted ==> log == old(log) + [Resolution(old(sents)[id], Rejected)]
      ensures id !in sents && (id !in old(sents) ==> View() == old(View()))
    {
      SettleIfPresent(id, if accepted then Accepted else Rejected);
    }

    /** The end of waitForResponse, when the deadline has passed and the future is not ready. */
    method OnTimeout(request: nat, id: nat)
      requires Inv(View()) && request < |ids| && ids[request] == id && !Resolved(log, request)
      modifies this
      ensures Next(old(View()), Timeout(request), View()) && Inv(View())
      ensures log == old(log) + [Resolution(request, TimedOut)]
    {
      SettleIfPresent(id, TimedOut);
    }

    method SettleIfPresent(id: nat, outcome: Outcome)
      requires Inv(View())
      modifies this
      ensures View() == if id in old(sents) then Settle(old(View()), id, outcome) else old(View())
      ensures Inv(View())
    {
      if id in sents {
        SettleKeepsInv(View(), id, outcome);
        var request := sents[id];
        sents := sents - {id};
        log := log + [Resolution(request, outcome)];
      }
    }
  }
}
