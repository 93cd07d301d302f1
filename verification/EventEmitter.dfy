/**
 The event emitter: listener lists per event, the index from listener id to event, and emission
 with callbacks that may register, remove and emit again.
 */
module EventEmitter {

  datatype Entry = Entry(id: nat, once: bool)

  /** A listener called by an emission; emissions are numbered in the order in which they start. */
  datatype Fired = Fired(emission: nat, id: nat)

  /**
   `emissions[e]` lists the listeners present when emission e started, `fired` every call made so
   far, `onceIds` the ids handed out by `once`, and `history` the operations in the order in which
   they took effect.
   */
  datatype State = State(
    listeners: map<string, seq<Entry>>, index: map<nat, string>, nextId: nat,
    onceIds: set<nat>, emissions: seq<seq<nat>>, fired: seq<Fired>, history: seq<Past>)

  /** An operation that took effect, at whatever depth of re-entry. */
  datatype Past =
    | Registered(id: nat, event: string, once: bool)
    | Removed(id: nat)
    | Cleared(event: string)
    | Emitted(event: string, emission: nat)

  const INITIAL := State(map[], map[], 1, {}, [], [], [])

  /** What a callback does: a script of operations, at whose end it returns or throws. */
  datatype Action =
    | Register(event: string, once: bool)
    | Off(id: nat)
    | OffEvent(event: string)
    | Emit(event: string, calls: seq<Call>)

  /** The i-th call of an emission runs `calls[i]`; calls beyond the list do nothing. */
  datatype Call = Call(actions: seq<Action>, throws: bool)

  // ---------------------------------------------------------------------------
  // Single operations
  // ---------------------------------------------------------------------------

  function Ids(es: seq<Entry>): (ids: seq<nat>)
    ensures |ids| == |es| && forall i :: 0 <= i < |es| ==> ids[i] == es[i].id
  {
    if es == [] then [] else Ids(es[..|es| - 1]) + [es[|es| - 1].id]
  }

  /** The entries that satisfy `keep`, in order. */
  function Filter(es: seq<Entry>, keep: Entry -> bool): seq<Entry> {
    if es == [] then []
    else
      var before, x := Filter(es[..|es| - 1], keep), es[|es| - 1];
      if keep(x) then before + [x] else before
  }

  function Persistent(es: seq<Entry>): seq<Entry> {
    Filter(es, (x: Entry) => !x.once)
  }

  function Without(es: seq<Entry>, id: nat): seq<Entry> {
    Filter(es, (x: Entry) => x.id != id)
  }

  function OnceIds(es: seq<Entry>): set<nat> {
    set i | 0 <= i < |es| && es[i].once :: es[i].id
  }

  /** The list for an event, which is dropped once it is empty. */
  function SetList(listeners: map<string, seq<Entry>>, event: string, es: seq<Entry>): map<string, seq<Entry>> {
    if es == [] then listeners - {event} else listeners[event := es]
  }

  function Listeners(m: State, event: string): seq<Entry> {
    if event in m.listeners then m.listeners[event] else []
  }

  function DoRegister(m: State, event: string, once: bool): State {
    m.(listeners := m.listeners[event := Listeners(m, event) + [Entry(m.nextId, once)]],
       index := m.index[m.nextId := event], nextId := m.nextId + 1,
       onceIds := if once then m.onceIds + {m.nextId} else m.onceIds,
       history := m.history + [Registered(m.nextId, event, once)])
  }

  function DoOff(m: State, id: nat): State {
    var done := m.(history := m.history + [Removed(id)]);
    if id !in m.index then done
    else
      var event := m.index[id];
      done.(listeners := if event in m.listeners then SetList(m.listeners, event, Without(m.listeners[event], id)) else m.listeners,
            index := m.index - {id})
  }

  function IdSet(es: seq<Entry>): set<nat> {
    set i | 0 <= i < |es| :: es[i].id
  }

  function DoOffEvent(m: State, event: string): State {
    var done := m.(history := m.history + [Cleared(event)]);
    if event !in m.listeners then done
    else done.(listeners := m.listeners - {event}, index := m.index - IdSet(m.listeners[event]))
  }

  /** The locked part of emitImpl: take the list, drop its once-listeners. */
  function BeginEmit(m: State, event: string): State
    requires event in m.listeners
  {
    var es := m.listeners[event];
    m.(listeners := SetList(m.listeners, event, Persistent(es)), index := m.index - OnceIds(es),
       emissions := m.emissions + [Ids(es)], history := m.history + [Emitted(event, |m.emissions|)])
  }

  /** An emission that finds no listener. */
  function EmitNobody(m: State, event: string): State {
    m.(emissions := m.emissions + [[]], history := m.history + [Emitted(event, |m.emissions|)])
  }

  // ---------------------------------------------------------------------------
  // Scripts
  // ---------------------------------------------------------------------------

  function Do(m: State, a: Action): State
    decreases a
  {
    match a
    case Register(event, once) => DoRegister(m, event, once)
    case Off(id) => DoOff(m, id)
    case OffEvent(event) => DoOffEvent(m, event)
    case Emit(event, calls) =>
      if event !in m.listeners then EmitNobody(m, event)
      else RunCalls(BeginEmit(m, event), |m.emissions|, Ids(m.listeners[event]), calls)
  }

  function Run(m: State, actions: seq<Action>): State
    decreases actions
  {
    if actions == [] then m else Run(Do(m, actions[0]), actions[1..])
  }

  /** Calls the listeners `ids` of emission e one after the other. */
  function RunCalls(m: State, e: nat, ids: seq<nat>, calls: seq<Call>): State
    decreases calls, |ids|
  {
    if ids == [] then m
    else
      var called := m.(fired := m.fired + [Fired(e, ids[0])]);
      if calls == [] then RunCalls(called, e, ids[1..], [])
      else RunCalls(Run(called, calls[0].actions), e, ids[1..], calls[1..])
  }

  // ---------------------------------------------------------------------------
  // The two structures agree
  // ---------------------------------------------------------------------------

  ghost predicate Increasing(es: seq<Entry>) {
    forall i, j :: 0 <= i < j < |es| ==> es[i].id < es[j].id
  }

  ghost predicate HasId(es: seq<Entry>, id: nat) {
    exists i :: 0 <= i < |es| && es[i].id == id
  }

  /** The list of one event: not empty, in registration order, indexed, with the right once flags. */
  ghost predicate ListOk(m: State, event: string, es: seq<Entry>) {
    && es != [] && Increasing(es)
    && forall i :: 0 <= i < |es| ==>
         && es[i].id < m.nextId && es[i].id in m.index && m.index[es[i].id] == event
         && (es[i].once <==> es[i].id in m.onceIds)
  }

  ghost predicate Consistent(m: State) {
    && (forall event :: event in m.listeners ==> ListOk(m, event, m.listeners[event]))
    && (forall id :: id in m.index ==> m.index[id] in m.listeners && HasId(m.listeners[m.index[id]], id))
    && (forall id :: id in m.onceIds ==> id < m.nextId)
    && (forall id :: id in m.index ==> id < m.nextId)
  }

  /** `ks` is the part of `es` that `keep` selects. */
  ghost predicate Selects(es: seq<Entry>, ks: seq<Entry>, keep: Entry -> bool) {
    && Increasing(ks)
    && (forall i :: 0 <= i < |ks| ==> ks[i] in es && keep(ks[i]))
    && (forall i :: 0 <= i < |es| && keep(es[i]) ==> es[i] in ks)
  }

  lemma {:induction false} FilterProps(es: seq<Entry>, keep: Entry -> bool)
    requires Increasing(es)
    ensures Selects(es, Filter(es, keep), keep)
  {
    if es != [] {
      var n := |es| - 1;
      assert es == es[..n] + [es[n]];
      FilterProps(es[..n], keep);
      if keep(es[n]) {
        SelectLast(es[..n], es[n], Filter(es[..n], keep), keep);
      } else {
        SkipLast(es[..n], es[n], Filter(es[..n], keep), keep);
      }
    }
  }

  lemma SkipLast(es: seq<Entry>, x: Entry, ks: seq<Entry>, keep: Entry -> bool)
    requires Selects(es, ks, keep) && !keep(x)
    ensures Selects(es + [x], ks, keep)
  {
  }

  lemma SelectLast(es: seq<Entry>, x: Entry, ks: seq<Entry>, keep: Entry -> bool)
    requires Increasing(es + [x]) && Selects(es, ks, keep) && keep(x)
    ensures Selects(es + [x], ks + [x], keep)
  {
    var all := es + [x];
    forall i | 0 <= i < |ks| ensures ks[i].id < x.id && ks[i] in all {
      var j :| 0 <= j < |es| && es[j] == ks[i];
      assert all[j] == es[j] && all[|es|] == x;
    }
    assert (ks + [x])[|ks|] == x;
  }

  lemma RegisterKeeps(m: State, event: string, once: bool)
    requires Consistent(m)
    ensures Consistent(DoRegister(m, event, once))
  {
    var m', es := DoRegister(m, event, once), Listeners(m, event);
    forall other | other in m'.listeners ensures ListOk(m', other, m'.listeners[other]) {
      if other == event { RegisteredListOk(m, event, once); } else { assert ListOk(m, other, m.listeners[other]); }
    }
    forall id | id in m'.index ensures m'.index[id] in m'.listeners && HasId(m'.listeners[m'.index[id]], id) {
      if id == m.nextId {
        assert m'.listeners[event][|es|].id == id;
      } else {
        var i :| 0 <= i < |m.listeners[m.index[id]]| && m.listeners[m.index[id]][i].id == id;
        assert m'.listeners[m.index[id]][i].id == id;
      }
    }
  }

  lemma RegisteredListOk(m: State, event: string, once: bool)
    requires Consistent(m)
    ensures var m' := DoRegister(m, event, once); event in m'.listeners && ListOk(m', event, m'.listeners[event])
  {
    if event in m.listeners { assert ListOk(m, event, m.listeners[event]); }
  }

  /** Replacing the list of one event by part of it, and dropping exactly the ids left out. */
  lemma ShrinkKeeps(m: State, event: string, kept: seq<Entry>, gone: set<nat>)
    requires Consistent(m) && event in m.listeners && Increasing(kept)
    requires forall i :: 0 <= i < |kept| ==> kept[i] in m.listeners[event] && kept[i].id !in gone
    requires forall i :: 0 <= i < |m.listeners[event]| ==>
               m.listeners[event][i] in kept || m.listeners[event][i].id in gone
    requires forall id :: id in gone ==> HasId(m.listeners[event], id)
    ensures Consistent(m.(listeners := SetList(m.listeners, event, kept), index := m.index - gone))
  {
    var m' := m.(listeners := SetList(m.listeners, event, kept), index := m.index - gone);
    forall other | other in m'.listeners ensures ListOk(m', other, m'.listeners[other]) {
      var es := m'.listeners[other];
      assert ListOk(m, other, m.listeners[other]) && ListOk(m, event, m.listeners[event]);
      assert forall i :: 0 <= i < |es| ==> es[i].id !in gone && es[i] in m.listeners[other];
    }
    forall id | id in m'.index ensures m'.index[id] in m'.listeners && HasId(m'.listeners[m'.index[id]], id) {
      var es := m.listeners[m.index[id]];
      var i :| 0 <= i < |es| && es[i].id == id;
      if m.index[id] == event {
        var j :| 0 <= j < |kept| && kept[j] == es[i];
        assert m'.listeners[event][j].id == id;
      }
    }
  }

  lemma OffKeeps(m: State, id: nat)
    requires Consistent(m)
    ensures Consistent(DoOff(m, id))
  {
    if id in m.index {
      var event := m.index[id];
      FilterProps(m.listeners[event], (x: Entry) => x.id != id);
      ShrinkKeeps(m, event, Without(m.listeners[event], id), {id});
    }
  }

  lemma OffEventKeeps(m: State, event: string)
    requires Consistent(m)
    ensures Consistent(DoOffEvent(m, event))
  {
    if event in m.listeners {
      ShrinkKeeps(m, event, [], IdSet(m.listeners[event]));
    }
  }

  lemma BeginKeeps(m: State, event: string)
    requires Consistent(m) && event in m.listeners
    ensures Consistent(BeginEmit(m, event))
  {
    var es := m.listeners[event];
    assert ListOk(m, event, es);
    FilterProps(es, (x: Entry) => !x.once);
    forall i | 0 <= i < |Persistent(es)| ensures Persistent(es)[i].id !in OnceIds(es) {
      var j :| 0 <= j < |es| && es[j] == Persistent(es)[i];
    }
    ShrinkKeeps(m, event, Persistent(es), OnceIds(es));
    var shrunk := m.(listeners := SetList(m.listeners, event, Persistent(es)), index := m.index - OnceIds(es));
    assert BeginEmit(m, event) == shrunk.(emissions := m.emissions + [Ids(es)], history := BeginEmit(m, event).history);
    assert forall e, xs :: ListOk(shrunk, e, xs) ==> ListOk(BeginEmit(m, event), e, xs);
  }

  // ---------------------------------------------------------------------------
  // Once-listeners
  // ---------------------------------------------------------------------------

  ghost predicate Ascending(ids: seq<nat>) {
    forall i, j :: 0 <= i < j < |ids| ==> ids[i] < ids[j]
  }

  /** The once-listeners of an emission are gone from the emitter. */
  ghost predicate SnapshotOk(ids: seq<nat>, nextId: nat, onceIds: set<nat>, index: map<nat, string>) {
    Ascending(ids) && forall i :: 0 <= i < |ids| ==> ids[i] < nextId && (ids[i] in onceIds ==> ids[i] !in index)
  }

  ghost predicate ShareNoOnce(a: seq<nat>, b: seq<nat>, onceIds: set<nat>) {
    forall i, j :: 0 <= i < |a| && 0 <= j < |b| && a[i] == b[j] ==> a[i] !in onceIds
  }

  /** A once-listener is part of at most one emission, and gone from the emitter from then on. */
  ghost predicate OnceOk(m: State) {
    && (forall e :: 0 <= e < |m.emissions| ==> SnapshotOk(m.emissions[e], m.nextId, m.onceIds, m.index))
    && (forall d, e :: 0 <= d < e < |m.emissions| ==> ShareNoOnce(m.emissions[d], m.emissions[e], m.onceIds))
  }

  ghost predicate Sound(m: State) {
    Consistent(m) && OnceOk(m) && HistoryOk(m)
  }

  lemma BeginKeepsOnce(m: State, event: string)
    requires Sound(m) && event in m.listeners
    ensures OnceOk(BeginEmit(m, event))
  {
    var es := m.listeners[event];
    var ids, m' := Ids(es), BeginEmit(m, event);
    assert ListOk(m, event, es);
    forall i | 0 <= i < |ids| && ids[i] in m.onceIds ensures ids[i] in OnceIds(es) {
      assert es[i].once && es[i].id == ids[i];
    }
    assert SnapshotOk(ids, m.nextId, m.onceIds, m'.index);
    forall d | 0 <= d < |m.emissions|
      ensures SnapshotOk(m.emissions[d], m.nextId, m.onceIds, m'.index) && ShareNoOnce(m.emissions[d], ids, m.onceIds)
    {
      assert SnapshotOk(m.emissions[d], m.nextId, m.onceIds, m.index);
    }
  }

  lemma RegisterKeepsOnce(m: State, event: string, once: bool)
    requires Sound(m)
    ensures OnceOk(DoRegister(m, event, once))
  {
    var m' := DoRegister(m, event, once);
    forall d | 0 <= d < |m.emissions| ensures SnapshotOk(m.emissions[d], m'.nextId, m'.onceIds, m'.index) {
      assert SnapshotOk(m.emissions[d], m.nextId, m.onceIds, m.index);
    }
    forall d, e | 0 <= d < e < |m.emissions| ensures ShareNoOnce(m.emissions[d], m.emissions[e], m'.onceIds) {
      assert ShareNoOnce(m.emissions[d], m.emissions[e], m.onceIds);
      assert SnapshotOk(m.emissions[d], m.nextId, m.onceIds, m.index);
    }
  }

  lemma SmallerIndexKeepsOnce(m: State, m': State)
    requires OnceOk(m) && m'.emissions == m.emissions && m'.nextId == m.nextId && m'.onceIds == m.onceIds
    requires m'.index.Keys <= m.index.Keys
    ensures OnceOk(m')
  {
    forall d | 0 <= d < |m.emissions| ensures SnapshotOk(m.emissions[d], m.nextId, m.onceIds, m'.index) {
      assert SnapshotOk(m.emissions[d], m.nextId, m.onceIds, m.index);
    }
  }

  // ---------------------------------------------------------------------------
  // Who listens, by the history
  // ---------------------------------------------------------------------------

  /** What ends a registration: its own removal, the removal of its event, or, for once-listeners, an emission. */
  ghost predicate Ends(x: Past, event: string, id: nat, once: bool) {
    x == Removed(id) || x == Cleared(event) || (once && x.Emitted? && x.event == event)
  }

  /** Entry i registers the listener, and nothing before entry n ends it. */
  ghost predicate ListensSince(h: seq<Past>, i: nat, n: nat, event: string, id: nat) {
    && i < n <= |h| && h[i].Registered? && h[i].event == event && h[i].id == id
    && forall k :: i < k < n ==> !Ends(h[k], event, id, h[i].once)
  }

  /** Just before entry n of the history, the listener is registered for the event. */
  ghost predicate Listening(h: seq<Past>, n: nat, event: string, id: nat) {
    exists i: nat :: ListensSince(h, i, n, event, id)
  }

  /** Ids are fresh, and the once flags are the recorded ones. */
  ghost predicate NamesOk(m: State) {
    && (forall i :: 0 <= i < |m.history| && m.history[i].Registered? ==>
          m.history[i].id < m.nextId && (m.history[i].once <==> m.history[i].id in m.onceIds))
    && (forall i, j :: 0 <= i < j < |m.history| && m.history[i].Registered? && m.history[j].Registered? ==>
          m.history[i].id != m.history[j].id)
  }

  ghost predicate Has(m: State, event: string, id: nat) {
    HasId(Listeners(m, event), id)
  }

  /** The lists hold exactly the listeners that the history says are there. */
  ghost predicate PresentOk(m: State) {
    forall event, id :: Has(m, event, id) <==> Listening(m.history, |m.history|, event, id)
  }

  /** Entry j, if it is an emission, found exactly the listeners that the history says were there. */
  ghost predicate EmittedOk(m: State, j: nat) {
    j < |m.history| && m.history[j].Emitted? ==>
      && m.history[j].emission < |m.emissions|
      && forall id :: id in m.emissions[m.history[j].emission] <==> Listening(m.history, j, m.history[j].event, id)
  }

  ghost predicate IsEmission(h: seq<Past>, j: nat, e: nat) {
    j < |h| && h[j].Emitted? && h[j].emission == e
  }

  ghost predicate IsRecorded(h: seq<Past>, e: nat) {
    exists j: nat :: IsEmission(h, j, e)
  }

  ghost predicate HistoryOk(m: State) {
    && NamesOk(m) && PresentOk(m)
    && (forall j: nat :: EmittedOk(m, j))
    && (forall e: nat :: e < |m.emissions| ==> IsRecorded(m.history, e))
  }

  lemma {:induction false} SinceBefore(h: seq<Past>, x: Past, i: nat, n: nat, event: string, id: nat)
    requires i < n <= |h| && (ListensSince(h + [x], i, n, event, id) || ListensSince(h + [x], i, n + 1, event, id))
    ensures ListensSince(h, i, n, event, id)
  {
    var g := h + [x];
    forall k | i < k < n ensures !Ends(h[k], event, id, h[i].once) { assert !Ends(g[k], event, id, g[i].once); }
  }

  lemma {:induction false} ListeningBefore(h: seq<Past>, x: Past, n: nat, event: string, id: nat)
    requires n <= |h|
    ensures Listening(h + [x], n, event, id) <==> Listening(h, n, event, id)
  {
    if i: nat :| ListensSince(h, i, n, event, id) { assert ListensSince(h + [x], i, n, event, id); }
    if i: nat :| ListensSince(h + [x], i, n, event, id) { SinceBefore(h, x, i, n, event, id); }
  }

  lemma {:induction false} ListeningAfter(m: State, x: Past, event: string, id: nat)
    requires NamesOk(m)
    ensures var h := m.history;
            Listening(h + [x], |h| + 1, event, id) <==>
            || (x.Registered? && x.event == event && x.id == id)
            || (Listening(h, |h|, event, id) && !Ends(x, event, id, id in m.onceIds))
  {
    var h := m.history;
    var g := h + [x];
    if x.Registered? && x.event == event && x.id == id { assert ListensSince(g, |h|, |g|, event, id); }
    if i: nat :| ListensSince(h, i, |h|, event, id) {
      if !Ends(x, event, id, id in m.onceIds) { assert ListensSince(g, i, |g|, event, id); }
    }
    if i: nat :| ListensSince(g, i, |g|, event, id) {
      if i < |h| {
        assert !Ends(g[|h|], event, id, g[i].once);
        SinceBefore(h, x, i, |h|, event, id);
      }
    }
  }

  /** The members of the lists change as the entry `x` says. */
  ghost predicate MembersFollow(m: State, x: Past, m': State) {
    forall event, id :: Has(m', event, id) <==>
      || (x.Registered? && x.event == event && x.id == id)
      || (Has(m, event, id) && !Ends(x, event, id, id in m.onceIds))
  }

  /** The emission that `x` records, if it does, found the listeners of its event. */
  ghost predicate EmissionFollows(m: State, x: Past, m': State) {
    if x.Emitted? then
      && x.emission == |m.emissions| && |m'.emissions| == |m.emissions| + 1 && m.emissions <= m'.emissions
      && forall id :: id in m'.emissions[|m.emissions|] <==> Has(m, x.event, id)
    else m'.emissions == m.emissions
  }

  lemma {:induction false} StepKeepsHistory(m: State, x: Past, m': State)
    requires HistoryOk(m) && m'.history == m.history + [x]
    requires MembersFollow(m, x, m') && EmissionFollows(m, x, m') && NamesOk(m')
    ensures HistoryOk(m')
  {
    var h, g := m.history, m'.history;
    forall event, id ensures Has(m', event, id) <==> Listening(g, |g|, event, id) {
      ListeningAfter(m, x, event, id);
    }
    forall j: nat ensures EmittedOk(m', j) { EmissionsStayOk(m, x, m', j); }
    forall e: nat | e < |m'.emissions| ensures IsRecorded(g, e) {
      if e < |m.emissions| {
        assert IsRecorded(h, e);
        var j: nat :| IsEmission(h, j, e);
        assert IsEmission(g, j, e);
      } else {
        assert IsEmission(g, |h|, e);
      }
    }
  }

  lemma {:induction false} EmissionsStayOk(m: State, x: Past, m': State, j: nat)
    requires HistoryOk(m) && m'.history == m.history + [x] && EmissionFollows(m, x, m')
    ensures EmittedOk(m', j)
  {
    var h, g := m.history, m'.history;
    if j < |g| && g[j].Emitted? {
      forall id ensures Listening(g, j, g[j].event, id) <==> Listening(h, j, g[j].event, id) {
        ListeningBefore(h, x, j, g[j].event, id);
      }
      if j < |h| { assert EmittedOk(m, j) && g[j] == h[j]; }
    }
  }

  lemma {:induction false} SameHistoryOk(m: State, m': State)
    requires HistoryOk(m) && m'.history == m.history && m'.listeners == m.listeners && m'.emissions == m.emissions
    requires m'.nextId == m.nextId && m'.onceIds == m.onceIds
    ensures HistoryOk(m')
  {
    forall event, id ensures Has(m', event, id) <==> Listening(m.history, |m.history|, event, id) {
      assert Has(m, event, id) <==> Has(m', event, id);
    }
    forall j: nat ensures EmittedOk(m', j) { assert EmittedOk(m, j); }
  }

  /** A new listener joins the end of its event's list; no other list changes. */
  lemma {:induction false} RegisterMembers(m: State, event: string, once: bool)
    requires Consistent(m)
    ensures MembersFollow(m, Registered(m.nextId, event, once), DoRegister(m, event, once))
  {
    var m', es := DoRegister(m, event, once), Listeners(m, event);
    forall e, id ensures Has(m', e, id) <==> (e == event && id == m.nextId) || Has(m, e, id) {
      if e == event {
        var fs := es + [Entry(m.nextId, once)];
        assert Listeners(m', e) == fs && fs[|es|].id == m.nextId;
        if i :| 0 <= i < |es| && es[i].id == id { assert fs[i].id == id; }
      } else {
        assert Listeners(m', e) == Listeners(m, e);
      }
    }
  }

  lemma {:induction false} RegisterKeepsHistory(m: State, event: string, once: bool)
    requires Sound(m)
    ensures HistoryOk(DoRegister(m, event, once))
  {
    RegisterMembers(m, event, once);
    StepKeepsHistory(m, Registered(m.nextId, event, once), DoRegister(m, event, once));
  }

  /** Membership in the part of a list that is selected. */
  lemma {:induction false} SelectedHas(es: seq<Entry>, ks: seq<Entry>, keep: Entry -> bool, id: nat, kept: bool)
    requires Selects(es, ks, keep) && forall i :: 0 <= i < |es| && es[i].id == id ==> (keep(es[i]) <==> kept)
    ensures HasId(ks, id) <==> HasId(es, id) && kept
  {
    if i :| 0 <= i < |ks| && ks[i].id == id {
      var j :| 0 <= j < |es| && es[j] == ks[i];
    }
    if i :| 0 <= i < |es| && es[i].id == id {
      if kept {
        var j :| 0 <= j < |ks| && ks[j] == es[i];
        assert ks[j].id == id;
      }
    }
  }

  lemma {:induction false} SetListIs(m: State, event: string, es: seq<Entry>, m': State, e: string)
    requires m'.listeners == SetList(m.listeners, event, es)
    ensures Listeners(m', e) == if e == event then es else Listeners(m, e)
  {
  }

  /** After `off` no list holds the listener, and every other listener is where it was. */
  lemma {:induction false} OffMembers(m: State, id: nat)
    requires Consistent(m)
    ensures MembersFollow(m, Removed(id), DoOff(m, id))
  {
    var m' := DoOff(m, id);
    forall e, x ensures Has(m', e, x) <==> Has(m, e, x) && x != id {
      if id in m.index {
        var event := m.index[id];
        var es := m.listeners[event];
        assert ListOk(m, event, es);
        FilterProps(es, (y: Entry) => y.id != id);
        SelectedHas(es, Without(es, id), (y: Entry) => y.id != id, x, x != id);
        SetListIs(m, event, Without(es, id), m', e);
      }
      OnlyIndexed(m, e, id);
    }
  }

  lemma {:induction false} OnlyIndexed(m: State, event: string, id: nat)
    requires Consistent(m)
    ensures Has(m, event, id) ==> id in m.index && m.index[id] == event
  {
    if Has(m, event, id) { assert ListOk(m, event, m.listeners[event]); }
  }

  lemma {:induction false} OffKeepsHistory(m: State, id: nat)
    requires Sound(m)
    ensures HistoryOk(DoOff(m, id))
  {
    OffMembers(m, id);
    StepKeepsHistory(m, Removed(id), DoOff(m, id));
  }

  /** After the removal of an event it has no listener, and every other event has those it had. */
  lemma {:induction false} OffEventMembers(m: State, event: string)
    requires Consistent(m)
    ensures MembersFollow(m, Cleared(event), DoOffEvent(m, event))
  {
    var m' := DoOffEvent(m, event);
    forall e, x ensures Has(m', e, x) <==> Has(m, e, x) && e != event {
      assert Listeners(m', e) == if e == event then [] else Listeners(m, e);
    }
  }

  lemma {:induction false} OffEventKeepsHistory(m: State, event: string)
    requires Sound(m)
    ensures HistoryOk(DoOffEvent(m, event))
  {
    OffEventMembers(m, event);
    StepKeepsHistory(m, Cleared(event), DoOffEvent(m, event));
  }

  /**
   When an emission begins, the event keeps exactly its listeners that are not once-listeners, in
   order; every other event keeps its list, and the emission takes the whole list.
   */
  lemma {:induction false} EmissionKeepsPersistent(m: State, event: string, other: string)
    requires Consistent(m) && event in m.listeners
    ensures var m' := BeginEmit(m, event);
            && Selects(Listeners(m, event), Listeners(m', event), (x: Entry) => !x.once)
            && (other != event ==> Listeners(m', other) == Listeners(m, other))
            && m'.emissions == m.emissions + [Ids(Listeners(m, event))]
  {
    assert ListOk(m, event, m.listeners[event]);
    FilterProps(m.listeners[event], (x: Entry) => !x.once);
  }

  lemma {:induction false} BeginMembers(m: State, event: string)
    requires Consistent(m) && event in m.listeners
    ensures MembersFollow(m, Emitted(event, |m.emissions|), BeginEmit(m, event))
  {
    var m', es := BeginEmit(m, event), m.listeners[event];
    assert ListOk(m, event, es);
    forall e, x ensures Has(m', e, x) <==> Has(m, e, x) && !(e == event && x in m.onceIds) {
      EmissionKeepsPersistent(m, event, e);
      if e == event {
        SelectedHas(es, Listeners(m', e), (y: Entry) => !y.once, x, x !in m.onceIds);
      }
    }
  }

  lemma {:induction false} BeginKeepsHistory(m: State, event: string)
    requires Sound(m) && event in m.listeners
    ensures HistoryOk(BeginEmit(m, event))
  {
    BeginMembers(m, event);
    var m', es, x := BeginEmit(m, event), m.listeners[event], Emitted(event, |m.emissions|);
    assert m'.emissions[|m.emissions|] == Ids(es);
    forall id ensures id in Ids(es) <==> Has(m, event, id) {
      if i :| 0 <= i < |es| && es[i].id == id { assert Ids(es)[i] == id; }
      if i :| 0 <= i < |Ids(es)| && Ids(es)[i] == id { assert es[i].id == id; }
    }
    assert EmissionFollows(m, x, m');
    StepKeepsHistory(m, x, m');
  }

  lemma {:induction false} NobodyKeeps(m: State, event: string)
    requires Sound(m) && event !in m.listeners
    ensures Sound(EmitNobody(m, event))
  {
    var m', x := EmitNobody(m, event), Emitted(event, |m.emissions|);
    forall e, id ensures Has(m', e, id) <==> Has(m, e, id) && !Ends(x, e, id, id in m.onceIds) {
      assert Listeners(m', e) == Listeners(m, e);
    }
    assert EmissionFollows(m, x, m') by { assert m'.emissions[|m.emissions|] == []; }
    StepKeepsHistory(m, x, m');
    forall e | e in m'.listeners ensures ListOk(m', e, m'.listeners[e]) { assert ListOk(m, e, m.listeners[e]); }
    forall d | 0 <= d < |m.emissions| ensures SnapshotOk(m.emissions[d], m.nextId, m.onceIds, m.index) {}
  }

  lemma {:induction false} DoKeeps(m: State, a: Action)
    requires Sound(m)
    ensures Sound(Do(m, a))
    decreases a
  {
    match a
    case Register(event, once) =>
      RegisterKeeps(m, event, once);
      RegisterKeepsOnce(m, event, once);
      RegisterKeepsHistory(m, event, once);
    case Off(id) =>
      OffKeeps(m, id);
      SmallerIndexKeepsOnce(m, DoOff(m, id));
      OffKeepsHistory(m, id);
    case OffEvent(event) =>
      OffEventKeeps(m, event);
      SmallerIndexKeepsOnce(m, DoOffEvent(m, event));
      OffEventKeepsHistory(m, event);
    case Emit(event, calls) =>
      if event in m.listeners {
        BeginKeeps(m, event);
        BeginKeepsOnce(m, event);
        BeginKeepsHistory(m, event);
        RunCallsKeeps(BeginEmit(m, event), |m.emissions|, Ids(m.listeners[event]), calls);
      } else {
        NobodyKeeps(m, event);
      }
  }

  lemma {:induction false} RunKeeps(m: State, actions: seq<Action>)
    requires Sound(m)
    ensures Sound(Run(m, actions))
    decreases actions
  {
    if actions != [] {
      DoKeeps(m, actions[0]);
      RunKeeps(Do(m, actions[0]), actions[1..]);
    }
  }

  lemma CalledKeeps(m: State, f: Fired)
    requires Sound(m)
    ensures Sound(m.(fired := m.fired + [f]))
  {
    var called := m.(fired := m.fired + [f]);
    SmallerIndexKeepsOnce(m, called);
    forall event | event in m.listeners ensures ListOk(called, event, m.listeners[event]) {
      assert ListOk(m, event, m.listeners[event]);
    }
    SameHistoryOk(m, called);
  }

  lemma {:induction false} RunCallsKeeps(m: State, e: nat, ids: seq<nat>, calls: seq<Call>)
    requires Sound(m)
    ensures Sound(RunCalls(m, e, ids, calls))
    decreases calls, |ids|
  {
    if ids != [] {
      CalledKeeps(m, Fired(e, ids[0]));
      var called := m.(fired := m.fired + [Fired(e, ids[0])]);
      if calls == [] {
        RunCallsKeeps(called, e, ids[1..], []);
      } else {
        RunKeeps(called, calls[0].actions);
        RunCallsKeeps(Run(called, calls[0].actions), e, ids[1..], calls[1..]);
      }
    }
  }

  // ---------------------------------------------------------------------------
  // Who is called
  // ---------------------------------------------------------------------------

  /** The listeners called by emission e, in call order. */
  function CalledBy(fired: seq<Fired>, e: nat): seq<nat> {
    if fired == [] then []
    else
      var before, f := CalledBy(fired[..|fired| - 1], e), fired[|fired| - 1];
      if f.emission == e then before + [f.id] else before
  }

  /** Emissions before `from` are left alone; those in from..to have called exactly their listeners. */
  ghost predicate Completed(m: State, m': State) {
    && m.emissions <= m'.emissions
    && (forall e: nat :: e < |m.emissions| ==> CalledBy(m'.fired, e) == CalledBy(m.fired, e))
    && (forall e: nat :: |m.emissions| <= e < |m'.emissions| ==> CalledBy(m'.fired, e) == m'.emissions[e])
    && NoneAhead(m')
  }

  ghost predicate NoneAhead(m: State) {
    forall e: nat :: |m.emissions| <= e ==> CalledBy(m.fired, e) == []
  }

  /** The same for the calls of one running emission. */
  ghost predicate CompletedCalls(m: State, e: nat, ids: seq<nat>, m': State) {
    && m.emissions <= m'.emissions
    && (forall d: nat :: d < |m.emissions| && d != e ==> CalledBy(m'.fired, d) == CalledBy(m.fired, d))
    && CalledBy(m'.fired, e) == CalledBy(m.fired, e) + ids
    && (forall d: nat :: |m.emissions| <= d < |m'.emissions| ==> CalledBy(m'.fired, d) == m'.emissions[d])
    && NoneAhead(m')
  }

  lemma CalledBySnoc(fired: seq<Fired>, f: Fired, e: nat)
    ensures CalledBy(fired + [f], e) == if f.emission == e then CalledBy(fired, e) + [f.id] else CalledBy(fired, e)
  {
    assert (fired + [f])[..|fired|] == fired;
  }

  lemma CompletedTrans(a: State, b: State, c: State)
    requires Completed(a, b) && Completed(b, c)
    ensures Completed(a, c)
  {
  }

  lemma {:induction false} DoCompletes(m: State, a: Action)
    requires NoneAhead(m)
    ensures Completed(m, Do(m, a))
    decreases a
  {
    if a.Emit? && a.event in m.listeners {
      var e, ids, begun := |m.emissions|, Ids(m.listeners[a.event]), BeginEmit(m, a.event);
      RunCallsComplete(begun, e, ids, a.calls);
      assert CalledBy(begun.fired, e) + ids == ids;
      assert begun.emissions[e] == ids;
    }
  }

  /** Each emission of a script calls precisely the listeners present at its start, in order. */
  lemma {:induction false} RunCompletes(m: State, actions: seq<Action>)
    requires NoneAhead(m)
    ensures Completed(m, Run(m, actions))
    decreases actions
  {
    if actions != [] {
      DoCompletes(m, actions[0]);
      RunCompletes(Do(m, actions[0]), actions[1..]);
      CompletedTrans(m, Do(m, actions[0]), Run(m, actions));
    }
  }

  lemma {:induction false} RunCallsComplete(m: State, e: nat, ids: seq<nat>, calls: seq<Call>)
    requires NoneAhead(m) && e < |m.emissions|
    ensures CompletedCalls(m, e, ids, RunCalls(m, e, ids, calls))
    decreases calls, |ids|
  {
    if ids != [] {
      var f := Fired(e, ids[0]);
      var called := m.(fired := m.fired + [f]);
      forall d: nat ensures CalledBy(called.fired, d) == if d == e then CalledBy(m.fired, e) + [ids[0]] else CalledBy(m.fired, d) {
        CalledBySnoc(m.fired, f, d);
      }
      var ran := called;
      if calls == [] {
        RunCallsComplete(called, e, ids[1..], []);
      } else {
        RunCompletes(called, calls[0].actions);
        ran := Run(called, calls[0].actions);
        RunCallsComplete(ran, e, ids[1..], calls[1..]);
      }
      CallsStep(m, called, ran, e, ids, RunCalls(m, e, ids, calls));
    }
  }

  lemma CallsStep(m: State, called: State, ran: State, e: nat, ids: seq<nat>, end: State)
    requires ids != [] && e < |m.emissions| && called.emissions == m.emissions
    requires forall d: nat :: CalledBy(called.fired, d) == if d == e then CalledBy(m.fired, e) + [ids[0]] else CalledBy(m.fired, d)
    requires Completed(called, ran) || ran == called
    requires CompletedCalls(ran, e, ids[1..], end)
    ensures CompletedCalls(m, e, ids, end)
  {
    assert [ids[0]] + ids[1..] == ids;
    assert CalledBy(end.fired, e) == CalledBy(m.fired, e) + ids;
  }

  // ---------------------------------------------------------------------------
  // What is recorded
  // ---------------------------------------------------------------------------

  function EntryFor(m: State, a: Action): Past {
    match a
    case Register(event, once) => Registered(m.nextId, event, once)
    case Off(id) => Removed(id)
    case OffEvent(event) => Cleared(event)
    case Emit(event, _) => Emitted(event, |m.emissions|)
  }

  /** Every action is recorded before anything that its callbacks do, and nothing is struck out. */
  lemma {:induction false} LoggedFirst(m: State, a: Action)
    ensures m.history + [EntryFor(m, a)] <= Do(m, a).history
    ensures !a.Emit? ==> Do(m, a).history == m.history + [EntryFor(m, a)]
    decreases a
  {
    if a.Emit? && a.event in m.listeners {
      RunCallsGrow(BeginEmit(m, a.event), |m.emissions|, Ids(m.listeners[a.event]), a.calls);
    }
  }

  lemma {:induction false} RunGrows(m: State, actions: seq<Action>)
    ensures m.history <= Run(m, actions).history
    decreases actions
  {
    if actions != [] {
      LoggedFirst(m, actions[0]);
      RunGrows(Do(m, actions[0]), actions[1..]);
    }
  }

  lemma {:induction false} RunCallsGrow(m: State, e: nat, ids: seq<nat>, calls: seq<Call>)
    ensures m.history <= RunCalls(m, e, ids, calls).history
    decreases calls, |ids|
  {
    if ids != [] {
      var called := m.(fired := m.fired + [Fired(e, ids[0])]);
      if calls == [] {
        RunCallsGrow(called, e, ids[1..], []);
      } else {
        RunGrows(called, calls[0].actions);
        RunCallsGrow(Run(called, calls[0].actions), e, ids[1..], calls[1..]);
      }
    }
  }

  // ---------------------------------------------------------------------------
  // Whole runs
  // ---------------------------------------------------------------------------

  /** Where a call shows up among the calls of its emission. */
  lemma {:induction false} CallIsListed(fired: seq<Fired>, i: nat) returns (k: nat)
    requires i < |fired|
    ensures k < |CalledBy(fired, fired[i].emission)| && CalledBy(fired, fired[i].emission)[k] == fired[i].id
    ensures k == |CalledBy(fired[..i], fired[i].emission)|
    decreases |fired|
  {
    var n := |fired| - 1;
    if i == n {
      k := |CalledBy(fired[..n], fired[n].emission)|;
    } else {
      k := CallIsListed(fired[..n], i);
      assert fired[..n][..i] == fired[..i];
    }
  }

  lemma {:induction false} CallsOnlyGrow(fired: seq<Fired>, i: nat, j: nat, e: nat)
    requires i <= j <= |fired|
    ensures |CalledBy(fired[..i], e)| <= |CalledBy(fired[..j], e)|
    decreases j
  {
    if i < j {
      CallsOnlyGrow(fired, i, j - 1, e);
      assert fired[..j][..j - 1] == fired[..j - 1];
    }
  }

  /**
   The emission recorded as entry j, if it is one, has called exactly the listeners that were
   registered for its event before and not removed since, nor, if once-listeners, called since.
   */
  ghost predicate CalledByHistory(m: State, j: nat) {
    j < |m.history| && m.history[j].Emitted? ==>
      forall id :: id in CalledBy(m.fired, m.history[j].emission) <==> Listening(m.history, j, m.history[j].event, id)
  }

  /**
   After every script: the index agrees exactly with the lists and no list is empty, every
   emission has called precisely the listeners present at its start in registration order, these
   are the ones that the history of operations leaves registered, and no once-listener has been
   called twice.
   */
  lemma EveryRunIsSound(actions: seq<Action>)
    ensures var m := Run(INITIAL, actions);
            && Consistent(m)
            && (forall e: nat :: e < |m.emissions| ==> CalledBy(m.fired, e) == m.emissions[e] && Ascending(m.emissions[e]))
            && (forall j: nat :: CalledByHistory(m, j))
            && (forall e: nat :: e < |m.emissions| ==> IsRecorded(m.history, e))
            && (forall i, j :: 0 <= i < j < |m.fired| && m.fired[i].id == m.fired[j].id ==> m.fired[i].id !in m.onceIds)
  {
    var m := Run(INITIAL, actions);
    StartsSound();
    RunKeeps(INITIAL, actions);
    RunCompletes(INITIAL, actions);
    forall j: nat ensures CalledByHistory(m, j) { assert EmittedOk(m, j); }
    forall i, j | 0 <= i < j < |m.fired| && m.fired[i].id == m.fired[j].id
      ensures m.fired[i].id !in m.onceIds
    {
      OnceCalledOnce(m, i, j);
    }
  }

  lemma {:induction false} StartsSound()
    ensures Sound(INITIAL)
  {
    forall event, id ensures !Has(INITIAL, event, id) && !Listening([], 0, event, id) {}
  }

  /**
   A listener registered by `on` is called by every later emission of its event until its own or
   its event's removal, however often it was called before and whatever callbacks did meanwhile.
   */
  lemma {:induction false} PersistentListenerIsCalled(actions: seq<Action>, i: nat, j: nat)
    requires var h := Run(INITIAL, actions).history;
             && i < j < |h| && h[i].Registered? && !h[i].once && h[j].Emitted? && h[j].event == h[i].event
             && forall k :: i < k < j ==> h[k] != Removed(h[i].id) && h[k] != Cleared(h[i].event)
    ensures var m := Run(INITIAL, actions); m.history[i].id in CalledBy(m.fired, m.history[j].emission)
  {
    EveryRunIsSound(actions);
    var m := Run(INITIAL, actions);
    assert CalledByHistory(m, j) && ListensSince(m.history, i, j, m.history[j].event, m.history[i].id);
  }

  /** A removed listener is called by no later emission. */
  lemma {:induction false} RemovedListenerIsNotCalled(actions: seq<Action>, i: nat, k: nat, j: nat)
    requires var h := Run(INITIAL, actions).history;
             && i < k < j < |h| && h[i].Registered? && h[j].Emitted?
             && (h[k] == Removed(h[i].id) || h[k] == Cleared(h[i].event))
    ensures var m := Run(INITIAL, actions); m.history[i].id !in CalledBy(m.fired, m.history[j].emission)
  {
    StartsSound();
    RunKeeps(INITIAL, actions);
    EveryRunIsSound(actions);
    var m := Run(INITIAL, actions);
    var h, id := m.history, m.history[i].id;
    assert CalledByHistory(m, j);
    forall l: nat ensures !ListensSince(h, l, j, h[j].event, id) {}
  }

  lemma OnceCalledOnce(m: State, i: nat, j: nat)
    requires Sound(m) && NoneAhead(m)
    requires forall e: nat :: e < |m.emissions| ==> CalledBy(m.fired, e) == m.emissions[e]
    requires i < j < |m.fired| && m.fired[i].id == m.fired[j].id
    ensures m.fired[i].id !in m.onceIds
  {
    var d, e, id := m.fired[i].emission, m.fired[j].emission, m.fired[i].id;
    var k := CallIsListed(m.fired, i);
    var l := CallIsListed(m.fired, j);
    assert m.emissions[d][k] == id == m.emissions[e][l];
    assert SnapshotOk(m.emissions[d], m.nextId, m.onceIds, m.index);
    assert ShareNoOnce(m.emissions[if d < e then d else e], m.emissions[if d < e then e else d], m.onceIds) by {
      if d == e {
        assert m.fired[..i + 1][..i] == m.fired[..i];
        CallsOnlyGrow(m.fired, i + 1, j, d);
        assert false;
      }
    }
  }

  // ---------------------------------------------------------------------------
  // The object
  // ---------------------------------------------------------------------------

  class Emitter {
    var listeners: map<string, seq<Entry>>
    var listenerEventIndex: map<nat, string>
    var nextId: nat
    ghost var onceIds: set<nat>
    ghost var emissions: seq<seq<nat>>
    ghost var fired: seq<Fired>
    ghost var history: seq<Past>

    ghost function View(): State
      reads this
    {
      State(listeners, listenerEventIndex, nextId, onceIds, emissions, fired, history)
    }

    constructor ()
      ensures View() == INITIAL
    {
      listeners, listenerEventIndex, nextId := map[], map[], 1;
      onceIds, emissions, fired, history := {}, [], [], [];
    }

    /** `on` and `once`. */
    method AddListener(event: string, once: bool) returns (id: nat)
      modifies this
      ensures View() == DoRegister(old(View()), event, once) && id == old(nextId)
      ensures history == old(history) + [Registered(id, event, once)]
    {
      id := nextId;
      nextId := nextId + 1;
      var entries := if event in listeners then listeners[event] else [];
      listeners := listeners[event := entries + [Entry(id, once)]];
      listenerEventIndex := listenerEventIndex[id := event];
      if once { onceIds := onceIds + {id}; }
      history := history + [Registered(id, event, once)];
    }

    method RemoveListener(id: nat)
      modifies this
      ensures View() == DoOff(old(View()), id) && id !in listenerEventIndex
      ensures history == old(history) + [Removed(id)]
    {
      history := history + [Removed(id)];
      if id !in listenerEventIndex { return; }
      var event := listenerEventIndex[id];
      if event in listeners {
        var entries, kept := listeners[event], [];
        for i := 0 to |entries|
          invariant kept == Without(entries[..i], id)
        {
          assert entries[..i + 1][..i] == entries[..i];
          if entries[i].id != id { kept := kept + [entries[i]]; }
        }
        assert entries[..|entries|] == entries;
        listeners := if kept == [] then listeners - {event} else listeners[event := kept];
      }
      listenerEventIndex := listenerEventIndex - {id};
    }

    method RemoveEvent(event: string)
      modifies this
      ensures View() == DoOffEvent(old(View()), event) && event !in listeners
      ensures history == old(history) + [Cleared(event)]
    {
      history := history + [Cleared(event)];
      if event !in listeners { return; }
      var entries := listeners[event];
      for i := 0 to |entries|
        invariant listenerEventIndex == old(listenerEventIndex) - IdSet(entries[..i])
        invariant View() == old(View()).(index := listenerEventIndex, history := history)
        invariant history == old(history) + [Cleared(event)]
      {
        assert IdSet(entries[..i + 1]) == IdSet(entries[..i]) + {entries[i].id} by { IdSetSnoc(entries, i); }
        listenerEventIndex := listenerEventIndex - {entries[i].id};
      }
      assert entries[..|entries|] == entries;
      listeners := listeners - {event};
    }

    /** The locked part of emitImpl. */
    method TakeListeners(event: string) returns (toCall: seq<Entry>)
      requires event in listeners
      modifies this
      ensures toCall == old(listeners)[event] && View() == BeginEmit(old(View()), event)
      ensures listeners - {event} == old(listeners) - {event}
      ensures forall x :: x in toCall && !x.once <==> event in listeners && x in listeners[event]
      ensures history == old(history) + [Emitted(event, |old(emissions)|)] && emissions == old(emissions) + [Ids(toCall)]
    {
      toCall := listeners[event];
      var kept: seq<Entry> := [];
      for i := 0 to |toCall|
        invariant kept == Persistent(toCall[..i])
        invariant listenerEventIndex == old(listenerEventIndex) - OnceIds(toCall[..i])
        invariant View() == old(View()).(index := listenerEventIndex)
      {
        assert toCall[..i + 1][..i] == toCall[..i];
        OnceIdsSnoc(toCall, i);
        if toCall[i].once {
          listenerEventIndex := listenerEventIndex - {toCall[i].id};
        } else {
          kept := kept + [toCall[i]];
        }
      }
      assert toCall[..|toCall|] == toCall;
      listeners := if kept == [] then listeners - {event} else listeners[event := kept];
      history := history + [Emitted(event, |emissions|)];
      emissions := emissions + [Ids(toCall)];
      forall x ensures x in kept <==> x in toCall && !x.once { PersistentMembers(toCall, x); }
    }

    /** emitImpl; `threw` is the failure that emitChecked would rethrow. */
    method EmitEvent(event: string, calls: seq<Call>) returns (threw: bool)
      modifies this
      ensures View() == Do(old(View()), Emit(event, calls))
      ensures threw <==> (event in old(listeners)
                          && exists i :: 0 <= i < |calls| && i < |old(listeners)[event]| && calls[i].throws)
      decreases calls, 1
    {
      threw := false;
      if event !in listeners {
        history, emissions := history + [Emitted(event, |emissions|)], emissions + [[]];
        return;
      }
      ghost var e := |emissions|;
      var toCall := TakeListeners(event);
      threw := CallListeners(toCall, calls, e);
    }

    /** The loop of emitImpl over the listeners taken. */
    method CallListeners(toCall: seq<Entry>, calls: seq<Call>, ghost e: nat) returns (threw: bool)
      modifies this
      ensures View() == RunCalls(old(View()), e, Ids(toCall), calls)
      ensures threw <==> exists i :: 0 <= i < |calls| && i < |toCall| && calls[i].throws
      decreases calls, 0
    {
      threw := false;
      ghost var ids, begun := Ids(toCall), View();
      for i := 0 to |toCall|
        invariant RunCalls(begun, e, ids, calls) == RunCalls(View(), e, ids[i..], if i < |calls| then calls[i..] else [])
        invariant threw <==> exists k :: 0 <= k < |calls| && k < i && calls[k].throws
      {
        NextCall(View(), e, ids, calls, i);
        fired := fired + [Fired(e, toCall[i].id)];
        if i < |calls| {
          RunActions(calls[i].actions);
          if calls[i].throws { threw := true; }
        }
      }
    }

    method RunActions(actions: seq<Action>)
      modifies this
      ensures View() == Run(old(View()), actions)
      decreases actions
    {
      for i := 0 to |actions|
        invariant Run(old(View()), actions) == Run(View(), actions[i..])
      {
        assert actions[i..][1..] == actions[i + 1..];
        match actions[i]
        case Register(event, once) => var _ := AddListener(event, once);
        case Off(id) => RemoveListener(id);
        case OffEvent(event) => RemoveEvent(event);
        case Emit(event, calls) => var _ := EmitEvent(event, calls);
      }
    }
  }

  lemma {:induction false} PersistentMembers(es: seq<Entry>, x: Entry)
    ensures x in Persistent(es) <==> x in es && !x.once
  {
    if es != [] {
      PersistentMembers(es[..|es| - 1], x);
      assert es == es[..|es| - 1] + [es[|es| - 1]];
    }
  }

  lemma NextCall(m: State, e: nat, ids: seq<nat>, calls: seq<Call>, i: nat)
    requires i < |ids|
    ensures var called := m.(fired := m.fired + [Fired(e, ids[i])]);
            RunCalls(m, e, ids[i..], if i < |calls| then calls[i..] else []) ==
            if i < |calls| then RunCalls(Run(called, calls[i].actions), e, ids[i + 1..], calls[i + 1..])
            else RunCalls(called, e, ids[i + 1..], [])
  {
    assert ids[i..][1..] == ids[i + 1..];
    if i < |calls| { assert calls[i..][1..] == calls[i + 1..]; }
  }

  lemma IdSetSnoc(es: seq<Entry>, i: nat)
    requires i < |es|
    ensures IdSet(es[..i + 1]) == IdSet(es[..i]) + {es[i].id}
  {
    forall id | id in IdSet(es[..i]) ensures id in IdSet(es[..i + 1]) {
      var j :| 0 <= j < i && es[..i][j].id == id;
      assert es[..i + 1][j].id == id;
    }
    assert es[..i + 1][i].id == es[i].id;
    forall id | id in IdSet(es[..i + 1]) ensures id in IdSet(es[..i]) + {es[i].id} {
      var j :| 0 <= j < i + 1 && es[..i + 1][j].id == id;
      if j < i { assert es[..i][j].id == id; }
    }
  }

  lemma OnceIdsSnoc(es: seq<Entry>, i: nat)
    requires i < |es|
    ensures OnceIds(es[..i + 1]) == if es[i].once then OnceIds(es[..i]) + {es[i].id} else OnceIds(es[..i])
  {
    forall id | id in OnceIds(es[..i]) ensures id in OnceIds(es[..i + 1]) {
      var j :| 0 <= j < i && es[..i][j].once && es[..i][j].id == id;
      assert es[..i + 1][j].once && es[..i + 1][j].id == id;
    }
    if es[i].once { assert es[..i + 1][i].once && es[..i + 1][i].id == es[i].id; }
    forall id | id in OnceIds(es[..i + 1]) ensures id in OnceIds(es[..i]) || (es[i].once && id == es[i].id) {
      var j :| 0 <= j < i + 1 && es[..i + 1][j].once && es[..i + 1][j].id == id;
      if j < i { assert es[..i][j].once && es[..i][j].id == id; }
    }
  }
}
