/**
 * The optimistic synchronisation wrapper of clientDatabase.js. Local edits
 * are applied to the local graph store at once and collected for the
 * server: `current` (the edit group being built), `uncommitable` (an open
 * transaction), `pending` (waiting to be sent) and `inProgress` (sent,
 * awaiting the response). A server response is applied on top of the
 * undone local state, and the local changes are replayed over it.
 *
 * Every operation is a state transition. One that throws still returns
 * the state as the source leaves it (see Outcome). The `setTimeout` of
 * `submit` is two flags, `flushScheduled` (`submitTimeout` is set) and
 * `timerQueued` (its callback has not run yet), plus the explicit event
 * `Flush`. The wrapper's listener calls are recorded in `events`, the
 * local Database's own listener calls in `notes`, and `backend.update`
 * calls in `sent`.
 */
module SyncClient {
  import opened Wrappers
  import opened Values
  import GraphStore
  import StoreLaws
  import opened Collectors

  /** Both history stacks drop their oldest entry beyond this many. */
  const StackLimit: nat := 100

  /** A listener call: `(oldState, newState)` as `{id, data}` pairs or null; the general listeners; the abort callback. */
  datatype Event =
    | UpdateCall(oldId: Id, before: Option<Data>, newId: Id, after: Option<Data>)
    | GeneralCall
    | AbortCall

  datatype Client = Client(
    store: GraphStore.Store,             // the local database
    pending: Collector,                  // waiting to be sent
    uncommitable: Option<Collector>,     // the open transaction, if any
    abortCallback: bool,                 // an abort callback is registered for it
    current: Collector,                  // the edit group being built
    inProgress: Option<Collector>,       // sent, awaiting the response
    requestPending: bool,
    idGen: int,                          // internalIDGenerator
    flushScheduled: bool,                // submitTimeout != null
    timerQueued: bool,                   // the submit2 callback is still queued
    undoEntries: seq<seq<Update>>,
    redoEntries: seq<seq<Update>>,
    sent: seq<seq<Update>>,              // the batches handed to backend.update
    events: seq<Event>,
    notes: seq<GraphStore.Note>)         // calls the local Database makes to its own listeners

  /** The wrapper right after construction, over the given local database. */
  function Initial(store: GraphStore.Store): Client {
    Client(store, EmptyCollector(), None, false, EmptyCollector(), None, false, 0, false, false, [], [], [], [], [])
  }

  /** The invariant every operation keeps. */
  predicate Inv(c: Client) {
    && GraphStore.Valid(c.store)
    && |c.undoEntries| <= StackLimit
    && |c.redoEntries| <= StackLimit
    && c.idGen <= 0
    && (c.inProgress.Some? ==> c.requestPending)
    && (c.timerQueued ==> c.flushScheduled)
    && WellFormed(c.pending)
    && WellFormed(c.current)
    && (c.uncommitable.Some? ==> WellFormed(c.uncommitable.value))
    && (c.inProgress.Some? ==> WellFormed(c.inProgress.value))
  }

  // ---------------------------------------------------------------------
  // Local edits
  // ---------------------------------------------------------------------

  /** `oldState`: the value of each id of a batch before it, in first-occurrence order. */
  datatype Snapshot = Snapshot(order: seq<Id>, before: map<Id, Option<Data>>)

  function SnapshotOf(objects: map<Id, Data>, us: seq<Update>): (r: Snapshot)
    ensures forall id :: id in r.before <==> id in r.order
    ensures forall id :: id in r.order <==> exists u :: u in us && u.id == id
    ensures forall id :: id in r.before ==> r.before[id] == GraphStore.Lookup(objects, id)
  {
    var ids := DistinctIds(us);
    Snapshot(ids, map id | id in ids :: GraphStore.Lookup(objects, id))
  }

  /** One listener call per id of the batch with its value before and after, then the general listeners. */
  function ListenerCalls(snap: Snapshot, objects: map<Id, Data>): (r: seq<Event>)
    requires forall id :: id in snap.order ==> id in snap.before
    ensures |r| == |snap.order| + 1 && r[|snap.order|] == GeneralCall
    ensures forall i :: 0 <= i < |snap.order| ==>
      r[i] == UpdateCall(snap.order[i], snap.before[snap.order[i]], snap.order[i], GraphStore.Lookup(objects, snap.order[i]))
  {
    seq(|snap.order|, i requires 0 <= i < |snap.order| =>
      UpdateCall(snap.order[i], snap.before[snap.order[i]], snap.order[i], GraphStore.Lookup(objects, snap.order[i])))
      + [GeneralCall]
  }

  /** `submit()`: schedule a flush when there is something to send and none is scheduled. */
  function Submit(c: Client): (r: Client)
    ensures r.flushScheduled <==> c.flushScheduled || !IsEmpty(c.current) || !IsEmpty(c.pending)
    ensures r.timerQueued <==> c.timerQueued || (!c.flushScheduled && (!IsEmpty(c.current) || !IsEmpty(c.pending)))
    ensures r == c.(flushScheduled := r.flushScheduled, timerQueued := r.timerQueued)
  {
    if !c.flushScheduled && (!IsEmpty(c.current) || !IsEmpty(c.pending)) then c.(flushScheduled := true, timerQueued := true)
    else c
  }

  /**
   * Once `submitTimeout` is set, it stays set and no timer is queued or
   * consumed: only the timer's own callback clears it.
   */
  predicate KeepsTimer(a: Client, b: Client) {
    a.flushScheduled ==> b.flushScheduled && b.timerQueued == a.timerQueued
  }

  /** `this.uncommitable || this.current`: where local edits are collected. */
  function Target(c: Client): Collector {
    if c.uncommitable.Some? then c.uncommitable.value else c.current
  }

  function WithTarget(c: Client, t: Collector): (r: Client)
    ensures Target(r) == t
  {
    if c.uncommitable.Some? then c.(uncommitable := Some(t)) else c.(current := t)
  }

  /**
   * `modify(updates)`: apply the batch to the local database, call the
   * listeners, collect the batch and its undo list in the open transaction
   * or else the current group, and schedule a flush.
   */
  function Modify(c: Client, us: seq<Update>): (r: Outcome<Client, Error>)
    ensures GraphStore.Modify(c.store, us).Failure? ==> r == Threw(c, GraphStore.Modify(c.store, us).error)
    ensures GraphStore.Modify(c.store, us).Success? ==>
      && r.state.store == GraphStore.Modify(c.store, us).value.store
      && r.state.notes == c.notes + GraphStore.Modify(c.store, us).value.notes
    ensures GraphStore.Modify(c.store, us).Success? ==>
      var a := Add(Target(c), us, GraphStore.GetUndoUpdates(c.store.objects, [us])[0]);
      Target(r.state) == a.state && (r.Ok? <==> a.Ok?)
    ensures r.Ok? ==>
      && GraphStore.Modify(c.store, us).Success?
      && Add(Target(c), us, GraphStore.GetUndoUpdates(c.store.objects, [us])[0]) == Ok(Target(r.state))
    ensures r.state.uncommitable.Some? == c.uncommitable.Some?
    ensures c.uncommitable.Some? ==> r.state.current == c.current
    ensures c.uncommitable.None? ==> r.state.uncommitable == c.uncommitable
    ensures r.state.pending == c.pending && r.state.inProgress == c.inProgress
    ensures r.state.requestPending == c.requestPending && r.state.idGen == c.idGen
    ensures r.state.undoEntries == c.undoEntries && r.state.redoEntries == c.redoEntries && r.state.sent == c.sent
    ensures r.Ok? ==> (r.state.flushScheduled <==> c.flushScheduled || !IsEmpty(r.state.current) || !IsEmpty(c.pending))
    ensures r.Threw? ==> r.state.flushScheduled == c.flushScheduled && r.state.timerQueued == c.timerQueued
    ensures KeepsTimer(c, r.state)
  {
    var snap := SnapshotOf(c.store.objects, us);
    match GraphStore.Modify(c.store, us)
    case Failure(e) => Threw(c, e)
    case Success(m) =>
      Collect(c.(store := m.store, events := c.events + ListenerCalls(snap, m.store.objects), notes := c.notes + m.notes),
              us, GraphStore.GetUndoUpdates(c.store.objects, [us])[0])
  }

  /** The end of `modify`: the batch and its undo list go where edits are collected, then `submit`. */
  function Collect(c: Client, us: seq<Update>, undo: seq<Update>): (r: Outcome<Client, Error>)
    ensures Target(r.state) == Add(Target(c), us, undo).state && (r.Ok? <==> Add(Target(c), us, undo).Ok?)
    ensures r.Ok? ==> r.state == Submit(WithTarget(c, Target(r.state)))
    ensures r.Threw? ==> r.state == WithTarget(c, Target(r.state))
  {
    match Add(Target(c), us, undo)
    case Threw(t, e) => Threw(WithTarget(c, t), e)
    case Ok(t) => Ok(Submit(WithTarget(c, t)))
  }

  /** The result of `insert`: the new provisional id, or Null when nothing was issued. */
  datatype Issued = Issued(outcome: Outcome<Client, Error>, id: Id)

  /** `insert(data)`: issue the next negative id and insert the object under it. */
  function Insert(c: Client, data: Option<Data>): (r: Issued)
    ensures data.None? ==> r == Issued(Threw(c, NullData), Null)
    ensures data.Some? ==> r.id == Num(c.idGen - 1) && r.outcome.state.idGen == c.idGen - 1
    ensures data.Some? ==> r.outcome == Modify(c.(idGen := c.idGen - 1), [Update(r.id, ExpectNone, data)])
  {
    if data.None? then Issued(Threw(c, NullData), Null)
    else
      var n := c.idGen - 1;
      Issued(Modify(c.(idGen := n), [Update(Num(n), ExpectNone, data)]), Num(n))
  }

  /** `oldData || true`. */
  function OrTrue(e: Expect): (r: Expect)
    ensures r != ExpectNone
    ensures e != ExpectNone ==> r == e
  {
    if e.ExpectNone? then ExpectAny else e
  }

  /** `update(id, oldData, data)`. */
  function UpdateObject(c: Client, id: Id, oldData: Expect, data: Option<Data>): (r: Outcome<Client, Error>)
    ensures data.None? ==> r == Threw(c, NullData)
    ensures data.Some? ==> r == Modify(c, [Update(id, OrTrue(oldData), data)])
  {
    if data.None? then Threw(c, NullData) else Modify(c, [Update(id, OrTrue(oldData), data)])
  }

  /** `delete(id, oldData)`. */
  function DeleteObject(c: Client, id: Id, oldData: Expect): (r: Outcome<Client, Error>)
    ensures r == Modify(c, [Update(id, OrTrue(oldData), None)])
  {
    Modify(c, [Update(id, OrTrue(oldData), None)])
  }

  // ---------------------------------------------------------------------
  // Transactions
  // ---------------------------------------------------------------------

  /** `setUncommitted(abortCallback)`: open a transaction. */
  function SetUncommitted(c: Client, callback: bool): (r: Outcome<Client, Error>)
    ensures c.uncommitable.Some? <==> r == Threw(c, TransactionOpen)
    ensures r.Ok? ==> r.state == c.(uncommitable := Some(EmptyCollector()), abortCallback := callback)
  {
    if c.uncommitable.Some? then Threw(c, TransactionOpen)
    else Ok(c.(uncommitable := Some(EmptyCollector()), abortCallback := callback))
  }

  /**
   * `rollback()`: apply the transaction's undo list and close it. The undo
   * list is collected into the still-open transaction, which is then
   * discarded.
   */
  function Rollback(c: Client): (r: Outcome<Client, Error>)
    ensures c.uncommitable.None? ==> r == Threw(c, NoTransaction)
    ensures r.Ok? ==> c.uncommitable.Some? && r.state.uncommitable.None? && !r.state.abortCallback
    ensures r.Ok? ==>
      && GraphStore.Modify(c.store, c.uncommitable.value.undo).Success?
      && r.state.store == GraphStore.Modify(c.store, c.uncommitable.value.undo).value.store
    ensures r.state.pending == c.pending && r.state.current == c.current
    ensures KeepsTimer(c, r.state)
  {
    if c.uncommitable.None? then Threw(c, NoTransaction)
    else
      var c1 :- Modify(c, c.uncommitable.value.undo);
      Ok(c1.(uncommitable := None, abortCallback := false))
  }

  /**
   * `commit()`: fold the transaction into `pending`, close it and schedule a
   * flush. A throw of the fold leaves `pending` as far as it got and the
   * transaction open.
   */
  function Commit(c: Client): (r: Outcome<Client, Error>)
    ensures c.uncommitable.None? ==> r == Threw(c, NoTransaction)
    ensures c.uncommitable.Some? ==>
      && r.state.pending == AddFrom(c.pending, c.uncommitable.value).state
      && (r.Ok? <==> AddFrom(c.pending, c.uncommitable.value).Ok?)
    ensures r.Ok? ==> c.uncommitable.Some? && r.state.uncommitable.None? && !r.state.abortCallback
    ensures r.Ok? ==> AddFrom(c.pending, c.uncommitable.value) == Ok(r.state.pending)
    ensures r.Threw? ==> r.state.uncommitable == c.uncommitable && r.state.abortCallback == c.abortCallback
    ensures r.state.store == c.store && r.state.current == c.current
    ensures KeepsTimer(c, r.state)
  {
    if c.uncommitable.None? then Threw(c, NoTransaction)
    else match AddFrom(c.pending, c.uncommitable.value)
      case Threw(p, e) => Threw(c.(pending := p), e)
      case Ok(p) => Ok(Submit(c.(pending := p, uncommitable := None, abortCallback := false)))
  }

  // ---------------------------------------------------------------------
  // Undo groups and sending
  // ---------------------------------------------------------------------

  /** `stack.length >= 100 && stack.shift(); stack.push(entry)`. */
  function Push(stack: seq<seq<Update>>, entry: seq<Update>): (r: seq<seq<Update>>)
    ensures |r| > 0 && r[|r| - 1] == entry
    ensures |stack| < StackLimit ==> r == stack + [entry]
    ensures |stack| >= StackLimit ==> r == stack[1..] + [entry] && |r| == |stack|
    ensures |stack| <= StackLimit ==> |r| <= StackLimit
  {
    (if |stack| >= StackLimit then stack[1..] else stack) + [entry]
  }

  /**
   * `makeUndoEntry(forRedo)`: a non-empty current group becomes an undo
   * entry (its undo list; the redo stack is cleared) or a redo entry (its
   * changes), is folded into `pending`, and is reset. A throw of the fold
   * comes after the stack push: the entry stays pushed, `pending` keeps
   * what the fold wrote, and the group is not reset.
   */
  function MakeUndoEntry(c: Client, forRedo: bool): (r: Outcome<Client, Error>)
    ensures IsEmpty(c.current) ==> r == Ok(c)
    ensures !IsEmpty(c.current) && !forRedo ==>
      r.state.undoEntries == Push(c.undoEntries, c.current.undo) && r.state.redoEntries == []
    ensures !IsEmpty(c.current) && forRedo ==>
      r.state.redoEntries == Push(c.redoEntries, c.current.changes) && r.state.undoEntries == c.undoEntries
    ensures !IsEmpty(c.current) ==>
      && r.state.pending == AddFrom(c.pending, c.current).state
      && (r.Ok? <==> AddFrom(c.pending, c.current).Ok?)
    ensures r.Ok? && !IsEmpty(c.current) ==>
      AddFrom(c.pending, c.current) == Ok(r.state.pending) && r.state.current == EmptyCollector()
    ensures r.Threw? ==> r.state.current == c.current
    ensures r.state.store == c.store && r.state.uncommitable == c.uncommitable && r.state.inProgress == c.inProgress
    ensures r.state.requestPending == c.requestPending && r.state.idGen == c.idGen && r.state.sent == c.sent
    ensures r.state.flushScheduled == c.flushScheduled && r.state.timerQueued == c.timerQueued
    ensures r.state.events == c.events && r.state.notes == c.notes
  {
    if IsEmpty(c.current) then Ok(c)
    else
      var c1 := if forRedo then c.(redoEntries := Push(c.redoEntries, c.current.changes))
                else c.(undoEntries := Push(c.undoEntries, c.current.undo), redoEntries := []);
      match AddFrom(c1.pending, c.current)
      case Threw(p, e) => Threw(c1.(pending := p), e)
      case Ok(p) => Ok(c1.(pending := p, current := EmptyCollector()))
  }

  /**
   * The flush timer firing, `submit2()`: close the current group, then,
   * unless a request is already in flight, send all of `pending` as the
   * one in-flight batch. The timer is used up either way; when closing the
   * group throws, `submitTimeout = null` is never reached, so `submit`
   * schedules no further flush (see ClientLaws.FlushThrowStalls).
   */
  function Flush(c: Client): (r: Outcome<Client, Error>)
    requires c.timerQueued
    ensures !r.state.timerQueued
    ensures |r.state.sent| > |c.sent| ==>
      && !c.requestPending && r.state.requestPending && r.state.inProgress.Some?
      && r.state.sent == c.sent + [r.state.inProgress.value.changes] && IsEmpty(r.state.pending)
    ensures c.requestPending ==> r.state.sent == c.sent && r.state.requestPending
    ensures r.Ok? ==> !r.state.flushScheduled && IsEmpty(r.state.current)
    ensures r.Threw? ==> r.state.flushScheduled == c.flushScheduled && r.state.sent == c.sent
    ensures r.state.store == c.store && r.state.uncommitable == c.uncommitable && r.state.idGen == c.idGen
  {
    var c1 :- MakeUndoEntry(c.(timerQueued := false), false);
    var c2 := c1.(flushScheduled := false);
    if c2.requestPending then Ok(c2)
    else Ok(c2.(inProgress := Some(c2.pending), pending := EmptyCollector(), requestPending := true,
                sent := c2.sent + [c2.pending.changes]))
  }

  // ---------------------------------------------------------------------
  // Applying server updates
  // ---------------------------------------------------------------------

  function UncommitableChanges(c: Client): seq<Update> {
    if c.uncommitable.Some? then c.uncommitable.value.changes else []
  }

  /** The local undo list taken before the loop: transaction, then pending, then in-flight changes. */
  function LocalUndo(c: Client): seq<Update> {
    (if c.uncommitable.Some? then c.uncommitable.value.undo else [])
      + c.pending.undo
      + (if c.inProgress.Some? then c.inProgress.value.undo else [])
  }

  /** What a failed attempt can still discard: a non-empty transaction, then non-empty pending changes. */
  function Discardable(c: Client): nat {
    (if c.uncommitable.Some? && !IsEmpty(c.uncommitable.value) then 1 else 0) + (if !IsEmpty(c.pending) then 1 else 0)
  }

  /** The four groups of one attempt: undo all local changes, apply the server's, replay pending and the transaction. */
  function AttemptGroups(c: Client, undo: seq<Update>, server: seq<Update>): seq<seq<Update>> {
    [undo, server, c.pending.changes, UncommitableChanges(c)]
  }

  function AttemptBatch(c: Client, undo: seq<Update>, server: seq<Update>): seq<Update> {
    undo + server + c.pending.changes + UncommitableChanges(c)
  }

  /** The fields the retry loop leaves alone. */
  predicate SameProtocol(a: Client, b: Client) {
    && a.current == b.current && a.requestPending == b.requestPending
    && a.undoEntries == b.undoEntries && a.redoEntries == b.redoEntries
    && a.idGen == b.idGen && a.sent == b.sent && a.flushScheduled == b.flushScheduled && a.timerQueued == b.timerQueued
  }

  /** The result of `tryApplyUpdates`: the new state, the `oldState` snapshot of the last attempt, and the number of attempts. */
  datatype Applied = Applied(outcome: Outcome<Client, Error>, before: Snapshot, attempts: nat)

  /**
   * The retry loop of `tryApplyUpdates`. A failed attempt discards the
   * open transaction if it holds changes (calling the abort callback),
   * else the pending changes if any, else rethrows. On success the undo
   * halves of the transaction and of `pending` are rebuilt from the
   * attempt's undo blocks (see Rebase), and `inProgress` is cleared.
   */
  function ApplyLoop(c: Client, undo: seq<Update>, server: seq<Update>): (r: Applied)
    ensures 1 <= r.attempts <= 1 + Discardable(c)
    ensures forall id :: id in r.before.order ==> id in r.before.before
    ensures r.outcome.Ok? ==> r.outcome.state.inProgress.None?
    ensures SameProtocol(c, r.outcome.state)
    decreases Discardable(c)
  {
    var groups := AttemptGroups(c, undo, server);
    var all := AttemptBatch(c, undo, server);
    var blocks := GraphStore.GetUndoUpdates(c.store.objects, groups);
    var before := SnapshotOf(c.store.objects, all);
    match GraphStore.Modify(c.store, all)
    case Success(m) =>
      UndoBlocksKeyed(c.store.objects, groups, 2);
      UndoBlocksKeyed(c.store.objects, groups, 3);
      Applied(Ok(Rebase(c, m, blocks[2], blocks[3])), before, 1)
    case Failure(e) =>
      if c.uncommitable.Some? && !IsEmpty(c.uncommitable.value) then
        var r := ApplyLoop(c.(uncommitable := None, abortCallback := false,
                              events := c.events + (if c.abortCallback then [AbortCall] else [])), undo, server);
        r.(attempts := r.attempts + 1)
      else if !IsEmpty(c.pending) then
        var r := ApplyLoop(c.(pending := EmptyCollector()), undo, server);
        r.(attempts := r.attempts + 1)
      else Applied(Threw(c, e), before, 1)
  }

  /**
   * The end of a successful attempt: `replace(null, block)` on the open
   * transaction and on `pending`, then `inProgress = null`. The replaces
   * run inside the `try`, but cannot throw on blocks that name each id
   * once, as the undo blocks of `getUndoUpdates` do.
   */
  function Rebase(c: Client, m: GraphStore.Modified, pendingUndo: seq<Update>, uncommitableUndo: seq<Update>): (r: Client)
    requires Keyed(pendingUndo) && Keyed(uncommitableUndo)
    ensures ReplaceUndo(c.pending, pendingUndo) == Ok(r.pending)
    ensures r.uncommitable.Some? == c.uncommitable.Some?
    ensures c.uncommitable.Some? ==> ReplaceUndo(c.uncommitable.value, uncommitableUndo) == Ok(r.uncommitable.value)
    ensures r == c.(store := m.store, notes := c.notes + m.notes, inProgress := None,
                    uncommitable := r.uncommitable, pending := r.pending)
  {
    PrependFreshSucceeds([], pendingUndo);
    PrependFreshSucceeds([], uncommitableUndo);
    var unc := if c.uncommitable.Some? then Some(ReplaceUndo(c.uncommitable.value, uncommitableUndo).state) else None;
    c.(store := m.store, notes := c.notes + m.notes, inProgress := None,
       uncommitable := unc, pending := ReplaceUndo(c.pending, pendingUndo).state)
  }

  /** `tryApplyUpdates(serverUpdates)`: at most three attempts. */
  function TryApplyUpdates(c: Client, server: seq<Update>): (r: Applied)
    ensures 1 <= r.attempts <= 3
    ensures r.outcome.Ok? ==> r.outcome.state.inProgress.None?
  {
    ApplyLoop(c, LocalUndo(c), server)
  }

  // ---------------------------------------------------------------------
  // Responses
  // ---------------------------------------------------------------------

  /** `mapIDs` of handleResponse on one field bag: a negative `$` reference the id map knows is replaced. */
  function RemapFields(d: Data, idMap: map<Id, Id>): (r: Data)
    ensures r.Keys == d.Keys
    ensures forall k :: k in d ==>
      r[k] == if IsRefField(k) && IsNegative(d[k]) && d[k] in idMap then idMap[d[k]] else d[k]
  {
    map k | k in d :: if IsRefField(k) && d[k] != Null && IsNegative(d[k]) && d[k] in idMap then idMap[d[k]] else d[k]
  }

  function RemapData(d: Option<Data>, idMap: map<Id, Id>): Option<Data> {
    if d.Some? then Some(RemapFields(d.value, idMap)) else None
  }

  /** `true` and falsy expectations pass through unchanged. */
  function RemapExpect(e: Expect, idMap: map<Id, Id>): Expect {
    if e.ExpectExactly? then ExpectExactly(RemapFields(e.d, idMap)) else e
  }

  /** The remap of one undo entry: its id (any id the map knows) and both field bags. */
  function RemapEntry(u: Update, idMap: map<Id, Id>): Update {
    Update(if u.id in idMap then idMap[u.id] else u.id, RemapExpect(u.oldData, idMap), RemapData(u.data, idMap))
  }

  function RemapStack(stack: seq<seq<Update>>, idMap: map<Id, Id>): (r: seq<seq<Update>>)
    ensures |r| == |stack|
    ensures forall i :: 0 <= i < |r| ==>
      && |r[i]| == |stack[i]|
      && forall j :: 0 <= j < |r[i]| ==> r[i][j] == RemapEntry(stack[i][j], idMap)
  {
    seq(|stack|, i requires 0 <= i < |stack| =>
      seq(|stack[i]|, j requires 0 <= j < |stack[i]| => RemapEntry(stack[i][j], idMap)))
  }

  /** The listener calls of handleResponse: ids that are mapping targets are skipped, mapped ids are reported under their new id. */
  function ResponseCalls(order: seq<Id>, before: map<Id, Option<Data>>, idMap: map<Id, Id>, objects: map<Id, Data>): (r: seq<Event>)
    requires forall id :: id in order ==> id in before
    ensures |r| <= |order|
    ensures forall e :: e in r ==>
      && e.UpdateCall? && e.oldId in order && e.oldId !in idMap.Values
      && e.before == before[e.oldId]
      && e.newId == (if e.oldId in idMap then idMap[e.oldId] else e.oldId)
      && e.after == GraphStore.Lookup(objects, e.newId)
    decreases |order|
  {
    if |order| == 0 then []
    else
      var id := order[0];
      var rest := ResponseCalls(order[1..], before, idMap, objects);
      if id in idMap.Values then rest
      else
        var id2 := if id in idMap then idMap[id] else id;
        [UpdateCall(id, before[id], id2, GraphStore.Lookup(objects, id2))] + rest
  }

  /**
   * `handleResponse(response)`: close the current group, apply the server's
   * objects over the undone local state, remap the undo stack to the
   * server ids, check the id map against the result, call the listeners,
   * and clear the in-flight request.
   *
   * The remap of `pending` and of the open transaction iterates array
   * indices and changes nothing, and the redo stack is not remapped; both
   * are kept as the source has them.
   */
  function HandleResponse(c: Client, resp: Response): (r: Outcome<Client, Error>)
    ensures r.Ok? ==> !r.state.requestPending && r.state.inProgress.None?
    ensures r.Ok? ==> var idMap := if resp.idMap.Some? then resp.idMap.value else map[];
      forall id :: id in idMap ==> id !in r.state.store.objects
    ensures r.state.idGen == c.idGen && r.state.sent == c.sent
    ensures |r.state.undoEntries| <= |c.undoEntries| + 1 && |r.state.redoEntries| <= |c.redoEntries|
    ensures KeepsTimer(c, r.state)
  {
    var c1 :- MakeUndoEntry(c, false);
    var idMap := if resp.idMap.Some? then resp.idMap.value else map[];
    var applied := TryApplyUpdates(c1, resp.objects);
    var c2 :- applied.outcome;
    Settle(c2, applied.before, idMap)
  }

  /**
   * The end of `handleResponse` once the server's objects are in: the undo
   * stack moves to server ids, the id map is checked against the database
   * and against the snapshot, the listeners hear of each renamed or
   * changed object, and a flush is scheduled if local work is left.
   */
  function Settle(c: Client, before: Snapshot, idMap: map<Id, Id>): (r: Outcome<Client, Error>)
    requires forall id :: id in before.order ==> id in before.before
    ensures r.Ok? ==> !r.state.requestPending && r.state.inProgress.None?
    ensures r.Ok? ==> forall id :: id in idMap ==> id !in r.state.store.objects
    ensures r.Ok? <==>
      && (forall id :: id in idMap ==> id !in c.store.objects)
      && (forall t :: t in idMap.Values && t in before.before ==> before.before[t].None?)
    ensures r.Threw? ==> r == Threw(c.(undoEntries := RemapStack(c.undoEntries, idMap)), IdMapMismatch)
    ensures r.state == c.(undoEntries := RemapStack(c.undoEntries, idMap), events := r.state.events,
      inProgress := r.state.inProgress, requestPending := r.state.requestPending,
      flushScheduled := r.state.flushScheduled, timerQueued := r.state.timerQueued)
    ensures KeepsTimer(c, r.state)
  {
    var c1 := c.(undoEntries := RemapStack(c.undoEntries, idMap));
    if exists id :: id in idMap && id in c1.store.objects then Threw(c1, IdMapMismatch)
    else if exists t :: t in idMap.Values && t in before.before && before.before[t].Some? then
      Threw(c1, IdMapMismatch)
    else
      var calls := ResponseCalls(before.order, before.before, idMap, c1.store.objects);
      Ok(Submit(c1.(events := c1.events + calls + [GeneralCall], inProgress := None, requestPending := false)))
  }

  // ---------------------------------------------------------------------
  // Undo and redo
  // ---------------------------------------------------------------------

  /**
   * `undo()` as the source has it: the applied undo entry's own changes
   * become the redo entry (`makeUndoEntry(true)` pushes `getChanges()`).
   * See ClientLaws.UndoAsWrittenRedoesItself.
   */
  function UndoAsWritten(c: Client): (r: Outcome<Client, Error>)
    ensures |c.undoEntries| == 0 ==> r == Ok(c)
    ensures |c.undoEntries| > 0 && c.uncommitable.Some? ==> r == Threw(c, TransactionOpen)
    ensures |c.undoEntries| > 0 && c.uncommitable.None? && !IsEmpty(c.current) ==> r == Threw(c, CurrentNotEmpty)
    ensures r.state.idGen == c.idGen && r.state.sent == c.sent && r.state.requestPending == c.requestPending
    ensures KeepsTimer(c, r.state)
  {
    if |c.undoEntries| == 0 then Ok(c)
    else if c.uncommitable.Some? then Threw(c, TransactionOpen)
    else if !IsEmpty(c.current) then Threw(c, CurrentNotEmpty)
    else
      var entry := c.undoEntries[|c.undoEntries| - 1];
      var c1 :- Modify(c.(undoEntries := c.undoEntries[..|c.undoEntries| - 1]), entry);
      MakeUndoEntry(c1, true)
  }

  /** A redo entry: the current group's undo list, which takes the objects back to before the undo. */
  function MakeRedoEntry(c: Client): (r: Outcome<Client, Error>)
    ensures IsEmpty(c.current) ==> r == Ok(c)
    ensures !IsEmpty(c.current) ==>
      && r.state.redoEntries == Push(c.redoEntries, c.current.undo)
      && r.state.undoEntries == c.undoEntries
    ensures !IsEmpty(c.current) ==>
      && r.state.pending == AddFrom(c.pending, c.current).state
      && (r.Ok? <==> AddFrom(c.pending, c.current).Ok?)
    ensures r.Ok? && !IsEmpty(c.current) ==>
      AddFrom(c.pending, c.current) == Ok(r.state.pending) && r.state.current == EmptyCollector()
    ensures r.Threw? ==> r.state.current == c.current
    ensures r.state.store == c.store && r.state.uncommitable == c.uncommitable && r.state.inProgress == c.inProgress
    ensures r.state.requestPending == c.requestPending && r.state.idGen == c.idGen && r.state.sent == c.sent
    ensures r.state.flushScheduled == c.flushScheduled && r.state.timerQueued == c.timerQueued
    ensures r.state.events == c.events && r.state.notes == c.notes
  {
    if IsEmpty(c.current) then Ok(c)
    else
      var c1 := c.(redoEntries := Push(c.redoEntries, c.current.undo));
      match AddFrom(c1.pending, c.current)
      case Threw(p, e) => Threw(c1.(pending := p), e)
      case Ok(p) => Ok(c1.(pending := p, current := EmptyCollector()))
  }

  /** `undo()`, with the redo entry taken from the undo group's undo list. */
  function Undo(c: Client): (r: Outcome<Client, Error>)
    ensures |c.undoEntries| == 0 ==> r == Ok(c)
    ensures |c.undoEntries| > 0 && c.uncommitable.Some? ==> r == Threw(c, TransactionOpen)
    ensures |c.undoEntries| > 0 && c.uncommitable.None? && !IsEmpty(c.current) ==> r == Threw(c, CurrentNotEmpty)
    ensures r.state.idGen == c.idGen && r.state.sent == c.sent && r.state.requestPending == c.requestPending
    ensures KeepsTimer(c, r.state)
  {
    if |c.undoEntries| == 0 then Ok(c)
    else if c.uncommitable.Some? then Threw(c, TransactionOpen)
    else if !IsEmpty(c.current) then Threw(c, CurrentNotEmpty)
    else
      var entry := c.undoEntries[|c.undoEntries| - 1];
      var c1 :- Modify(c.(undoEntries := c.undoEntries[..|c.undoEntries| - 1]), entry);
      MakeRedoEntry(c1)
  }

  /** `redo()`: apply the newest redo entry and close the group as an undo entry. */
  function Redo(c: Client): (r: Outcome<Client, Error>)
    ensures |c.redoEntries| == 0 ==> r == Ok(c)
    ensures |c.redoEntries| > 0 && c.uncommitable.Some? ==> r == Threw(c, TransactionOpen)
    ensures |c.redoEntries| > 0 && c.uncommitable.None? && !IsEmpty(c.current) ==> r == Threw(c, CurrentNotEmpty)
    ensures r.state.idGen == c.idGen && r.state.sent == c.sent && r.state.requestPending == c.requestPending
    ensures KeepsTimer(c, r.state)
  {
    if |c.redoEntries| == 0 then Ok(c)
    else if c.uncommitable.Some? then Threw(c, TransactionOpen)
    else if !IsEmpty(c.current) then Threw(c, CurrentNotEmpty)
    else
      var entry := c.redoEntries[|c.redoEntries| - 1];
      var c1 :- Modify(c.(redoEntries := c.redoEntries[..|c.redoEntries| - 1]), entry);
      MakeUndoEntry(c1, false)
  }

  // ---------------------------------------------------------------------
  // All operations
  // ---------------------------------------------------------------------

  datatype Op =
    | InsertOp(data: Option<Data>)
    | UpdateOp(id: Id, oldData: Expect, data: Option<Data>)
    | DeleteOp(id: Id, oldData: Expect)
    | ModifyOp(updates: seq<Update>)
    | SetUncommittedOp(callback: bool)
    | CommitOp
    | RollbackOp
    | FlushOp
    | ResponseOp(response: Response)
    | UndoOp            // undo() with the corrected redo entry
    | UndoAsWrittenOp   // undo() as the source has it
    | RedoOp

  /** An operation can happen: the flush timer fires only while its callback is queued. */
  predicate Enabled(c: Client, op: Op) {
    op.FlushOp? ==> c.timerQueued
  }

  function Apply(c: Client, op: Op): Outcome<Client, Error>
    requires Enabled(c, op)
  {
    match op
    case InsertOp(data) => Insert(c, data).outcome
    case UpdateOp(id, oldData, data) => UpdateObject(c, id, oldData, data)
    case DeleteOp(id, oldData) => DeleteObject(c, id, oldData)
    case ModifyOp(us) => Modify(c, us)
    case SetUncommittedOp(callback) => SetUncommitted(c, callback)
    case CommitOp => Commit(c)
    case RollbackOp => Rollback(c)
    case FlushOp => Flush(c)
    case ResponseOp(resp) => HandleResponse(c, resp)
    case UndoOp => Undo(c)
    case UndoAsWrittenOp => UndoAsWritten(c)
    case RedoOp => Redo(c)
  }
}
