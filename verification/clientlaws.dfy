/**
 * Laws of the synchronisation wrapper: the invariant every operation keeps,
 * the single in-flight request, the retry loop's semantics and discard
 * order, id issuing, transaction routing, id remapping, and undo/redo.
 */
module ClientLaws {
  import opened Wrappers
  import opened Values
  import GraphStore
  import StoreLaws
  import opened Collectors
  import opened SyncClient

  // ---------------------------------------------------------------------
  // The retry loop
  // ---------------------------------------------------------------------

  /**
   * A successful `tryApplyUpdates` leaves the local database as one `modify`
   * of its last attempt: undo every local change, apply the server's
   * updates, replay what is left of `pending` and of the transaction.
   */
  lemma {:induction false} ApplyLoopCommits(c: Client, undo: seq<Update>, server: seq<Update>)
    ensures var r := ApplyLoop(c, undo, server);
      r.outcome.Ok? ==>
        && GraphStore.Modify(c.store, AttemptBatch(r.outcome.state, undo, server)).Success?
        && r.outcome.state.store == GraphStore.Modify(c.store, AttemptBatch(r.outcome.state, undo, server)).value.store
    decreases Discardable(c)
  {
    var all := AttemptBatch(c, undo, server);
    if GraphStore.Modify(c.store, all).Failure? {
      if c.uncommitable.Some? && !IsEmpty(c.uncommitable.value) {
        ApplyLoopCommits(c.(uncommitable := None, abortCallback := false,
                            events := c.events + (if c.abortCallback then [AbortCall] else [])), undo, server);
      } else if !IsEmpty(c.pending) {
        ApplyLoopCommits(c.(pending := EmptyCollector()), undo, server);
      }
    }
  }

  /**
   * The discard order of the retry loop: the transaction's changes are
   * kept or the transaction is dropped; pending changes are kept or
   * emptied, and only once the transaction is dropped or empty.
   */
  lemma {:induction false} ApplyLoopDiscards(c: Client, undo: seq<Update>, server: seq<Update>)
    ensures var s := ApplyLoop(c, undo, server).outcome.state;
      && (s.uncommitable.None? || (c.uncommitable.Some? && s.uncommitable.value.changes == c.uncommitable.value.changes))
      && (s.pending.changes != c.pending.changes ==>
            s.pending.changes == [] && (c.uncommitable.None? || IsEmpty(c.uncommitable.value) || s.uncommitable.None?))
      && (s.inProgress == c.inProgress || s.inProgress.None?)
    decreases Discardable(c)
  {
    var all := AttemptBatch(c, undo, server);
    if GraphStore.Modify(c.store, all).Success? {
      KeptOnSuccess(c, undo, server);
    } else {
      if c.uncommitable.Some? && !IsEmpty(c.uncommitable.value) {
        var c' := c.(uncommitable := None, abortCallback := false,
                     events := c.events + (if c.abortCallback then [AbortCall] else []));
        assert ApplyLoop(c, undo, server).outcome == ApplyLoop(c', undo, server).outcome;
        ApplyLoopDiscards(c', undo, server);
      } else if !IsEmpty(c.pending) {
        var c' := c.(pending := EmptyCollector());
        assert ApplyLoop(c, undo, server).outcome == ApplyLoop(c', undo, server).outcome;
        ApplyLoopDiscards(c', undo, server);
      }
    }
  }

  /** A first attempt that succeeds keeps every collected change. */
  lemma KeptOnSuccess(c: Client, undo: seq<Update>, server: seq<Update>)
    requires GraphStore.Modify(c.store, AttemptBatch(c, undo, server)).Success?
    ensures var s := ApplyLoop(c, undo, server).outcome.state;
      && s.pending.changes == c.pending.changes
      && s.uncommitable.Some? == c.uncommitable.Some?
      && (s.uncommitable.Some? ==> s.uncommitable.value.changes == c.uncommitable.value.changes)
  {
  }

  /**
   * The retry loop rethrows only when nothing is left to discard and the
   * last attempt failed, leaving the local database untouched.
   */
  lemma {:induction false} ApplyLoopRethrows(c: Client, undo: seq<Update>, server: seq<Update>)
    ensures var r := ApplyLoop(c, undo, server);
      r.outcome.Threw? ==>
        && Discardable(r.outcome.state) == 0
        && GraphStore.Modify(c.store, AttemptBatch(r.outcome.state, undo, server)).Failure?
        && r.outcome.state.store == c.store
    decreases Discardable(c)
  {
    var groups := AttemptGroups(c, undo, server);
    var all := AttemptBatch(c, undo, server);
    if GraphStore.Modify(c.store, all).Success? {
      ReplaceUndoSucceeds(c.pending, c.store.objects, groups, 2);
      if c.uncommitable.Some? {
        ReplaceUndoSucceeds(c.uncommitable.value, c.store.objects, groups, 3);
      }
    } else if c.uncommitable.Some? && !IsEmpty(c.uncommitable.value) {
      ApplyLoopRethrows(c.(uncommitable := None, abortCallback := false,
                           events := c.events + (if c.abortCallback then [AbortCall] else [])), undo, server);
    } else if !IsEmpty(c.pending) {
      ApplyLoopRethrows(c.(pending := EmptyCollector()), undo, server);
    }
  }

  /** With a valid local database, a successful retry loop replays its last attempt update by update. */
  lemma ApplyLoopReplays(c: Client, undo: seq<Update>, server: seq<Update>)
    requires GraphStore.Valid(c.store)
    ensures var r := ApplyLoop(c, undo, server);
      r.outcome.Ok? ==>
        && GraphStore.Valid(r.outcome.state.store)
        && r.outcome.state.store.objects == GraphStore.ReplaceAll(c.store.objects, AttemptBatch(r.outcome.state, undo, server))
  {
    var r := ApplyLoop(c, undo, server);
    ApplyLoopCommits(c, undo, server);
    if r.outcome.Ok? {
      StoreLaws.ModifySucceedsIff(c.store, AttemptBatch(r.outcome.state, undo, server));
      StoreLaws.ModifyIsSequential(c.store, AttemptBatch(r.outcome.state, undo, server));
    }
  }

  /** Collectors the retry loop leaves behind stay keyed. */
  lemma {:induction false} ApplyLoopKeepsInv(c: Client, undo: seq<Update>, server: seq<Update>)
    requires Inv(c)
    ensures Inv(ApplyLoop(c, undo, server).outcome.state)
    decreases Discardable(c)
  {
    var all := AttemptBatch(c, undo, server);
    if GraphStore.Modify(c.store, all).Success? {
      ApplyOnceKeepsInv(c, undo, server);
    } else if c.uncommitable.Some? && !IsEmpty(c.uncommitable.value) {
      ApplyLoopKeepsInv(c.(uncommitable := None, abortCallback := false,
                           events := c.events + (if c.abortCallback then [AbortCall] else [])), undo, server);
    } else if !IsEmpty(c.pending) {
      ApplyLoopKeepsInv(c.(pending := EmptyCollector()), undo, server);
    }
  }

  /** An attempt that commits leaves keyed collectors and a valid store. */
  lemma ApplyOnceKeepsInv(c: Client, undo: seq<Update>, server: seq<Update>)
    requires Inv(c)
    requires GraphStore.Modify(c.store, AttemptBatch(c, undo, server)).Success?
    ensures Inv(ApplyLoop(c, undo, server).outcome.state)
  {
    var all := AttemptBatch(c, undo, server);
    var blocks := GraphStore.GetUndoUpdates(c.store.objects, AttemptGroups(c, undo, server));
    StoreLaws.ModifySucceedsIff(c.store, all);
    var st := ApplyLoop(c, undo, server).outcome.state;
    assert st.store == GraphStore.Modify(c.store, all).value.store;
    assert st.pending == c.pending || st.pending == ReplaceUndo(c.pending, blocks[2]).state;
    assert st.uncommitable == c.uncommitable ||
      (c.uncommitable.Some? && st.uncommitable == Some(ReplaceUndo(c.uncommitable.value, blocks[3]).state));
  }

  // ---------------------------------------------------------------------
  // The invariant
  // ---------------------------------------------------------------------

  lemma ModifyKeepsInv(c: Client, us: seq<Update>)
    requires Inv(c)
    ensures Inv(Modify(c, us).state)
  {
    StoreLaws.ModifySucceedsIff(c.store, us);
  }

  lemma MakeUndoEntryKeepsInv(c: Client, forRedo: bool)
    requires Inv(c)
    ensures Inv(MakeUndoEntry(c, forRedo).state)
  {
  }

  lemma MakeRedoEntryKeepsInv(c: Client)
    requires Inv(c)
    ensures Inv(MakeRedoEntry(c).state)
  {
  }

  lemma HandleResponseKeepsInv(c: Client, resp: Response)
    requires Inv(c)
    ensures Inv(HandleResponse(c, resp).state)
  {
    MakeUndoEntryKeepsInv(c, false);
    var c1 := MakeUndoEntry(c, false);
    if c1.Ok? {
      ApplyLoopKeepsInv(c1.state, LocalUndo(c1.state), resp.objects);
      var applied := TryApplyUpdates(c1.state, resp.objects);
      if applied.outcome.Ok? {
        var idMap := if resp.idMap.Some? then resp.idMap.value else map[];
        SettleKeepsInv(applied.outcome.state, applied.before, idMap);
      }
    }
  }

  lemma SettleKeepsInv(c: Client, before: Snapshot, idMap: map<Id, Id>)
    requires Inv(c) && c.inProgress.None?
    requires forall id :: id in before.order ==> id in before.before
    ensures Inv(Settle(c, before, idMap).state)
  {
  }

  lemma UndoKeepsInv(c: Client)
    requires Inv(c)
    ensures Inv(Undo(c).state)
  {
    if |c.undoEntries| > 0 && c.uncommitable.None? && IsEmpty(c.current) {
      var c0 := c.(undoEntries := c.undoEntries[..|c.undoEntries| - 1]);
      ModifyKeepsInv(c0, c.undoEntries[|c.undoEntries| - 1]);
      MakeRedoEntryKeepsInv(Modify(c0, c.undoEntries[|c.undoEntries| - 1]).state);
    }
  }

  lemma UndoAsWrittenKeepsInv(c: Client)
    requires Inv(c)
    ensures Inv(UndoAsWritten(c).state)
  {
    if |c.undoEntries| > 0 && c.uncommitable.None? && IsEmpty(c.current) {
      var c0 := c.(undoEntries := c.undoEntries[..|c.undoEntries| - 1]);
      ModifyKeepsInv(c0, c.undoEntries[|c.undoEntries| - 1]);
      MakeUndoEntryKeepsInv(Modify(c0, c.undoEntries[|c.undoEntries| - 1]).state, true);
    }
  }

  lemma RedoKeepsInv(c: Client)
    requires Inv(c)
    ensures Inv(Redo(c).state)
  {
    if |c.redoEntries| > 0 && c.uncommitable.None? && IsEmpty(c.current) {
      var c0 := c.(redoEntries := c.redoEntries[..|c.redoEntries| - 1]);
      ModifyKeepsInv(c0, c.redoEntries[|c.redoEntries| - 1]);
      MakeUndoEntryKeepsInv(Modify(c0, c.redoEntries[|c.redoEntries| - 1]).state, false);
    }
  }

  lemma InsertKeepsInv(c: Client, data: Option<Data>)
    requires Inv(c)
    ensures Inv(Insert(c, data).outcome.state)
  {
    if data.Some? {
      InsertDataKeepsInv(c, data.value);
    }
  }

  lemma InsertDataKeepsInv(c: Client, d: Data)
    requires Inv(c)
    ensures Inv(Insert(c, Some(d)).outcome.state)
  {
    var x := Insert(c, Some(d)).outcome.state;
    var y := Modify(c.(idGen := c.idGen - 1), [Update(Num(c.idGen - 1), ExpectNone, Some(d))]).state;
    IssuedIdKeepsInv(c, d);
    assert x == y;
  }

  lemma IssuedIdKeepsInv(c: Client, d: Data)
    requires Inv(c)
    ensures Inv(Modify(c.(idGen := c.idGen - 1), [Update(Num(c.idGen - 1), ExpectNone, Some(d))]).state)
  {
    IdGenKeepsInv(c, c.idGen - 1);
    ModifyKeepsInv(c.(idGen := c.idGen - 1), [Update(Num(c.idGen - 1), ExpectNone, Some(d))]);
  }

  lemma IdGenKeepsInv(c: Client, n: int)
    requires Inv(c) && n <= 0
    ensures Inv(c.(idGen := n))
  {
  }

  lemma CommitKeepsInv(c: Client)
    requires Inv(c)
    ensures Inv(Commit(c).state)
  {
  }

  lemma RollbackKeepsInv(c: Client)
    requires Inv(c)
    ensures Inv(Rollback(c).state)
  {
    if c.uncommitable.Some? { ModifyKeepsInv(c, c.uncommitable.value.undo); }
  }

  lemma FlushKeepsInv(c: Client)
    requires Inv(c) && c.timerQueued
    ensures Inv(Flush(c).state)
  {
    MakeUndoEntryKeepsInv(c.(timerQueued := false), false);
  }

  /** Every operation keeps the invariant, whether it returns or throws. */
  lemma ApplyKeepsInv(c: Client, op: Op)
    requires Inv(c) && Enabled(c, op)
    ensures Inv(Apply(c, op).state)
  {
    match op
    case InsertOp(data) => InsertKeepsInv(c, data);
    case UpdateOp(id, oldData, data) =>
      if data.Some? { ModifyKeepsInv(c, [Update(id, OrTrue(oldData), data)]); }
    case DeleteOp(id, oldData) => ModifyKeepsInv(c, [Update(id, OrTrue(oldData), None)]);
    case ModifyOp(us) => ModifyKeepsInv(c, us);
    case SetUncommittedOp(callback) =>
    case CommitOp => CommitKeepsInv(c);
    case RollbackOp => RollbackKeepsInv(c);
    case _ => ProtocolKeepsInv(c, op);
  }

  lemma ProtocolKeepsInv(c: Client, op: Op)
    requires Inv(c) && Enabled(c, op)
    requires op.FlushOp? || op.ResponseOp? || op.UndoOp? || op.UndoAsWrittenOp? || op.RedoOp?
    ensures Inv(Apply(c, op).state)
  {
    match op
    case FlushOp => FlushKeepsInv(c);
    case ResponseOp(resp) => HandleResponseKeepsInv(c, resp);
    case UndoOp => UndoKeepsInv(c);
    case UndoAsWrittenOp => UndoAsWrittenKeepsInv(c);
    case RedoOp => RedoKeepsInv(c);
  }

  /** A run of operations, stopping at the first that is not enabled. */
  function Run(c: Client, ops: seq<Op>): Client
    decreases |ops|
  {
    if |ops| == 0 || !Enabled(c, ops[0]) then c else Run(Apply(c, ops[0]).state, ops[1..])
  }

  /** The wrapper over an empty database keeps the invariant through every run. */
  lemma {:induction false} RunKeepsInv(c: Client, ops: seq<Op>)
    requires Inv(c)
    ensures Inv(Run(c, ops))
    decreases |ops|
  {
    if |ops| > 0 && Enabled(c, ops[0]) {
      ApplyKeepsInv(c, ops[0]);
      RunKeepsInv(Apply(c, ops[0]).state, ops[1..]);
    }
  }

  lemma InitialInv()
    ensures Inv(Initial(GraphStore.EmptyStore()))
  {

  }

  // ---------------------------------------------------------------------
  // Undo and redo
  // ---------------------------------------------------------------------

  /** Collecting a non-empty batch into an empty collector leaves it non-empty. */
  lemma CollectedBatchNonEmpty(us: seq<Update>, undo: seq<Update>, t: Collector)
    requires |us| > 0
    requires Add(Collector([], []), us, undo) == Ok(t)
    ensures !IsEmpty(t)
  {
    KeyedCoalescesItself([]);
    assert AddChanges([], us).Ok? && AddChanges([], us).state == t.changes;
    AddChangesCoalesces([], [], us);
    assert [] + us == us;
    assert Touches(us, us[0].id);
    assert Touches(t.changes, us[0].id);
  }

  /**
   * With the redo entry taken from the undo group's own undo list, redoing
   * right after undoing a non-empty entry brings the local objects back to
   * what they were before the undo.
   */
  lemma UndoThenRedoRestores(c: Client)
    requires Inv(c)
    requires |c.undoEntries| > 0 && |c.undoEntries[|c.undoEntries| - 1]| > 0
    requires c.uncommitable.None? && IsEmpty(c.current)
    requires Undo(c).Ok?
    ensures |Undo(c).state.redoEntries| > 0
    ensures Redo(Undo(c).state).state.store.objects == c.store.objects
  {
    var n := |c.undoEntries|;
    var entry := c.undoEntries[n - 1];
    var c0 := c.(undoEntries := c.undoEntries[..n - 1]);
    var m := Modify(c0, entry);
    assert m.Ok?;
    var c1 := m.state;
    var undoE := GraphStore.GetUndoUpdates(c.store.objects, [entry])[0];
    assert c.current == Collector([], []);
    assert Add(Collector([], []), entry, undoE) == Ok(c1.current);
    CollectedBatchNonEmpty(entry, undoE, c1.current);
    UndoBlocksKeyed(c.store.objects, [entry], 0);
    PrependFreshSucceeds([], undoE);
    var w := c1.current.undo;
    assert w == PrependAll([], undoE).state;
    assert Keyed(w);
    var u := Undo(c).state;
    assert u == MakeRedoEntry(c1).state;
    assert u.redoEntries[|u.redoEntries| - 1] == w;
    StoreLaws.UndoInAnyOrderRestores(c.store, entry, w);
    var u0 := u.(redoEntries := u.redoEntries[..|u.redoEntries| - 1]);
    assert u0.store == c1.store;
    assert Redo(u).state.store == Modify(u0, w).state.store;
  }

  /**
   * Rolling back a transaction that holds one batch restores the local
   * objects as they were when it was opened, whether or not collecting the
   * rollback's own changes throws afterwards.
   */
  lemma RollbackRestores(c: Client, callback: bool, us: seq<Update>)
    requires Inv(c) && c.uncommitable.None?
    requires Modify(SetUncommitted(c, callback).state, us).Ok?
    ensures var t := Modify(SetUncommitted(c, callback).state, us).state;
      Rollback(t).state.store.objects == c.store.objects
  {
    var c1 := SetUncommitted(c, callback).state;
    var t := Modify(c1, us).state;
    var undoE := GraphStore.GetUndoUpdates(c.store.objects, [us])[0];
    assert Target(c1) == Collector([], []);
    assert Add(Collector([], []), us, undoE) == Ok(t.uncommitable.value);
    UndoBlocksKeyed(c.store.objects, [us], 0);
    PrependFreshSucceeds([], undoE);
    var w := t.uncommitable.value.undo;
    assert w == PrependAll([], undoE).state;
    StoreLaws.UndoInAnyOrderRestores(c.store, us, w);
    assert Rollback(t).state.store == Modify(t, w).state.store;
  }

  /**
   * `undo()` as written records the undo group's own changes as the redo
   * entry. When the undone entry deletes an object (the undo of an
   * insert), the redo entry deletes it again, and `redo()` throws: the
   * object no longer exists.
   */
  lemma RedoAfterUndoFails(c: Client, x: Id, d: Data)
    requires GraphStore.Valid(c.store)
    requires |c.undoEntries| > 0 && c.undoEntries[|c.undoEntries| - 1] == [Update(x, ExpectExactly(d), None)]
    requires c.uncommitable.None? && IsEmpty(c.current)
    requires UndoAsWritten(c).Ok?
    ensures var u := UndoAsWritten(c).state;
      && |u.redoEntries| > 0 && u.redoEntries[|u.redoEntries| - 1] == c.undoEntries[|c.undoEntries| - 1]
      && x !in u.store.objects
    ensures Redo(UndoAsWritten(c).state).Threw?
    ensures Redo(UndoAsWritten(c).state).error == MissingObject
  {
    UndoAsWrittenRedoesItself(c, x, d);
    RedoOfMissingFails(UndoAsWritten(c).state, x, d);
  }

  lemma UndoAsWrittenRedoesItself(c: Client, x: Id, d: Data)
    requires GraphStore.Valid(c.store)
    requires |c.undoEntries| > 0 && c.undoEntries[|c.undoEntries| - 1] == [Update(x, ExpectExactly(d), None)]
    requires c.uncommitable.None? && IsEmpty(c.current)
    requires UndoAsWritten(c).Ok?
    ensures var u := UndoAsWritten(c).state;
      && |u.redoEntries| > 0 && u.redoEntries[|u.redoEntries| - 1] == c.undoEntries[|c.undoEntries| - 1]
      && x !in u.store.objects && GraphStore.Valid(u.store)
      && u.uncommitable.None? && IsEmpty(u.current)
  {
    var n := |c.undoEntries|;
    var entry := c.undoEntries[n - 1];
    var c0 := c.(undoEntries := c.undoEntries[..n - 1]);
    var c1 := Modify(c0, entry).state;
    assert UndoAsWritten(c) == MakeUndoEntry(c1, true);
    UndoOfDeleteApplies(c0, x, d, c1);
  }

  /** Applying a one-delete undo entry to an empty group records exactly that delete. */
  lemma UndoOfDeleteApplies(c0: Client, x: Id, d: Data, c1: Client)
    requires GraphStore.Valid(c0.store)
    requires c0.uncommitable.None? && IsEmpty(c0.current)
    requires Modify(c0, [Update(x, ExpectExactly(d), None)]) == Ok(c1)
    ensures x !in c1.store.objects && GraphStore.Valid(c1.store)
    ensures c1.current.changes == [Update(x, ExpectExactly(d), None)] && !IsEmpty(c1.current)
    ensures c1.uncommitable.None?
  {
    UndoOfDeleteStore(c0, x, d, c1);
    UndoOfDeleteGroup(c0, x, d, c1);
  }

  lemma UndoOfDeleteStore(c0: Client, x: Id, d: Data, c1: Client)
    requires GraphStore.Valid(c0.store)
    requires Modify(c0, [Update(x, ExpectExactly(d), None)]) == Ok(c1)
    ensures x !in c1.store.objects && GraphStore.Valid(c1.store)
  {
    DeleteRemoves(c0.store, x, d);
  }

  lemma UndoOfDeleteGroup(c0: Client, x: Id, d: Data, c1: Client)
    requires c0.uncommitable.None? && IsEmpty(c0.current)
    requires Modify(c0, [Update(x, ExpectExactly(d), None)]) == Ok(c1)
    ensures c1.current.changes == [Update(x, ExpectExactly(d), None)] && !IsEmpty(c1.current)
    ensures c1.uncommitable.None?
  {
    var entry := [Update(x, ExpectExactly(d), None)];
    var undo := GraphStore.GetUndoUpdates(c0.store.objects, [entry])[0];
    assert Target(c0) == Collector([], []);
    assert c1.uncommitable.None?;
    assert Add(Collector([], []), entry, undo) == Ok(c1.current);
    AddSingle(entry[0], undo, c1.current);
  }

  /** A one-change batch added to an empty collector is its only change. */
  lemma AddSingle(u: Update, undo: seq<Update>, t: Collector)
    requires Add(Collector([], []), [u], undo) == Ok(t)
    ensures t.changes == [u] && !IsEmpty(t)
  {
    SingleChange(u);
  }

  /** A successful one-entry delete leaves a valid store without the object. */
  lemma DeleteRemoves(s: GraphStore.Store, x: Id, d: Data)
    requires GraphStore.Valid(s)
    requires GraphStore.Modify(s, [Update(x, ExpectExactly(d), None)]).Success?
    ensures x !in GraphStore.Modify(s, [Update(x, ExpectExactly(d), None)]).value.store.objects
    ensures GraphStore.Valid(GraphStore.Modify(s, [Update(x, ExpectExactly(d), None)]).value.store)
  {
    var entry := [Update(x, ExpectExactly(d), None)];
    StoreLaws.ModifyIsSequential(s, entry);
    StoreLaws.ModifySucceedsIff(s, entry);
    assert entry[1..] == [];
  }

  lemma SingleChange(u: Update)
    ensures AddChanges([], [u]) == Ok([u])
  {
    assert Find([], u.id).None?;
    assert [] + [u] == [u];
    assert AddChange([], u) == Success([u]);
    assert [u][1..] == [];
  }

  lemma RedoOfMissingFails(u: Client, x: Id, d: Data)
    requires GraphStore.Valid(u.store) && x !in u.store.objects
    requires |u.redoEntries| > 0 && u.redoEntries[|u.redoEntries| - 1] == [Update(x, ExpectExactly(d), None)]
    requires u.uncommitable.None? && IsEmpty(u.current)
    ensures Redo(u).Threw? && Redo(u).error == MissingObject
  {
    var entry := u.redoEntries[|u.redoEntries| - 1];
    var u0 := u.(redoEntries := u.redoEntries[..|u.redoEntries| - 1]);
    assert GraphStore.Step(u0.store.objects, GraphStore.Start(u0.store), entry[0]) == Failure(MissingObject);
    assert GraphStore.Modify(u0.store, entry) == Failure(MissingObject);
  }

  /** The undo list of an insert deletes the new object again. */
  lemma InsertUndo(base: map<Id, Data>, n: Id, d: Data)
    requires n !in base
    ensures GraphStore.GetUndoUpdates(base, [[Update(n, ExpectNone, Some(d))]])[0] == [Update(n, ExpectExactly(d), None)]
  {
    var u := Update(n, ExpectNone, Some(d));
    var o0 := GraphStore.Overlay([], map[]);
    var o1 := GraphStore.Record(base, o0, u);
    assert [] + [n] == [n];
    assert o1 == GraphStore.Overlay([n], map[n := Some(d)]);
    assert [u][1..] == [];
    assert GraphStore.Collect(base, o0, [u]) == o1;
    assert [[u]][1..] == [];
  }

  /** An insert into an empty group: the group's undo list deletes the new object. */
  lemma InsertRecordsUndo(c: Client, d: Data, c1: Client)
    requires GraphStore.Valid(c.store)
    requires c.uncommitable.None? && IsEmpty(c.current)
    requires Insert(c, Some(d)).outcome == Ok(c1)
    ensures c1.flushScheduled && GraphStore.Valid(c1.store) && c1.uncommitable.None?
    ensures Num(c.idGen - 1) in c1.store.objects && c1.store.objects[Num(c.idGen - 1)] == d
    ensures !IsEmpty(c1.current) && c1.current.undo == [Update(Num(c.idGen - 1), ExpectExactly(d), None)]
  {
    InsertBatchRecordsUndo(c.(idGen := c.idGen - 1), Num(c.idGen - 1), d, c1);
  }

  lemma InsertBatchRecordsUndo(c: Client, n: Id, d: Data, c1: Client)
    requires GraphStore.Valid(c.store)
    requires c.uncommitable.None? && IsEmpty(c.current)
    requires Modify(c, [Update(n, ExpectNone, Some(d))]) == Ok(c1)
    ensures c1.flushScheduled && GraphStore.Valid(c1.store) && c1.uncommitable.None?
    ensures n in c1.store.objects && c1.store.objects[n] == d
    ensures !IsEmpty(c1.current) && c1.current.undo == [Update(n, ExpectExactly(d), None)]
  {
    InsertAdds(c.store, n, d);
    InsertBatchGroup(c, n, d, c1);
  }

  /** A successful one-entry insert leaves a valid store holding the object, which it did not hold before. */
  lemma InsertAdds(s: GraphStore.Store, n: Id, d: Data)
    requires GraphStore.Valid(s)
    requires GraphStore.Modify(s, [Update(n, ExpectNone, Some(d))]).Success?
    ensures n !in s.objects
    ensures var r := GraphStore.Modify(s, [Update(n, ExpectNone, Some(d))]).value.store;
      GraphStore.Valid(r) && n in r.objects && r.objects[n] == d
  {
    var ins := Update(n, ExpectNone, Some(d));
    StoreLaws.ModifySucceedsIff(s, [ins]);
    StoreLaws.ModifyIsSequential(s, [ins]);
    assert [ins][1..] == [];
    assert GraphStore.Step(s.objects, GraphStore.Start(s), ins).Success?;
  }

  lemma InsertBatchGroup(c: Client, n: Id, d: Data, c1: Client)
    requires c.uncommitable.None? && IsEmpty(c.current) && n !in c.store.objects
    requires Modify(c, [Update(n, ExpectNone, Some(d))]) == Ok(c1)
    ensures c1.flushScheduled && c1.uncommitable.None?
    ensures !IsEmpty(c1.current) && c1.current.undo == [Update(n, ExpectExactly(d), None)]
  {
    var ins := Update(n, ExpectNone, Some(d));
    InsertUndo(c.store.objects, n, d);
    var del := Update(n, ExpectExactly(d), None);
    assert Target(c) == Collector([], []);
    assert Target(c1) == c1.current;
    assert Add(Collector([], []), [ins], [del]) == Ok(c1.current);
    AddSingleInsert(ins, del, c1.current);
  }

  /** A one-change batch with a one-step undo, added to an empty collector, is exactly that pair. */
  lemma AddSingleInsert(ins: Update, del: Update, t: Collector)
    requires Add(Collector([], []), [ins], [del]) == Ok(t)
    ensures t == Collector([ins], [del]) && !IsEmpty(t)
  {
    assert [] + [del] == [del];
    assert PrependUndo([], del) == Success([del]);
    assert [del][..0] == [];
    assert PrependAll([], [del]) == Ok([del]);
    SingleChange(ins);
  }

  /** The flush closes a non-empty group: its undo list becomes the newest undo entry. */
  lemma FlushRecordsUndo(c: Client)
    requires c.timerQueued && !IsEmpty(c.current)
    ensures |Flush(c).state.undoEntries| > 0
    ensures Flush(c).state.undoEntries[|Flush(c).state.undoEntries| - 1] == c.current.undo
  {
  }

  /**
   * The reachable form of the redo defect: insert an object, let the flush
   * close the group, undo it with `undo()` as written, then `redo()` throws.
   */
  lemma InsertUndoRedoAsWrittenFails(c: Client, d: Data, c1: Client, f: Client, u: Client)
    requires GraphStore.Valid(c.store)
    requires c.uncommitable.None? && IsEmpty(c.current)
    requires Insert(c, Some(d)).outcome == Ok(c1)
    requires c1.timerQueued && Flush(c1) == Ok(f)
    requires UndoAsWritten(f) == Ok(u)
    ensures Redo(u).Threw? && Redo(u).error == MissingObject
  {
    InsertRecordsUndo(c, d, c1);
    FlushRecordsUndo(c1);
    RedoAfterUndoFails(f, Num(c.idGen - 1), d);
  }

  /** The same sequence with the corrected `undo()`: the redo brings the inserted object back. */
  lemma InsertUndoRedoRestores(c: Client, d: Data, c1: Client, f: Client, u: Client)
    requires Inv(c)
    requires c.uncommitable.None? && IsEmpty(c.current)
    requires Insert(c, Some(d)).outcome == Ok(c1)
    requires c1.timerQueued && Flush(c1) == Ok(f)
    requires Undo(f) == Ok(u)
    ensures var r := Redo(u).state.store.objects;
      Num(c.idGen - 1) in r && r[Num(c.idGen - 1)] == d
  {
    InsertRecordsUndo(c, d, c1);
    FlushRecordsUndo(c1);
    InsertKeepsInv(c, Some(d));
    FlushKeepsInv(c1);
    UndoThenRedoRestores(f);
  }

  // ---------------------------------------------------------------------
  // One request in flight
  // ---------------------------------------------------------------------

  /** One batch may be sent while no request is in flight. */
  function Credit(c: Client): nat {
    if c.requestPending then 0 else 1
  }

  function Responses(ops: seq<Op>): nat
    decreases |ops|
  {
    if |ops| == 0 then 0 else (if ops[0].ResponseOp? then 1 else 0) + Responses(ops[1..])
  }

  /**
   * Only the flush timer sends, only while no request is in flight, and it
   * sends the in-flight batch; only a response clears the in-flight flag.
   */
  /**
   * One step's effect on the sent batches: they only grow, a response
   * earns one credit, only a flush with no request pending sends, and
   * only a response clears the pending request.
   */
  predicate SendStep(c: Client, op: Op, r: Client) {
    && c.sent <= r.sent
    && |r.sent| + Credit(r) <= |c.sent| + Credit(c) + (if op.ResponseOp? then 1 else 0)
    && (|r.sent| > |c.sent| ==>
          && op.FlushOp? && !c.requestPending && r.requestPending && r.inProgress.Some?
          && r.sent == c.sent + [r.inProgress.value.changes])
    && (c.requestPending && !r.requestPending ==> op.ResponseOp?)
  }

  lemma StepSends(c: Client, op: Op)
    requires Enabled(c, op)
    ensures SendStep(c, op, Apply(c, op).state)
  {
    if op.FlushOp? || op.ResponseOp? || op.UndoOp? || op.UndoAsWrittenOp? || op.RedoOp? {
      ProtocolStepSends(c, op);
    } else {
      EditStepSends(c, op);
    }
  }

  lemma EditStepSends(c: Client, op: Op)
    requires !(op.FlushOp? || op.ResponseOp? || op.UndoOp? || op.UndoAsWrittenOp? || op.RedoOp?)
    ensures SendStep(c, op, Apply(c, op).state)
  {
    if op.SetUncommittedOp? || op.CommitOp? || op.RollbackOp? {
      TransactionStepSends(c, op);
    } else {
      match op
      case InsertOp(data) =>
      case UpdateOp(id, oldData, data) =>
      case DeleteOp(id, oldData) =>
      case ModifyOp(us) =>
    }
  }

  lemma TransactionStepSends(c: Client, op: Op)
    requires op.SetUncommittedOp? || op.CommitOp? || op.RollbackOp?
    ensures SendStep(c, op, Apply(c, op).state)
  {
    match op
    case SetUncommittedOp(callback) =>
    case CommitOp =>
    case RollbackOp =>
  }

  lemma ProtocolStepSends(c: Client, op: Op)
    requires Enabled(c, op)
    requires op.FlushOp? || op.ResponseOp? || op.UndoOp? || op.UndoAsWrittenOp? || op.RedoOp?
    ensures SendStep(c, op, Apply(c, op).state)
  {
    match op
    case FlushOp =>
    case ResponseOp(resp) =>
    case UndoOp =>
    case UndoAsWrittenOp =>
    case RedoOp =>
  }

  /** Over any run, every batch after the first is sent only once a response has come back. */
  lemma {:induction false} RunSends(c: Client, ops: seq<Op>)
    ensures c.sent <= Run(c, ops).sent
    ensures |Run(c, ops).sent| + Credit(Run(c, ops)) <= |c.sent| + Credit(c) + Responses(ops)
    decreases |ops|
  {
    if |ops| > 0 && Enabled(c, ops[0]) {
      StepSends(c, ops[0]);
      RunSends(Apply(c, ops[0]).state, ops[1..]);
    }
  }

  /** From construction, the number of batches sent never exceeds the responses received by more than one. */
  lemma SentAfterResponses(store: GraphStore.Store, ops: seq<Op>)
    ensures |Run(Initial(store), ops).sent| <= 1 + Responses(ops)
  {
    RunSends(Initial(store), ops);
  }

  /**
   * While `submitTimeout` is set and its timer has been used up, no
   * operation sends anything, clears it or queues a timer.
   */
  lemma StepStalled(c: Client, op: Op)
    requires c.flushScheduled && !c.timerQueued && Enabled(c, op)
    ensures var r := Apply(c, op).state;
      r.sent == c.sent && r.flushScheduled && !r.timerQueued
  {
    StepSends(c, op);
    match op
    case InsertOp(data) =>
    case UpdateOp(id, oldData, data) =>
    case DeleteOp(id, oldData) =>
    case ModifyOp(us) =>
    case SetUncommittedOp(callback) =>
    case CommitOp =>
    case RollbackOp =>
    case FlushOp =>
    case ResponseOp(resp) =>
    case UndoOp =>
    case UndoAsWrittenOp =>
    case RedoOp =>
  }

  lemma {:induction false} StalledNeverSends(c: Client, ops: seq<Op>)
    requires c.flushScheduled && !c.timerQueued
    ensures Run(c, ops).sent == c.sent
    decreases |ops|
  {
    if |ops| > 0 && Enabled(c, ops[0]) {
      StepStalled(c, ops[0]);
      StalledNeverSends(Apply(c, ops[0]).state, ops[1..]);
    }
  }

  /**
   * A flush whose `makeUndoEntry` throws never reaches `submitTimeout =
   * null`: whatever happens afterwards, no batch is sent again.
   */
  lemma FlushThrowStalls(c: Client, ops: seq<Op>)
    requires Inv(c) && c.timerQueued
    requires Flush(c).Threw?
    ensures Run(Flush(c).state, ops).sent == c.sent
  {
    StalledNeverSends(Flush(c).state, ops);
  }

  /**
   * Such a flush is reachable: `pending` holds a newer version of `x` than
   * the group being closed (a transaction committed over an edit of the
   * group). The fold overwrites `pending`'s data for `x`, then throws.
   */
  lemma FlushKeepsPartialMerge(c: Client, x: Id, o: Expect, v0: Data, v1: Data, v2: Data)
    requires c.timerQueued && !SameFields(v2, v0)
    requires c.pending == Collector([Update(x, o, Some(v2))], [Update(x, ExpectExactly(v2), Some(v1))])
    requires c.current == Collector([Update(x, ExpectAny, Some(v1))], [Update(x, ExpectExactly(v1), Some(v0))])
    ensures Flush(c).Threw? && Flush(c).error == CollectorMismatch
    ensures Flush(c).state.pending == Collector([Update(x, o, Some(v1))], c.pending.undo)
    ensures Flush(c).state.current == c.current && !Flush(c).state.timerQueued
  {
    AddFromKeepsEarlierWrites(x, o, v0, v1, v2);
  }

  // ---------------------------------------------------------------------
  // Provisional ids
  // ---------------------------------------------------------------------

  /** Only an insert with data moves the id generator, and only downwards by one. */
  lemma StepIds(c: Client, op: Op)
    requires Enabled(c, op)
    ensures var r := Apply(c, op).state;
      && (op.InsertOp? && op.data.Some? ==> r.idGen == c.idGen - 1)
      && (!(op.InsertOp? && op.data.Some?) ==> r.idGen == c.idGen)
  {
    match op
    case InsertOp(data) =>
    case UpdateOp(id, oldData, data) =>
    case DeleteOp(id, oldData) =>
    case ModifyOp(us) =>
    case SetUncommittedOp(callback) =>
    case CommitOp =>
    case RollbackOp =>
    case FlushOp =>
    case ResponseOp(resp) =>
    case UndoOp =>
    case UndoAsWrittenOp =>
    case RedoOp =>
  }

  lemma {:induction false} RunIds(c: Client, ops: seq<Op>)
    ensures Run(c, ops).idGen <= c.idGen
    decreases |ops|
  {
    if |ops| > 0 && Enabled(c, ops[0]) {
      StepIds(c, ops[0]);
      RunIds(Apply(c, ops[0]).state, ops[1..]);
    }
  }

  /** An id issued by an insert is never issued again by a later insert. */
  lemma IssuedIdsDistinct(c: Client, d: Data, ops: seq<Op>, d2: Data)
    ensures var c1 := Insert(c, Some(d)).outcome.state;
      Insert(Run(c1, ops), Some(d2)).id != Insert(c, Some(d)).id
  {
    RunIds(Insert(c, Some(d)).outcome.state, ops);
  }

  // ---------------------------------------------------------------------
  // Collecting local edits
  // ---------------------------------------------------------------------

  /**
   * A local batch is collected where edits go (the open transaction, else
   * the current group): the changes coalesce the history extended by the
   * batch, and the undo list coalesces the batch's undo list before the
   * earlier undo history.
   */
  lemma ModifyCollects(c: Client, us: seq<Update>, hs: seq<Update>, hu: seq<Update>)
    requires Coalesces(Target(c).changes, hs) && Coalesces(Target(c).undo, hu)
    requires Modify(c, us).Ok?
    ensures var t := Target(Modify(c, us).state);
      && Coalesces(t.changes, hs + us)
      && Coalesces(t.undo, GraphStore.GetUndoUpdates(c.store.objects, [us])[0] + hu)
  {
    var undo := GraphStore.GetUndoUpdates(c.store.objects, [us])[0];
    var t := Target(Modify(c, us).state);
    assert Add(Target(c), us, undo) == Ok(t);
    AddChangesCoalesces(Target(c).changes, hs, us);
    PrependAllCoalesces(Target(c).undo, hu, undo);
  }

  /** Committing appends the transaction's coalesced changes to `pending`'s history. */
  lemma CommitFoldsTransaction(c: Client, hp: seq<Update>, hu: seq<Update>)
    requires Coalesces(c.pending.changes, hp) && Coalesces(c.pending.undo, hu)
    requires Commit(c).Ok?
    ensures c.uncommitable.Some?
    ensures Coalesces(Commit(c).state.pending.changes, hp + c.uncommitable.value.changes)
    ensures Coalesces(Commit(c).state.pending.undo, c.uncommitable.value.undo + hu)
  {
    var t := c.uncommitable.value;
    assert Add(c.pending, t.changes, t.undo) == Ok(Commit(c).state.pending);
    AddChangesCoalesces(c.pending.changes, hp, t.changes);
    PrependAllCoalesces(c.pending.undo, hu, t.undo);
  }

  // ---------------------------------------------------------------------
  // Responses
  // ---------------------------------------------------------------------

  /**
   * A handled response leaves the local database as: every local change
   * undone, the server's objects applied, and what survives of `pending`
   * and of the transaction replayed on top.
   */
  lemma HandleResponseRebases(c: Client, resp: Response)
    requires GraphStore.Valid(c.store)
    requires HandleResponse(c, resp).Ok?
    ensures var r := HandleResponse(c, resp).state;
      var c1 := MakeUndoEntry(c, false).state;
      && GraphStore.Valid(r.store)
      && r.store.objects == GraphStore.ReplaceAll(c.store.objects,
           LocalUndo(c1) + resp.objects + r.pending.changes + UncommitableChanges(r))
  {
    var c1 := MakeUndoEntry(c, false).state;
    ApplyLoopReplays(c1, LocalUndo(c1), resp.objects);
  }
  /**
   * Remapping with a map whose targets are not themselves mapped (server ids
   * are positive, client ids negative) changes nothing the second time, and
   * a field bag that holds no provisional reference is left alone.
   */
  lemma RemapIdempotent(u: Update, idMap: map<Id, Id>)
    requires forall x :: x in idMap ==> idMap[x] !in idMap
    ensures RemapEntry(RemapEntry(u, idMap), idMap) == RemapEntry(u, idMap)
    ensures forall d :: (forall k :: k in d && IsRefField(k) ==> !IsNegative(d[k])) ==> RemapFields(d, idMap) == d
  {
    var r := RemapEntry(u, idMap);
    if u.data.Some? {
      assert RemapFields(r.data.value, idMap) == r.data.value;
    }
    if u.oldData.ExpectExactly? {
      assert RemapFields(r.oldData.d, idMap) == r.oldData.d;
    }
  }
}
