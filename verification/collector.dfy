/**
 * ChangesCollector of clientDatabase.js: the changes of a group of local
 * edits, coalesced per id, together with the undo steps that take the
 * newest state of each id back to its state before the group.
 *
 * Both halves are JavaScript Maps keyed by id; they are modelled as update
 * sequences in Map insertion order with at most one entry per id.
 */
module Collectors {
  import opened Wrappers
  import opened Values
  import opened GraphStore
  import opened StoreLaws

  datatype Collector = Collector(changes: seq<Update>, undo: seq<Update>)

  function EmptyCollector(): Collector {
    Collector([], [])
  }

  /** `isEmpty()`. */
  predicate IsEmpty(c: Collector) {
    |c.changes| == 0 && |c.undo| == 0
  }

  /** At most one entry per id, as in a Map keyed by id. */
  predicate Keyed(us: seq<Update>) {
    forall i, j :: 0 <= i < j < |us| ==> us[i].id != us[j].id
  }

  predicate WellFormed(c: Collector) {
    Keyed(c.changes) && Keyed(c.undo)
  }

  /** Some update of `us` is about `id`. */
  predicate Touches(us: seq<Update>, id: Id) {
    exists i :: 0 <= i < |us| && us[i].id == id
  }

  /** `map.get(id)`: the position of the entry for `id`. */
  function Find(us: seq<Update>, id: Id): (r: Option<nat>)
    ensures r.Some? ==> r.value < |us| && us[r.value].id == id
    ensures r.None? <==> !Touches(us, id)
    decreases |us|
  {
    if |us| == 0 then None
    else if us[0].id == id then Some(0)
    else match Find(us[1..], id)
      case None =>
        assert forall i :: 1 <= i < |us| ==> us[i] == us[1..][i - 1];
        None
      case Some(i) => Some(i + 1)
  }

  /**
   * One iteration of the first loop of `add`: a new id gets the change as
   * is; a known id keeps its `oldData` and takes the new `data`, once the
   * change's expectation agrees with the `data` recorded so far.
   */
  function AddChange(es: seq<Update>, ch: Update): (r: Result<seq<Update>, Error>)
    ensures r.Failure? ==> r.error == CollectorMismatch
    ensures r.Failure? ==> Touches(es, ch.id)
    ensures Keyed(es) && r.Success? ==> Keyed(r.value)
  {
    match Find(es, ch.id)
    case None => Success(es + [ch])
    case Some(i) =>
      var existing := es[i];
      if existing.data.None? != ch.oldData.ExpectNone? then Failure(CollectorMismatch)
      else if ch.oldData.ExpectExactly? && !SameFields(ch.oldData.d, existing.data.value) then Failure(CollectorMismatch)
      else Success(es[i := existing.(data := ch.data)])
  }

  /**
   * The first loop of `add`. The Map is changed as the loop goes, so a
   * throw leaves the entries the earlier iterations wrote.
   */
  function AddChanges(es: seq<Update>, cs: seq<Update>): (r: Outcome<seq<Update>, Error>)
    ensures r.Threw? ==> r.error == CollectorMismatch
    ensures Keyed(es) ==> Keyed(r.state)
    decreases |cs|
  {
    if |cs| == 0 then Ok(es)
    else match AddChange(es, cs[0])
      case Failure(e) => Threw(es, e)
      case Success(es') => AddChanges(es', cs[1..])
  }

  /**
   * One iteration of the second loop of `add`: an undo step for a known id
   * is prepended, so the entry keeps its `data` (the oldest state) and takes
   * the step's `oldData` (the newer state), once the step's `data` agrees
   * with the expectation recorded so far.
   */
  function PrependUndo(es: seq<Update>, step: Update): (r: Result<seq<Update>, Error>)
    ensures r.Failure? ==> r.error == CollectorMismatch
    ensures r.Failure? ==> Touches(es, step.id)
    ensures Keyed(es) && r.Success? ==> Keyed(r.value)
  {
    match Find(es, step.id)
    case None => Success(es + [step])
    case Some(i) =>
      var existing := es[i];
      if existing.oldData.ExpectNone? != step.data.None? then Failure(CollectorMismatch)
      else if existing.oldData.ExpectExactly? && !SameFields(existing.oldData.d, step.data.value) then Failure(CollectorMismatch)
      else Success(es[i := existing.(oldData := step.oldData)])
  }

  /** The undo loop of `add`, from the last step to the first; a throw leaves the steps already prepended. */
  function PrependAll(es: seq<Update>, undo: seq<Update>): (r: Outcome<seq<Update>, Error>)
    ensures r.Threw? ==> r.error == CollectorMismatch
    ensures Keyed(es) ==> Keyed(r.state)
    decreases |undo|
  {
    if |undo| == 0 then Ok(es)
    else match PrependUndo(es, undo[|undo| - 1])
      case Failure(e) => Threw(es, e)
      case Success(es') => PrependAll(es', undo[..|undo| - 1])
  }

  /**
   * `add(changes, undo)`. Both halves are changed in place: a throw in the
   * changes loop leaves the changes written so far and the undo half as it
   * was; a throw in the undo loop leaves all the changes and the undo steps
   * prepended so far (see AddThrowKeepsProgress).
   */
  function Add(c: Collector, changes: seq<Update>, undo: seq<Update>): (r: Outcome<Collector, Error>)
    ensures r.Threw? ==> r.error == CollectorMismatch
    ensures WellFormed(c) ==> WellFormed(r.state)
  {
    match AddChanges(c.changes, changes)
    case Threw(cs, e) => Threw(Collector(cs, c.undo), e)
    case Ok(cs) =>
      match PrependAll(c.undo, undo)
      case Threw(us, e) => Threw(Collector(cs, us), e)
      case Ok(us) => Ok(Collector(cs, us))
  }

  /** `addFromCollector(other)`. */
  function AddFrom(c: Collector, other: Collector): (r: Outcome<Collector, Error>)
    ensures r.Threw? ==> r.error == CollectorMismatch
    ensures WellFormed(c) ==> WellFormed(r.state)
  {
    Add(c, other.changes, other.undo)
  }

  /** `replace(null, undo)`: keep the changes, rebuild the undo half from `undo` alone. */
  function ReplaceUndo(c: Collector, undo: seq<Update>): (r: Outcome<Collector, Error>)
    ensures r.Threw? ==> r.error == CollectorMismatch
    ensures r.state.changes == c.changes
    ensures Keyed(c.changes) ==> WellFormed(r.state)
  {
    Add(Collector(c.changes, []), [], undo)
  }

  /**
   * A throw of the changes loop comes from the first change that does not
   * continue the entries collected so far, and leaves exactly what the
   * changes before it made.
   */
  lemma {:induction false} AddChangesStops(es: seq<Update>, cs: seq<Update>) returns (k: nat)
    requires AddChanges(es, cs).Threw?
    ensures k < |cs| && AddChanges(es, cs[..k]) == Ok(AddChanges(es, cs).state)
    ensures AddChange(AddChanges(es, cs).state, cs[k]).Failure?
    decreases |cs|
  {
    var r := AddChanges(es, cs);
    match AddChange(es, cs[0])
    case Failure(_) =>
      k := 0;
      assert cs[..0] == [];
    case Success(es') =>
      var j := AddChangesStops(es', cs[1..]);
      k := j + 1;
      assert cs[..k][1..] == cs[1..][..j];
      assert cs[k] == cs[1..][j];
  }

  /**
   * A throw of the undo loop comes from the newest step, counting from the
   * end, that does not lead into the entries collected so far, and leaves
   * exactly what the steps after it made.
   */
  lemma {:induction false} PrependAllStops(es: seq<Update>, undo: seq<Update>) returns (k: nat)
    requires PrependAll(es, undo).Threw?
    ensures k < |undo| && PrependAll(es, undo[k + 1..]) == Ok(PrependAll(es, undo).state)
    ensures PrependUndo(PrependAll(es, undo).state, undo[k]).Failure?
    decreases |undo|
  {
    var n := |undo| - 1;
    match PrependUndo(es, undo[n])
    case Failure(_) =>
      k := n;
      assert undo[n + 1..] == [];
    case Success(es') =>
      var front := undo[..n];
      k := PrependAllStops(es', front);
      PrependAllSuffix(es, undo, k);
  }

  lemma PrependAllSuffix(es: seq<Update>, undo: seq<Update>, k: nat)
    requires k < |undo| - 1
    requires PrependUndo(es, undo[|undo| - 1]).Success?
    ensures PrependAll(es, undo[k + 1..]) == PrependAll(PrependUndo(es, undo[|undo| - 1]).value, undo[..|undo| - 1][k + 1..])
  {
    var tail := undo[k + 1..];
    assert tail[|tail| - 1] == undo[|undo| - 1];
    assert tail[..|tail| - 1] == undo[..|undo| - 1][k + 1..];
  }

  /**
   * What a throw of `add` leaves: the changes of a prefix of the batch with
   * the undo half untouched, or the whole batch with the undo steps of a
   * suffix of the undo list; in both cases the next iteration's checks fail.
   */
  lemma AddThrowKeepsProgress(c: Collector, changes: seq<Update>, undo: seq<Update>)
    ensures var r := Add(c, changes, undo);
      r.Threw? ==>
        || (&& r.state.undo == c.undo
            && exists k :: 0 <= k < |changes| && AddChanges(c.changes, changes[..k]) == Ok(r.state.changes)
                 && AddChange(r.state.changes, changes[k]).Failure?)
        || (&& AddChanges(c.changes, changes) == Ok(r.state.changes)
            && exists k :: 0 <= k < |undo| && PrependAll(c.undo, undo[k + 1..]) == Ok(r.state.undo)
                 && PrependUndo(r.state.undo, undo[k]).Failure?)
  {
    if AddChanges(c.changes, changes).Threw? {
      var k := AddChangesStops(c.changes, changes);
    } else if PrependAll(c.undo, undo).Threw? {
      var k := PrependAllStops(c.undo, undo);
    }
  }

  /**
   * A throw keeps the earlier writes: `pending` already holds a newer
   * version of `x` (`v2`) than the group being folded into it (`v1`, made
   * from `v0`). The changes loop overwrites the data with `v1`; the undo
   * loop then finds that the group's undo step does not lead into `v2`.
   */
  lemma AddFromKeepsEarlierWrites(x: Id, o: Expect, v0: Data, v1: Data, v2: Data)
    requires !SameFields(v2, v0)
    ensures var pending := Collector([Update(x, o, Some(v2))], [Update(x, ExpectExactly(v2), Some(v1))]);
      var group := Collector([Update(x, ExpectAny, Some(v1))], [Update(x, ExpectExactly(v1), Some(v0))]);
      AddFrom(pending, group) == Threw(Collector([Update(x, o, Some(v1))], pending.undo), CollectorMismatch)
  {
    var ch := Update(x, ExpectAny, Some(v1));
    var es := [Update(x, o, Some(v2))];
    assert Find(es, x) == Some(0);
    assert es[0 := es[0].(data := Some(v1))] == [Update(x, o, Some(v1))];
    assert AddChange(es, ch) == Success([Update(x, o, Some(v1))]);
    assert AddChanges(es, [ch]) == Ok([Update(x, o, Some(v1))]);
    assert [ch][1..] == [];
    var us := [Update(x, ExpectExactly(v2), Some(v1))];
    assert Find(us, x) == Some(0);
    assert PrependUndo(us, Update(x, ExpectExactly(v1), Some(v0))) == Failure(CollectorMismatch);
  }

  /** Every undo block of `getUndoUpdates` names each id once. */
  lemma UndoBlocksKeyed(objects: map<Id, Data>, groups: seq<seq<Update>>, i: nat)
    requires i < |groups|
    ensures Keyed(GetUndoUpdates(objects, groups)[i])
  {
    UndoGroupsSequential(objects, groups);
    UndoEntries(ReplaceGroups(objects, groups[..i]), groups[i]);
  }

  /**
   * Prepending undo steps about ids not yet collected never fails and adds
   * exactly those steps.
   */
  lemma {:induction false} PrependFreshSucceeds(es: seq<Update>, undo: seq<Update>)
    requires Keyed(undo)
    requires forall i :: 0 <= i < |undo| ==> !Touches(es, undo[i].id)
    ensures PrependAll(es, undo).Ok?
    ensures forall u :: u in PrependAll(es, undo).state <==> u in es || u in undo
    decreases |undo|
  {
    if |undo| > 0 {
      var n := |undo| - 1;
      var es' := es + [undo[n]];
      assert PrependUndo(es, undo[n]) == Success(es');
      forall i | 0 <= i < n ensures !Touches(es', undo[..n][i].id) {
        TouchesAppend(es, undo[n], undo[i].id);
      }
      PrependFreshSucceeds(es', undo[..n]);
      assert undo == undo[..n] + [undo[n]];
    }
  }

  /** Rebuilding an undo half from one undo block of `getUndoUpdates` never fails. */
  lemma ReplaceUndoSucceeds(c: Collector, objects: map<Id, Data>, groups: seq<seq<Update>>, i: nat)
    requires i < |groups|
    ensures ReplaceUndo(c, GetUndoUpdates(objects, groups)[i]).Ok?
  {
    UndoBlocksKeyed(objects, groups, i);
    PrependFreshSucceeds([], GetUndoUpdates(objects, groups)[i]);
  }

  // ---------------------------------------------------------------------
  // Reference meaning: what one coalesced entry stands for.
  // ---------------------------------------------------------------------

  /** The `oldData` of the first update of `us` about `id`. */
  function FirstOld(us: seq<Update>, id: Id): Expect
    requires Touches(us, id)
    decreases |us|
  {
    if us[0].id == id then us[0].oldData
    else
      assert us[1..][Find(us, id).value - 1].id == id;
      FirstOld(us[1..], id)
  }

  /** The `data` of the last update of `us` about `id`. */
  function LastData(us: seq<Update>, id: Id): Option<Data>
    requires Touches(us, id)
    decreases |us|
  {
    if us[|us| - 1].id == id then us[|us| - 1].data
    else
      var i := Find(us, id).value;
      assert us[..|us| - 1][i].id == id;
      LastData(us[..|us| - 1], id)
  }

  /**
   * `es` holds one entry per id touched by the history `hs`: the first
   * expectation and the last data the history records for that id.
   */
  ghost predicate Coalesces(es: seq<Update>, hs: seq<Update>) {
    && Keyed(es)
    && (forall id :: Touches(es, id) <==> Touches(hs, id))
    && (forall i :: 0 <= i < |es| ==>
          Touches(hs, es[i].id) && es[i].oldData == FirstOld(hs, es[i].id) && es[i].data == LastData(hs, es[i].id))
  }

  lemma TouchesAppend(hs: seq<Update>, h: Update, id: Id)
    ensures Touches(hs + [h], id) <==> Touches(hs, id) || h.id == id
  {
    if Touches(hs, id) {
      var i :| 0 <= i < |hs| && hs[i].id == id;
      assert (hs + [h])[i] == hs[i];
    }
    if Touches(hs + [h], id) && h.id != id {
      var i :| 0 <= i < |hs + [h]| && (hs + [h])[i].id == id;
      assert i < |hs| && hs[i] == (hs + [h])[i];
    }
    if h.id == id {
      assert (hs + [h])[|hs|] == h;
    }
  }

  lemma TouchesPrepend(h: Update, hs: seq<Update>, id: Id)
    ensures Touches([h] + hs, id) <==> Touches(hs, id) || h.id == id
  {
    if Touches(hs, id) {
      var i :| 0 <= i < |hs| && hs[i].id == id;
      assert ([h] + hs)[i + 1] == hs[i];
    }
    if Touches([h] + hs, id) && h.id != id {
      var i :| 0 <= i < |[h] + hs| && ([h] + hs)[i].id == id;
      assert i > 0 && hs[i - 1] == ([h] + hs)[i];
    }
    if h.id == id {
      assert ([h] + hs)[0] == h;
    }
  }

  lemma {:induction false} FirstOldAppend(hs: seq<Update>, h: Update, id: Id)
    requires Touches(hs + [h], id)
    ensures FirstOld(hs + [h], id) == if Touches(hs, id) then FirstOld(hs, id) else h.oldData
    decreases |hs|
  {
    TouchesAppend(hs, h, id);
    if |hs| > 0 {
      assert (hs + [h])[0] == hs[0];
      if hs[0].id != id {
        assert (hs + [h])[1..] == hs[1..] + [h];
        TouchesAppend(hs[1..], h, id);
        FirstOldAppend(hs[1..], h, id);
        TouchesPrepend(hs[0], hs[1..], id);
        assert [hs[0]] + hs[1..] == hs;
      }
    } else {
      assert hs + [h] == [h];
    }
  }

  lemma {:induction false} LastDataPrepend(h: Update, hs: seq<Update>, id: Id)
    requires Touches([h] + hs, id)
    ensures LastData([h] + hs, id) == if Touches(hs, id) then LastData(hs, id) else h.data
    decreases |hs|
  {
    TouchesPrepend(h, hs, id);
    if |hs| > 0 {
      var n := |hs| - 1;
      assert ([h] + hs)[|[h] + hs| - 1] == hs[n];
      if hs[n].id != id {
        assert ([h] + hs)[..|[h] + hs| - 1] == [h] + hs[..n];
        TouchesPrepend(h, hs[..n], id);
        LastDataPrepend(h, hs[..n], id);
        TouchesAppend(hs[..n], hs[n], id);
        assert hs[..n] + [hs[n]] == hs;
      }
    } else {
      assert [h] + hs == [h];
    }
  }

  lemma LastDataAppend(hs: seq<Update>, h: Update, id: Id)
    requires Touches(hs + [h], id)
    ensures LastData(hs + [h], id) == if h.id == id then h.data else LastData(hs, id)
  {
    TouchesAppend(hs, h, id);
    assert (hs + [h])[..|hs + [h]| - 1] == hs;
  }

  lemma FirstOldPrepend(h: Update, hs: seq<Update>, id: Id)
    requires Touches([h] + hs, id)
    ensures FirstOld([h] + hs, id) == if h.id == id then h.oldData else FirstOld(hs, id)
  {
    TouchesPrepend(h, hs, id);
    assert ([h] + hs)[1..] == hs;
  }

  /** Coalescing one more change onto a history, or failing when it does not continue the history's last state. */
  lemma AddChangeCoalesces(es: seq<Update>, hs: seq<Update>, ch: Update)
    requires Coalesces(es, hs)
    ensures AddChange(es, ch).Failure? <==>
      Touches(hs, ch.id) &&
      (|| LastData(hs, ch.id).None? != ch.oldData.ExpectNone?
       || (ch.oldData.ExpectExactly? && !SameFields(ch.oldData.d, LastData(hs, ch.id).value)))
    ensures AddChange(es, ch).Success? ==> Coalesces(AddChange(es, ch).value, hs + [ch])
  {
    var hs' := hs + [ch];
    forall id ensures Touches(hs', id) <==> Touches(hs, id) || ch.id == id {
      TouchesAppend(hs, ch, id);
    }
    match Find(es, ch.id)
    case None =>
      var es' := es + [ch];
      forall id ensures Touches(es', id) <==> Touches(hs', id) {
        TouchesAppend(es, ch, id);
      }
      forall i | 0 <= i < |es'|
        ensures es'[i].oldData == FirstOld(hs', es'[i].id) && es'[i].data == LastData(hs', es'[i].id)
      {
        FirstOldAppend(hs, ch, es'[i].id);
        LastDataAppend(hs, ch, es'[i].id);
      }
    case Some(k) =>
      if AddChange(es, ch).Success? {
        var es' := AddChange(es, ch).value;
        forall id ensures Touches(es', id) <==> Touches(hs', id) {
          if Touches(es, id) {
            var i :| 0 <= i < |es| && es[i].id == id;
            assert es'[i].id == id;
          }
          if Touches(es', id) {
            var i :| 0 <= i < |es'| && es'[i].id == id;
            assert es[i].id == id;
          }
        }
        forall i | 0 <= i < |es'|
          ensures es'[i].oldData == FirstOld(hs', es'[i].id) && es'[i].data == LastData(hs', es'[i].id)
        {
          FirstOldAppend(hs, ch, es'[i].id);
          LastDataAppend(hs, ch, es'[i].id);
        }
      }
  }

  /** Prepending one more undo step to a history, or failing when it does not lead into the history's first state. */
  lemma PrependUndoCoalesces(es: seq<Update>, hs: seq<Update>, step: Update)
    requires Coalesces(es, hs)
    ensures PrependUndo(es, step).Failure? <==>
      Touches(hs, step.id) &&
      (|| FirstOld(hs, step.id).ExpectNone? != step.data.None?
       || (FirstOld(hs, step.id).ExpectExactly? && !SameFields(FirstOld(hs, step.id).d, step.data.value)))
    ensures PrependUndo(es, step).Success? ==> Coalesces(PrependUndo(es, step).value, [step] + hs)
  {
    var hs' := [step] + hs;
    forall id ensures Touches(hs', id) <==> Touches(hs, id) || step.id == id {
      TouchesPrepend(step, hs, id);
    }
    match Find(es, step.id)
    case None =>
      var es' := es + [step];
      forall id ensures Touches(es', id) <==> Touches(hs', id) {
        TouchesAppend(es, step, id);
      }
      forall i | 0 <= i < |es'|
        ensures es'[i].oldData == FirstOld(hs', es'[i].id) && es'[i].data == LastData(hs', es'[i].id)
      {
        FirstOldPrepend(step, hs, es'[i].id);
        LastDataPrepend(step, hs, es'[i].id);
      }
    case Some(k) =>
      if PrependUndo(es, step).Success? {
        var es' := PrependUndo(es, step).value;
        forall id ensures Touches(es', id) <==> Touches(hs', id) {
          if Touches(es, id) {
            var i :| 0 <= i < |es| && es[i].id == id;
            assert es'[i].id == id;
          }
          if Touches(es', id) {
            var i :| 0 <= i < |es'| && es'[i].id == id;
            assert es[i].id == id;
          }
        }
        forall i | 0 <= i < |es'|
          ensures es'[i].oldData == FirstOld(hs', es'[i].id) && es'[i].data == LastData(hs', es'[i].id)
        {
          FirstOldPrepend(step, hs, es'[i].id);
          LastDataPrepend(step, hs, es'[i].id);
        }
      }
  }

  /**
   * The first loop of `add`: per id, the first change's `oldData` and the
   * last change's `data` over everything collected so far.
   */
  lemma {:induction false} AddChangesCoalesces(es: seq<Update>, hs: seq<Update>, cs: seq<Update>)
    requires Coalesces(es, hs)
    requires AddChanges(es, cs).Ok?
    ensures Coalesces(AddChanges(es, cs).state, hs + cs)
    decreases |cs|
  {
    if |cs| == 0 {
      assert hs + cs == hs;
    } else {
      AddChangeCoalesces(es, hs, cs[0]);
      AddChangesCoalesces(AddChange(es, cs[0]).value, hs + [cs[0]], cs[1..]);
      assert hs + [cs[0]] + cs[1..] == hs + cs;
    }
  }

  /**
   * The undo loop of `add`: the new steps go in front of the collected ones,
   * so per id the newest step's `oldData` and the oldest step's `data`.
   */
  lemma {:induction false} PrependAllCoalesces(es: seq<Update>, hs: seq<Update>, undo: seq<Update>)
    requires Coalesces(es, hs)
    requires PrependAll(es, undo).Ok?
    ensures Coalesces(PrependAll(es, undo).state, undo + hs)
    decreases |undo|
  {
    if |undo| == 0 {
      assert undo + hs == hs;
    } else {
      var n := |undo| - 1;
      PrependUndoCoalesces(es, hs, undo[n]);
      PrependAllCoalesces(PrependUndo(es, undo[n]).value, [undo[n]] + hs, undo[..n]);
      assert undo[..n] + ([undo[n]] + hs) == undo + hs;
    }
  }

  /** An empty collector coalesces the empty history, and a keyed list coalesces itself. */
  lemma KeyedCoalescesItself(es: seq<Update>)
    requires Keyed(es)
    ensures Coalesces(es, es)
  {
    forall i | 0 <= i < |es| ensures es[i].oldData == FirstOld(es, es[i].id) && es[i].data == LastData(es, es[i].id) {
      FirstOldAt(es, i);
      LastDataAt(es, i);
    }
  }

  lemma {:induction false} FirstOldAt(es: seq<Update>, i: nat)
    requires Keyed(es) && i < |es|
    ensures Touches(es, es[i].id) && FirstOld(es, es[i].id) == es[i].oldData
    decreases |es|
  {
    if i > 0 {
      assert es[1..][i - 1] == es[i];
      FirstOldAt(es[1..], i - 1);
    }
  }

  lemma {:induction false} LastDataAt(es: seq<Update>, i: nat)
    requires Keyed(es) && i < |es|
    ensures Touches(es, es[i].id) && LastData(es, es[i].id) == es[i].data
    decreases |es|
  {
    if i < |es| - 1 {
      assert es[..|es| - 1][i] == es[i];
      LastDataAt(es[..|es| - 1], i);
    }
  }

  // ---------------------------------------------------------------------
  // Net effect: a coalesced list replays like the history it stands for.
  // ---------------------------------------------------------------------

  lemma {:induction false} ReplaceAllAppend(objects: map<Id, Data>, us: seq<Update>, u: Update)
    ensures ReplaceAll(objects, us + [u]) == Replace(ReplaceAll(objects, us), u)
    decreases |us|
  {
    if |us| == 0 {
      assert us + [u] == [u];
    } else {
      assert (us + [u])[1..] == us[1..] + [u];
      ReplaceAllAppend(Replace(objects, us[0]), us[1..], u);
    }
  }

  /** After a history of whole-object replacements, each touched id holds its last data. */
  lemma {:induction false} ReplaceAllLast(objects: map<Id, Data>, hs: seq<Update>, x: Id)
    ensures Lookup(ReplaceAll(objects, hs), x) == if Touches(hs, x) then LastData(hs, x) else Lookup(objects, x)
    decreases |hs|
  {
    if |hs| > 0 {
      var n := |hs| - 1;
      assert hs[..n] + [hs[n]] == hs;
      ReplaceAllAppend(objects, hs[..n], hs[n]);
      ReplaceAllLast(objects, hs[..n], x);
      TouchesAppend(hs[..n], hs[n], x);
      if Touches(hs, x) {
        LastDataAppend(hs[..n], hs[n], x);
      }
    }
  }

  /** Replaying a coalesced list has the same net effect on the objects as replaying its whole history. */
  lemma CoalescedReplaysHistory(objects: map<Id, Data>, es: seq<Update>, hs: seq<Update>)
    requires Coalesces(es, hs)
    ensures ReplaceAll(objects, es) == ReplaceAll(objects, hs)
  {
    forall x ensures Lookup(ReplaceAll(objects, es), x) == Lookup(ReplaceAll(objects, hs), x) {
      ReplaceAllLast(objects, es, x);
      ReplaceAllLast(objects, hs, x);
      if Touches(es, x) {
        LastDataAt(es, Find(es, x).value);
      }
    }
    MapsEqualByLookup(ReplaceAll(objects, es), ReplaceAll(objects, hs));
  }
}
