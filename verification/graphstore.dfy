/**
 * The graph store of database.js: objects by id, a type index and a
 * back-reference index, mutated only through the all-or-nothing batch
 * operation `Modify`. Listener calls are recorded as notes.
 */
module GraphStore {
  import opened Wrappers
  import opened Values
  import opened DiffMapSets

  datatype Store = Store(
    objects: map<Id, Data>,          // id => data
    types: map<Value, set<Id>>,      // type => ids
    referrers: map<Id, set<Id>>,     // id => ids of the objects referring to it
    locked: bool)                    // set while listeners run

  /** A change listener call `(id, oldData, newData)`, or the transaction listener call with the affected ids. */
  datatype Note = Changed(id: Id, before: Option<Data>, after: Option<Data>) | Committed(ids: set<Id>)

  datatype Modified = Modified(store: Store, notes: seq<Note>)

  /** An ordered map id => new data or null, like the `objectsDiff` Map (insertion order is kept). */
  datatype Overlay = Overlay(order: seq<Id>, values: map<Id, Option<Data>>)

  /** What one `modify` call stages before committing: the objects diff and the referrers diff. */
  datatype Staged = Staged(diff: Overlay, refs: DiffMapSet)

  function EmptyStore(): Store {
    Store(map[], map[], map[], false)
  }

  function Lookup(objects: map<Id, Data>, id: Id): Option<Data> {
    if id in objects then Some(objects[id]) else None
  }

  /** `(diff.has(id) ? diff : objects).get(id)`. */
  function Peek(objects: map<Id, Data>, values: map<Id, Option<Data>>, id: Id): Option<Data> {
    if id in values then values[id] else Lookup(objects, id)
  }

  /** The objects as they are once the diff is applied. */
  function Effective(objects: map<Id, Data>, values: map<Id, Option<Data>>): (e: map<Id, Data>)
    ensures forall id :: Lookup(e, id) == Peek(objects, values, id)
  {
    map id | id in objects.Keys + values.Keys && Peek(objects, values, id).Some? :: Peek(objects, values, id).value
  }

  /** `diff.set(id, data)`: a new id goes to the end of the order, an existing one keeps its place. */
  function Put(d: Overlay, id: Id, data: Option<Data>): Overlay {
    Overlay(if id in d.values then d.order else d.order + [id], d.values[id := data])
  }

  /** The object `y` holds a non-null reference field whose value is `x`. */
  predicate Refers(objects: map<Id, Data>, y: Id, x: Id) {
    y in objects && x in RefTargets(objects[y])
  }

  function ReferrersIn(objects: map<Id, Data>, x: Id): set<Id> {
    set y | y in objects && x in RefTargets(objects[y])
  }

  function IdsOfType(objects: map<Id, Data>, t: Value): set<Id> {
    set y | y in objects && TypeOf(objects[y]) == t
  }

  /**
   * A field `k` may refer to an object of type `t` when `k` reads `$t$…`:
   * `k.substring(1, t.length+1) == t && k[t.length+1] == "$"`. A type that
   * is not a string never passes (JavaScript throws or compares with NaN).
   */
  predicate TargetTypeOk(k: string, t: Value) {
    t.Text? && |k| >= |t.s| + 2 && k[1..|t.s| + 1] == t.s && k[|t.s| + 1] == '$'
  }

  /** Invariants 1 and 2: every non-null reference names a live object of the type its field name encodes. */
  predicate RefsResolve(objects: map<Id, Data>) {
    forall y, k :: y in objects && k in objects[y] && IsRefField(k) && objects[y][k] != Null ==>
      objects[y][k] in objects && TargetTypeOk(k, TypeOf(objects[objects[y][k]]))
  }

  /** The store invariant that every committed batch keeps. */
  predicate Valid(s: Store) {
    && !s.locked
    && s.referrers.Keys == s.objects.Keys
    && (forall x :: x in s.referrers ==> s.referrers[x] == ReferrersIn(s.objects, x))
    && (forall t :: t in s.types ==> s.types[t] == IdsOfType(s.objects, t))
    && (forall y :: y in s.objects ==> TypeOf(s.objects[y]) in s.types)
    && RefsResolve(s.objects)
  }

  /**
   * One iteration of the update loop of `modify`: check the update against
   * the effective prior value, then stage the new value and move the
   * referrer edges of `u.id` from the old reference targets to the new ones.
   */
  function Step(objects: map<Id, Data>, st: Staged, u: Update): (r: Result<Staged, Error>)
    ensures r.Success? ==> st.diff.values.Keys <= r.value.diff.values.Keys
    ensures var cur := Peek(objects, st.diff.values, u.id);
      r.Success? ==>
        && (u.oldData.ExpectNone? <==> cur.None?)
        && (u.oldData.ExpectExactly? ==> SameFields(u.oldData.d, cur.value))
        && (u.data.Some? && cur.Some? ==> TypeOf(u.data.value) == TypeOf(cur.value))
        && (u.data.Some? && u.id in objects ==> TypeOf(u.data.value) == TypeOf(objects[u.id]))
  {
    var cur := Peek(objects, st.diff.values, u.id);
    if u.oldData.ExpectNone? && cur.Some? then Failure(DuplicateId)
    else if !u.oldData.ExpectNone? && cur.None? then Failure(MissingObject)
    else if u.oldData.ExpectExactly? && !SameFields(u.oldData.d, cur.value) then Failure(OldDataMismatch)
    else if cur.None? && u.data.None? then Success(st)
    else if u.data.Some? && ((cur.Some? && TypeOf(u.data.value) != TypeOf(cur.value))
                             || (u.id in objects && TypeOf(u.data.value) != TypeOf(objects[u.id])))
    then Failure(TypeReplaced)
    else
      var unlinked := if cur.Some? then SetAll(st.refs, RefTargets(cur.value), u.id, false) else st.refs;
      var linked := if u.data.Some? then SetAll(unlinked, RefTargets(u.data.value), u.id, true) else unlinked;
      Success(Staged(Put(st.diff, u.id, u.data), linked))
  }

  /** The update loop of `modify`, stopping at the first throwing update. */
  function Fold(objects: map<Id, Data>, st: Staged, us: seq<Update>): (r: Result<Staged, Error>)
    ensures r.Success? ==> st.diff.values.Keys <= r.value.diff.values.Keys
    decreases |us|
  {
    if |us| == 0 then Success(st)
    else match Step(objects, st, us[0])
      case Failure(e) => Failure(e)
      case Success(st') => Fold(objects, st', us[1..])
  }

  /** The first integrity loop: an object deleted by the batch still has referrers. */
  predicate DeletesReferenced(st: Staged) {
    exists id :: id in st.diff.values && st.diff.values[id].None? && HasAny(st.refs, id)
  }

  /** The second integrity loop: a referenced id that is neither staged nor committed. */
  predicate RefersToMissing(objects: map<Id, Data>, st: Staged) {
    exists id :: id in st.refs.n && id !in st.diff.values && id !in objects && HasAny(st.refs, id)
  }

  /** `(objectsDiff.get(t) || this.objects.get(t))`: a staged deletion falls back to the committed object. */
  function TargetOf(objects: map<Id, Data>, values: map<Id, Option<Data>>, t: Id): Option<Data> {
    if t in values && values[t].Some? then values[t] else Lookup(objects, t)
  }

  /** The type loop: a staged object has a reference whose target is missing or of the wrong type. */
  predicate MistypedReference(objects: map<Id, Data>, st: Staged) {
    exists id, k :: id in st.diff.values && st.diff.values[id].Some? && k in st.diff.values[id].value
      && IsRefField(k) && st.diff.values[id].value[k] != Null
      && var target := TargetOf(objects, st.diff.values, st.diff.values[id].value[k]);
         target.None? || !TargetTypeOk(k, TypeOf(target.value))
  }

  /**
   * `notes` is what the listeners of a committed batch see: change calls
   * with the value before and after the batch, then one transaction call
   * naming exactly the ids of those change calls.
   */
  predicate Reports(notes: seq<Note>, before: map<Id, Data>, after: map<Id, Data>) {
    && |notes| >= 1
    && var batch := notes[|notes| - 1];
    && batch.Committed?
    && (forall i :: 0 <= i < |notes| - 1 ==>
          && notes[i].Changed?
          && notes[i].before == Lookup(before, notes[i].id)
          && notes[i].after == Lookup(after, notes[i].id)
          && notes[i].id in batch.ids)
    && (forall x :: x in batch.ids ==> exists i :: 0 <= i < |notes| - 1 && notes[i].id == x)
  }

  /** The listener calls after a commit: one per staged id in staging order, then one for the batch. */
  function NotesFor(before: map<Id, Data>, after: map<Id, Data>, order: seq<Id>): (r: seq<Note>)
    ensures |r| == |order| + 1
    ensures forall i :: 0 <= i < |order| ==> r[i].Changed? && r[i].id == order[i]
    ensures Reports(r, before, after)
  {
    seq(|order|, i requires 0 <= i < |order| => Changed(order[i], Lookup(before, order[i]), Lookup(after, order[i])))
      + [Committed(set i | 0 <= i < |order| :: order[i])]
  }

  function Created(s: Store, values: map<Id, Option<Data>>): set<Id> {
    set id | id in values && values[id].Some? && id !in s.objects
  }

  function Deleted(s: Store, values: map<Id, Option<Data>>): set<Id> {
    set id | id in values && values[id].None? && id in s.objects
  }

  /** The type index after the commit loop: deleted ids leave their type's set, created ids join theirs. */
  function CommitTypes(s: Store, values: map<Id, Option<Data>>): map<Value, set<Id>> {
    var created := Created(s, values);
    var deleted := Deleted(s, values);
    map t | t in s.types.Keys + (set id | id in created :: TypeOf(values[id].value)) ::
      (Get(s.types, t) - set id | id in deleted && TypeOf(s.objects[id]) == t)
        + set id | id in created && TypeOf(values[id].value) == t
  }

  /**
   * The commit phase: empty referrer sets for created objects, the strict
   * merge of the referrers diff, then objects and types, then listeners.
   */
  function Commit(s: Store, st: Staged): Result<Modified, Error> {
    var values := st.diff.values;
    var withNew := s.referrers + map id | id in Created(s, values) :: {};
    match MergeAllRequireExistingKeys(DiffMapSet(withNew, st.refs.n))
    case Failure(e) => Failure(e)
    case Success(merged) =>
      var objects := Effective(s.objects, values);
      var store := Store(objects, CommitTypes(s, values), merged.m - Deleted(s, values), false);
      Success(Modified(store, NotesFor(s.objects, objects, st.diff.order)))
  }

  function Start(s: Store): Staged {
    Staged(Overlay([], map[]), Over(s.referrers))
  }

  /**
   * `modify(updates)`: the batch either commits as a whole, with one note
   * per staged id and one for the batch, or throws and changes nothing.
   */
  function Modify(s: Store, us: seq<Update>): (r: Result<Modified, Error>)
    ensures s.locked ==> r == Failure(Locked)
    ensures r.Success? ==> !r.value.store.locked
    ensures r.Success? ==> Reports(r.value.notes, s.objects, r.value.store.objects)
  {
    if s.locked then Failure(Locked)
    else match Fold(s.objects, Start(s), us)
      case Failure(e) => Failure(e)
      case Success(st) =>
        if DeletesReferenced(st) || RefersToMissing(s.objects, st) then Failure(DeadReference)
        else if MistypedReference(s.objects, st) then Failure(IllegalReference)
        else Commit(s, st)
  }

  /**
   * One iteration of the inner loop of `getUndoUpdates`: stage `u.data`
   * unless the update replaces nothing with nothing. No checks are made.
   */
  function Record(base: map<Id, Data>, d: Overlay, u: Update): Overlay {
    if Peek(base, d.values, u.id).Some? || u.data.Some? then Put(d, u.id, u.data) else d
  }

  function Collect(base: map<Id, Data>, d: Overlay, us: seq<Update>): Overlay
    decreases |us|
  {
    if |us| == 0 then d else Collect(base, Record(base, d, us[0]), us[1..])
  }

  /** An object value used as `oldData`: an object is an exact expectation, null expects nothing. */
  function ToExpect(v: Option<Data>): Expect {
    if v.Some? then ExpectExactly(v.value) else ExpectNone
  }

  function StagedValue(d: Overlay, id: Id): Option<Data> {
    if id in d.values then d.values[id] else None
  }

  /** The undo entries of one group: `{id, oldData: staged value, data: value before the group}`. */
  function UndoOf(base: map<Id, Data>, d: Overlay): (r: seq<Update>)
    ensures |r| == |d.order|
    ensures forall i :: 0 <= i < |r| ==> r[i].id == d.order[i]
  {
    seq(|d.order|, i requires 0 <= i < |d.order| =>
      Update(d.order[i], ToExpect(StagedValue(d, d.order[i])), Lookup(base, d.order[i])))
  }

  /**
   * `getUndoUpdates(...groups)`: one undo list per group, each computed
   * against the objects as the earlier groups leave them. `base` plays the
   * part of `objectsDiff1` over `this.objects` (see EffectiveCompose).
   */
  function GetUndoUpdates(base: map<Id, Data>, groups: seq<seq<Update>>): (r: seq<seq<Update>>)
    ensures |r| == |groups|
    decreases |groups|
  {
    if |groups| == 0 then []
    else
      var d := Collect(base, Overlay([], map[]), groups[0]);
      [UndoOf(base, d)] + GetUndoUpdates(Effective(base, d.values), groups[1..])
  }

  /** Whole-object replacement by one update: the reference semantics of a batch. */
  function Replace(objects: map<Id, Data>, u: Update): map<Id, Data> {
    if u.data.Some? then objects[u.id := u.data.value] else objects - {u.id}
  }

  function ReplaceAll(objects: map<Id, Data>, us: seq<Update>): map<Id, Data>
    decreases |us|
  {
    if |us| == 0 then objects else ReplaceAll(Replace(objects, us[0]), us[1..])
  }

  /** `get(id)`. */
  function GetObject(s: Store, id: Id): Option<Data> {
    Lookup(s.objects, id)
  }

  /** `getReferrers(id)`: undefined (None) for an id that is not live. */
  function GetReferrers(s: Store, id: Id): (r: Option<set<Id>>)
    ensures Valid(s) ==> (r.Some? <==> id in s.objects)
    ensures Valid(s) && r.Some? ==> forall y :: y in r.value <==> Refers(s.objects, y, id)
  {
    if id in s.referrers then Some(s.referrers[id]) else None
  }

  /** `getIdsOfType(type)`: `types.get(type) || new Set()`. */
  function GetIdsOfType(s: Store, t: Value): (r: set<Id>)
    ensures Valid(s) ==> forall y :: y in r <==> y in s.objects && TypeOf(s.objects[y]) == t
  {
    if t in s.types then s.types[t] else {}
  }
}
