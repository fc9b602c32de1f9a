/**
 * Laws of the graph store: the staging fold tracks the effective objects,
 * the integrity checks hold exactly when the effective objects keep every
 * reference resolvable, committed batches keep the store invariant, and a
 * batch followed by its undo list restores the objects.
 */
module StoreLaws {
  import opened Wrappers
  import opened Values
  import opened DiffMapSets
  import opened GraphStore

  /** What the update loop of `modify` maintains about its staged diff. */
  ghost predicate Tracks(s: Store, st: Staged) {
    var e := Effective(s.objects, st.diff.values);
    && Ordered(st.diff)
    && st.refs.m == s.referrers
    && (forall x, y :: Has(st.refs, x, y) <==> Refers(e, y, x))
    && (forall id :: id in st.diff.values && st.diff.values[id].Some? && id in s.objects ==>
          TypeOf(st.diff.values[id].value) == TypeOf(s.objects[id]))
  }

  lemma MapsEqualByLookup(a: map<Id, Data>, b: map<Id, Data>)
    requires forall id :: Lookup(a, id) == Lookup(b, id)
    ensures a == b
  {
    assert a.Keys == b.Keys by {
      forall id ensures id in a <==> id in b {
        assert Lookup(a, id).Some? <==> Lookup(b, id).Some?;
      }
    }
    forall id | id in a ensures a[id] == b[id] {
      assert Lookup(a, id) == Lookup(b, id);
    }
  }

  lemma EffectiveOfNothing(objects: map<Id, Data>)
    ensures Effective(objects, map[]) == objects
  {
    MapsEqualByLookup(Effective(objects, map[]), objects);
  }

  lemma EffectivePut(objects: map<Id, Data>, values: map<Id, Option<Data>>, id: Id, data: Option<Data>)
    ensures Effective(objects, values[id := data]) ==
      if data.Some? then Effective(objects, values)[id := data.value] else Effective(objects, values) - {id}
  {
    var e := Effective(objects, values);
    var expected := if data.Some? then e[id := data.value] else e - {id};
    forall x ensures Lookup(Effective(objects, values[id := data]), x) == Lookup(expected, x) {
    }
    MapsEqualByLookup(Effective(objects, values[id := data]), expected);
  }

  /** Staging over staged objects is staging both diffs, the later one winning: `objectsDiff1` in `getUndoUpdates`. */
  lemma EffectiveCompose(objects: map<Id, Data>, d1: map<Id, Option<Data>>, d2: map<Id, Option<Data>>)
    ensures Effective(Effective(objects, d1), d2) == Effective(objects, d1 + d2)
  {
    forall x ensures Lookup(Effective(Effective(objects, d1), d2), x) == Lookup(Effective(objects, d1 + d2), x) {
    }
    MapsEqualByLookup(Effective(Effective(objects, d1), d2), Effective(objects, d1 + d2));
  }

  /** A valid store's referrers index, seen through an empty diff, is the reference relation. */
  lemma StartTracks(s: Store)
    requires Valid(s)
    ensures Tracks(s, Start(s))
  {
    EffectiveOfNothing(s.objects);
    forall x, y ensures Has(Start(s).refs, x, y) <==> Refers(s.objects, y, x) {
      if Refers(s.objects, y, x) {
        var k :| k in s.objects[y] && IsRefField(k) && s.objects[y][k] == x;
        assert x in s.objects;
        assert y in ReferrersIn(s.objects, x);
      }
    }
  }

  lemma StepTracks(s: Store, st: Staged, u: Update)
    requires Tracks(s, st)
    requires Step(s.objects, st, u).Success?
    ensures Tracks(s, Step(s.objects, st, u).value)
  {
    var st' := Step(s.objects, st, u).value;
    var values := st.diff.values;
    var cur := Peek(s.objects, values, u.id);
    if cur.None? && u.data.None? {
      assert st' == st;
    } else {
      var e := Effective(s.objects, values);
      assert Lookup(e, u.id) == cur;
      EffectivePut(s.objects, values, u.id, u.data);
      var e' := Effective(s.objects, st'.diff.values);
      assert st'.diff.values == values[u.id := u.data];
      var unlinked := if cur.Some? then SetAll(st.refs, RefTargets(cur.value), u.id, false) else st.refs;
      assert st'.refs == if u.data.Some? then SetAll(unlinked, RefTargets(u.data.value), u.id, true) else unlinked;
      forall x, y ensures Has(st'.refs, x, y) <==> Refers(e', y, x) {
        if y != u.id {
          assert Has(st'.refs, x, y) == Has(st.refs, x, y);
          assert Refers(e', y, x) == Refers(e, y, x);
        } else {
          assert Has(unlinked, x, y) == (Has(st.refs, x, y) && !(cur.Some? && x in RefTargets(cur.value)));
        }
      }
    }
  }

  lemma {:induction false} FoldTracks(s: Store, st: Staged, us: seq<Update>)
    requires Tracks(s, st)
    requires Fold(s.objects, st, us).Success?
    ensures Tracks(s, Fold(s.objects, st, us).value)
    decreases |us|
  {
    if |us| > 0 {
      StepTracks(s, st, us[0]);
      FoldTracks(s, Step(s.objects, st, us[0]).value, us[1..]);
    }
  }

  /** One reference of the staged objects, under passing integrity loops. */
  lemma CheckedReference(s: Store, st: Staged, y: Id, k: string)
    requires Valid(s) && Tracks(s, st)
    requires !DeletesReferenced(st) && !RefersToMissing(s.objects, st) && !MistypedReference(s.objects, st)
    requires var e := Effective(s.objects, st.diff.values); y in e && k in e[y] && IsRefField(k) && e[y][k] != Null
    ensures var e := Effective(s.objects, st.diff.values); e[y][k] in e && TargetTypeOk(k, TypeOf(e[e[y][k]]))
  {
    var values := st.diff.values;
    var e := Effective(s.objects, values);
    var t := e[y][k];
    ReferencedTargetStays(s, st, y, k);
    if y in values {
      assert values[y].value == e[y];
      assert !(var target := TargetOf(s.objects, values, values[y].value[k]);
               target.None? || !TargetTypeOk(k, TypeOf(target.value)));
    } else {
      assert e[y] == s.objects[y];
      assert t in s.objects && TargetTypeOk(k, TypeOf(s.objects[t]));
    }
  }

  /** The target of a staged reference survives the batch, with the value the type check looked at. */
  lemma ReferencedTargetStays(s: Store, st: Staged, y: Id, k: string)
    requires Valid(s) && Tracks(s, st)
    requires !DeletesReferenced(st) && !RefersToMissing(s.objects, st)
    requires var e := Effective(s.objects, st.diff.values); y in e && k in e[y] && IsRefField(k) && e[y][k] != Null
    ensures var e := Effective(s.objects, st.diff.values);
      e[y][k] in e && Lookup(e, e[y][k]) == TargetOf(s.objects, st.diff.values, e[y][k])
  {
    var values := st.diff.values;
    var e := Effective(s.objects, values);
    var t := e[y][k];
    assert Lookup(e, y) == Peek(s.objects, values, y);
    assert t in RefTargets(e[y]);
    assert Refers(e, y, t);
    assert Has(st.refs, t, y);
    assert HasAny(st.refs, t);
    assert !(t in values && values[t].None? && HasAny(st.refs, t));
    assert !(t in st.refs.n && t !in values && t !in s.objects && HasAny(st.refs, t));
    assert t !in st.refs.n ==> t in s.referrers;
    assert Lookup(e, t) == Peek(s.objects, values, t);
  }

  /** Passing the integrity loops of `modify` means the staged objects keep invariants 1 and 2. */
  lemma ChecksGiveIntegrity(s: Store, st: Staged)
    requires Valid(s) && Tracks(s, st)
    requires !DeletesReferenced(st) && !RefersToMissing(s.objects, st) && !MistypedReference(s.objects, st)
    ensures RefsResolve(Effective(s.objects, st.diff.values))
  {
    var e := Effective(s.objects, st.diff.values);
    forall y, k | y in e && k in e[y] && IsRefField(k) && e[y][k] != Null
      ensures e[y][k] in e && TargetTypeOk(k, TypeOf(e[e[y][k]]))
    {
      CheckedReference(s, st, y, k);
    }
  }

  /** Under invariants 1 and 2 of the staged objects, every id with a staged referrer is live. */
  lemma ReferencedIsLive(s: Store, st: Staged, x: Id)
    requires Valid(s) && Tracks(s, st)
    requires RefsResolve(Effective(s.objects, st.diff.values))
    ensures HasAny(st.refs, x) ==> x in Effective(s.objects, st.diff.values)
  {
    var e := Effective(s.objects, st.diff.values);
    if HasAny(st.refs, x) {
      var y :| Has(st.refs, x, y);
      assert Refers(e, y, x);
      var k :| k in e[y] && IsRefField(k) && e[y][k] == x;
    }
  }

  /** Conversely, staged objects keeping invariants 1 and 2 pass every integrity loop. */
  lemma IntegrityPassesChecks(s: Store, st: Staged)
    requires Valid(s) && Tracks(s, st)
    requires RefsResolve(Effective(s.objects, st.diff.values))
    ensures !DeletesReferenced(st) && !RefersToMissing(s.objects, st) && !MistypedReference(s.objects, st)
  {
    var values := st.diff.values;
    var e := Effective(s.objects, values);
    forall id | id in values && values[id].None? ensures !HasAny(st.refs, id) {
      ReferencedIsLive(s, st, id);
      assert Lookup(e, id).None?;
    }
    forall id | id !in values && id !in s.objects ensures !HasAny(st.refs, id) {
      ReferencedIsLive(s, st, id);
      assert Lookup(e, id).None?;
    }
    forall id, k | id in values && values[id].Some? && k in values[id].value
        && IsRefField(k) && values[id].value[k] != Null
      ensures var target := TargetOf(s.objects, values, values[id].value[k]);
              target.Some? && TargetTypeOk(k, TypeOf(target.value))
    {
      var t := values[id].value[k];
      assert e[id] == values[id].value;
      assert t in e;
      assert Lookup(e, t) == TargetOf(s.objects, values, t);
    }
  }

  /** The committed referrers plus empty sets for created ids, under the staged overlay, has the staged memberships. */
  lemma WithNewAgrees(s: Store, st: Staged)
    requires Valid(s) && Tracks(s, st)
    ensures var withNew := s.referrers + map id | id in Created(s, st.diff.values) :: {};
      forall k, v :: Has(DiffMapSet(withNew, st.refs.n), k, v) == Has(st.refs, k, v)
  {
  }

  /** The strict merge of the commit phase cannot fail once the integrity loops pass. */
  lemma MergeSucceeds(s: Store, st: Staged)
    requires Valid(s) && Tracks(s, st)
    requires RefsResolve(Effective(s.objects, st.diff.values))
    ensures var withNew := s.referrers + map id | id in Created(s, st.diff.values) :: {};
      MergeAllRequireExistingKeys(DiffMapSet(withNew, st.refs.n)).Success?
  {
    var values := st.diff.values;
    var withNew := s.referrers + map id | id in Created(s, values) :: {};
    var d := DiffMapSet(withNew, st.refs.n);
    WithNewAgrees(s, st);
    forall k | k in d.n && k !in d.m ensures GetAll(d, k) == {} {
      ReferencedIsLive(s, st, k);
      assert k !in Effective(s.objects, values);
      forall v ensures v !in GetAll(d, k) {
        assert Has(d, k, v) == Has(st.refs, k, v);
      }
    }
  }

  /** Live after the commit: committed and not deleted, or created. */
  lemma CommitKeys(s: Store, st: Staged)
    requires Valid(s)
    ensures var values := st.diff.values;
      var withNew := s.referrers + map id | id in Created(s, values) :: {};
      (withNew.Keys - Deleted(s, values)) == Effective(s.objects, values).Keys
  {
    var values := st.diff.values;
    var e := Effective(s.objects, values);
    forall x ensures x in e <==> (x in s.objects || x in Created(s, values)) && x !in Deleted(s, values) {
      assert Lookup(e, x) == Peek(s.objects, values, x);
    }
  }

  /** After the commit, `referrers[x]` is exactly the set of live objects referring to `x`. */
  lemma CommitReferrersExact(s: Store, st: Staged)
    requires Valid(s) && Tracks(s, st)
    requires RefsResolve(Effective(s.objects, st.diff.values))
    ensures Commit(s, st).Success?
    ensures var e := Effective(s.objects, st.diff.values);
      var r := Commit(s, st).value.store;
      && r.objects == e
      && r.referrers.Keys == e.Keys
      && forall x :: x in r.referrers ==> r.referrers[x] == ReferrersIn(e, x)
  {
    var values := st.diff.values;
    var e := Effective(s.objects, values);
    var withNew := s.referrers + map id | id in Created(s, values) :: {};
    var d := DiffMapSet(withNew, st.refs.n);
    MergeSucceeds(s, st);
    CommitKeys(s, st);
    var merged := MergeAllRequireExistingKeys(d).value;
    assert merged.m.Keys == withNew.Keys;
    var refs := merged.m - Deleted(s, values);
    forall x | x in refs ensures refs[x] == ReferrersIn(e, x) {
      assert refs[x] == GetAll(d, x);
      MergedReferrers(s, st, x);
    }
  }

  /** The referrers diff, with the created ids added, holds exactly the live referrers of `x`. */
  lemma MergedReferrers(s: Store, st: Staged, x: Id)
    requires Valid(s) && Tracks(s, st)
    ensures var withNew := s.referrers + map id | id in Created(s, st.diff.values) :: {};
      GetAll(DiffMapSet(withNew, st.refs.n), x) == ReferrersIn(Effective(s.objects, st.diff.values), x)
  {
    var withNew := s.referrers + map id | id in Created(s, st.diff.values) :: {};
    var d := DiffMapSet(withNew, st.refs.n);
    var e := Effective(s.objects, st.diff.values);
    WithNewAgrees(s, st);
    forall y ensures y in GetAll(d, x) <==> y in ReferrersIn(e, x) {
      assert Has(d, x, y) == Has(st.refs, x, y);
    }
  }

  /** After the commit, `types[t]` is exactly the set of live ids of type `t`, and every live type has an entry. */
  lemma CommitTypesExact(s: Store, st: Staged)
    requires Valid(s) && Tracks(s, st)
    ensures var e := Effective(s.objects, st.diff.values);
      var types := CommitTypes(s, st.diff.values);
      && (forall t :: t in types ==> types[t] == IdsOfType(e, t))
      && (forall y :: y in e ==> TypeOf(e[y]) in types)
  {
    var values := st.diff.values;
    var e := Effective(s.objects, values);
    var types := CommitTypes(s, values);
    var created := Created(s, values);
    var deleted := Deleted(s, values);
    forall t | t in types ensures types[t] == IdsOfType(e, t) {
      forall y ensures y in types[t] <==> y in IdsOfType(e, t) {
        assert Lookup(e, y) == Peek(s.objects, values, y);
        if y in s.objects {
          assert TypeOf(s.objects[y]) in s.types;
          assert y in Get(s.types, t) <==> TypeOf(s.objects[y]) == t;
        } else {
          assert y !in Get(s.types, t);
        }
      }
    }
    forall y | y in e ensures TypeOf(e[y]) in types {
      assert Lookup(e, y) == Peek(s.objects, values, y);
      if y in s.objects {
        assert TypeOf(s.objects[y]) in s.types;
      } else {
        assert y in created;
      }
    }
  }

  /** Committing staged changes that keep invariants 1 and 2 succeeds and yields a valid store holding the effective objects. */
  lemma CommitValid(s: Store, st: Staged)
    requires Valid(s) && Tracks(s, st)
    requires RefsResolve(Effective(s.objects, st.diff.values))
    ensures Commit(s, st).Success?
    ensures Commit(s, st).value.store.objects == Effective(s.objects, st.diff.values)
    ensures Valid(Commit(s, st).value.store)
  {
    CommitReferrersExact(s, st);
    CommitTypesExact(s, st);
  }

  /**
   * `modify` on a valid store succeeds exactly when every update passes its
   * checks and the resulting objects keep every reference resolvable and
   * well-typed; a successful batch keeps the store valid.
   */
  lemma ModifySucceedsIff(s: Store, us: seq<Update>)
    requires Valid(s)
    ensures Modify(s, us).Success? <==>
      && Fold(s.objects, Start(s), us).Success?
      && RefsResolve(Effective(s.objects, Fold(s.objects, Start(s), us).value.diff.values))
    ensures Modify(s, us).Success? ==>
      && Valid(Modify(s, us).value.store)
      && Modify(s, us).value.store.objects == Effective(s.objects, Fold(s.objects, Start(s), us).value.diff.values)
  {
    StartTracks(s);
    var f := Fold(s.objects, Start(s), us);
    if f.Success? {
      FoldTracks(s, Start(s), us);
      var st := f.value;
      if RefsResolve(Effective(s.objects, st.diff.values)) {
        IntegrityPassesChecks(s, st);
        CommitValid(s, st);
      } else if !DeletesReferenced(st) && !RefersToMissing(s.objects, st) && !MistypedReference(s.objects, st) {
        ChecksGiveIntegrity(s, st);
      }
    }
  }

  /** A successful update loop stages exactly whole-object replacement, update by update. */
  lemma {:induction false} FoldIsSequential(objects: map<Id, Data>, st: Staged, us: seq<Update>)
    requires Fold(objects, st, us).Success?
    ensures Effective(objects, Fold(objects, st, us).value.diff.values) == ReplaceAll(Effective(objects, st.diff.values), us)
    decreases |us|
  {
    if |us| > 0 {
      var u := us[0];
      var st' := Step(objects, st, u).value;
      var e := Effective(objects, st.diff.values);
      assert Lookup(e, u.id) == Peek(objects, st.diff.values, u.id);
      if Peek(objects, st.diff.values, u.id).None? && u.data.None? {
        assert Replace(e, u) == e;
      } else {
        EffectivePut(objects, st.diff.values, u.id, u.data);
      }
      FoldIsSequential(objects, st', us[1..]);
    }
  }

  /** On a valid store, a successful `modify` leaves the objects the batch's updates produce one after another. */
  lemma ModifyIsSequential(s: Store, us: seq<Update>)
    requires Valid(s)
    requires Modify(s, us).Success?
    ensures Modify(s, us).value.store.objects == ReplaceAll(s.objects, us)
  {
    ModifySucceedsIff(s, us);
    FoldIsSequential(s.objects, Start(s), us);
    EffectiveOfNothing(s.objects);
  }

  /** The undo collection of `getUndoUpdates` stages the same diff as a successful update loop of `modify`. */
  lemma {:induction false} FoldCollects(objects: map<Id, Data>, st: Staged, us: seq<Update>)
    requires Fold(objects, st, us).Success?
    ensures Collect(objects, st.diff, us) == Fold(objects, st, us).value.diff
    decreases |us|
  {
    if |us| > 0 {
      FoldCollects(objects, Step(objects, st, us[0]).value, us[1..]);
    }
  }

  /** Replacement by updates with distinct ids: each id ends with its own update's data. */
  lemma {:induction false} ReplaceAllDistinct(objects: map<Id, Data>, us: seq<Update>, x: Id)
    requires forall i, j :: 0 <= i < j < |us| ==> us[i].id != us[j].id
    ensures Lookup(ReplaceAll(objects, us), x) ==
      if exists i :: 0 <= i < |us| && us[i].id == x
      then (var i :| 0 <= i < |us| && us[i].id == x; us[i].data)
      else Lookup(objects, x)
    decreases |us|
  {
    if |us| > 0 {
      ReplaceAllDistinct(Replace(objects, us[0]), us[1..], x);
      if us[0].id == x {
        assert !exists i :: 0 <= i < |us[1..]| && us[1..][i].id == x by {
          forall i | 0 <= i < |us[1..]| ensures us[1..][i].id != x {
            assert us[1..][i] == us[i + 1];
          }
        }
        var i :| 0 <= i < |us| && us[i].id == x;
        assert i == 0;
      } else {
        if exists i :: 0 <= i < |us| && us[i].id == x {
          var i :| 0 <= i < |us| && us[i].id == x;
          assert us[1..][i - 1] == us[i];
          var j :| 0 <= j < |us[1..]| && us[1..][j].id == x;
          assert us[1..][j] == us[j + 1];
          assert j + 1 == i;
        } else {
          forall i | 0 <= i < |us[1..]| ensures us[1..][i].id != x {
            assert us[1..][i] == us[i + 1];
          }
        }
      }
    }
  }

  /**
   * A batch with distinct ids, each expecting exactly the current value of
   * its object and keeping its type, passes every check of the update loop.
   */
  lemma {:induction false} ReplayFolds(objects: map<Id, Data>, st: Staged, us: seq<Update>)
    requires forall i, j :: 0 <= i < j < |us| ==> us[i].id != us[j].id
    requires forall i :: 0 <= i < |us| ==> us[i].id !in st.diff.values
    requires forall i :: 0 <= i < |us| ==> us[i].oldData == ToExpect(Lookup(objects, us[i].id))
    requires forall i :: 0 <= i < |us| && us[i].data.Some? && us[i].id in objects ==>
      TypeOf(us[i].data.value) == TypeOf(objects[us[i].id])
    ensures Fold(objects, st, us).Success?
    decreases |us|
  {
    if |us| > 0 {
      var u := us[0];
      assert Peek(objects, st.diff.values, u.id) == Lookup(objects, u.id);
      var r := Step(objects, st, u);
      assert r.Success?;
      var rest := us[1..];
      forall i | 0 <= i < |rest| ensures rest[i].id !in r.value.diff.values {
        assert rest[i] == us[i + 1];
      }
      forall i | 0 <= i < |rest| ensures rest[i].oldData == ToExpect(Lookup(objects, rest[i].id)) {
        assert rest[i] == us[i + 1];
      }
      forall i | 0 <= i < |rest| && rest[i].data.Some? && rest[i].id in objects
        ensures TypeOf(rest[i].data.value) == TypeOf(objects[rest[i].id])
      {
        assert rest[i] == us[i + 1];
      }
      ReplayFolds(objects, r.value, rest);
    }
  }

  /**
   * Applying a batch and then the undo list `getUndoUpdates` computed for it
   * beforehand succeeds and restores the prior object map.
   */
  lemma UndoRestores(s: Store, us: seq<Update>)
    requires Valid(s)
    requires Modify(s, us).Success?
    ensures var after := Modify(s, us).value.store;
      var undo := GetUndoUpdates(s.objects, [us])[0];
      Modify(after, undo).Success? && Modify(after, undo).value.store.objects == s.objects
  {
    ModifySucceedsIff(s, us);
    UndoOverlay(s, us);
    var d := Fold(s.objects, Start(s), us).value.diff;
    UndoOfOverlay(s.objects, d);
    ReplayRestores(Modify(s, us).value.store, GetUndoUpdates(s.objects, [us])[0], s.objects);
  }

  /** The diff a successful batch stages, as its undo list and its result see it. */
  lemma UndoOverlay(s: Store, us: seq<Update>)
    requires Valid(s)
    requires Modify(s, us).Success?
    ensures Fold(s.objects, Start(s), us).Success?
    ensures var d := Fold(s.objects, Start(s), us).value.diff;
      && Ordered(d)
      && (forall id :: id in d.values && d.values[id].Some? && id in s.objects ==>
            TypeOf(d.values[id].value) == TypeOf(s.objects[id]))
      && Modify(s, us).value.store.objects == Effective(s.objects, d.values)
      && GetUndoUpdates(s.objects, [us])[0] == UndoOf(s.objects, d)
  {
    ModifySucceedsIff(s, us);
    StartTracks(s);
    FoldTracks(s, Start(s), us);
    FoldCollects(s.objects, Start(s), us);
    assert [us][0] == us;
  }

  /**
   * The undo list of a staged diff names distinct objects, expects each
   * as the diff leaves it, gives back its prior value, and covers every
   * object the diff changed.
   */
  lemma UndoOfOverlay(base: map<Id, Data>, d: Overlay)
    requires Ordered(d)
    requires forall id :: id in d.values && d.values[id].Some? && id in base ==>
      TypeOf(d.values[id].value) == TypeOf(base[id])
    ensures var e := Effective(base, d.values);
      var undo := UndoOf(base, d);
      && (forall i, j :: 0 <= i < j < |undo| ==> undo[i].id != undo[j].id)
      && (forall i :: 0 <= i < |undo| ==> undo[i].oldData == ToExpect(Lookup(e, undo[i].id)))
      && (forall i :: 0 <= i < |undo| ==> undo[i].data == Lookup(base, undo[i].id))
      && (forall i :: 0 <= i < |undo| && undo[i].data.Some? && undo[i].id in e ==>
            TypeOf(undo[i].data.value) == TypeOf(e[undo[i].id]))
      && (forall x :: Lookup(e, x) != Lookup(base, x) ==> exists i :: 0 <= i < |undo| && undo[i].id == x)
  {
    var e := Effective(base, d.values);
    var undo := UndoOf(base, d);
    forall x | Lookup(e, x) != Lookup(base, x) ensures exists i :: 0 <= i < |undo| && undo[i].id == x {
      assert x in d.order;
      var k :| 0 <= k < |d.order| && d.order[k] == x;
      assert undo[k].id == x;
    }
  }

  /**
   * A batch with distinct ids, each expecting the current value, keeping
   * types, and giving back the value `target` holds, where the ids cover
   * every difference, turns the store into `target` when every reference
   * of `target` resolves.
   */
  lemma ReplayRestores(a: Store, undo: seq<Update>, target: map<Id, Data>)
    requires Valid(a) && RefsResolve(target)
    requires forall i, j :: 0 <= i < j < |undo| ==> undo[i].id != undo[j].id
    requires forall i :: 0 <= i < |undo| ==> undo[i].oldData == ToExpect(Lookup(a.objects, undo[i].id))
    requires forall i :: 0 <= i < |undo| ==> undo[i].data == Lookup(target, undo[i].id)
    requires forall i :: 0 <= i < |undo| && undo[i].data.Some? && undo[i].id in a.objects ==>
      TypeOf(undo[i].data.value) == TypeOf(a.objects[undo[i].id])
    requires forall x :: Lookup(a.objects, x) != Lookup(target, x) ==> exists i :: 0 <= i < |undo| && undo[i].id == x
    ensures Modify(a, undo).Success? && Modify(a, undo).value.store.objects == target
  {
    var e := a.objects;
    ReplayFolds(e, Start(a), undo);
    FoldIsSequential(e, Start(a), undo);
    EffectiveOfNothing(e);
    ReplaceAllRestores(e, undo, target);
    ModifySucceedsIff(a, undo);
  }

  /** Replacing by updates with distinct ids that give back `target`'s values, covering every difference, yields `target`. */
  lemma ReplaceAllRestores(e: map<Id, Data>, undo: seq<Update>, target: map<Id, Data>)
    requires forall i, j :: 0 <= i < j < |undo| ==> undo[i].id != undo[j].id
    requires forall i :: 0 <= i < |undo| ==> undo[i].data == Lookup(target, undo[i].id)
    requires forall x :: Lookup(e, x) != Lookup(target, x) ==> exists i :: 0 <= i < |undo| && undo[i].id == x
    ensures ReplaceAll(e, undo) == target
  {
    forall x ensures Lookup(ReplaceAll(e, undo), x) == Lookup(target, x) {
      ReplaceAllDistinct(e, undo, x);
    }
    MapsEqualByLookup(ReplaceAll(e, undo), target);
  }

  /** No update of a successful loop gives a committed object a new type. */
  lemma {:induction false} FoldKeepsTypes(objects: map<Id, Data>, st: Staged, us: seq<Update>)
    requires Fold(objects, st, us).Success?
    ensures forall u :: u in us && u.data.Some? && u.id in objects ==> TypeOf(u.data.value) == TypeOf(objects[u.id])
    decreases |us|
  {
    if |us| > 0 {
      FoldKeepsTypes(objects, Step(objects, st, us[0]).value, us[1..]);
      assert forall u :: u in us ==> u == us[0] || u in us[1..];
    }
  }

  /** A successful `modify` never changes the type of an object that exists before and after it. */
  lemma ModifyKeepsTypes(s: Store, us: seq<Update>)
    requires Valid(s)
    requires Modify(s, us).Success?
    ensures var e := Modify(s, us).value.store.objects;
      forall id :: id in s.objects && id in e ==> TypeOf(e[id]) == TypeOf(s.objects[id])
  {
    ModifySucceedsIff(s, us);
    StartTracks(s);
    FoldTracks(s, Start(s), us);
  }

  /**
   * The undo list of a batch restores the prior objects in whatever order
   * its entries are applied, as long as each id still occurs once.
   */
  lemma UndoInAnyOrderRestores(s: Store, us: seq<Update>, w: seq<Update>)
    requires Valid(s)
    requires Modify(s, us).Success?
    requires forall i, j :: 0 <= i < j < |w| ==> w[i].id != w[j].id
    requires forall u :: u in w <==> u in GetUndoUpdates(s.objects, [us])[0]
    ensures var after := Modify(s, us).value.store;
      Modify(after, w).Success? && Modify(after, w).value.store.objects == s.objects
  {
    var undo := GetUndoUpdates(s.objects, [us])[0];
    var after := Modify(s, us).value.store;
    var e := after.objects;
    UndoRestores(s, us);
    ModifySucceedsIff(s, us);
    ModifyIsSequential(s, us);
    UndoEntries(s.objects, us);
    ModifySucceedsIff(after, undo);
    FoldKeepsTypes(e, Start(after), undo);
    forall i | 0 <= i < |w| ensures w[i].oldData == ToExpect(Lookup(e, w[i].id)) {
      assert w[i] in undo;
    }
    forall i | 0 <= i < |w| && w[i].data.Some? && w[i].id in e
      ensures TypeOf(w[i].data.value) == TypeOf(e[w[i].id])
    {
      assert w[i] in undo;
    }
    ReplayFolds(e, Start(after), w);
    FoldIsSequential(e, Start(after), w);
    EffectiveOfNothing(e);
    forall x ensures Lookup(ReplaceAll(e, w), x) == Lookup(s.objects, x) {
      ReplaceAllDistinct(e, w, x);
      if exists i :: 0 <= i < |w| && w[i].id == x {
        var i :| 0 <= i < |w| && w[i].id == x;
        assert w[i] in undo;
      }
    }
    MapsEqualByLookup(ReplaceAll(e, w), s.objects);
    ModifySucceedsIff(after, w);
  }

  /** The undo collection stages whole-object replacement, update by update, like the update loop. */
  lemma {:induction false} CollectIsSequential(base: map<Id, Data>, d: Overlay, us: seq<Update>)
    ensures Effective(base, Collect(base, d, us).values) == ReplaceAll(Effective(base, d.values), us)
    decreases |us|
  {
    if |us| > 0 {
      var u := us[0];
      var e := Effective(base, d.values);
      assert Lookup(e, u.id) == Peek(base, d.values, u.id);
      if Peek(base, d.values, u.id).None? && u.data.None? {
        assert Replace(e, u) == e;
      } else {
        EffectivePut(base, d.values, u.id, u.data);
      }
      CollectIsSequential(base, Record(base, d, u), us[1..]);
    }
  }

  /** The staging order has no repeats and lists exactly the staged ids. */
  ghost predicate Ordered(d: Overlay) {
    && (forall i, j :: 0 <= i < j < |d.order| ==> d.order[i] != d.order[j])
    && (forall id :: id in d.values <==> id in d.order)
  }

  /** The undo collection keeps the staging order in step with the staged ids. */
  lemma {:induction false} CollectOrdered(base: map<Id, Data>, d: Overlay, us: seq<Update>)
    requires Ordered(d)
    ensures Ordered(Collect(base, d, us))
    decreases |us|
  {
    if |us| > 0 {
      var d' := Record(base, d, us[0]);
      assert Ordered(d') by {
        if us[0].id !in d.values {
          assert forall i :: 0 <= i < |d.order| ==> d'.order[i] == d.order[i];
        }
      }
      CollectOrdered(base, d', us[1..]);
    }
  }

  /**
   * The undo list of one group: distinct ids, each expecting the value the
   * group leaves and restoring the value before it, and covering every id
   * whose value the group changes.
   */
  lemma UndoEntries(base: map<Id, Data>, us: seq<Update>)
    ensures var undo := GetUndoUpdates(base, [us])[0];
      var after := ReplaceAll(base, us);
      && (forall i, j :: 0 <= i < j < |undo| ==> undo[i].id != undo[j].id)
      && (forall u :: u in undo ==> u.oldData == ToExpect(Lookup(after, u.id)) && u.data == Lookup(base, u.id))
      && (forall x :: Lookup(after, x) != Lookup(base, x) ==> exists u :: u in undo && u.id == x)
  {
    var d := Collect(base, Overlay([], map[]), us);
    assert [us][0] == us;
    var undo := GetUndoUpdates(base, [us])[0];
    assert undo == UndoOf(base, d);
    CollectOrdered(base, Overlay([], map[]), us);
    CollectIsSequential(base, Overlay([], map[]), us);
    EffectiveOfNothing(base);
    var after := ReplaceAll(base, us);
    assert after == Effective(base, d.values);
    forall u | u in undo ensures u.oldData == ToExpect(Lookup(after, u.id)) && u.data == Lookup(base, u.id) {
      var i :| 0 <= i < |undo| && undo[i] == u;
      assert Lookup(after, d.order[i]) == Peek(base, d.values, d.order[i]);
    }
    forall x | Lookup(after, x) != Lookup(base, x) ensures exists u :: u in undo && u.id == x {
      assert Lookup(after, x) == Peek(base, d.values, x);
      var i :| 0 <= i < |d.order| && d.order[i] == x;
      assert undo[i] in undo;
    }
  }

  /** Whole-object replacement by several batches in turn. */
  function ReplaceGroups(base: map<Id, Data>, groups: seq<seq<Update>>): map<Id, Data>
    decreases |groups|
  {
    if |groups| == 0 then base else ReplaceGroups(ReplaceAll(base, groups[0]), groups[1..])
  }

  /** Each group's undo list is computed against the objects as the earlier groups leave them. */
  lemma {:induction false} UndoGroupsSequential(base: map<Id, Data>, groups: seq<seq<Update>>)
    ensures forall i :: 0 <= i < |groups| ==>
      GetUndoUpdates(base, groups)[i] == GetUndoUpdates(ReplaceGroups(base, groups[..i]), [groups[i]])[0]
    decreases |groups|
  {
    if |groups| > 0 {
      var d := Collect(base, Overlay([], map[]), groups[0]);
      CollectIsSequential(base, Overlay([], map[]), groups[0]);
      EffectiveOfNothing(base);
      var base1 := Effective(base, d.values);
      assert base1 == ReplaceAll(base, groups[0]);
      UndoGroupsSequential(base1, groups[1..]);
      forall i | 0 <= i < |groups|
        ensures GetUndoUpdates(base, groups)[i] == GetUndoUpdates(ReplaceGroups(base, groups[..i]), [groups[i]])[0]
      {
        if i == 0 {
          assert groups[..0] == [];
          assert [groups[0]][0] == groups[0];
          assert [groups[0]][1..] == [];
        } else {
          assert GetUndoUpdates(base, groups)[i] == GetUndoUpdates(base1, groups[1..])[i - 1];
          assert groups[..i][0] == groups[0];
          assert groups[..i][1..] == groups[1..][..i - 1];
          assert groups[1..][i - 1] == groups[i];
        }
      }
    }
  }
}
