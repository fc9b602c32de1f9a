/**
 * `LocalStorageBackend` of backend.js: a back end running in the browser.
 * It keeps its own graph store, numbers the client's provisional ids and
 * answers every `update` through a queue of pending callbacks; the timer
 * that empties the queue is the explicit `Deliver` event.
 */
module LocalBackend {
  import opened Wrappers
  import opened Values
  import GraphStore
  import StoreLaws
  import opened IdMapping

  /**
   * The back end's fields. `responses` is the queue of pending callbacks;
   * a slot merged into a later answer is nulled (None) but stays queued.
   */
  datatype Backend = Backend(store: GraphStore.Store, gen: int, responses: seq<Option<Response>>)

  /** The ids a batch names. */
  function Ids(us: seq<Update>): (r: set<Id>)
    ensures forall u :: u in us ==> u.id in r
    ensures forall x :: x in r ==> exists u :: u in us && u.id == x
  {
    set u | u in us :: u.id
  }

  /**
   * The constructor. `prev` None stands for a missing or empty saved state:
   * the back end starts empty. Otherwise the saved dump is applied to a
   * fresh store (a throw aborts construction) and the generator starts at
   * the largest numeric id of the dump. Either way the first callback,
   * carrying the whole state, is queued.
   */
  function Create(prev: Option<seq<Update>>): (r: Result<Backend, Error>)
    ensures prev.None? ==> r == Success(Backend(GraphStore.EmptyStore(), 0, [Some(Response([], None, None))]))
    ensures prev.Some? ==> (r.Success? <==> GraphStore.Modify(GraphStore.EmptyStore(), prev.value).Success?)
    ensures r.Success? && prev.Some? ==> r.value.responses == [Some(Response(prev.value, None, None))]
    ensures r.Success? && prev.Some? ==> forall u :: u in prev.value && u.id.Num? ==> u.id.n <= r.value.gen
    ensures r.Success? ==> r.value.gen >= 0
  {
    match prev
    case None => Success(Backend(GraphStore.EmptyStore(), 0, [Some(Response([], None, None))]))
    case Some(changes) =>
      var m :- GraphStore.Modify(GraphStore.EmptyStore(), changes);
      Success(Backend(m.store, MaxId(Ids(changes)), [Some(Response(changes, None, None))]))
  }

  /** The callbacks still to come: the queue's non-null slots, in order. */
  function Deliveries(rs: seq<Option<Response>>): (r: seq<Response>)
    ensures |r| <= |rs|
    decreases |rs|
  {
    if |rs| == 0 then []
    else (if rs[0].Some? then [rs[0].value] else []) + Deliveries(rs[1..])
  }

  /** One timer firing: the head of the queue is removed and, unless null, handed to the callback. */
  function Deliver(b: Backend): (r: (Backend, Option<Response>))
    ensures Deliveries(b.responses) == (if r.1.Some? then [r.1.value] else []) + Deliveries(r.0.responses)
    ensures r.0.store == b.store && r.0.gen == b.gen
  {
    if |b.responses| == 0 then (b, None)
    else (b.(responses := b.responses[1..]), b.responses[0])
  }

  // ---------------------------------------------------------------------
  // Merging the queue
  // ---------------------------------------------------------------------

  datatype Merged = Merged(responses: seq<Option<Response>>, others: seq<Update>)

  /** A queued slot that may be folded into a new answer: a plain object list. */
  predicate Plain(o: Option<Response>) {
    o.Some? && o.value.error.None? && o.value.idMap.None?
  }

  /** The objects of a queue of plain slots, concatenated. */
  function Objects(rs: seq<Option<Response>>): seq<Update>
    decreases |rs|
  {
    if |rs| == 0 then []
    else (if rs[0].Some? then rs[0].value.objects else []) + Objects(rs[1..])
  }

  function Nulls(n: nat): (r: seq<Option<Response>>)
    ensures |r| == n && forall i :: 0 <= i < n ==> r[i].None?
  {
    seq(n, i => None)
  }

  /**
   * The merge loop from slot `i` on: a null slot throws a TypeError, a slot
   * with an error or an id map throws, any other slot's objects are
   * appended and the slot is nulled.
   */
  function MergeFrom(rs: seq<Option<Response>>, i: nat, others: seq<Update>): (r: Outcome<Merged, Error>)
    requires i <= |rs|
    ensures |r.state.responses| == |rs|
    ensures r.Threw? ==> r.error == NullAccess || r.error == ProtocolViolation
    decreases |rs| - i
  {
    if i == |rs| then Ok(Merged(rs, others))
    else if rs[i].None? then Threw(Merged(rs, others), NullAccess)
    else if rs[i].value.error.Some? || rs[i].value.idMap.Some? then Threw(Merged(rs, others), ProtocolViolation)
    else MergeFrom(rs[i := None], i + 1, others + rs[i].value.objects)
  }

  lemma {:induction false} MergeFromSpec(rs: seq<Option<Response>>, i: nat, others: seq<Update>)
    requires i <= |rs|
    requires forall j :: 0 <= j < i ==> rs[j].None?
    ensures MergeFrom(rs, i, others).Ok? <==> forall j :: i <= j < |rs| ==> Plain(rs[j])
    ensures MergeFrom(rs, i, others).Ok? ==>
      MergeFrom(rs, i, others).state == Merged(Nulls(|rs|), others + Objects(rs[i..]))
    decreases |rs| - i
  {
    if i == |rs| {
      assert rs == Nulls(|rs|);
      assert rs[i..] == [];
    } else if Plain(rs[i]) {
      var rs1 := rs[i := None];
      MergeFromSpec(rs1, i + 1, others + rs[i].value.objects);
      assert rs1[i + 1..] == rs[i + 1..];
      assert rs[i..][1..] == rs[i + 1..];
      assert others + rs[i].value.objects + Objects(rs[i + 1..]) == others + Objects(rs[i..]);
    }
  }

  /**
   * The merge of the whole queue succeeds exactly when every slot is a
   * plain object list; it then nulls every slot and collects their objects
   * in order.
   */
  function Merge(rs: seq<Option<Response>>): (r: Outcome<Merged, Error>)
    ensures r.Ok? <==> forall j :: 0 <= j < |rs| ==> Plain(rs[j])
    ensures r.Ok? ==> r.state == Merged(Nulls(|rs|), Objects(rs))
    ensures r.Threw? ==> |r.state.responses| == |rs|
  {
    MergeFromSpec(rs, 0, []);
    assert rs[0..] == rs;
    MergeFrom(rs, 0, [])
  }

  // ---------------------------------------------------------------------
  // update
  // ---------------------------------------------------------------------

  /**
   * `update2(changes, false)`. The translation loop and the merge may
   * throw out of the call, keeping the generator and the nulled slots as
   * they got. Otherwise the translated batch is applied: on success the
   * answer carries the merged objects, the batch and the id map; on a
   * failure of `modify` the answer carries the merged objects and the
   * error and the store is unchanged.
   */
  function UpdateBatch(b: Backend, cs: seq<Update>): (r: Outcome<Backend, Error>)
    ensures r.Threw? ==> r.state.store == b.store
    ensures r.Ok? <==>
      && Translate(Translation(b.gen, map[], []), cs).Ok?
      && forall j :: 0 <= j < |b.responses| ==> Plain(b.responses[j])
    ensures r.Ok? ==> |r.state.responses| == |b.responses| + 1
  {
    match Translate(Translation(b.gen, map[], []), cs)
    case Threw(t, e) => Threw(b.(gen := t.gen), e)
    case Ok(t) =>
      match Merge(b.responses)
      case Threw(m, e) => Threw(b.(gen := t.gen, responses := m.responses), e)
      case Ok(m) =>
        match GraphStore.Modify(b.store, t.result)
        case Success(md) =>
          Ok(Backend(md.store, t.gen, m.responses + [Some(Response(m.others + t.result, Some(t.idMap), None))]))
        case Failure(e) =>
          Ok(Backend(b.store, t.gen, m.responses + [Some(Response(m.others, None, Some(e)))]))
  }

  lemma DeliveriesOfNulls(n: nat)
    ensures Deliveries(Nulls(n)) == []
  {
    if n > 0 {
      assert Nulls(n)[1..] == Nulls(n - 1);
      DeliveriesOfNulls(n - 1);
    }
  }

  lemma {:induction false} DeliveriesAppend(rs: seq<Option<Response>>, x: Response)
    ensures Deliveries(rs + [Some(x)]) == Deliveries(rs) + [x]
    decreases |rs|
  {
    if |rs| == 0 {
      assert Deliveries([Some(x)]) == [x] + Deliveries([]);
    } else {
      assert (rs + [Some(x)])[1..] == rs[1..] + [Some(x)];
      DeliveriesAppend(rs[1..], x);
    }
  }

  /**
   * The contract the back end promises its client: after an update the
   * next callback is the answer to it, and it carries the translated batch
   * with the id map exactly when the store accepted the batch; any objects
   * queued before are folded into that answer, in front.
   */
  lemma UpdateAnswers(b: Backend, cs: seq<Update>)
    requires UpdateBatch(b, cs).Ok?
    ensures var t := Translate(Translation(b.gen, map[], []), cs).state;
      var m := GraphStore.Modify(b.store, t.result);
      && Deliveries(UpdateBatch(b, cs).state.responses) == [
        if m.Success? then Response(Objects(b.responses) + t.result, Some(t.idMap), None)
        else Response(Objects(b.responses), None, Some(m.error))]
      && UpdateBatch(b, cs).state.store == (if m.Success? then m.value.store else b.store)
      && UpdateBatch(b, cs).state.gen == t.gen
  {
    var t := Translate(Translation(b.gen, map[], []), cs).state;
    var m := GraphStore.Modify(b.store, t.result);
    var x := if m.Success? then Response(Objects(b.responses) + t.result, Some(t.idMap), None)
             else Response(Objects(b.responses), None, Some(m.error));
    assert UpdateBatch(b, cs).state.responses == Nulls(|b.responses|) + [Some(x)];
    DeliveriesAppend(Nulls(|b.responses|), x);
    DeliveriesOfNulls(|b.responses|);
  }

  /**
   * Once the generator is at least every numeric id in the store, the ids a
   * batch's fresh inserts receive lie between the old and the new value of
   * the generator and are new to the store (TranslateRenames adds that they
   * strictly increase).
   */
  lemma FreshIdsAvoidStore(b: Backend, cs: seq<Update>)
    requires b.gen >= 0
    requires forall x :: x in b.store.objects && x.Num? ==> x.n <= b.gen
    requires Translate(Translation(b.gen, map[], []), cs).Ok?
    ensures var t := Translate(Translation(b.gen, map[], []), cs).state;
      && |t.result| == |Kept(cs)|
      && forall i :: 0 <= i < |Kept(cs)| && FreshInsert(Kept(cs)[i]) ==>
           && t.result[i].id.Num? && b.gen < t.result[i].id.n <= t.gen
           && t.result[i].id !in b.store.objects
  {
    var t0 := Translation(b.gen, map[], []);
    var ks := Kept(cs);
    TranslateRenames(t0, cs);
    var t := Translate(t0, cs).state;
    assert Extends(t0, t, ks);
    forall i | 0 <= i < |ks| && FreshInsert(ks[i])
      ensures t.result[i].id.Num? && b.gen < t.result[i].id.n <= t.gen && t.result[i].id !in b.store.objects
    {
      assert Renamed(ks[i], t.result[|t0.result| + i], t0.gen, t.gen);
    }
  }

  /** Replacement only ever adds ids the updates name. */
  lemma {:induction false} ReplaceAllKeys(objects: map<Id, Data>, us: seq<Update>)
    ensures forall x :: x in GraphStore.ReplaceAll(objects, us) ==> x in objects || x in Ids(us)
    decreases |us|
  {
    if |us| > 0 {
      ReplaceAllKeys(GraphStore.Replace(objects, us[0]), us[1..]);
      assert forall u :: u in us[1..] ==> u in us;
    }
  }

  /**
   * After construction the generator is at least every numeric id in the
   * store, so fresh ids never collide with restored objects.
   */
  lemma CreateGenCoversStore(prev: Option<seq<Update>>)
    requires Create(prev).Success?
    ensures var b := Create(prev).value;
      && GraphStore.Valid(b.store)
      && forall x :: x in b.store.objects && x.Num? ==> x.n <= b.gen
  {
    var e := GraphStore.EmptyStore();
    assert GraphStore.Valid(e);
    if prev.Some? {
      StoreLaws.ModifyIsSequential(e, prev.value);
      StoreLaws.ModifySucceedsIff(e, prev.value);
      ReplaceAllKeys(e.objects, prev.value);
    }
  }
}
