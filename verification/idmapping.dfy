/**
 * The id translation both back ends apply to a client batch: a change
 * inserting under a missing or negative id gets the next server id, later
 * changes and `$` references naming that negative id are rewritten to it,
 * and a negative id that was not assigned earlier in the batch is refused.
 * Also the initial value of the server id generator.
 */
module IdMapping {
  import opened Wrappers
  import opened Values

  // ---------------------------------------------------------------------
  // The id generator's start
  // ---------------------------------------------------------------------

  /** The largest element of a finite non-empty set of integers. */
  function MaxOf(ns: set<int>): (m: int)
    requires ns != {}
    ensures m in ns && forall y :: y in ns ==> y <= m
  {
    MaxExists(ns);
    var m :| m in ns && forall y :: y in ns ==> y <= m;
    m
  }

  lemma {:induction false} MaxExists(ns: set<int>)
    requires ns != {}
    ensures exists m :: m in ns && forall y :: y in ns ==> y <= m
    decreases |ns|
  {
    if forall y :: y !in ns {
      assert false;
    }
    var x :| x in ns;
    if ns != {x} {
      var rest := ns - {x};
      MaxExists(rest);
      var m :| m in rest && forall y :: y in rest ==> y <= m;
      assert forall y :: y in ns ==> y == x || y in rest;
      if x <= m {
        assert m in ns;
      } else {
        assert x in ns;
      }
    } else {
      assert forall y :: y in ns ==> y == x;
    }
  }

  /**
   * `ids.reduce((a, b) => Math.max(a, b), 0)`: the largest numeric id, or 0
   * when there is none larger.
   */
  function MaxId(ids: set<Id>): (r: nat)
    ensures forall x :: x in ids && x.Num? ==> x.n <= r
    ensures r == 0 || Num(r) in ids
  {
    var ns := set x | x in ids && x.Num? && x.n > 0 :: x.n;
    assert forall x :: x in ids && x.Num? && x.n > 0 ==> x.n in ns;
    if ns == {} then 0 else MaxOf(ns)
  }

  // ---------------------------------------------------------------------
  // mapIDs
  // ---------------------------------------------------------------------

  /** A `$` field of `d` holds a negative id the map does not know. */
  predicate HasUnmapped(d: Data, idMap: map<Id, Id>) {
    exists k :: k in d && IsRefField(k) && IsNegative(d[k]) && d[k] !in idMap
  }

  /**
   * `mapIDs` on a field bag: every `$` field holding a negative id is
   * replaced by the id it was assigned; one that was not assigned throws.
   */
  function MapFields(d: Data, idMap: map<Id, Id>): (r: Result<Data, Error>)
    ensures r.Failure? <==> HasUnmapped(d, idMap)
    ensures r.Failure? ==> r.error == UnmappedRef
    ensures r.Success? ==> r.value.Keys == d.Keys
    ensures r.Success? ==> forall k :: k in d && !(IsRefField(k) && IsNegative(d[k])) ==> r.value[k] == d[k]
    ensures r.Success? ==> forall k :: k in d && IsRefField(k) && IsNegative(d[k]) ==> r.value[k] == idMap[d[k]]
  {
    if HasUnmapped(d, idMap) then Failure(UnmappedRef)
    else Success(map k | k in d :: if IsRefField(k) && IsNegative(d[k]) then idMap[d[k]] else d[k])
  }

  /** `mapIDs(oldData)`: falsy and `true` pass through. */
  function MapExpect(e: Expect, idMap: map<Id, Id>): (r: Result<Expect, Error>)
    ensures !e.ExpectExactly? ==> r == Success(e)
    ensures e.ExpectExactly? ==> (r.Failure? <==> HasUnmapped(e.d, idMap))
    ensures r.Success? ==> r.value.ExpectNone? == e.ExpectNone? && r.value.ExpectAny? == e.ExpectAny?
    ensures r.Failure? ==> r.error == UnmappedRef
  {
    if e.ExpectExactly? then
      var d :- MapFields(e.d, idMap);
      Success(ExpectExactly(d))
    else Success(e)
  }

  /** `mapIDs(data)`: null passes through. */
  function MapData(o: Option<Data>, idMap: map<Id, Id>): (r: Result<Option<Data>, Error>)
    ensures o.None? ==> r == Success(None)
    ensures o.Some? ==> (r.Failure? <==> HasUnmapped(o.value, idMap))
    ensures r.Success? ==> r.value.Some? == o.Some?
    ensures r.Failure? ==> r.error == UnmappedRef
  {
    if o.Some? then
      var d :- MapFields(o.value, idMap);
      Success(Some(d))
    else Success(None)
  }

  // ---------------------------------------------------------------------
  // Assigning ids
  // ---------------------------------------------------------------------

  /** The loop state both back ends keep: the id generator, the id map and the translated batch. */
  datatype Translation = Translation(gen: int, idMap: map<Id, Id>, result: seq<Update>)

  /** `!change.oldData && !change.data`: the change is dropped. */
  predicate Skipped(ch: Update) {
    ch.oldData.ExpectNone? && ch.data.None?
  }

  /** `!change.oldData && change.data`: the change inserts. */
  predicate Inserts(ch: Update) {
    ch.oldData.ExpectNone? && ch.data.Some?
  }

  /** The server id of one kept change, with the generator and id map it leaves. */
  datatype Assigned = Assigned(t: Translation, id: Id)

  /**
   * The id part of one iteration: a provisional id of an insert gets
   * `++gen` (recorded when the client id is not null); a provisional id of
   * an update or delete is looked up and refused when unknown; any other
   * id is kept.
   */
  function AssignId(t: Translation, ch: Update): (r: Result<Assigned, Error>)
    ensures IsProvisional(ch.id) && Inserts(ch) ==>
      && r.Success? && r.value.id == Num(t.gen + 1) && r.value.t.gen == t.gen + 1
      && r.value.t.idMap == (if ch.id.Null? then t.idMap else t.idMap[ch.id := Num(t.gen + 1)])
    ensures IsProvisional(ch.id) && !Inserts(ch) && !ch.id.Null? ==>
      (r.Failure? <==> ch.id !in t.idMap) && (r.Success? ==> r.value.id == t.idMap[ch.id])
    ensures !(IsProvisional(ch.id) && Inserts(ch)) && r.Success? ==> r.value.t == t
    ensures !IsProvisional(ch.id) ==> r == Success(Assigned(t, ch.id))
    ensures r.Failure? ==> r.error == UnmappedId
  {
    if IsProvisional(ch.id) then
      if Inserts(ch) then
        var id := Num(t.gen + 1);
        Success(Assigned(t.(gen := t.gen + 1, idMap := if ch.id != Null then t.idMap[ch.id := id] else t.idMap), id))
      else if ch.id != Null then
        if ch.id in t.idMap then Success(Assigned(t, t.idMap[ch.id])) else Failure(UnmappedId)
      else Success(Assigned(t, ch.id))
    else Success(Assigned(t, ch.id))
  }

  /**
   * The id map only ever holds ids the generator issued: positive, at most
   * the generator, one client id per server id.
   */
  predicate Issued(t: Translation) {
    && t.gen >= 0
    && (forall x :: x in t.idMap ==> t.idMap[x].Num? && 0 < t.idMap[x].n <= t.gen)
    && (forall x, y :: x in t.idMap && y in t.idMap && x != y ==> t.idMap[x] != t.idMap[y])
  }

  lemma AssignKeepsIssued(t: Translation, ch: Update)
    requires Issued(t)
    requires AssignId(t, ch).Success?
    ensures Issued(AssignId(t, ch).value.t)
    ensures AssignId(t, ch).value.t.gen >= t.gen
    ensures forall x :: x in t.idMap ==> x in AssignId(t, ch).value.t.idMap
  {
  }

  /** A field bag rewritten by an id map of issued ids holds no negative reference. */
  lemma MappedHasNoProvisional(d: Data, t: Translation)
    requires Issued(t)
    requires MapFields(d, t.idMap).Success?
    ensures forall k :: k in MapFields(d, t.idMap).value && IsRefField(k) ==> !IsNegative(MapFields(d, t.idMap).value[k])
  {
  }

  // ---------------------------------------------------------------------
  // The translation loop
  // ---------------------------------------------------------------------

  /** No `$` field of `d` holds a negative id. */
  predicate NoProvisionalRefs(d: Data) {
    forall k :: k in d && IsRefField(k) ==> !IsNegative(d[k])
  }

  /** An insert under a missing or negative id: it is given a fresh server id. */
  predicate FreshInsert(ch: Update) {
    IsProvisional(ch.id) && Inserts(ch)
  }

  /**
   * One iteration of the loop: assign the id, then map the references of
   * `oldData` and of `data`, then push the translated change. A throw
   * keeps the generator as far as it got.
   */
  function TranslateChange(t: Translation, ch: Update): (r: Outcome<Translation, Error>)
    ensures Skipped(ch) ==> r == Ok(t)
    ensures r.Threw? ==> r.error == UnmappedId || r.error == UnmappedRef
    ensures r.Threw? ==> r.state.result == t.result
    ensures r.state.gen >= t.gen
  {
    if Skipped(ch) then Ok(t)
    else match AssignId(t, ch)
      case Failure(e) => Threw(t, e)
      case Success(a) =>
        match MapExpect(ch.oldData, a.t.idMap)
        case Failure(e) => Threw(a.t, e)
        case Success(o) =>
          match MapData(ch.data, a.t.idMap)
          case Failure(e) => Threw(a.t, e)
          case Success(d) => Ok(a.t.(result := a.t.result + [Update(a.id, o, d)]))
  }

  /** The whole `for (let change of changes)` loop. */
  function Translate(t: Translation, cs: seq<Update>): (r: Outcome<Translation, Error>)
    ensures r.Threw? ==> r.error == UnmappedId || r.error == UnmappedRef
    ensures r.state.gen >= t.gen
    decreases |cs|
  {
    if |cs| == 0 then Ok(t)
    else
      var t1 :- TranslateChange(t, cs[0]);
      Translate(t1, cs[1..])
  }

  /** The changes the loop does not skip, in order. */
  function Kept(cs: seq<Update>): (r: seq<Update>)
    ensures forall u :: u in r ==> u in cs && !Skipped(u)
    decreases |cs|
  {
    if |cs| == 0 then []
    else (if Skipped(cs[0]) then [] else [cs[0]]) + Kept(cs[1..])
  }

  /**
   * `u` is the translation of the client change `k` by a loop that moved
   * the generator from `g0` to `g1`: same kind of change, a kept id kept, a
   * fresh insert numbered within the new range, and no negative id left.
   */
  predicate Renamed(k: Update, u: Update, g0: int, g1: int) {
    && u.oldData.ExpectNone? == k.oldData.ExpectNone?
    && u.oldData.ExpectAny? == k.oldData.ExpectAny?
    && u.data.Some? == k.data.Some?
    && (!IsProvisional(k.id) ==> u.id == k.id)
    && (FreshInsert(k) ==> u.id.Num? && g0 < u.id.n <= g1)
    && (k.id.Null? && !Inserts(k) ==> u.id.Null?)
    && !IsNegative(u.id)
    && (u.data.Some? ==> NoProvisionalRefs(u.data.value))
    && (u.oldData.ExpectExactly? ==> NoProvisionalRefs(u.oldData.d))
  }

  lemma TranslateChangeRenames(t: Translation, ch: Update)
    requires Issued(t)
    requires TranslateChange(t, ch).Ok?
    requires !Skipped(ch)
    ensures var t1 := TranslateChange(t, ch).state;
      && Issued(t1) && t1.gen >= t.gen
      && |t1.result| == |t.result| + 1 && t1.result[..|t.result|] == t.result
      && Renamed(ch, t1.result[|t.result|], t.gen, t1.gen)
      && (FreshInsert(ch) ==> t1.result[|t.result|].id == Num(t1.gen))
      && (!FreshInsert(ch) ==> t1.gen == t.gen)
  {
    var a := AssignId(t, ch).value;
    AssignKeepsIssued(t, ch);
    var o := MapExpect(ch.oldData, a.t.idMap).value;
    var d := MapData(ch.data, a.t.idMap).value;
    if o.ExpectExactly? {
      MappedHasNoProvisional(ch.oldData.d, a.t);
    }
    if d.Some? {
      MappedHasNoProvisional(ch.data.value, a.t);
    }
    assert (a.t.result + [Update(a.id, o, d)])[..|t.result|] == t.result;
  }

  /**
   * `t1` is `t` with the translations of `ks` appended: every kept change
   * translated in order, fresh inserts numbered strictly increasingly above
   * the generator's old value, the id map still one of issued ids.
   */
  predicate Extends(t: Translation, t1: Translation, ks: seq<Update>) {
    && Issued(t1) && t1.gen >= t.gen
    && |t1.result| == |t.result| + |ks| && t1.result[..|t.result|] == t.result
    && (forall i :: 0 <= i < |ks| ==> Renamed(ks[i], t1.result[|t.result| + i], t.gen, t1.gen))
    && (forall i, j :: 0 <= i < j < |ks| && FreshInsert(ks[i]) && FreshInsert(ks[j]) ==>
          t1.result[|t.result| + i].id.n < t1.result[|t.result| + j].id.n)
  }

  lemma ExtendsCons(t: Translation, s: Translation, t1: Translation, ch: Update, rest: seq<Update>)
    requires Issued(t) && Issued(s) && s.gen >= t.gen
    requires |s.result| == |t.result| + 1 && s.result[..|t.result|] == t.result
    requires Renamed(ch, s.result[|t.result|], t.gen, s.gen)
    requires FreshInsert(ch) ==> s.result[|t.result|].id == Num(s.gen)
    requires Extends(s, t1, rest)
    ensures Extends(t, t1, [ch] + rest)
  {
    var ks := [ch] + rest;
    assert t1.result[..|t.result|] == t.result by {
      assert t1.result[..|t.result|] == t1.result[..|s.result|][..|t.result|];
    }
    assert t1.result[|t.result|] == s.result[|t.result|] by {
      assert t1.result[|t.result|] == t1.result[..|s.result|][|t.result|];
    }
    forall i | 0 <= i < |ks|
      ensures Renamed(ks[i], t1.result[|t.result| + i], t.gen, t1.gen)
    {
      if i > 0 {
        assert ks[i] == rest[i - 1];
        assert t1.result[|t.result| + i] == t1.result[|s.result| + (i - 1)];
      }
    }
    forall i, j | 0 <= i < j < |ks| && FreshInsert(ks[i]) && FreshInsert(ks[j])
      ensures t1.result[|t.result| + i].id.n < t1.result[|t.result| + j].id.n
    {
      assert ks[j] == rest[j - 1];
      assert t1.result[|t.result| + j] == t1.result[|s.result| + (j - 1)];
      if i > 0 {
        assert ks[i] == rest[i - 1];
        assert t1.result[|t.result| + i] == t1.result[|s.result| + (i - 1)];
      }
    }
  }

  /**
   * The loop translates every kept change, in order, appending to the
   * result; fresh inserts receive strictly increasing ids above the
   * generator's old value; the id map stays one of issued ids.
   */
  lemma {:induction false} TranslateRenames(t: Translation, cs: seq<Update>)
    requires Issued(t)
    requires Translate(t, cs).Ok?
    ensures Extends(t, Translate(t, cs).state, Kept(cs))
    decreases |cs|
  {
    if |cs| > 0 {
      var ch := cs[0];
      var s := TranslateChange(t, ch).state;
      assert Translate(s, cs[1..]) == Translate(t, cs);
      TranslateRenames(s, cs[1..]);
      if Skipped(ch) {
        assert Kept(cs) == Kept(cs[1..]);
      } else {
        TranslateChangeRenames(t, ch);
        assert Kept(cs) == [ch] + Kept(cs[1..]);
        ExtendsCons(t, s, Translate(t, cs).state, ch, Kept(cs[1..]));
      }
    } else {
      assert Translate(t, cs).state == t;
      assert t.result[..|t.result|] == t.result;
    }
  }

  /** Nothing provisional in a change: its id and every `$` field hold server ids already. */
  predicate Settled(ch: Update) {
    && !IsProvisional(ch.id)
    && (ch.data.Some? ==> NoProvisionalRefs(ch.data.value))
    && (ch.oldData.ExpectExactly? ==> NoProvisionalRefs(ch.oldData.d))
  }

  lemma MapFieldsSettled(d: Data, idMap: map<Id, Id>)
    requires NoProvisionalRefs(d)
    ensures MapFields(d, idMap) == Success(d)
  {
    assert !HasUnmapped(d, idMap);
    var m := MapFields(d, idMap).value;
    assert forall k :: k in d ==> m[k] == d[k];
    assert m == d;
  }

  /** A batch naming server ids only passes through the loop unchanged, minus its skipped no-ops. */
  lemma {:induction false} TranslateSettled(t: Translation, cs: seq<Update>)
    requires forall u :: u in cs ==> Settled(u)
    ensures Translate(t, cs) == Ok(t.(result := t.result + Kept(cs)))
    decreases |cs|
  {
    if |cs| > 0 {
      var ch := cs[0];
      assert ch in cs;
      assert forall u :: u in cs[1..] ==> u in cs;
      assert AssignId(t, ch) == Success(Assigned(t, ch.id));
      if ch.data.Some? {
        MapFieldsSettled(ch.data.value, t.idMap);
      }
      if ch.oldData.ExpectExactly? {
        MapFieldsSettled(ch.oldData.d, t.idMap);
      }
      assert MapExpect(ch.oldData, t.idMap) == Success(ch.oldData);
      assert MapData(ch.data, t.idMap) == Success(ch.data);
      var s := if Skipped(ch) then t else t.(result := t.result + [ch]);
      assert TranslateChange(t, ch) == Ok(s);
      TranslateSettled(s, cs[1..]);
      if Skipped(ch) {
        assert Kept(cs) == Kept(cs[1..]);
      } else {
        assert Kept(cs) == [ch] + Kept(cs[1..]);
        assert t.result + [ch] + Kept(cs[1..]) == t.result + Kept(cs);
      }
    } else {
      assert t.result + Kept(cs) == t.result;
    }
  }
}
