/**
 * DiffMapSet: an uncommitted overlay `n` on a committed map of sets `m`.
 * Membership in the effective set of a key is membership in `m[k]` XOR
 * membership in `n[k]`, so a toggle applied twice cancels. The graph store
 * uses it to stage changes to its back-reference index before committing.
 */
module DiffMapSets {
  import opened Wrappers
  import opened Values

  datatype DiffMapSet = DiffMapSet(m: map<Id, set<Id>>, n: map<Id, set<Id>>)

  /** `map.get(k)` with an absent key read as the empty set. */
  function Get(mp: map<Id, set<Id>>, k: Id): set<Id> {
    if k in mp then mp[k] else {}
  }

  /** Symmetric difference: the reference meaning of the overlay. */
  function Xor(a: set<Id>, b: set<Id>): set<Id> {
    (a - b) + (b - a)
  }

  /** A diff with nothing staged yet over the committed map `m` (the constructor). */
  function Over(m: map<Id, set<Id>>): (d: DiffMapSet)
    ensures forall k, v :: Has(d, k, v) <==> k in m && v in m[k]
  {
    DiffMapSet(m, map[])
  }

  predicate Has(d: DiffMapSet, k: Id, v: Id) {
    (k in d.m && v in d.m[k]) != (k in d.n && v in d.n[k])
  }

  predicate SetsEqual(a: set<Id>, b: set<Id>)
  {
    |a| == |b| && a <= b
  }

  lemma SetsEqualIsEquality(a: set<Id>, b: set<Id>)
    ensures SetsEqual(a, b) <==> a == b
  {
    if |a| == |b| && a <= b && a != b {
      var x :| x in b && x !in a;
      assert a <= b - {x};
      SubsetCardinality(a, b - {x});
      assert false;
    }
  }

  lemma SubsetCardinality(a: set<Id>, b: set<Id>)
    requires a <= b
    ensures |a| <= |b|
  {
    assert b == a + (b - a);
  }

  /** `getAll(k)`: the effective set of `k`, empty when neither side has the key. */
  function GetAll(d: DiffMapSet, k: Id): (r: set<Id>)
    ensures r == Xor(Get(d.m, k), Get(d.n, k))
    ensures forall v :: v in r <==> Has(d, k, v)
  {
    if k !in d.m && k !in d.n then {}
    else if k !in d.m || |d.m[k]| == 0 then
      assert Get(d.m, k) == {};
      Get(d.n, k)
    else if k !in d.n || |d.n[k]| == 0 then
      assert Get(d.n, k) == {};
      d.m[k]
    else Xor(d.m[k], d.n[k])
  }

  /** `hasAny(k)`: some value is in the effective set of `k`. */
  function HasAny(d: DiffMapSet, k: Id): (r: bool)
    ensures r <==> GetAll(d, k) != {}
    ensures r <==> exists v :: Has(d, k, v)
  {
    SetsEqualIsEquality(Get(d.m, k), Get(d.n, k));
    if k in d.m && |d.m[k]| > 0 then k !in d.n || !SetsEqual(d.m[k], d.n[k])
    else k in d.n && |d.n[k]| > 0
  }

  /** Flips the membership of `v` in the staged set of `k`, creating the set if needed. */
  function Flip(s: set<Id>, v: Id): set<Id> {
    if v in s then s - {v} else s + {v}
  }

  /**
   * `toggle(k, v, newState)`: a no-op when the membership already equals
   * `newState`; otherwise the staged set of `k` is flipped at `v`, which
   * flips the effective membership. `newState` None flips unconditionally.
   */
  function Toggle(d: DiffMapSet, k: Id, v: Id, newState: Option<bool>): (r: DiffMapSet)
    ensures Has(r, k, v) == (if newState.Some? then newState.value else !Has(d, k, v))
    ensures forall k', v' :: k' != k || v' != v ==> Has(r, k', v') == Has(d, k', v')
    ensures r.m == d.m
    ensures r.n.Keys == d.n.Keys + (if newState == Some(Has(d, k, v)) then {} else {k})
  {
    if newState == Some(Has(d, k, v)) then d
    else if k !in d.n then d.(n := d.n[k := {v}])
    else d.(n := d.n[k := Flip(d.n[k], v)])
  }

  function Set(d: DiffMapSet, k: Id, v: Id): (r: DiffMapSet)
    ensures Has(r, k, v)
    ensures forall k', v' :: k' != k || v' != v ==> Has(r, k', v') == Has(d, k', v')
  {
    Toggle(d, k, v, Some(true))
  }

  function Delete(d: DiffMapSet, k: Id, v: Id): (r: DiffMapSet)
    ensures !Has(r, k, v)
    ensures forall k', v' :: k' != k || v' != v ==> Has(r, k', v') == Has(d, k', v')
  {
    Toggle(d, k, v, Some(false))
  }

  /** The keys whose membership of `v` must flip to reach `state`. */
  function Flipping(d: DiffMapSet, ks: set<Id>, v: Id, state: bool): set<Id> {
    set k | k in ks && Has(d, k, v) != state
  }

  /**
   * `set(k, v)` (state true) or `delete(k, v)` (state false) applied for
   * every `k` of `ks`, as the store does for each reference field of an
   * object. The order of the calls does not matter: each touches its own key.
   */
  function SetAll(d: DiffMapSet, ks: set<Id>, v: Id, state: bool): (r: DiffMapSet)
    ensures forall k :: k in ks ==> Has(r, k, v) == state
    ensures forall k, w :: k !in ks || w != v ==> Has(r, k, w) == Has(d, k, w)
    ensures r.m == d.m
    ensures r.n.Keys == d.n.Keys + Flipping(d, ks, v, state)
  {
    var flips := Flipping(d, ks, v, state);
    DiffMapSet(d.m, map k | k in d.n.Keys + flips :: if k in flips then Flip(Get(d.n, k), v) else d.n[k])
  }

  lemma SetAllOfOneKey(d: DiffMapSet, k: Id, v: Id, state: bool)
    ensures forall k', w :: Has(SetAll(d, {k}, v, state), k', w) == Has(Toggle(d, k, v, Some(state)), k', w)
    ensures SetAll(d, {k}, v, state).n.Keys == Toggle(d, k, v, Some(state)).n.Keys
  {
  }

  /** Toggling the same pair twice restores every membership. */
  lemma ToggleTwiceRestores(d: DiffMapSet, k: Id, v: Id)
    ensures forall k', v' :: Has(Toggle(Toggle(d, k, v, None), k, v, None), k', v') == Has(d, k', v')
    ensures forall k' :: GetAll(Toggle(Toggle(d, k, v, None), k, v, None), k') == GetAll(d, k')
  {
    var t := Toggle(d, k, v, None);
    var r := Toggle(t, k, v, None);
    forall k', v' ensures Has(r, k', v') == Has(d, k', v') {
      if k' != k || v' != v {
        assert Has(t, k', v') == Has(d, k', v');
      }
    }
    SameMembersSameSets(r, d);
  }

  /** Diffs with the same memberships have the same effective sets. */
  lemma SameMembersSameSets(a: DiffMapSet, b: DiffMapSet)
    requires forall k, v :: Has(a, k, v) == Has(b, k, v)
    ensures forall k :: GetAll(a, k) == GetAll(b, k)
  {
    forall k ensures GetAll(a, k) == GetAll(b, k) {
      assert forall w :: w in GetAll(a, k) <==> w in GetAll(b, k);
    }
  }

  /**
   * `mergeAll()`: every staged key gets its effective set in `m`, or is
   * removed from `m` when that set is empty; the overlay is cleared.
   */
  function MergeAll(d: DiffMapSet): (r: DiffMapSet)
    ensures r.n == map[]
    ensures forall k :: Get(r.m, k) == GetAll(d, k)
    ensures forall k :: k in d.n ==> (k in r.m <==> GetAll(d, k) != {})
    ensures forall k :: k !in d.n ==> (k in r.m <==> k in d.m)
  {
    MergedFacts(d);
    Merged(d)
  }

  /** The keys `mergeAll` keeps: the unstaged ones of `m` and the staged ones left non-empty. */
  function KeptKeys(d: DiffMapSet): set<Id> {
    (d.m.Keys - d.n.Keys) + set k | k in d.n && GetAll(d, k) != {}
  }

  function Merged(d: DiffMapSet): DiffMapSet {
    DiffMapSet(map k | k in KeptKeys(d) :: if k in d.n then GetAll(d, k) else d.m[k], map[])
  }

  lemma MergedFacts(d: DiffMapSet)
    ensures forall k :: Get(Merged(d).m, k) == GetAll(d, k)
    ensures forall k :: k in d.n ==> (k in Merged(d).m <==> GetAll(d, k) != {})
    ensures forall k :: k !in d.n ==> (k in Merged(d).m <==> k in d.m)
  {
    forall k ensures Get(Merged(d).m, k) == GetAll(d, k) {
      if k !in d.n {
        assert Get(d.n, k) == {};
      }
    }
  }

  /** Merging keeps every membership: the overlay is folded into `m`. */
  lemma MergeAllKeepsMembership(d: DiffMapSet)
    ensures forall k, v :: Has(MergeAll(d), k, v) == Has(d, k, v)
  {
    forall k, v ensures Has(MergeAll(d), k, v) == Has(d, k, v) {
      assert Get(MergeAll(d).m, k) == GetAll(d, k);
    }
  }

  /**
   * `mergeAllRequireExistingKeys()`: like mergeAll, but a staged key absent
   * from `m` may only carry an empty effective set, and keys of `m` stay
   * even when their set becomes empty.
   */
  function MergeAllRequireExistingKeys(d: DiffMapSet): (r: Result<DiffMapSet, Error>)
    ensures r.Success? <==> forall k :: k in d.n && k !in d.m ==> GetAll(d, k) == {}
    ensures r.Failure? ==> r.error == MergeMissingKey
    ensures r.Success? ==> r.value.n == map[] && r.value.m.Keys == d.m.Keys
    ensures r.Success? ==> forall k :: k in d.m ==> r.value.m[k] == GetAll(d, k)
  {
    if exists k :: k in d.n && k !in d.m && GetAll(d, k) != {} then Failure(MergeMissingKey)
    else Success(DiffMapSet(map k | k in d.m :: if k in d.n then GetAll(d, k) else d.m[k], map[]))
  }

  lemma MergeRequireExistingKeepsMembership(d: DiffMapSet)
    requires MergeAllRequireExistingKeys(d).Success?
    ensures forall k, v :: Has(MergeAllRequireExistingKeys(d).value, k, v) == Has(d, k, v)
  {
    var r := MergeAllRequireExistingKeys(d).value;
    forall k, v ensures Has(r, k, v) == Has(d, k, v) {
      if k in d.m {
        assert r.m[k] == GetAll(d, k);
      } else {
        assert GetAll(d, k) == {} || k !in d.n;
        assert v in GetAll(d, k) <==> Has(d, k, v);
      }
    }
  }
}
