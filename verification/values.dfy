/**
 * Field values, object data, updates and errors: the vocabulary shared by the
 * graph store, the client wrapper and the two server back ends.
 *
 * Objects are JavaScript field bags. A field value is treated as an opaque
 * value with equality; only numbers (ids), strings (type names) and null are
 * inspected by the code being modelled.
 */
module Values {
  import opened Wrappers

  datatype Value = Null | Num(n: int) | Text(s: string) | Bool(b: bool) | Opaque(o: nat)

  /** Ids are ordinary values: the store keys its maps by whatever a field holds. */
  type Id = Value

  /** Object data: field name to value. A missing field reads as null. */
  type Data = map<string, Value>

  /** The `oldData` of an update: falsy, the literal `true`, or an object. */
  datatype Expect = ExpectNone | ExpectAny | ExpectExactly(d: Data)

  /** One element of a batch: `{id, oldData, data}`; `data` None is JavaScript null. */
  datatype Update = Update(id: Id, oldData: Expect, data: Option<Data>)

  datatype Error =
    | Locked               // modify called from within a listener
    | DuplicateId          // insert over an existing effective value
    | MissingObject        // update or delete of an absent object
    | OldDataMismatch      // expected and actual old data differ
    | TypeReplaced         // an update changes an object's type
    | DeadReference        // a reference to a deleted or never existing object
    | IllegalReference     // a reference targeting an object of the wrong type
    | MergeMissingKey      // DiffMapSet.mergeAllRequireExistingKeys
    | CollectorMismatch    // ChangesCollector.add sees a broken chain
    | NullData             // insert or update with null data
    | TransactionOpen      // setUncommitted, undo or redo inside a transaction
    | NoTransaction        // commit or rollback without a transaction
    | CurrentNotEmpty      // undo or redo with unfinished current changes
    | IdMapMismatch        // handleResponse's post-application checks
    | UnmappedId           // back end: update or delete of a negative id not assigned earlier in the batch
    | UnmappedRef          // back end: `$` field naming such an id; thrown with an empty message
    | ProtocolViolation    // back end: queued response with error or id map
    | MissingPrior         // server: `oldData: true` for an absent object
    | EmptyLogEntry        // server: log entry with neither oldData nor data
    | Int32Range           // Buffer.writeInt32LE of an out-of-range value
    | ShortRead            // log replay: truncated header or body
    | NegativeLength       // log replay: Buffer.alloc of a negative size
    | NullAccess           // a field read on a null queue slot (TypeError)

  /**
   * What a back end hands to the client: objects to apply, the map from
   * client ids to the server ids assigned to them, and an error message.
   */
  datatype Response = Response(objects: seq<Update>, idMap: Option<map<Id, Id>>, error: Option<Error>)

  /** `obj[k]`, with an absent field read as null. */
  function Field(d: Data, k: string): Value {
    if k in d then d[k] else Null
  }

  /** The `type` field every object carries. */
  function TypeOf(d: Data): Value {
    Field(d, "type")
  }

  /** `k[0] == "$"`: the field holds a reference to another object. */
  predicate IsRefField(k: string) {
    |k| > 0 && k[0] == '$'
  }

  /** The ids a field bag refers to through its non-null `$` fields. */
  function RefTargets(d: Data): (r: set<Id>)
    ensures forall k :: k in d && IsRefField(k) && d[k] != Null ==> d[k] in r
    ensures forall x :: x in r ==> x != Null && exists k :: k in d && IsRefField(k) && d[k] == x
  {
    set k | k in d && IsRefField(k) && d[k] != Null :: d[k]
  }

  /**
   * The two loops comparing expected and actual old data field by field,
   * once over each object's keys; a field missing on one side reads as null.
   */
  predicate SameFields(a: Data, b: Data) {
    && (forall i :: i in a ==> a[i] == Field(b, i))
    && (forall i :: i in b ==> Field(a, i) == b[i])
  }

  lemma SameFieldsIsFieldEquality(a: Data, b: Data)
    ensures SameFields(a, b) <==> forall i :: Field(a, i) == Field(b, i)
  {
    if SameFields(a, b) {
      forall i ensures Field(a, i) == Field(b, i) {
        if i in a {
        } else if i in b {
        }
      }
    }
  }

  /** `x < 0` as JavaScript evaluates it for the values that reach it: only numbers can be negative. */
  predicate IsNegative(v: Value) {
    v.Num? && v.n < 0
  }

  /** `id == null || id < 0`: the id is client-provisional or missing. */
  predicate IsProvisional(id: Id) {
    id.Null? || IsNegative(id)
  }

  /** The ids of a batch in first-occurrence order: the keys of a Map filled by `set(update.id, …)`. */
  function DistinctIds(us: seq<Update>): (r: seq<Id>)
    ensures forall i, j :: 0 <= i < j < |r| ==> r[i] != r[j]
    ensures forall x :: x in r <==> exists u :: u in us && u.id == x
  {
    if |us| == 0 then []
    else
      var rest := DistinctIds(us[..|us| - 1]);
      assert forall u :: u in us[..|us| - 1] ==> u in us;
      if us[|us| - 1].id in rest then rest else rest + [us[|us| - 1].id]
  }
}
