/**
 * The node server of node-server.js: one graph store rebuilt at start-up
 * by replaying the append-only log, a window of recent updates for clients
 * catching up, and `storeInDB`, which numbers a client batch, resolves its
 * `oldData: true` placeholders, applies it and logs it. Time and the random
 * update id are parameters; the log is a sequence of decoded records (the
 * byte layout is LogFormat's).
 */
module SyncServer {
  import opened Wrappers
  import opened Values
  import GraphStore
  import opened IdMapping

  /** An element of `recentChanges`: the batch as applied, with its metadata. */
  datatype Recent = Recent(updates: seq<Update>, updateId: string, timestamp: int)

  /** A log record: the metadata and the batch as written (placeholders for old data). */
  datatype LogRecord = LogRecord(updateId: string, timestamp: int, updates: seq<Update>)

  datatype Server = Server(
    store: GraphStore.Store,
    gen: int,                 // serverIDGenerator
    recent: seq<Recent>,      // recentChanges, oldest first
    prevUpdateId: string,     // the update just before the window
    lastUpdateId: string,
    log: seq<LogRecord>)      // database.obj

  /** The update id a server with an empty log reports. */
  const StartId: string := "start"

  /** How long an update stays in the window, in milliseconds. */
  const WindowMillis: int := 60 * 1000

  // ---------------------------------------------------------------------
  // Start-up
  // ---------------------------------------------------------------------

  /** The start-up loop: every record's batch applied in order to an empty store; a throw aborts start-up. */
  function Replay(log: seq<LogRecord>): Result<GraphStore.Store, Error>
    decreases |log|
  {
    if |log| == 0 then Success(GraphStore.EmptyStore())
    else
      var s :- Replay(log[..|log| - 1]);
      var m :- GraphStore.Modify(s, log[|log| - 1].updates);
      Success(m.store)
  }

  /** The update id of the last record, or the initial one. */
  function LastId(log: seq<LogRecord>): string {
    if |log| == 0 then StartId else log[|log| - 1].updateId
  }

  /** Start-up: replay the log, open an empty window just after its last record, start the generator at the largest id. */
  function Startup(log: seq<LogRecord>): (r: Result<Server, Error>)
    ensures r.Success? <==> Replay(log).Success?
    ensures r.Success? ==> r.value.recent == [] && r.value.log == log
    ensures r.Success? ==> forall x :: x in r.value.store.objects && x.Num? ==> x.n <= r.value.gen
  {
    var s :- Replay(log);
    Success(Server(s, MaxId(s.objects.Keys), [], LastId(log), LastId(log), log))
  }

  // ---------------------------------------------------------------------
  // storeInDB
  // ---------------------------------------------------------------------

  /** The loop state of `storeInDB`: the shared translation state and `dbPatchState`. */
  datatype Batch = Batch(t: Translation, patch: map<Id, Option<Data>>)

  /**
   * `oldData === true` becomes the object as the earlier changes of the
   * batch leave it (`dbPatchState`) or as the store holds it; an absent
   * object throws.
   */
  function Resolve(o: Expect, objects: map<Id, Data>, patch: map<Id, Option<Data>>, id: Id): (r: Result<Expect, Error>)
    ensures !o.ExpectAny? ==> r == Success(o)
    ensures o.ExpectAny? ==> (r.Failure? <==> GraphStore.Peek(objects, patch, id).None?)
    ensures o.ExpectAny? && r.Success? ==> r.value == ExpectExactly(GraphStore.Peek(objects, patch, id).value)
    ensures r.Success? ==> !r.value.ExpectAny?
    ensures r.Failure? ==> r.error == MissingPrior
  {
    if o.ExpectAny? then
      match GraphStore.Peek(objects, patch, id)
      case None => Failure(MissingPrior)
      case Some(d) => Success(ExpectExactly(d))
    else Success(o)
  }

  /** One iteration of the loop of `storeInDB`: the id, then `oldData` mapped and resolved, then `data` mapped. */
  function StoreChange(objects: map<Id, Data>, b: Batch, ch: Update): (r: Outcome<Batch, Error>)
    ensures Skipped(ch) ==> r == Ok(b)
    ensures r.state.t.gen >= b.t.gen
  {
    if Skipped(ch) then Ok(b)
    else match AssignId(b.t, ch)
      case Failure(e) => Threw(b, e)
      case Success(a) =>
        var b1 := b.(t := a.t);
        match MapExpect(ch.oldData, a.t.idMap)
        case Failure(e) => Threw(b1, e)
        case Success(o) =>
          match Resolve(o, objects, b.patch, a.id)
          case Failure(e) => Threw(b1, e)
          case Success(o1) =>
            match MapData(ch.data, a.t.idMap)
            case Failure(e) => Threw(b1, e)
            case Success(d) =>
              Ok(Batch(a.t.(result := a.t.result + [Update(a.id, o1, d)]), b.patch[a.id := d]))
  }

  function StoreLoop(objects: map<Id, Data>, b: Batch, cs: seq<Update>): (r: Outcome<Batch, Error>)
    ensures r.state.t.gen >= b.t.gen
    decreases |cs|
  {
    if |cs| == 0 then Ok(b)
    else
      var b1 :- StoreChange(objects, b, cs[0]);
      StoreLoop(objects, b1, cs[1..])
  }

  /**
   * The record written to the log: old data reduced to a placeholder
   * (`true`), or left out for inserts; an entry with neither old nor new
   * data throws.
   */
  function Logged(u: Update): Update {
    Update(u.id, if u.oldData.ExpectNone? then ExpectNone else ExpectAny, u.data)
  }

  function Normalise(us: seq<Update>): (r: Result<seq<Update>, Error>)
    ensures r.Success? <==> forall u :: u in us ==> !Skipped(u)
    ensures r.Success? ==> |r.value| == |us| && forall i :: 0 <= i < |us| ==> r.value[i] == Logged(us[i])
    ensures r.Failure? ==> r.error == EmptyLogEntry
    decreases |us|
  {
    if |us| == 0 then Success([])
    else if Skipped(us[0]) then Failure(EmptyLogEntry)
    else
      var rest :- Normalise(us[1..]);
      assert forall u :: u in us[1..] ==> u in us;
      assert forall u :: u in us ==> u == us[0] || u in us[1..];
      Success([Logged(us[0])] + rest)
  }

  /** Drop updates older than the window from the front; the last one dropped becomes the window's predecessor. */
  function Trim(recent: seq<Recent>, prev: string, now: int): (r: (seq<Recent>, string))
    ensures |r.0| <= |recent| && r.0 == recent[|recent| - |r.0|..]
    ensures |r.0| > 0 ==> r.0[0].timestamp >= now - WindowMillis
    ensures forall i :: 0 <= i < |recent| - |r.0| ==> recent[i].timestamp < now - WindowMillis
    ensures r.1 == if |r.0| == |recent| then prev else recent[|recent| - |r.0| - 1].updateId
    decreases |recent|
  {
    if |recent| > 0 && recent[0].timestamp < now - WindowMillis then
      var r := Trim(recent[1..], recent[0].updateId, now);
      assert recent[1..][|recent| - 1 - |r.0|..] == recent[|recent| - |r.0|..];
      r
    else (recent, prev)
  }

  /** What `storeInDB` leaves: the server and the id map it returns. */
  datatype Stored = Stored(server: Server, idMap: map<Id, Id>)

  /**
   * `storeInDB(changes)` at time `now`, naming the update `freshId`. A throw
   * in the loop or in `modify` keeps the generator as far as it got and
   * changes nothing else.
   */
  function StoreInDB(sv: Server, cs: seq<Update>, now: int, freshId: string): (r: Outcome<Stored, Error>)
    ensures r.state.server.gen >= sv.gen
    ensures r.Threw? && r.error != EmptyLogEntry ==> r.state.server == sv.(gen := r.state.server.gen)
  {
    match StoreLoop(sv.store.objects, Batch(Translation(sv.gen, map[], []), map[]), cs)
    case Threw(b, e) => Threw(Stored(sv.(gen := b.t.gen), map[]), e)
    case Ok(b) =>
      match GraphStore.Modify(sv.store, b.t.result)
      case Failure(e) => Threw(Stored(sv.(gen := b.t.gen), map[]), e)
      case Success(m) =>
        var trimmed := Trim(sv.recent, sv.prevUpdateId, now);
        var sv1 := sv.(store := m.store, gen := b.t.gen, recent := trimmed.0 + [Recent(b.t.result, freshId, now)],
                       prevUpdateId := trimmed.1, lastUpdateId := freshId);
        match Normalise(b.t.result)
        case Failure(e) => Threw(Stored(sv1, map[]), e)
        case Success(logged) => Ok(Stored(sv1.(log := sv.log + [LogRecord(freshId, now, logged)]), b.t.idMap))
  }

  // ---------------------------------------------------------------------
  // sendUpdateResponse and handleUpdate
  // ---------------------------------------------------------------------

  /** The objects of a reply: the whole store, or the updates after the client's last one. */
  datatype Objects = Everything(objects: map<Id, Data>) | Since(updates: seq<Update>)

  /** A 200 reply, or the 500 for an update id that is neither the window's predecessor nor in it. */
  datatype Reply = Reply(objects: Objects, updateId: string, idMap: Option<map<Id, Id>>, error: Option<Error>) | NotFound

  function Concat(rs: seq<Recent>): seq<Update>
    decreases |rs|
  {
    if |rs| == 0 then [] else Concat(rs[..|rs| - 1]) + rs[|rs| - 1].updates
  }

  /** `findIndex` on the window's update ids. */
  function IndexOf(rs: seq<Recent>, id: string): (r: int)
    ensures -1 <= r < |rs|
    ensures r == -1 <==> forall i :: 0 <= i < |rs| ==> rs[i].updateId != id
    ensures r >= 0 ==> rs[r].updateId == id && forall i :: 0 <= i < r ==> rs[i].updateId != id
    decreases |rs|
  {
    if |rs| == 0 then -1
    else if rs[0].updateId == id then 0
    else
      var k := IndexOf(rs[1..], id);
      if k == -1 then -1 else k + 1
  }

  function Respond(sv: Server, after: Option<string>, idMap: Option<map<Id, Id>>, error: Option<Error>): (r: Reply)
    ensures r.Reply? ==> r.idMap == idMap && r.error == error && r.updateId == sv.lastUpdateId
    ensures after.None? ==> r == Reply(Everything(sv.store.objects), sv.lastUpdateId, idMap, error)
  {
    if after.None? then Reply(Everything(sv.store.objects), sv.lastUpdateId, idMap, error)
    else if after.value == sv.prevUpdateId then Reply(Since(Concat(sv.recent)), sv.lastUpdateId, idMap, error)
    else
      var k := IndexOf(sv.recent, after.value);
      if k == -1 then NotFound
      else Reply(Since(Concat(sv.recent[k + 1..])), sv.lastUpdateId, idMap, error)
  }

  /** `e.message` as the reply carries it: the errors thrown as a bare `new Error()` have none. */
  function Message(e: Error): Option<Error> {
    if e == UnmappedRef || e == EmptyLogEntry then None else Some(e)
  }

  /** `handleUpdate`: a GET (no body) only catches up; a POST first stores its batch. */
  function HandleUpdate(sv: Server, after: Option<string>, body: Option<seq<Update>>, now: int, freshId: string): (r: (Server, Reply))
    ensures body.None? ==> r.0 == sv
    ensures body.Some? && StoreInDB(sv, body.value, now, freshId).Ok? ==> r.1.Reply? ==> r.1.idMap.Some?
    ensures body.Some? && StoreInDB(sv, body.value, now, freshId).Threw? ==> r.1.Reply? ==> r.1.idMap.None?
  {
    if body.None? then (sv, Respond(sv, after, None, None))
    else
      var stored := StoreInDB(sv, body.value, now, freshId);
      if stored.Ok? then (stored.state.server, Respond(stored.state.server, after, Some(stored.state.idMap), None))
      else (stored.state.server, Respond(stored.state.server, after, None, Message(stored.error)))
  }
}
