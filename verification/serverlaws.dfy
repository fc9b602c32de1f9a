/**
 * Properties of the node server: it numbers a batch exactly as the local
 * back end does, resolves every `oldData: true` to the object as the
 * earlier changes leave it, keeps the log able to rebuild the store, keeps
 * the window of recent updates the tail of the log, and answers a catch-up
 * with every batch after the client's last one.
 */
module ServerLaws {
  import opened Wrappers
  import opened Values
  import GraphStore
  import StoreLaws
  import opened IdMapping
  import opened SyncServer

  // ---------------------------------------------------------------------
  // The loop of storeInDB against the shared translation loop
  // ---------------------------------------------------------------------

  lemma {:induction false} ReplaceAllAppend(objects: map<Id, Data>, us: seq<Update>, u: Update)
    ensures GraphStore.ReplaceAll(objects, us + [u]) == GraphStore.Replace(GraphStore.ReplaceAll(objects, us), u)
    decreases |us|
  {
    if |us| > 0 {
      assert (us + [u])[1..] == us[1..] + [u];
      ReplaceAllAppend(GraphStore.Replace(objects, us[0]), us[1..], u);
    } else {
      assert [u][1..] == [];
    }
  }

  /** `dbPatchState` holds the batch so far: reading through it gives the objects as the translated changes leave them. */
  ghost predicate PatchTracks(objects: map<Id, Data>, b: Batch) {
    forall x :: GraphStore.Peek(objects, b.patch, x) == GraphStore.Lookup(GraphStore.ReplaceAll(objects, b.t.result), x)
  }

  /**
   * The server's entry `su` is the back end's entry `bu` with a placeholder
   * replaced by the object as the entries `before` it leave the store.
   */
  predicate Resolved(objects: map<Id, Data>, before: seq<Update>, bu: Update, su: Update) {
    && su.id == bu.id && su.data == bu.data
    && (bu.oldData.ExpectAny? ==>
          && GraphStore.Lookup(GraphStore.ReplaceAll(objects, before), su.id).Some?
          && su.oldData == ExpectExactly(GraphStore.Lookup(GraphStore.ReplaceAll(objects, before), su.id).value))
    && (!bu.oldData.ExpectAny? ==> su.oldData == bu.oldData)
  }

  /** The server's loop state matches the back end's entry by entry, with the same generator and id map. */
  predicate Agrees(objects: map<Id, Data>, bt: Translation, st: Translation) {
    && st.gen == bt.gen && st.idMap == bt.idMap && |st.result| == |bt.result|
    && forall i :: 0 <= i < |st.result| ==> Resolved(objects, st.result[..i], bt.result[i], st.result[i])
  }

  lemma StoreChangeAgrees(objects: map<Id, Data>, b: Batch, bt: Translation, ch: Update)
    requires Agrees(objects, bt, b.t) && PatchTracks(objects, b)
    requires StoreChange(objects, b, ch).Ok?
    ensures TranslateChange(bt, ch).Ok?
    ensures Agrees(objects, TranslateChange(bt, ch).state, StoreChange(objects, b, ch).state.t)
    ensures PatchTracks(objects, StoreChange(objects, b, ch).state)
  {
    if !Skipped(ch) {
      var a := AssignId(b.t, ch).value;
      var ab := AssignId(bt, ch).value;
      assert ab.id == a.id && ab.t.gen == a.t.gen && ab.t.idMap == a.t.idMap;
      var o := MapExpect(ch.oldData, a.t.idMap).value;
      var o1 := Resolve(o, objects, b.patch, a.id).value;
      var d := MapData(ch.data, a.t.idMap).value;
      var su := Update(a.id, o1, d);
      var bu := Update(a.id, o, d);
      var s1 := StoreChange(objects, b, ch).state;
      var t1 := TranslateChange(bt, ch).state;
      assert s1.t.result == b.t.result + [su];
      assert t1.result == bt.result + [bu];
      forall i | 0 <= i < |s1.t.result|
        ensures Resolved(objects, s1.t.result[..i], t1.result[i], s1.t.result[i])
      {
        if i < |b.t.result| {
          assert s1.t.result[..i] == b.t.result[..i];
        } else {
          assert s1.t.result[..i] == b.t.result;
        }
      }
      assert s1.patch == b.patch[a.id := d];
      ReplaceAllAppend(objects, b.t.result, su);
      var before := GraphStore.ReplaceAll(objects, b.t.result);
      assert GraphStore.ReplaceAll(objects, s1.t.result) == GraphStore.Replace(before, su);
      forall x
        ensures GraphStore.Peek(objects, s1.patch, x) == GraphStore.Lookup(GraphStore.ReplaceAll(objects, s1.t.result), x)
      {
        if x != a.id {
          assert GraphStore.Peek(objects, b.patch, x) == GraphStore.Lookup(before, x);
        }
      }
    }
  }

  lemma {:induction false} StoreLoopAgrees(objects: map<Id, Data>, b: Batch, bt: Translation, cs: seq<Update>)
    requires Agrees(objects, bt, b.t) && PatchTracks(objects, b)
    requires StoreLoop(objects, b, cs).Ok?
    ensures Translate(bt, cs).Ok?
    ensures Agrees(objects, Translate(bt, cs).state, StoreLoop(objects, b, cs).state.t)
    decreases |cs|
  {
    if |cs| > 0 {
      StoreChangeAgrees(objects, b, bt, cs[0]);
      StoreLoopAgrees(objects, StoreChange(objects, b, cs[0]).state, TranslateChange(bt, cs[0]).state, cs[1..]);
    }
  }

  /**
   * When the server accepts a batch's loop, the local back end's loop
   * accepts it too: both issue the same ids and the same id map, and the
   * server's entries differ only in carrying, for each `oldData: true`, the
   * object as the store and the earlier entries leave it.
   */
  lemma ServerNumbersLikeBackend(objects: map<Id, Data>, gen: int, cs: seq<Update>)
    requires StoreLoop(objects, Batch(Translation(gen, map[], []), map[]), cs).Ok?
    ensures Translate(Translation(gen, map[], []), cs).Ok?
    ensures Agrees(objects, Translate(Translation(gen, map[], []), cs).state,
                   StoreLoop(objects, Batch(Translation(gen, map[], []), map[]), cs).state.t)
  {
    StoreLoopAgrees(objects, Batch(Translation(gen, map[], []), map[]), Translation(gen, map[], []), cs);
  }

  lemma EntryLoggable(objects: map<Id, Data>, before: seq<Update>, k: Update, bu: Update, su: Update, g0: int, g1: int)
    requires !Skipped(k) && Renamed(k, bu, g0, g1) && Resolved(objects, before, bu, su)
    ensures !Skipped(su) && !su.oldData.ExpectAny?
  {
  }

  /**
   * Every entry of an accepted server batch has old or new data and no
   * placeholder left, so writing it to the log never reaches the `throw`
   * of the normalisation.
   */
  lemma StoredEntriesLoggable(objects: map<Id, Data>, gen: int, cs: seq<Update>)
    requires gen >= 0
    requires StoreLoop(objects, Batch(Translation(gen, map[], []), map[]), cs).Ok?
    ensures var us := StoreLoop(objects, Batch(Translation(gen, map[], []), map[]), cs).state.t.result;
      && (forall u :: u in us ==> !Skipped(u) && !u.oldData.ExpectAny?)
      && Normalise(us).Success?
  {
    var t0 := Translation(gen, map[], []);
    ServerNumbersLikeBackend(objects, gen, cs);
    TranslateRenames(t0, cs);
    var bt := Translate(t0, cs).state;
    var st := StoreLoop(objects, Batch(t0, map[]), cs).state.t;
    assert Agrees(objects, bt, st);
    assert Extends(t0, bt, Kept(cs));
    var us := st.result;
    forall u | u in us
      ensures !Skipped(u) && !u.oldData.ExpectAny?
    {
      var i :| 0 <= i < |us| && us[i] == u;
      assert Kept(cs)[i] in Kept(cs);
      EntryLoggable(objects, us[..i], Kept(cs)[i], bt.result[i], us[i], t0.gen, bt.gen);
    }
  }

  // ---------------------------------------------------------------------
  // The log rebuilds the store
  // ---------------------------------------------------------------------

  lemma StepLogged(objects: map<Id, Data>, st: GraphStore.Staged, u: Update)
    requires GraphStore.Step(objects, st, u).Success?
    ensures GraphStore.Step(objects, st, Logged(u)) == GraphStore.Step(objects, st, u)
  {
  }

  lemma {:induction false} FoldLogged(objects: map<Id, Data>, st: GraphStore.Staged, us: seq<Update>, ws: seq<Update>)
    requires |ws| == |us| && forall i :: 0 <= i < |us| ==> ws[i] == Logged(us[i])
    requires GraphStore.Fold(objects, st, us).Success?
    ensures GraphStore.Fold(objects, st, ws) == GraphStore.Fold(objects, st, us)
    decreases |us|
  {
    if |us| > 0 {
      StepLogged(objects, st, us[0]);
      FoldLogged(objects, GraphStore.Step(objects, st, us[0]).value, us[1..], ws[1..]);
    }
  }

  /**
   * Replaying a logged batch, placeholders and all, does exactly what the
   * batch did: the old data it drops was checked when it was applied.
   */
  lemma ModifyLogged(s: GraphStore.Store, us: seq<Update>)
    requires GraphStore.Modify(s, us).Success?
    ensures Normalise(us).Success? ==> GraphStore.Modify(s, Normalise(us).value) == GraphStore.Modify(s, us)
  {
    if Normalise(us).Success? {
      FoldLogged(s.objects, GraphStore.Start(s), us, Normalise(us).value);
    }
  }

  /** The log rebuilds the store the server holds. */
  predicate LogReproduces(sv: Server) {
    Replay(sv.log) == Success(sv.store)
  }

  /** The recent entry and the log record carry the same update: same id, same time, the batch as logged. */
  predicate Mirrors(r: Recent, rec: LogRecord) {
    r.updateId == rec.updateId && r.timestamp == rec.timestamp && Normalise(r.updates) == Success(rec.updates)
  }

  /**
   * The window is the tail of the log: its entries mirror the last records,
   * the predecessor is the id of the record just before them (or the
   * initial id), and the last update id is that of the last record.
   */
  predicate WindowOk(log: seq<LogRecord>, recent: seq<Recent>, prev: string, last: string) {
    && |recent| <= |log|
    && last == LastId(log)
    && prev == LastId(log[..|log| - |recent|])
    && forall i :: 0 <= i < |recent| ==> Mirrors(recent[i], log[|log| - |recent| + i])
  }

  predicate WindowInv(sv: Server) {
    WindowOk(sv.log, sv.recent, sv.prevUpdateId, sv.lastUpdateId)
  }

  lemma DropKeepsWindow(log: seq<LogRecord>, recent: seq<Recent>, prev: string, last: string, k: nat)
    requires WindowOk(log, recent, prev, last)
    requires k <= |recent|
    ensures WindowOk(log, recent[k..], if k == 0 then prev else recent[k - 1].updateId, last)
  {
    var n, m := |log|, |recent|;
    if k > 0 {
      assert Mirrors(recent[k - 1], log[n - m + k - 1]);
      assert log[..n - m + k][n - m + k - 1] == log[n - m + k - 1];
    }
    forall i | 0 <= i < m - k
      ensures Mirrors(recent[k..][i], log[n - (m - k) + i])
    {
      assert recent[k..][i] == recent[k + i];
      assert Mirrors(recent[k + i], log[n - m + (k + i)]);
    }
  }

  /** Trimming moves the window's start forward along the log. */
  lemma TrimKeepsWindow(log: seq<LogRecord>, recent: seq<Recent>, prev: string, last: string, now: int)
    requires WindowOk(log, recent, prev, last)
    ensures WindowOk(log, Trim(recent, prev, now).0, Trim(recent, prev, now).1, last)
  {
    var trimmed := Trim(recent, prev, now);
    var k := |recent| - |trimmed.0|;
    assert trimmed.0 == recent[k..];
    assert trimmed.1 == if k == 0 then prev else recent[k - 1].updateId;
    DropKeepsWindow(log, recent, prev, last, k);
  }

  /** Appending the same update to the window and to the log keeps them in step. */
  lemma PushKeepsWindow(log: seq<LogRecord>, recent: seq<Recent>, prev: string, last: string, r: Recent, rec: LogRecord)
    requires WindowOk(log, recent, prev, last)
    requires Mirrors(r, rec)
    ensures WindowOk(log + [rec], recent + [r], prev, rec.updateId)
  {
    var log1, recent1 := log + [rec], recent + [r];
    assert |log1| - |recent1| == |log| - |recent|;
    assert log1[..|log1| - |recent1|] == log[..|log| - |recent|];
    forall i | 0 <= i < |recent1|
      ensures Mirrors(recent1[i], log1[|log1| - |recent1| + i])
    {
      if i < |recent| {
        assert recent1[i] == recent[i];
        assert log1[|log1| - |recent1| + i] == log[|log| - |recent| + i];
      }
    }
  }

  lemma StartupInv(log: seq<LogRecord>)
    requires Startup(log).Success?
    ensures LogReproduces(Startup(log).value) && WindowInv(Startup(log).value)
  {
    assert log[..|log|] == log;
  }

  /** A batch `storeInDB` accepts, with the loop's final state. */
  lemma StoreInDBShape(sv: Server, cs: seq<Update>, now: int, freshId: string)
    requires StoreInDB(sv, cs, now, freshId).Ok?
    ensures var b := StoreLoop(sv.store.objects, Batch(Translation(sv.gen, map[], []), map[]), cs);
      var sv1 := StoreInDB(sv, cs, now, freshId).state.server;
      && b.Ok?
      && GraphStore.Modify(sv.store, b.state.t.result).Success?
      && sv1.store == GraphStore.Modify(sv.store, b.state.t.result).value.store
      && Normalise(b.state.t.result).Success?
      && sv1.log == sv.log + [LogRecord(freshId, now, Normalise(b.state.t.result).value)]
      && sv1.recent == Trim(sv.recent, sv.prevUpdateId, now).0 + [Recent(b.state.t.result, freshId, now)]
      && sv1.prevUpdateId == Trim(sv.recent, sv.prevUpdateId, now).1
      && sv1.lastUpdateId == freshId
  {
  }

  /**
   * `storeInDB` is all-or-nothing apart from the generator: a batch that
   * throws leaves the store, the window and the log as they were, and the
   * generator never goes back.
   */
  lemma StoreInDBAtomic(sv: Server, cs: seq<Update>, now: int, freshId: string)
    requires sv.gen >= 0
    requires StoreInDB(sv, cs, now, freshId).Threw?
    ensures StoreInDB(sv, cs, now, freshId).state.server == sv.(gen := StoreInDB(sv, cs, now, freshId).state.server.gen)
    ensures StoreInDB(sv, cs, now, freshId).state.server.gen >= sv.gen
  {
    var b := StoreLoop(sv.store.objects, Batch(Translation(sv.gen, map[], []), map[]), cs);
    if b.Ok? {
      StoredEntriesLoggable(sv.store.objects, sv.gen, cs);
    }
  }

  /** Every stored batch is logged so that replaying the log still rebuilds the store. */
  lemma StoreInDBKeepsLog(sv: Server, cs: seq<Update>, now: int, freshId: string)
    requires LogReproduces(sv)
    requires StoreInDB(sv, cs, now, freshId).Ok?
    ensures LogReproduces(StoreInDB(sv, cs, now, freshId).state.server)
  {
    StoreInDBShape(sv, cs, now, freshId);
    var us := StoreLoop(sv.store.objects, Batch(Translation(sv.gen, map[], []), map[]), cs).state.t.result;
    var sv1 := StoreInDB(sv, cs, now, freshId).state.server;
    ModifyLogged(sv.store, us);
    assert sv1.log[..|sv1.log| - 1] == sv.log;
  }

  /** Storing a batch trims the window and appends the batch to it and to the log in step. */
  lemma StoreInDBKeepsWindow(sv: Server, cs: seq<Update>, now: int, freshId: string)
    requires WindowInv(sv)
    requires StoreInDB(sv, cs, now, freshId).Ok?
    ensures WindowInv(StoreInDB(sv, cs, now, freshId).state.server)
  {
    StoreInDBShape(sv, cs, now, freshId);
    var us := StoreLoop(sv.store.objects, Batch(Translation(sv.gen, map[], []), map[]), cs).state.t.result;
    var trimmed := Trim(sv.recent, sv.prevUpdateId, now);
    TrimKeepsWindow(sv.log, sv.recent, sv.prevUpdateId, sv.lastUpdateId, now);
    PushKeepsWindow(sv.log, trimmed.0, trimmed.1, sv.lastUpdateId,
                    Recent(us, freshId, now), LogRecord(freshId, now, Normalise(us).value));
  }

  // ---------------------------------------------------------------------
  // Catching up
  // ---------------------------------------------------------------------

  /** Update ids are unique: no two records share one and none is the initial id. */
  predicate UniqueIds(log: seq<LogRecord>) {
    && (forall i, j :: 0 <= i < j < |log| ==> log[i].updateId != log[j].updateId)
    && (forall i :: 0 <= i < |log| ==> log[i].updateId != StartId)
  }

  /** The id a client holds after seeing record `j`; -1 is before the first record. */
  function IdAfter(log: seq<LogRecord>, j: int): string
    requires -1 <= j < |log|
  {
    if j == -1 then StartId else log[j].updateId
  }

  lemma IndexOfIs(rs: seq<Recent>, id: string, k: nat)
    requires k < |rs| && rs[k].updateId == id
    requires forall i :: 0 <= i < k ==> rs[i].updateId != id
    ensures IndexOf(rs, id) == k
  {
  }

  /** The window's ids read off the log. */
  lemma WindowIds(sv: Server)
    requires WindowInv(sv)
    ensures forall i :: 0 <= i < |sv.recent| ==> sv.recent[i].updateId == sv.log[|sv.log| - |sv.recent| + i].updateId
    ensures sv.prevUpdateId == IdAfter(sv.log, |sv.log| - |sv.recent| - 1)
  {
    var base := |sv.log| - |sv.recent|;
    forall i | 0 <= i < |sv.recent|
      ensures sv.recent[i].updateId == sv.log[base + i].updateId
    {
      assert Mirrors(sv.recent[i], sv.log[base + i]);
    }
    if base > 0 {
      assert sv.log[..base][base - 1] == sv.log[base - 1];
    }
  }

  /**
   * A client that last saw record `j`, where `j` is the window's
   * predecessor or in the window, is sent the batches of every later
   * record, in order, as they were applied.
   */
  lemma CatchUpSendsLaterBatches(sv: Server, j: int, idMap: Option<map<Id, Id>>, error: Option<Error>)
    requires WindowInv(sv) && UniqueIds(sv.log)
    requires |sv.log| - |sv.recent| - 1 <= j < |sv.log|
    ensures Respond(sv, Some(IdAfter(sv.log, j)), idMap, error) ==
      Reply(Since(Concat(sv.recent[j - (|sv.log| - |sv.recent|) + 1..])), sv.lastUpdateId, idMap, error)
  {
    var base := |sv.log| - |sv.recent|;
    if j == base - 1 {
      WindowIds(sv);
      assert sv.recent[0..] == sv.recent;
    } else {
      WindowIndex(sv, j);
    }
  }

  /** A record in the window is found at its own position, and is not the window's predecessor. */
  lemma WindowIndex(sv: Server, j: int)
    requires WindowInv(sv) && UniqueIds(sv.log)
    requires |sv.log| - |sv.recent| <= j < |sv.log|
    ensures sv.log[j].updateId != sv.prevUpdateId
    ensures IndexOf(sv.recent, sv.log[j].updateId) == j - (|sv.log| - |sv.recent|)
  {
    var base := |sv.log| - |sv.recent|;
    var a := sv.log[j].updateId;
    WindowIds(sv);
    if base > 0 {
      assert sv.log[base - 1].updateId != a;
    }
    forall i | 0 <= i < j - base
      ensures sv.recent[i].updateId != a
    {
      assert sv.recent[i].updateId == sv.log[base + i].updateId;
    }
    IndexOfIs(sv.recent, a, j - base);
  }

  /**
   * A client whose last update has left the window, being neither its
   * predecessor nor in it, gets the 500 reply and no objects.
   */
  lemma CatchUpFromTrimmedFails(sv: Server, j: int, idMap: Option<map<Id, Id>>, error: Option<Error>)
    requires WindowInv(sv) && UniqueIds(sv.log)
    requires -1 <= j < |sv.log| - |sv.recent| - 1
    ensures Respond(sv, Some(IdAfter(sv.log, j)), idMap, error) == NotFound
  {
    WindowIds(sv);
  }

  lemma ConcatLast(rs: seq<Recent>)
    requires |rs| > 0
    ensures Concat(rs) == Concat(rs[..|rs| - 1]) + rs[|rs| - 1].updates
  {
  }

  lemma UniqueAppend(log: seq<LogRecord>, rec: LogRecord)
    requires UniqueIds(log + [LogRecord(rec.updateId, 0, [])])
    ensures UniqueIds(log + [rec])
  {
    var l0 := log + [LogRecord(rec.updateId, 0, [])];
    assert forall i :: 0 <= i < |log| + 1 ==> (log + [rec])[i].updateId == l0[i].updateId;
  }

  /** A catch-up from before the newest record ends with the newest batch. */
  lemma CatchUpEndsWithNewest(sv: Server, j: int, idMap: Option<map<Id, Id>>, error: Option<Error>)
    requires WindowInv(sv) && UniqueIds(sv.log) && |sv.recent| > 0
    requires |sv.log| - |sv.recent| - 1 <= j < |sv.log| - 1
    ensures var x := j - (|sv.log| - |sv.recent|) + 1;
      Respond(sv, Some(IdAfter(sv.log, j)), idMap, error) ==
      Reply(Since(Concat(sv.recent[x..|sv.recent| - 1]) + sv.recent[|sv.recent| - 1].updates), sv.lastUpdateId, idMap, error)
  {
    CatchUpSendsLaterBatches(sv, j, idMap, error);
    ConcatSuffixLast(sv.recent, j - (|sv.log| - |sv.recent|) + 1);
  }

  lemma ConcatSuffixLast(rs: seq<Recent>, x: nat)
    requires x < |rs|
    ensures Concat(rs[x..]) == Concat(rs[x..|rs| - 1]) + rs[|rs| - 1].updates
  {
    var tail := rs[x..];
    ConcatLast(tail);
    assert tail[..|tail| - 1] == rs[x..|rs| - 1];
  }

  lemma HandlePosted(sv: Server, after: Option<string>, cs: seq<Update>, now: int, freshId: string, st: Stored)
    requires StoreInDB(sv, cs, now, freshId) == Ok(st)
    ensures HandleUpdate(sv, after, Some(cs), now, freshId) == (st.server, Respond(st.server, after, Some(st.idMap), None))
  {
  }

  /** What a stored batch leaves at the ends of the log and of the window. */
  lemma StoreInDBAppends(sv: Server, cs: seq<Update>, now: int, freshId: string, st: Stored)
    requires StoreInDB(sv, cs, now, freshId) == Ok(st)
    ensures |st.server.log| == |sv.log| + 1 && st.server.log == sv.log + [st.server.log[|sv.log|]]
    ensures st.server.log[|sv.log|].updateId == freshId && st.server.lastUpdateId == freshId
    ensures |st.server.recent| > 0
    ensures st.server.recent[|st.server.recent| - 1].updates ==
      StoreLoop(sv.store.objects, Batch(Translation(sv.gen, map[], []), map[]), cs).state.t.result
  {
    StoreInDBShape(sv, cs, now, freshId);
  }

  /**
   * A client posting a batch after seeing record `j`, still in reach of the
   * window, gets the id map and every batch after `j`, ending with its own
   * batch as the server applied it.
   */
  lemma PostAnswersWithOwnBatch(sv: Server, j: int, cs: seq<Update>, now: int, freshId: string, st: Stored)
    requires WindowInv(sv) && UniqueIds(sv.log + [LogRecord(freshId, 0, [])])
    requires StoreInDB(sv, cs, now, freshId) == Ok(st)
    requires |st.server.log| - |st.server.recent| - 1 <= j < |sv.log|
    ensures var us := StoreLoop(sv.store.objects, Batch(Translation(sv.gen, map[], []), map[]), cs).state.t.result;
      var x := j - (|st.server.log| - |st.server.recent|) + 1;
      HandleUpdate(sv, Some(IdAfter(sv.log, j)), Some(cs), now, freshId) ==
        (st.server, Reply(Since(Concat(st.server.recent[x..|st.server.recent| - 1]) + us), freshId, Some(st.idMap), None))
  {
    StoreInDBAppends(sv, cs, now, freshId, st);
    StoreInDBKeepsWindow(sv, cs, now, freshId);
    var sv1 := st.server;
    UniqueAppend(sv.log, sv1.log[|sv.log|]);
    assert IdAfter(sv1.log, j) == IdAfter(sv.log, j);
    var us := StoreLoop(sv.store.objects, Batch(Translation(sv.gen, map[], []), map[]), cs).state.t.result;
    NewestReply(sv1, j, st.idMap, us, freshId);
    HandlePosted(sv, Some(IdAfter(sv.log, j)), cs, now, freshId, st);
  }

  /** The catch-up reply to a poster whose batch is the newest in the window. */
  lemma NewestReply(sv1: Server, j: int, idMap: map<Id, Id>, us: seq<Update>, freshId: string)
    requires WindowInv(sv1) && UniqueIds(sv1.log) && |sv1.recent| > 0
    requires |sv1.log| - |sv1.recent| - 1 <= j < |sv1.log| - 1
    requires sv1.recent[|sv1.recent| - 1].updates == us && sv1.lastUpdateId == freshId
    ensures var x := j - (|sv1.log| - |sv1.recent|) + 1;
      Respond(sv1, Some(IdAfter(sv1.log, j)), Some(idMap), None) ==
      Reply(Since(Concat(sv1.recent[x..|sv1.recent| - 1]) + us), freshId, Some(idMap), None)
  {
    CatchUpEndsWithNewest(sv1, j, Some(idMap), None);
  }
}
