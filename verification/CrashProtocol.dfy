/** Every run of the crash-stress harness: interleaved workers, a kill at any point,
    recovery, restart. */
module CrashProtocol {
  import opened Order
  import opened CrashRecovery
  import Runs

  datatype Config = Config(workers: nat, initialRows: nat, payload: (nat, int) -> string)

  /** Where a worker stands inside `commit_mutation`. */
  datatype Phase =
    | Idle
    | Reserved(tx: nat, m: Mutation)   // transaction number taken
    | Intended(tx: nat, m: Mutation)   // intent durable
    | Applied(tx: nat, m: Mutation)    // statement durable and acknowledged as expected
    | Failed                           // statement answered something else

  datatype Worker = Worker(model: Rows, sequence: nat, phase: Phase)

  /** `applied` is history: the statements that took effect since the last recovery. */
  datatype World = World(snapshot: Snapshot, journal: seq<Event>, db: Rows, up: bool,
                         nextTx: nat, workers: seq<Worker>, applied: map<nat, Mutation>)

  datatype Action =
    | PlanInsert
    | PlanUpdate(id: Id)
    | PlanDelete(id: Id)
    | WriteIntent
    | RunSql
    | WriteCommit

  datatype Step = Work(w: nat, action: Action) | Kill | RecoverRun | Restart

  function ExpectedRow(cfg: Config, worker: nat, generation: int): Row {
    Row(worker, generation, cfg.payload(worker, generation))
  }

  /* ---- the database, one statement at a time ---- */

  predicate SqlAccepts(db: Rows, m: Mutation) {
    match m.kind
    case Insert => m.id !in db && m.after.Some?
    case Update => m.id in db && m.after.Some?
    case Delete => m.id in db
  }

  function SqlEffect(db: Rows, m: Mutation): Rows
    requires SqlAccepts(db, m)
  {
    match m.kind
    case Insert => db[m.id := m.after.value]
    case Update => db[m.id := db[m.id].(generation := m.after.value.generation, payload := m.after.value.payload)]
    case Delete => db - {m.id}
  }

  /* ---- restart ---- */

  function ModelOf(rows: Rows, w: nat): Rows {
    map id | id in rows && rows[id].owner == w :: rows[id]
  }

  predicate IsGreatest(s: set<nat>, t: nat) {
    t in s && forall u :: u in s ==> u <= t
  }

  lemma {:induction false} GreatestExists(s: set<nat>)
    requires s != {}
    ensures exists t :: IsGreatest(s, t)
  {
    var t :| t in s;
    var rest := s - {t};
    assert forall u :: u in s ==> u == t || u in rest;
    if rest == {} {
      assert IsGreatest(s, t);
    } else {
      GreatestExists(rest);
      var g :| IsGreatest(rest, g);
      assert IsGreatest(s, if t < g then g else t);
    }
  }

  /** One past the highest sequence a worker still owns, but never below the seed rows. */
  function NextSequence(model: Rows, w: nat, minimum: nat): (n: nat)
    ensures n >= minimum
    ensures forall id :: id in model && id.worker == w ==> id.sequence < n
    ensures n == minimum || exists id :: id in model && id.worker == w && id.sequence + 1 == n
  {
    var used := set id | id in model && id.worker == w :: id.sequence;
    assert forall id :: id in model && id.worker == w ==> id.sequence in used;
    if used == {} then minimum
    else
      GreatestExists(used);
      var top :| top in used && IsGreatest(used, top);
      Max(top + 1, minimum)
  }

  function Restarted(cfg: Config, s: World): World {
    s.(up := true, nextTx := s.snapshot.nextTx,
       workers := seq(cfg.workers, w requires 0 <= w < cfg.workers =>
         var model := ModelOf(s.snapshot.rows, w);
         Worker(model, NextSequence(model, w, cfg.initialRows), Idle)))
  }

  /* ---- steps ---- */

  function Put(s: World, w: nat, x: Worker): World
    requires w < |s.workers|
  {
    s.(workers := s.workers[w := x])
  }

  ghost predicate Next(cfg: Config, s: World, step: Step, t: World) {
    match step
    case Work(w, action) => s.up && w < |s.workers| && WorkerNext(cfg, s, w, action, t)
    case Kill => s.up && t == s.(up := false, workers := [])
    case RecoverRun => !s.up && (
      match Recover(s.snapshot, s.journal, s.db)
      case Err(_) => t == s
      case Ok((snapshot, _)) => t == s.(snapshot := snapshot, journal := [], applied := map[]))
    case Restart => !s.up && s.journal == [] && t == Restarted(cfg, s)
  }

  /** Take the next transaction number for a planned mutation. */
  function Reserve(s: World, w: nat, me: Worker, m: Mutation): World
    requires w < |s.workers|
  {
    Put(s, w, me.(phase := Reserved(s.nextTx, m))).(nextTx := s.nextTx + 1)
  }

  ghost predicate WorkerNext(cfg: Config, s: World, w: nat, action: Action, t: World)
    requires w < |s.workers|
  {
    var me := s.workers[w];
    match action
    case PlanInsert => (
      && me.phase.Idle?
      && var m := Mutation(Insert, RowId(w, me.sequence), None, Some(ExpectedRow(cfg, w, 0)));
         t == Reserve(s, w, me.(sequence := me.sequence + 1), m))
    case PlanUpdate(id) => (
      && me.phase.Idle? && id in me.model
      && var m := Mutation(Update, id, Some(me.model[id]), Some(ExpectedRow(cfg, w, me.model[id].generation + 1)));
         t == Reserve(s, w, me, m))
    case PlanDelete(id) => (
      && me.phase.Idle? && id in me.model
      && t == Reserve(s, w, me, Mutation(Delete, id, Some(me.model[id]), None)))
    case WriteIntent => (
      && me.phase.Reserved?
      && t == Put(s, w, me.(phase := Intended(me.phase.tx, me.phase.m)))
              .(journal := s.journal + [Intent(me.phase.tx, me.phase.m)]))
    case RunSql => (
      && me.phase.Intended?
      && if SqlAccepts(s.db, me.phase.m) then
           t == Put(s, w, me.(phase := Applied(me.phase.tx, me.phase.m)))
                .(db := SqlEffect(s.db, me.phase.m), applied := s.applied[me.phase.tx := me.phase.m])
         else t == Put(s, w, me.(phase := Failed)))
    case WriteCommit => (
      && me.phase.Applied?
      && t == Put(s, w, me.(phase := Idle, model := Set(me.model, me.phase.m.id, me.phase.m.after)))
              .(journal := s.journal + [Commit(me.phase.tx)]))
  }

  /* ---- the invariant ---- */

  /** A mutation planned by its owner on the row state `rows`. */
  ghost predicate Planned(rows: Rows, m: Mutation) {
    && Get(rows, m.id) == m.before
    && match m.kind
       case Insert => m.before.None? && m.after.Some? && m.after.value.owner == m.id.worker
       case Update => m.before.Some? && m.after.Some? && m.before.value.owner == m.after.value.owner == m.id.worker
                      && m.after.value.generation == m.before.value.generation + 1
       case Delete => m.before.Some? && m.after.None?
  }

  ghost predicate RowsOwned(workers: nat, rows: Rows) {
    forall id :: id in rows ==> id.worker < workers && rows[id].owner == id.worker
  }

  ghost predicate Awaits(pending: map<nat, Mutation>, id: Id) {
    exists tx :: tx in pending && pending[tx].id == id
  }

  ghost predicate Apart(pending: map<nat, Mutation>) {
    forall a, b :: a in pending && b in pending && a != b ==> pending[a].id.worker != pending[b].id.worker
  }

  /** A pending mutation is either wholly in the database or wholly absent. */
  ghost predicate AllOrNothing(workers: nat, rows: Rows, tx: nat, m: Mutation, db: Rows, applied: map<nat, Mutation>) {
    && Planned(rows, m) && m.id.worker < workers
    && (tx in applied ==> applied[tx] == m)
    && Get(db, m.id) == if tx in applied then m.after else m.before
  }

  /** What took effect is what was counted or is still pending. */
  ghost predicate Accounted(pending: map<nat, Mutation>, counted: map<nat, Mutation>, applied: map<nat, Mutation>) {
    && (forall tx :: tx in pending ==> tx !in counted)
    && (forall tx :: tx in counted ==> tx in applied && applied[tx] == counted[tx])
    && (forall tx :: tx in applied ==> tx in counted || tx in pending)
  }

  /** How the replayed journal relates to the database: pending mutations belong to
      different workers, each is all or nothing, and every other row agrees. */
  ghost predicate Core(workers: nat, rows: Rows, pending: map<nat, Mutation>, db: Rows, applied: map<nat, Mutation>) {
    && RowsOwned(workers, rows) && Apart(pending)
    && (forall tx :: tx in pending ==> AllOrNothing(workers, rows, tx, pending[tx], db, applied))
    && (forall id :: Awaits(pending, id) || Get(db, id) == Get(rows, id))
  }

  ghost predicate Tallied(R: Replayed) {
    R.counts == KindCounts(R.counted) && R.commits + R.resolvedCommitted == |R.counted|
  }

  ghost predicate Sound(workers: nat, R: Replayed, db: Rows, applied: map<nat, Mutation>) {
    Core(workers, R.rows, R.pending, db, applied) && Accounted(R.pending, R.counted, applied) && Tallied(R)
  }

  /** A worker's private view is its share of the recovered rows. */
  ghost predicate ViewOk(w: nat, me: Worker, rows: Rows) {
    && (forall id :: Get(me.model, id) == if id.worker == w then Get(rows, id) else None)
    && (forall id :: id in rows && id.worker == w ==> id.sequence < me.sequence)
  }

  /** A worker's phase says exactly what of it is pending. */
  ghost predicate PhaseOk(w: nat, me: Worker, rows: Rows, pending: map<nat, Mutation>, counted: map<nat, Mutation>,
                          nextTx: nat, applied: map<nat, Mutation>) {
    match me.phase
    case Idle => NothingOf(w, pending)
    case Reserved(tx, m) => (
      && Planned(rows, m) && m.id.worker == w && m.id.sequence < me.sequence
      && tx < nextTx && tx !in pending && tx !in counted && NothingOf(w, pending))
    case Intended(tx, m) =>
      tx in pending && pending[tx] == m && m.id.worker == w && m.id.sequence < me.sequence && tx !in applied
    case Applied(tx, m) =>
      tx in pending && pending[tx] == m && m.id.worker == w && m.id.sequence < me.sequence && tx in applied
    case Failed => false
  }

  ghost predicate WorkerOk(w: nat, me: Worker, rows: Rows, pending: map<nat, Mutation>, counted: map<nat, Mutation>,
                           nextTx: nat, applied: map<nat, Mutation>) {
    ViewOk(w, me, rows) && PhaseOk(w, me, rows, pending, counted, nextTx, applied)
  }

  ghost predicate NothingOf(w: nat, pending: map<nat, Mutation>) {
    forall tx :: tx in pending ==> pending[tx].id.worker != w
  }

  ghost predicate WorkerFine(s: World, R: Replayed, w: nat)
    requires w < |s.workers|
  {
    WorkerOk(w, s.workers[w], R.rows, R.pending, R.counted, s.nextTx, s.applied)
  }

  ghost predicate UpOk(cfg: Config, s: World, R: Replayed) {
    && |s.workers| == cfg.workers
    && (forall w :: 0 <= w < |s.workers| ==> WorkerFine(s, R, w))
    && (forall a, b :: 0 <= a < b < |s.workers| && s.workers[a].phase.Reserved? && s.workers[b].phase.Reserved? ==>
                         s.workers[a].phase.tx != s.workers[b].phase.tx)
    && (forall tx :: tx in R.pending || tx in R.counted ==> tx < s.nextTx)
  }

  /** The invariant of a state whose journal replays to `R`. */
  ghost predicate InvAt(cfg: Config, s: World, R: Replayed) {
    && Sound(cfg.workers, R, s.db, s.applied) && R.resolvedCommitted == R.resolvedAborted == 0
    && (s.up ==> UpOk(cfg, s, R))
  }

  ghost predicate Inv(cfg: Config, s: World) {
    Replay(s.snapshot.rows, s.journal).Ok? && InvAt(cfg, s, Replay(s.snapshot.rows, s.journal).value)
  }

  /* ---- recovery from any such state ---- */

  /** A mutation that is in the database joins the recovered rows. */
  lemma AcceptCore(workers: nat, rows: Rows, pending: map<nat, Mutation>, db: Rows, applied: map<nat, Mutation>,
                   tx: nat)
    requires Core(workers, rows, pending, db, applied) && tx in pending && tx in applied
    ensures Core(workers, Set(rows, pending[tx].id, pending[tx].after), pending - {tx}, db, applied)
  {
    var m := pending[tx];
    assert AllOrNothing(workers, rows, tx, m, db, applied);
    var after, rest := Set(rows, m.id, m.after), pending - {tx};
    forall id ensures Awaits(rest, id) || Get(db, id) == Get(after, id) {
      GetSet(rows, m.id, m.after, id);
      if id != m.id { StillAwaits(pending, tx, id); }
    }
    forall u | u in rest ensures AllOrNothing(workers, after, u, rest[u], db, applied) {
      assert AllOrNothing(workers, rows, u, pending[u], db, applied);
      GetSet(rows, m.id, m.after, rest[u].id);
    }
  }

  lemma StillAwaits(pending: map<nat, Mutation>, tx: nat, id: Id)
    requires tx in pending && pending[tx].id != id
    ensures Awaits(pending, id) ==> Awaits(pending - {tx}, id)
  {
    if Awaits(pending, id) {
      var u :| u in pending && pending[u].id == id;
      assert u in pending - {tx} && (pending - {tx})[u].id == id;
    }
  }

  /** A mutation that never reached the database is dropped. */
  lemma AbortCore(workers: nat, rows: Rows, pending: map<nat, Mutation>, db: Rows, applied: map<nat, Mutation>, tx: nat)
    requires Core(workers, rows, pending, db, applied) && tx in pending && tx !in applied
    ensures Core(workers, rows, pending - {tx}, db, applied)
  {
    assert AllOrNothing(workers, rows, tx, pending[tx], db, applied);
    var rest := pending - {tx};
    forall id ensures Awaits(rest, id) || Get(db, id) == Get(rows, id) {
      if id != pending[tx].id { StillAwaits(pending, tx, id); }
    }
    assert forall u :: u in rest ==> AllOrNothing(workers, rows, u, pending[u], db, applied);
  }

  /** Resolving one pending transaction puts it on the side the database is on. */
  lemma ResolveStep(workers: nat, R: Replayed, db: Rows, applied: map<nat, Mutation>, tx: nat)
    requires Sound(workers, R, db, applied) && tx in R.pending
    ensures ResolveOne(R, tx, db).Ok?
    ensures var t := ResolveOne(R, tx, db).value;
            Sound(workers, t, db, applied) && t.commits == R.commits && t.pending == R.pending - {tx}
            && t.resolvedCommitted + t.resolvedAborted == R.resolvedCommitted + R.resolvedAborted + 1
            && t.resolvedCommitted == R.resolvedCommitted + (if tx in applied then 1 else 0)
            && Get(t.rows, R.pending[tx].id) == Get(db, R.pending[tx].id)
  {
    PendingSide(workers, R, db, applied, tx);
    GetSet(R.rows, R.pending[tx].id, R.pending[tx].after, R.pending[tx].id);
    if tx in applied {
      ResolveAccepts(workers, R, db, applied, tx);
    } else {
      ResolveAborts(workers, R, db, applied, tx);
    }
  }

  lemma ResolveAccepts(workers: nat, R: Replayed, db: Rows, applied: map<nat, Mutation>, tx: nat)
    requires Sound(workers, R, db, applied) && tx in R.pending && tx in applied
    ensures ResolveOne(R, tx, db).Ok?
    ensures var t := ResolveOne(R, tx, db).value;
            && t == Accepted(R, tx).(resolvedCommitted := R.resolvedCommitted + 1)
            && Sound(workers, t, db, applied)
  {
    PendingSide(workers, R, db, applied, tx);
    SideResolves(workers, R, db, applied, tx);
    AcceptSound(workers, R, db, applied, tx);
  }

  lemma PendingSide(workers: nat, R: Replayed, db: Rows, applied: map<nat, Mutation>, tx: nat)
    requires Sound(workers, R, db, applied) && tx in R.pending
    ensures AllOrNothing(workers, R.rows, tx, R.pending[tx], db, applied)
  {
  }

  /** What the check of one pending transaction against the database gives. */
  lemma SideResolves(workers: nat, R: Replayed, db: Rows, applied: map<nat, Mutation>, tx: nat)
    requires tx in R.pending && AllOrNothing(workers, R.rows, tx, R.pending[tx], db, applied)
    ensures tx in applied ==>
      ResolveOne(R, tx, db) == Ok(Accepted(R, tx).(resolvedCommitted := R.resolvedCommitted + 1))
    ensures tx !in applied ==>
      ResolveOne(R, tx, db) == Ok(R.(pending := R.pending - {tx}, resolvedAborted := R.resolvedAborted + 1))
  {
  }

  lemma AcceptSound(workers: nat, R: Replayed, db: Rows, applied: map<nat, Mutation>, tx: nat)
    requires Sound(workers, R, db, applied) && tx in R.pending && tx in applied
    ensures Sound(workers, Accepted(R, tx).(resolvedCommitted := R.resolvedCommitted + 1), db, applied)
  {
    AcceptCore(workers, R.rows, R.pending, db, applied, tx);
    AcceptTally(R, applied, tx);
  }

  lemma ResolveAborts(workers: nat, R: Replayed, db: Rows, applied: map<nat, Mutation>, tx: nat)
    requires Sound(workers, R, db, applied) && tx in R.pending && tx !in applied
    ensures ResolveOne(R, tx, db).Ok?
    ensures var t := ResolveOne(R, tx, db).value;
            && t == R.(pending := R.pending - {tx}, resolvedAborted := R.resolvedAborted + 1)
            && Sound(workers, t, db, applied)
  {
    PendingSide(workers, R, db, applied, tx);
    SideResolves(workers, R, db, applied, tx);
    AbortSound(workers, R, db, applied, tx);
  }

  lemma AbortSound(workers: nat, R: Replayed, db: Rows, applied: map<nat, Mutation>, tx: nat)
    requires Sound(workers, R, db, applied) && tx in R.pending && tx !in applied
    ensures Sound(workers, R.(pending := R.pending - {tx}, resolvedAborted := R.resolvedAborted + 1), db, applied)
  {
    AbortCore(workers, R.rows, R.pending, db, applied, tx);
  }

  /** A pending mutation moved into the recovered rows and counted. */
  function Accepted(R: Replayed, tx: nat): Replayed
    requires tx in R.pending
  {
    var m := R.pending[tx];
    R.(pending := R.pending - {tx}, rows := Set(R.rows, m.id, m.after), counted := R.counted[tx := m],
       counts := Record(R.counts, m.kind))
  }

  lemma AcceptTally(R: Replayed, applied: map<nat, Mutation>, tx: nat)
    requires Accounted(R.pending, R.counted, applied) && Tallied(R) && tx in R.pending && tx in applied
    requires applied[tx] == R.pending[tx]
    ensures var t := Accepted(R, tx);
            && Accounted(t.pending, t.counted, applied)
            && t.counts == KindCounts(t.counted) && |t.counted| == |R.counted| + 1
  {
    CountOne(R.counted, tx, R.pending[tx]);
    assert R.counted[tx := R.pending[tx]].Keys == R.counted.Keys + {tx};
  }

  lemma NothingPending(workers: nat, R: Replayed, db: Rows, applied: map<nat, Mutation>)
    requires Sound(workers, R, db, applied) && R.pending == map[]
    ensures R.rows == db && R.counted == applied && R.counts == KindCounts(applied)
    ensures R.commits + R.resolvedCommitted == |applied| && RowsOwned(workers, db)
  {
    forall id ensures Get(db, id) == Get(R.rows, id) { assert !Awaits(R.pending, id); }
    SameRows(R.rows, db);
    assert R.counted == applied;
  }

  lemma {:induction false} ResolveSucceeds(workers: nat, R: Replayed, db: Rows, applied: map<nat, Mutation>)
    requires Sound(workers, R, db, applied)
    ensures ResolveAll(R, db).Ok?
    ensures var t := ResolveAll(R, db).value;
            t.rows == db && t.counted == applied && t.counts == KindCounts(applied) && t.commits == R.commits
            && t.resolvedCommitted + t.resolvedAborted == R.resolvedCommitted + R.resolvedAborted + |R.pending|
            && t.commits + t.resolvedCommitted == |applied| && RowsOwned(workers, db)
    decreases |R.pending|
  {
    if R.pending == map[] {
      NothingPending(workers, R, db, applied);
    } else {
      var tx := Least(R.pending.Keys);
      assert R.pending.Keys == (R.pending - {tx}).Keys + {tx};
      ResolveStep(workers, R, db, applied, tx);
      ResolveSucceeds(workers, ResolveOne(R, tx, db).value, db, applied);
    }
  }

  function Intents(events: seq<Event>): nat {
    if events == [] then 0 else Intents(events[..|events| - 1]) + if events[|events| - 1].Intent? then 1 else 0
  }

  lemma OneEventAccounted(R: Replayed, e: Event)
    requires ReplayEvent(R, e).Ok?
    ensures var t := ReplayEvent(R, e).value;
            t.commits + |t.pending| == R.commits + |R.pending| + if e.Intent? then 1 else 0
  {
    match e {
      case Intent(tx, m) => assert R.pending[tx := m].Keys == R.pending.Keys + {tx};
      case Commit(tx) => assert R.pending.Keys == (R.pending - {tx}).Keys + {tx};
    }
  }

  /** Every complete intent is either committed in the journal or still pending. */
  lemma {:induction false} IntentsAccounted(rows: Rows, events: seq<Event>)
    requires Replay(rows, events).Ok?
    ensures var R := Replay(rows, events).value; R.commits + |R.pending| == Intents(events)
  {
    if events != [] {
      IntentsAccounted(rows, events[..|events| - 1]);
      OneEventAccounted(Replay(rows, events[..|events| - 1]).value, events[|events| - 1]);
    }
  }

  /** Recovery succeeds, recovers exactly the database, accounts for every intent, and
      counts every statement that took effect exactly once. */
  lemma RecoverySucceeds(cfg: Config, s: World) returns (snapshot: Snapshot, stats: Replayed)
    requires Inv(cfg, s)
    ensures Recover(s.snapshot, s.journal, s.db) == Ok((snapshot, stats))
    ensures snapshot.rows == s.db && snapshot.nextTx >= s.snapshot.nextTx && RowsOwned(cfg.workers, snapshot.rows)
    ensures stats.commits + stats.resolvedCommitted + stats.resolvedAborted == Intents(s.journal)
    ensures stats.counted == s.applied && stats.counts == KindCounts(s.applied)
    ensures stats.commits + stats.resolvedCommitted == |s.applied|
  {
    snapshot, stats := RecoveryFrom(cfg.workers, s.snapshot, s.journal, s.db, s.applied, Seen(s));
  }

  lemma RecoveryFrom(workers: nat, before: Snapshot, events: seq<Event>, db: Rows, applied: map<nat, Mutation>,
                     R: Replayed)
    returns (snapshot: Snapshot, stats: Replayed)
    requires Replay(before.rows, events) == Ok(R) && Sound(workers, R, db, applied)
    requires R.resolvedCommitted == R.resolvedAborted == 0
    ensures Recover(before, events, db) == Ok((snapshot, stats))
    ensures snapshot.rows == db && snapshot.nextTx >= before.nextTx && RowsOwned(workers, snapshot.rows)
    ensures stats.commits + stats.resolvedCommitted + stats.resolvedAborted == Intents(events)
    ensures stats.counted == applied && stats.counts == KindCounts(applied)
    ensures stats.commits + stats.resolvedCommitted == |applied|
  {
    stats := Resolved(workers, R, db, applied);
    snapshot := ResolvedSnapshot(before, events, db, R, stats);
  }

  lemma ResolvedSnapshot(before: Snapshot, events: seq<Event>, db: Rows, R: Replayed, t: Replayed)
    returns (snapshot: Snapshot)
    requires Replay(before.rows, events) == Ok(R) && ResolveAll(R, db) == Ok(t) && t.rows == db
    ensures Recover(before, events, db) == Ok((snapshot, t))
    ensures snapshot.rows == db && snapshot.nextTx >= before.nextTx
    ensures R.commits + |R.pending| == Intents(events)
  {
    snapshot := Snapshot(Max(before.nextTx, MaxTx(events) + 1), db);
    IntentsOf(before.rows, events, R);
    RecoverIs(before, events, db, R, t);
  }

  lemma Resolved(workers: nat, R: Replayed, db: Rows, applied: map<nat, Mutation>) returns (t: Replayed)
    requires Sound(workers, R, db, applied)
    ensures ResolveAll(R, db) == Ok(t)
    ensures t.rows == db && t.counted == applied && t.counts == KindCounts(applied) && t.commits == R.commits
    ensures t.resolvedCommitted + t.resolvedAborted == R.resolvedCommitted + R.resolvedAborted + |R.pending|
    ensures t.commits + t.resolvedCommitted == |applied| && RowsOwned(workers, db)
  {
    ResolveSucceeds(workers, R, db, applied);
    t := ResolveAll(R, db).value;
  }

  lemma {:induction false} IntentsOf(rows: Rows, events: seq<Event>, R: Replayed)
    requires Replay(rows, events) == Ok(R)
    ensures R.commits + |R.pending| == Intents(events)
  {
    IntentsAccounted(rows, events);
  }

  lemma {:induction false} RecoverIs(snapshot: Snapshot, events: seq<Event>, db: Rows, R: Replayed, t: Replayed)
    requires Replay(snapshot.rows, events) == Ok(R) && ResolveAll(R, db) == Ok(t) && t.rows == db
    ensures Recover(snapshot, events, db) == Ok((Snapshot(Max(snapshot.nextTx, MaxTx(events) + 1), db), t))
  {
  }

  /* ---- every step keeps the invariant ---- */

  /** The replayed journal of a state. */
  ghost function Seen(s: World): Replayed
    requires Replay(s.snapshot.rows, s.journal).Ok?
  {
    Replay(s.snapshot.rows, s.journal).value
  }

  lemma Logged(s: World, e: Event)
    requires Replay(s.snapshot.rows, s.journal).Ok?
    ensures Replay(s.snapshot.rows, s.journal + [e]) == ReplayEvent(Seen(s), e)
  {
    var j := s.journal + [e];
    assert j[..|j| - 1] == s.journal;
  }

  lemma PlanUp(cfg: Config, s: World, R: Replayed, w: nat, me: Worker, m: Mutation)
    requires UpOk(cfg, s, R) && w < |s.workers| && s.workers[w].phase.Idle?
    requires me.model == s.workers[w].model && me.sequence >= s.workers[w].sequence
    requires Planned(R.rows, m) && m.id.worker == w && m.id.sequence < me.sequence
    ensures UpOk(cfg, Reserve(s, w, me, m), R)
  {
    var t := Reserve(s, w, me, m);
    assert WorkerFine(s, R, w);
    forall v | 0 <= v < |t.workers| ensures WorkerFine(t, R, v) {
      assert WorkerFine(s, R, v);
      assert v != w ==> t.workers[v] == s.workers[v];
    }
    forall v | 0 <= v < |s.workers| && s.workers[v].phase.Reserved? ensures s.workers[v].phase.tx < s.nextTx {
      assert WorkerFine(s, R, v);
    }
  }

  /** Planning changes neither the journal nor the database. */
  lemma PlansKeep(cfg: Config, s: World, w: nat, action: Action, t: World)
    requires Inv(cfg, s) && s.up && w < |s.workers| && WorkerNext(cfg, s, w, action, t)
    requires action.PlanInsert? || action.PlanUpdate? || action.PlanDelete?
    ensures Inv(cfg, t)
  {
    PlansUp(cfg, s, Seen(s), w, action, t);
  }

  /** The next sequence number names a row that does not exist. */
  lemma InsertPlanned(w: nat, me: Worker, rows: Rows, m: Mutation)
    requires ViewOk(w, me, rows) && m.kind == Insert && m.id == RowId(w, me.sequence) && m.before == None
    requires m.after.Some? && m.after.value.owner == w
    ensures Planned(rows, m)
  {
  }

  /** A row in the worker's view is its own and is as recovered. */
  lemma ChangePlanned(w: nat, me: Worker, workers: nat, rows: Rows, id: Id)
    requires ViewOk(w, me, rows) && RowsOwned(workers, rows) && id in me.model
    ensures id.worker == w && id.sequence < me.sequence && Get(rows, id) == Some(me.model[id])
      && me.model[id].owner == w
  {
    assert Get(me.model, id) == Some(me.model[id]);
  }

  lemma PlansUp(cfg: Config, s: World, R: Replayed, w: nat, action: Action, t: World)
    requires RowsOwned(cfg.workers, R.rows) && UpOk(cfg, s, R) && w < |s.workers| && WorkerNext(cfg, s, w, action, t)
    requires action.PlanInsert? || action.PlanUpdate? || action.PlanDelete?
    ensures UpOk(cfg, t, R) && t.snapshot == s.snapshot && t.journal == s.journal && t.db == s.db
      && t.applied == s.applied
    ensures t.up == s.up
  {
    var me := s.workers[w];
    assert WorkerFine(s, R, w);
    match action {
      case PlanInsert =>
        var m := Mutation(Insert, RowId(w, me.sequence), None, Some(ExpectedRow(cfg, w, 0)));
        InsertPlanned(w, me, R.rows, m);
        PlanUp(cfg, s, R, w, me.(sequence := me.sequence + 1), m);
      case PlanUpdate(id) =>
        var m := Mutation(Update, id, Some(me.model[id]), Some(ExpectedRow(cfg, w, me.model[id].generation + 1)));
        ChangePlanned(w, me, cfg.workers, R.rows, id);
        PlanUp(cfg, s, R, w, me, m);
      case PlanDelete(id) =>
        ChangePlanned(w, me, cfg.workers, R.rows, id);
        PlanUp(cfg, s, R, w, me, Mutation(Delete, id, Some(me.model[id]), None));
    }
  }

  lemma IntentKeeps(cfg: Config, s: World, w: nat, t: World)
    requires Inv(cfg, s) && s.up && w < |s.workers| && WorkerNext(cfg, s, w, WriteIntent, t)
    ensures Inv(cfg, t)
  {
    var R, me := Seen(s), s.workers[w];
    var tx, m := me.phase.tx, me.phase.m;
    assert WorkerFine(s, R, w);
    Logged(s, Intent(tx, m));
    IntentCore(cfg.workers, R.rows, R.pending, s.db, s.applied, tx, m);
    IntentUp(cfg, s, R, w, t);
    assert Seen(t) == R.(pending := R.pending[tx := m]);
  }

  lemma IntentUp(cfg: Config, s: World, R: Replayed, w: nat, t: World)
    requires UpOk(cfg, s, R) && w < |s.workers| && s.workers[w].phase.Reserved?
      && Accounted(R.pending, R.counted, s.applied)
    requires var me := s.workers[w];
             t == Put(s, w, me.(phase := Intended(me.phase.tx, me.phase.m))).(journal := t.journal)
    ensures UpOk(cfg, t, R.(pending := R.pending[s.workers[w].phase.tx := s.workers[w].phase.m]))
  {
    var tx, m := s.workers[w].phase.tx, s.workers[w].phase.m;
    var R' := R.(pending := R.pending[tx := m]);
    assert WorkerFine(s, R, w);
    forall v | 0 <= v < |t.workers| ensures WorkerFine(t, R', v) {
      assert WorkerFine(s, R, v);
      if v != w { IntentOther(v, s.workers[v], w, tx, m, R.rows, R.pending, R.counted, s.nextTx, s.applied); }
    }
  }

  lemma IntentOther(v: nat, me: Worker, w: nat, tx: nat, m: Mutation, rows: Rows, pending: map<nat, Mutation>,
                    counted: map<nat, Mutation>, nextTx: nat, applied: map<nat, Mutation>)
    requires WorkerOk(v, me, rows, pending, counted, nextTx, applied) && v != w
    requires tx !in pending && m.id.worker == w && (me.phase.Reserved? ==> me.phase.tx != tx)
    ensures WorkerOk(v, me, rows, pending[tx := m], counted, nextTx, applied)
  {
  }

  lemma IntentCore(workers: nat, rows: Rows, pending: map<nat, Mutation>, db: Rows, applied: map<nat, Mutation>,
                   tx: nat, m: Mutation)
    requires Core(workers, rows, pending, db, applied) && tx !in pending && tx !in applied
    requires Planned(rows, m) && m.id.worker < workers && NothingOf(m.id.worker, pending)
    ensures Core(workers, rows, pending[tx := m], db, applied)
  {
    var more := pending[tx := m];
    assert !Awaits(pending, m.id);
    forall u | u in more ensures AllOrNothing(workers, rows, u, more[u], db, applied) {
      if u != tx { assert AllOrNothing(workers, rows, u, pending[u], db, applied); }
    }
    forall id ensures Awaits(more, id) || Get(db, id) == Get(rows, id) {
      if Awaits(pending, id) {
        var u :| u in pending && pending[u].id == id;
        assert u in more && more[u].id == id;
      }
    }
  }

  /** A planned statement is accepted and leaves exactly the planned row. */
  lemma SqlAsPlanned(rows: Rows, db: Rows, m: Mutation)
    requires Planned(rows, m) && Get(db, m.id) == m.before
    ensures SqlAccepts(db, m) && SqlEffect(db, m) == Set(db, m.id, m.after)
  {
  }

  lemma SqlKeeps(cfg: Config, s: World, w: nat, t: World)
    requires Inv(cfg, s) && s.up && w < |s.workers| && WorkerNext(cfg, s, w, RunSql, t)
    ensures Inv(cfg, t)
  {
    var R, me := Seen(s), s.workers[w];
    var tx, m := me.phase.tx, me.phase.m;
    assert WorkerFine(s, R, w) && AllOrNothing(cfg.workers, R.rows, tx, m, s.db, s.applied);
    SqlAsPlanned(R.rows, s.db, m);
    SqlCore(cfg.workers, R.rows, R.pending, s.db, s.applied, tx);
    SqlUp(cfg, s, R, w, t);
  }

  lemma SqlCore(workers: nat, rows: Rows, pending: map<nat, Mutation>, db: Rows, applied: map<nat, Mutation>, tx: nat)
    requires Core(workers, rows, pending, db, applied) && tx in pending && tx !in applied
    ensures Core(workers, rows, pending, Set(db, pending[tx].id, pending[tx].after), applied[tx := pending[tx]])
  {
    var m := pending[tx];
    var db', applied' := Set(db, m.id, m.after), applied[tx := m];
    forall u | u in pending ensures AllOrNothing(workers, rows, u, pending[u], db', applied') {
      assert AllOrNothing(workers, rows, u, pending[u], db, applied);
      GetSet(db, m.id, m.after, pending[u].id);
    }
    forall id ensures Awaits(pending, id) || Get(db', id) == Get(rows, id) {
      GetSet(db, m.id, m.after, id);
      if id == m.id { assert pending[tx].id == id; }
    }
  }

  lemma SqlUp(cfg: Config, s: World, R: Replayed, w: nat, t: World)
    requires UpOk(cfg, s, R) && w < |s.workers| && s.workers[w].phase.Intended?
    requires var me := s.workers[w];
             t == Put(s, w, me.(phase := Applied(me.phase.tx, me.phase.m)))
                  .(db := t.db, applied := s.applied[me.phase.tx := me.phase.m])
    ensures UpOk(cfg, t, R)
  {
    assert WorkerFine(s, R, w);
    forall v | 0 <= v < |t.workers| ensures WorkerFine(t, R, v) { assert WorkerFine(s, R, v); }
  }

  lemma CommitKeeps(cfg: Config, s: World, w: nat, t: World)
    requires Inv(cfg, s) && s.up && w < |s.workers| && WorkerNext(cfg, s, w, WriteCommit, t)
    ensures Inv(cfg, t)
  {
    var R, me := Seen(s), s.workers[w];
    var tx, m := me.phase.tx, me.phase.m;
    assert WorkerFine(s, R, w) && AllOrNothing(cfg.workers, R.rows, tx, m, s.db, s.applied);
    Logged(s, Commit(tx));
    CommitReplays(R, tx);
    AcceptCore(cfg.workers, R.rows, R.pending, s.db, s.applied, tx);
    AcceptTally(R, s.applied, tx);
    CommitUp(cfg, s, R, w, t);
  }

  lemma CommitReplays(R: Replayed, tx: nat)
    requires tx in R.pending && Planned(R.rows, R.pending[tx])
    ensures ReplayEvent(R, Commit(tx)) == Ok(Accepted(R, tx).(commits := R.commits + 1))
  {
  }

  lemma CommitUp(cfg: Config, s: World, R: Replayed, w: nat, t: World)
    requires UpOk(cfg, s, R) && Apart(R.pending) && w < |s.workers| && s.workers[w].phase.Applied?
    requires s.workers[w].phase.tx in R.pending
    requires var me := s.workers[w];
             var model := Set(me.model, me.phase.m.id, me.phase.m.after);
             t == Put(s, w, me.(phase := Idle, model := model)).(journal := t.journal)
    ensures UpOk(cfg, t, Accepted(R, s.workers[w].phase.tx).(commits := R.commits + 1))
  {
    var me := s.workers[w];
    var R' := Accepted(R, me.phase.tx).(commits := R.commits + 1);
    assert WorkerFine(s, R, w);
    forall v | 0 <= v < |t.workers| ensures WorkerFine(t, R', v) {
      assert WorkerFine(s, R, v);
      if v == w {
        CommitSelf(w, me, R.rows, R.pending, R.counted, s.nextTx, s.applied);
      } else {
        CommitOther(v, s.workers[v], w, me.phase.tx, me.phase.m, R.rows, R.pending, R.counted, s.nextTx, s.applied);
      }
    }
  }

  lemma CommitSelf(w: nat, me: Worker, rows: Rows, pending: map<nat, Mutation>, counted: map<nat, Mutation>,
                   nextTx: nat, applied: map<nat, Mutation>)
    requires WorkerOk(w, me, rows, pending, counted, nextTx, applied) && me.phase.Applied? && Apart(pending)
    ensures var (tx, m) := (me.phase.tx, me.phase.m);
            WorkerOk(w, me.(phase := Idle, model := Set(me.model, m.id, m.after)), Set(rows, m.id, m.after),
                     pending - {tx}, counted[tx := m], nextTx, applied)
  {
    var m := me.phase.m;
    forall id
      ensures Get(Set(me.model, m.id, m.after), id)
              == if id.worker == w then Get(Set(rows, m.id, m.after), id) else None
    {
      GetSet(rows, m.id, m.after, id);
      GetSet(me.model, m.id, m.after, id);
    }
  }

  lemma CommitOther(v: nat, me: Worker, w: nat, tx: nat, m: Mutation, rows: Rows, pending: map<nat, Mutation>,
                    counted: map<nat, Mutation>, nextTx: nat, applied: map<nat, Mutation>)
    requires WorkerOk(v, me, rows, pending, counted, nextTx, applied) && v != w
    requires tx in pending && pending[tx] == m && m.id.worker == w
    ensures WorkerOk(v, me, Set(rows, m.id, m.after), pending - {tx}, counted[tx := m], nextTx, applied)
  {
    forall id ensures id != m.id ==> Get(Set(rows, m.id, m.after), id) == Get(rows, id) {
      GetSet(rows, m.id, m.after, id);
    }
    assert forall id :: id != m.id ==> (id in Set(rows, m.id, m.after) <==> id in rows);
  }

  lemma RecoverKeeps(cfg: Config, s: World, t: World)
    requires Inv(cfg, s) && Next(cfg, s, RecoverRun, t)
    ensures Inv(cfg, t) && t.snapshot.rows == t.db == s.db && t.journal == []
  {
    var snapshot, stats := RecoverySucceeds(cfg, s);
    SettledAt(cfg, t);
  }

  /** A state whose snapshot is the database needs no journal. */
  lemma SettledAt(cfg: Config, t: World)
    requires RowsOwned(cfg.workers, t.db) && t.snapshot.rows == t.db && t.applied == map[] && !t.up
    ensures InvAt(cfg, t, Start(t.snapshot.rows))
  {
    assert KindCounts(map[]) == Counts(0, 0, 0);
  }

  /** A worker starts from its share of the rows, past every sequence it owns. */
  lemma FreshWorker(cfg: Config, rows: Rows, w: nat)
    requires RowsOwned(cfg.workers, rows)
    ensures var model := ModelOf(rows, w); ViewOk(w, Worker(model, NextSequence(model, w, cfg.initialRows), Idle), rows)
  {
    var model := ModelOf(rows, w);
    forall id ensures Get(model, id) == if id.worker == w then Get(rows, id) else None {
    }
    assert forall id :: id in rows && id.worker == w ==> id in model;
  }

  lemma RestartUp(cfg: Config, s: World, R: Replayed)
    requires RowsOwned(cfg.workers, R.rows) && R == Start(s.snapshot.rows)
    ensures UpOk(cfg, Restarted(cfg, s), R)
  {
    var t := Restarted(cfg, s);
    forall w | 0 <= w < |t.workers| ensures WorkerFine(t, R, w) {
      FreshWorker(cfg, R.rows, w);
    }
  }

  lemma RestartKeeps(cfg: Config, s: World, t: World)
    requires Inv(cfg, s) && !s.up && s.journal == [] && t == Restarted(cfg, s)
    ensures Inv(cfg, t)
  {
    RestartUp(cfg, s, Start(s.snapshot.rows));
  }

  lemma StepKeeps(cfg: Config, s: World, step: Step, t: World)
    requires Inv(cfg, s) && Next(cfg, s, step, t)
    ensures Inv(cfg, t)
  {
    match step {
      case Work(w, action) =>
        match action {
          case WriteIntent => IntentKeeps(cfg, s, w, t);
          case RunSql => SqlKeeps(cfg, s, w, t);
          case WriteCommit => CommitKeeps(cfg, s, w, t);
          case _ => PlansKeep(cfg, s, w, action, t);
        }
      case Kill =>
      case RecoverRun => RecoverKeeps(cfg, s, t);
      case Restart => RestartKeeps(cfg, s, t);
    }
  }

  /* ---- the theorem ---- */

  /** The state `seed_database` leaves behind. */
  ghost predicate Seeded(cfg: Config, s: World) {
    && !s.up && s.journal == [] && s.applied == map[] && s.snapshot.nextTx == 1 && s.db == s.snapshot.rows
    && s.db == map w, q | 0 <= w < cfg.workers && 0 <= q < cfg.initialRows :: RowId(w, q) := ExpectedRow(cfg, w, 0)
  }

  ghost predicate IsRun(cfg: Config, states: seq<World>, steps: seq<Step>) {
    Steps(cfg, states, steps) && Seeded(cfg, states[0])
  }

  ghost predicate Steps(cfg: Config, states: seq<World>, steps: seq<Step>) {
    Runs.IsRun((s, x, t) => Next(cfg, s, x, t), states, steps)
  }

  lemma SeededInv(cfg: Config, s: World)
    requires Seeded(cfg, s)
    ensures Inv(cfg, s)
  {
    forall id | id in s.db ensures id.worker < cfg.workers && s.db[id].owner == id.worker {
      var w, q :| 0 <= w < cfg.workers && 0 <= q < cfg.initialRows && RowId(w, q) == id;
    }
    SettledAt(cfg, s);
  }

  lemma RunKeeps(cfg: Config, states: seq<World>, steps: seq<Step>, n: nat)
    requires Steps(cfg, states, steps) && Inv(cfg, states[0]) && n <= |steps|
    ensures Inv(cfg, states[n])
  {
    forall s, x, t | Inv(cfg, s) && Next(cfg, s, x, t) ensures Inv(cfg, t) {
      StepKeeps(cfg, s, x, t);
    }
    Runs.Keeps((s: World) => Inv(cfg, s), (s: World, x: Step, t: World) => Next(cfg, s, x, t), states, steps, n);
  }

  /** For every interleaving of workers and every kill point: no statement is refused, and
      recovery ends without an error, equals the database, and accounts for every intent
      and every statement that took effect exactly once. */
  lemma EveryRunRecovers(cfg: Config, states: seq<World>, steps: seq<Step>, n: nat)
    requires IsRun(cfg, states, steps) && n <= |steps|
    ensures var s := states[n];
            && (s.up ==> forall w :: 0 <= w < |s.workers| ==> !s.workers[w].phase.Failed?)
            && match Recover(s.snapshot, s.journal, s.db)
               case Err(_) => false
               case Ok((snapshot, stats)) => (
                 && snapshot.rows == s.db
                 && stats.commits + stats.resolvedCommitted + stats.resolvedAborted == Intents(s.journal)
                 && stats.counted == s.applied && stats.counts == KindCounts(s.applied)
                 && stats.commits + stats.resolvedCommitted == |s.applied|)
  {
    SeededInv(cfg, states[0]);
    RunKeeps(cfg, states, steps, n);
    var snapshot, stats := RecoverySucceeds(cfg, states[n]);
    if states[n].up { NoneFailed(cfg, states[n], Seen(states[n])); }
  }

  lemma NoneFailed(cfg: Config, s: World, R: Replayed)
    requires UpOk(cfg, s, R)
    ensures forall w :: 0 <= w < |s.workers| ==> !s.workers[w].phase.Failed?
  {
    forall w | 0 <= w < |s.workers| ensures !s.workers[w].phase.Failed? { assert WorkerFine(s, R, w); }
  }

  /* ---- running recovery again ---- */

  /** Two replays of one journal from different snapshots: each row is either untouched by
      both, or started equal and ended equal. */
  ghost predicate Parallel(a: Rows, b: Rows, x: Rows, y: Rows) {
    forall id :: (Get(x, id) == Get(a, id) && Get(y, id) == Get(b, id))
      || (Get(a, id) == Get(b, id) && Get(x, id) == Get(y, id))
  }

  lemma ParallelApply(a: Rows, b: Rows, x: Rows, y: Rows, m: Mutation)
    requires Parallel(a, b, x, y) && Get(x, m.id) == m.before && Get(y, m.id) == m.before
    ensures Parallel(a, b, Set(x, m.id, m.after), Set(y, m.id, m.after))
  {
    forall id ensures (Get(Set(x, m.id, m.after), id) == Get(a, id) && Get(Set(y, m.id, m.after), id) == Get(b, id))
                      || (Get(a, id) == Get(b, id) && Get(Set(x, m.id, m.after), id) == Get(Set(y, m.id, m.after), id))
    {
      GetSet(x, m.id, m.after, id);
      GetSet(y, m.id, m.after, id);
      assert (Get(x, id) == Get(a, id) && Get(y, id) == Get(b, id))
        || (Get(a, id) == Get(b, id) && Get(x, id) == Get(y, id));
    }
  }

  lemma {:induction false} ParallelReplay(a: Rows, b: Rows, events: seq<Event>)
    requires Replay(a, events).Ok? && Replay(b, events).Ok?
    ensures Parallel(a, b, Replay(a, events).value.rows, Replay(b, events).value.rows)
    ensures Replay(a, events).value.pending == Replay(b, events).value.pending
  {
    if events != [] {
      var init := events[..|events| - 1];
      ParallelReplay(a, b, init);
      var x, y := Replay(a, init).value, Replay(b, init).value;
      match events[|events| - 1] {
        case Intent(_, _) =>
        case Commit(tx) => ParallelApply(a, b, x.rows, y.rows, x.pending[tx]);
      }
    }
  }

  lemma ResolvedRows(x: Replayed, tx: nat, db: Rows)
    requires tx in x.pending && ResolveOne(x, tx, db).Ok?
    ensures var m, t := x.pending[tx], ResolveOne(x, tx, db).value;
            && t.pending == x.pending - {tx}
            && (Get(db, m.id) == m.after ==> Get(x.rows, m.id) == m.before && t.rows == Set(x.rows, m.id, m.after))
            && (Get(db, m.id) != m.after ==> t.rows == x.rows)
  {
  }

  lemma ParallelOne(a: Rows, b: Rows, x: Replayed, y: Replayed, tx: nat, db: Rows)
    requires Parallel(a, b, x.rows, y.rows) && x.pending == y.pending && tx in x.pending
    requires ResolveOne(x, tx, db).Ok? && ResolveOne(y, tx, db).Ok?
    ensures var t, u := ResolveOne(x, tx, db).value, ResolveOne(y, tx, db).value;
            Parallel(a, b, t.rows, u.rows) && t.pending == u.pending == x.pending - {tx}
  {
    var m := x.pending[tx];
    ResolvedRows(x, tx, db);
    ResolvedRows(y, tx, db);
    if Get(db, m.id) == m.after { ParallelApply(a, b, x.rows, y.rows, m); }
  }

  lemma {:induction false} ParallelResolve(a: Rows, b: Rows, x: Replayed, y: Replayed, db: Rows)
    requires Parallel(a, b, x.rows, y.rows) && x.pending == y.pending
    requires ResolveAll(x, db).Ok? && ResolveAll(y, db).Ok?
    ensures Parallel(a, b, ResolveAll(x, db).value.rows, ResolveAll(y, db).value.rows)
    decreases |x.pending|
  {
    if x.pending != map[] {
      var tx := Least(x.pending.Keys);
      assert x.pending.Keys == (x.pending - {tx}).Keys + {tx};
      ParallelOne(a, b, x, y, tx, db);
      ParallelResolve(a, b, ResolveOne(x, tx, db).value, ResolveOne(y, tx, db).value, db);
    }
  }

  /** Killed after writing the new snapshot but before resetting the journal, recovery runs
      again over the old journal. That second run succeeds exactly when the cycle changed
      no row; otherwise it stops with an error. */
  lemma RerunAfterSnapshot(snapshot: Snapshot, events: seq<Event>, db: Rows)
    requires Recover(snapshot, events, db).Ok?
    ensures var (again, _) := Recover(snapshot, events, db).value;
            Recover(again, events, db).Ok? <==> snapshot.rows == db
  {
    var (again, _) := Recover(snapshot, events, db).value;
    var a, b := snapshot.rows, again.rows;
    if Recover(again, events, db).Ok? {
      ParallelReplay(a, b, events);
      ParallelResolve(a, b, Replay(a, events).value, Replay(b, events).value, db);
      forall id ensures Get(a, id) == Get(db, id) {}
      SameRows(a, db);
    }
  }

  /** One committed insert is enough to make the second run fail. */
  lemma RerunCanFail(id: Id, row: Row)
    ensures var m := Mutation(Insert, id, None, Some(row));
            var events := [Intent(1, m), Commit(1)];
            var first := Recover(Snapshot(1, map[]), events, map[id := row]);
            first.Ok? && Recover(first.value.0, events, map[id := row]) == Err(PreconditionMismatch)
  {
    var m := Mutation(Insert, id, None, Some(row));
    var events := [Intent(1, m), Commit(1)];
    assert events[..1] == [Intent(1, m)] && events[..1][..0] == [];
    assert Replay(map[], events[..1]) == Ok(Start(map[]).(pending := map[1 := m]));
    assert map[1 := m] - {1} == map[];
    assert Replay(map[], events).value.rows == map[id := row];
    assert Replay(map[id := row], events[..1]) == Ok(Start(map[id := row]).(pending := map[1 := m]));
  }
}
