/** The crash-stress protocol: workers write a durable intent, run one atomic database
    statement, then write a durable commit; the process is killed at any point; recovery
    replays the journal onto the last snapshot and resolves what was left uncertain. */
module CrashRecovery {
  import opened Order

  datatype Result<+T> = Ok(value: T) | Err(error: Error)

  datatype Error = DuplicateIntent | CommitWithoutIntent | PreconditionMismatch | ImpossibleState | StateMismatch

  /** Row ids are generated per worker from a sequence number. */
  datatype Id = RowId(worker: nat, sequence: nat)

  datatype Row = Row(owner: nat, generation: int, payload: string)

  type Rows = map<Id, Row>

  datatype Kind = Insert | Update | Delete

  datatype Mutation = Mutation(kind: Kind, id: Id, before: Option<Row>, after: Option<Row>)

  datatype Event = Intent(tx: nat, mutation: Mutation) | Commit(tx: nat)

  datatype Snapshot = Snapshot(nextTx: nat, rows: Rows)

  function Get(rows: Rows, id: Id): Option<Row> {
    if id in rows then Some(rows[id]) else None
  }

  function Set(rows: Rows, id: Id, row: Option<Row>): Rows {
    match row case Some(r) => rows[id := r] case None => rows - {id}
  }

  /** The oracle's own check: a mutation applies only to the state it was planned on. */
  function ApplyMutation(rows: Rows, m: Mutation): Result<Rows> {
    if Get(rows, m.id) != m.before then Err(PreconditionMismatch) else Ok(Set(rows, m.id, m.after))
  }

  lemma GetSet(rows: Rows, id: Id, row: Option<Row>, other: Id)
    ensures Get(Set(rows, id, row), other) == if other == id then row else Get(rows, other)
  {
  }

  lemma SameRows(a: Rows, b: Rows)
    requires forall id :: Get(a, id) == Get(b, id)
    ensures a == b
  {
    forall id ensures id in a <==> id in b { assert Get(a, id) == Get(b, id); }
    forall id | id in a ensures a[id] == b[id] { assert Get(a, id) == Get(b, id); }
  }

  /* ---- counting ---- */

  datatype Counts = Counts(inserts: nat, updates: nat, deletes: nat)

  function Record(c: Counts, k: Kind): Counts {
    match k
    case Insert => c.(inserts := c.inserts + 1)
    case Update => c.(updates := c.updates + 1)
    case Delete => c.(deletes := c.deletes + 1)
  }

  ghost function OfKind(ms: map<nat, Mutation>, k: Kind): set<nat> {
    set tx | tx in ms && ms[tx].kind == k
  }

  ghost function KindCounts(ms: map<nat, Mutation>): Counts {
    Counts(|OfKind(ms, Insert)|, |OfKind(ms, Update)|, |OfKind(ms, Delete)|)
  }

  lemma CountOne(ms: map<nat, Mutation>, tx: nat, m: Mutation)
    requires tx !in ms
    ensures KindCounts(ms[tx := m]) == Record(KindCounts(ms), m.kind)
  {
    CountKind(ms, tx, m, Insert);
    CountKind(ms, tx, m, Update);
    CountKind(ms, tx, m, Delete);
  }

  lemma CountKind(ms: map<nat, Mutation>, tx: nat, m: Mutation, k: Kind)
    requires tx !in ms
    ensures |OfKind(ms[tx := m], k)| == |OfKind(ms, k)| + if k == m.kind then 1 else 0
  {
    if k == m.kind {
      assert OfKind(ms[tx := m], k) == OfKind(ms, k) + {tx};
    } else {
      assert OfKind(ms[tx := m], k) == OfKind(ms, k);
    }
  }

  /* ---- replay ---- */

  /** `counted` names the mutations recovery has accepted, by transaction. */
  datatype Replayed = Replayed(rows: Rows, pending: map<nat, Mutation>, counted: map<nat, Mutation>, counts: Counts,
                               commits: nat, resolvedCommitted: nat, resolvedAborted: nat)

  function Start(rows: Rows): Replayed {
    Replayed(rows, map[], map[], Counts(0, 0, 0), 0, 0, 0)
  }

  function Accept(s: Replayed, tx: nat, m: Mutation): Result<Replayed> {
    match ApplyMutation(s.rows, m)
    case Err(e) => Err(e)
    case Ok(rows) => Ok(s.(rows := rows, counted := s.counted[tx := m], counts := Record(s.counts, m.kind)))
  }

  function ReplayEvent(s: Replayed, e: Event): Result<Replayed> {
    match e
    case Intent(tx, m) => if tx in s.pending then Err(DuplicateIntent) else Ok(s.(pending := s.pending[tx := m]))
    case Commit(tx) =>
      if tx !in s.pending then Err(CommitWithoutIntent)
      else match Accept(s.(pending := s.pending - {tx}), tx, s.pending[tx])
        case Err(e) => Err(e)
        case Ok(t) => Ok(t.(commits := t.commits + 1))
  }

  function Replay(rows: Rows, events: seq<Event>): Result<Replayed> {
    if events == [] then Ok(Start(rows))
    else match Replay(rows, events[..|events| - 1])
      case Err(e) => Err(e)
      case Ok(s) => ReplayEvent(s, events[|events| - 1])
  }

  function ResolveOne(s: Replayed, tx: nat, db: Rows): Result<Replayed>
    requires tx in s.pending
  {
    var m := s.pending[tx];
    var rest := s.(pending := s.pending - {tx});
    if Get(db, m.id) == m.after then
      match Accept(rest, tx, m)
      case Err(e) => Err(e)
      case Ok(t) => Ok(t.(resolvedCommitted := t.resolvedCommitted + 1))
    else if Get(db, m.id) == m.before then Ok(rest.(resolvedAborted := rest.resolvedAborted + 1))
    else Err(ImpossibleState)
  }

  predicate IsLeast(s: set<nat>, t: nat) {
    t in s && forall u :: u in s ==> t <= u
  }

  lemma {:induction false} LeastExists(s: set<nat>)
    requires s != {}
    ensures exists t :: IsLeast(s, t)
  {
    var t :| t in s;
    var rest := s - {t};
    assert forall u :: u in s ==> u == t || u in rest;
    if rest == {} {
      assert IsLeast(s, t);
    } else {
      LeastExists(rest);
      var l :| IsLeast(rest, l);
      assert IsLeast(s, if l < t then l else t);
    }
  }

  function Least(s: set<nat>): (t: nat)
    requires s != {}
    ensures t in s && forall u :: u in s ==> t <= u
  {
    LeastExists(s);
    var t :| t in s && IsLeast(s, t);
    t
  }

  /** Pending transactions are resolved in ascending order against the reopened database. */
  function ResolveAll(s: Replayed, db: Rows): Result<Replayed>
    decreases |s.pending|, |db|
  {
    if s.pending == map[] then Ok(s)
    else
      var tx := Least(s.pending.Keys);
      assert s.pending.Keys == (s.pending - {tx}).Keys + {tx};
      match ResolveOne(s, tx, db)
      case Err(e) => Err(e)
      case Ok(t) => ResolveAll(t, db)
  }

  function Max(a: nat, b: nat): nat { if a < b then b else a }

  function MaxTx(events: seq<Event>): nat {
    if events == [] then 0 else Max(MaxTx(events[..|events| - 1]), events[|events| - 1].tx)
  }

  /** The whole of one recovery, up to what is written back. */
  function Recover(snapshot: Snapshot, events: seq<Event>, db: Rows): Result<(Snapshot, Replayed)> {
    match Replay(snapshot.rows, events)
    case Err(e) => Err(e)
    case Ok(replayed) =>
      match ResolveAll(replayed, db)
      case Err(e) => Err(e)
      case Ok(s) =>
        if s.rows != db then Err(StateMismatch)
        else Ok((Snapshot(Max(snapshot.nextTx, MaxTx(events) + 1), s.rows), s))
  }

  /** One pass over the journal. */
  method ReplayJournal(rows: Rows, events: seq<Event>) returns (r: Result<Replayed>, maxTx: nat)
    ensures r == Replay(rows, events)
    ensures r.Ok? ==> maxTx == MaxTx(events)
  {
    var s := Start(rows);
    maxTx := 0;
    for i := 0 to |events|
      invariant Replay(rows, events[..i]) == Ok(s) && maxTx == MaxTx(events[..i])
    {
      assert events[..i + 1][..i] == events[..i] && events[..i + 1][i] == events[i];
      assert Replay(rows, events[..i + 1]) == ReplayEvent(s, events[i]);
      ErrorSticks(rows, events, i + 1);
      match events[i] {
        case Intent(tx, m) =>
          if tx in s.pending { return Err(DuplicateIntent), maxTx; }
          s := s.(pending := s.pending[tx := m]);
        case Commit(tx) =>
          if tx !in s.pending { return Err(CommitWithoutIntent), maxTx; }
          var m := s.pending[tx];
          if Get(s.rows, m.id) != m.before { return Err(PreconditionMismatch), maxTx; }
          s := s.(pending := s.pending - {tx}, rows := Set(s.rows, m.id, m.after), counted := s.counted[tx := m],
                  counts := Record(s.counts, m.kind), commits := s.commits + 1);
      }
      maxTx := Max(maxTx, events[i].tx);
    }
    assert events[..|events|] == events;
    r := Ok(s);
  }

  /** One pass over what the journal left uncertain. */
  method ResolvePending(replayed: Replayed, db: Rows) returns (r: Result<Replayed>)
    ensures r == ResolveAll(replayed, db)
  {
    var s := replayed;
    while s.pending != map[]
      invariant ResolveAll(replayed, db) == ResolveAll(s, db)
      decreases |s.pending|
    {
      var tx := Least(s.pending.Keys);
      assert s.pending.Keys == (s.pending - {tx}).Keys + {tx};
      var step := ResolveTransaction(s, tx, db);
      match step {
        case Err(e) => return Err(e);
        case Ok(t) => s := t;
      }
    }
    r := Ok(s);
  }

  /** Compare the database with both sides of one uncertain mutation. */
  method ResolveTransaction(s: Replayed, tx: nat, db: Rows) returns (r: Result<Replayed>)
    requires tx in s.pending
    ensures r == ResolveOne(s, tx, db)
    ensures r.Ok? ==> r.value.pending == s.pending - {tx}
  {
    var m, rest := s.pending[tx], s.pending - {tx};
    if Get(db, m.id) == m.after {
      if Get(s.rows, m.id) != m.before { return Err(PreconditionMismatch); }
      r := Ok(s.(pending := rest, rows := Set(s.rows, m.id, m.after), counted := s.counted[tx := m],
                 counts := Record(s.counts, m.kind), resolvedCommitted := s.resolvedCommitted + 1));
    } else if Get(db, m.id) == m.before {
      r := Ok(s.(pending := rest, resolvedAborted := s.resolvedAborted + 1));
    } else {
      r := Err(ImpossibleState);
    }
  }

  method RecoverCycle(snapshot: Snapshot, events: seq<Event>, db: Rows) returns (r: Result<(Snapshot, Replayed)>)
    ensures r == Recover(snapshot, events, db)
  {
    var replayed, maxTx := ReplayJournal(snapshot.rows, events);
    match replayed {
      case Err(e) => return Err(e);
      case Ok(s) =>
        var resolved := ResolvePending(s, db);
        match resolved {
          case Err(e) => return Err(e);
          case Ok(t) =>
            if t.rows != db { return Err(StateMismatch); }
            return Ok((Snapshot(Max(snapshot.nextTx, maxTx + 1), t.rows), t));
        }
    }
  }

  lemma {:induction false} ErrorSticks(rows: Rows, events: seq<Event>, n: nat)
    requires n <= |events|
    ensures Replay(rows, events[..n]).Err? ==> Replay(rows, events) == Replay(rows, events[..n])
    decreases |events| - n
  {
    if n < |events| {
      assert events[..n + 1][..n] == events[..n];
      ErrorSticks(rows, events, n + 1);
    } else {
      assert events[..n] == events;
    }
  }
}
