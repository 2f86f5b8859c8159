/** One sidecar connection: authentication, at most one transaction or one streaming cursor,
    and what all of this lets through to the engine. */
module Connection {
  import opened Order

  const SIDECAR_TXN_TIMEOUT_MS: nat := 30_000
  const DEFAULT_CURSOR_ROWS: nat := 512
  const MAX_CURSOR_ROWS: nat := 4096

  /* ---- the token ---- */

  type Token = seq<bv8>

  /** A byte, or zero past the end. */
  function ByteAt(s: Token, i: nat): bv8 {
    if i < |s| then s[i] else 0
  }

  lemma NoDifference(diff: bv8, x: bv8, y: bv8)
    ensures diff | (x ^ y) == 0 <==> diff == 0 && x == y
  {
  }

  /** The comparison that looks at every byte decides exactly equality. */
  method TokenMatches(expected: Token, supplied: Token) returns (same: bool)
    ensures same <==> expected == supplied
  {
    var diff: bv8 := if |expected| != |supplied| then 1 else 0;
    var longest := if |expected| < |supplied| then |supplied| else |expected|;
    for i := 0 to longest
      invariant diff == 0 <==>
        |expected| == |supplied| && forall k :: 0 <= k < i ==> ByteAt(expected, k) == ByteAt(supplied, k)
    {
      NoDifference(diff, ByteAt(expected, i), ByteAt(supplied, i));
      diff := diff | (ByteAt(expected, i) ^ ByteAt(supplied, i));
    }
    same := diff == 0;
    if |expected| == |supplied| && forall k :: 0 <= k < longest ==> ByteAt(expected, k) == ByteAt(supplied, k) {
      assert forall k :: 0 <= k < |expected| ==>
        expected[k] == ByteAt(expected, k) == ByteAt(supplied, k) == supplied[k];
    }
  }

  /* ---- what the engine sees ---- */

  type Write = string

  /** What happened on a connection, in order. `Authenticated` is the one event that does
      not reach the engine. */
  datatype Event =
    | Authenticated
    | EngineCall
    | AutoCommit
    | OpenCursor
    | Fetch
    | CloseCursor
    | Begun(txn: nat)
    | Staged(txn: nat, writes: seq<Write>)
    | Published(txn: nat, writes: seq<Write>)
    | Dropped(txn: nat)

  /** The discipline the trace of a connection has to follow, as a small automaton. */
  datatype Monitor = Monitor(open: Option<nat>, staged: seq<Write>, cursor: bool, next: nat)

  const START := Monitor(None, [], false, 0)

  function Watch(m: Monitor, e: Event): Option<Monitor> {
    match e
    case Authenticated => Some(m)
    case EngineCall => Some(m)
    case AutoCommit => if m.open == None then Some(m) else None
    case OpenCursor => if m.open == None && !m.cursor then Some(m.(cursor := true)) else None
    case Fetch => if m.cursor then Some(m) else None
    case CloseCursor => if m.cursor then Some(m.(cursor := false)) else None
    case Begun(t) =>
      if m.open == None && !m.cursor && t == m.next then Some(Monitor(Some(t), [], false, t + 1)) else None
    case Staged(t, ws) => if m.open == Some(t) then Some(m.(staged := m.staged + ws)) else None
    case Published(t, ws) => if m.open == Some(t) && ws == m.staged then Some(m.(open := None)) else None
    case Dropped(t) => if m.open == Some(t) then Some(m.(open := None)) else None
  }

  /** The automaton after a whole trace; `None` once some event broke the discipline. */
  function Watched(trace: seq<Event>): Option<Monitor> {
    if trace == [] then Some(START)
    else
      var before := Watched(trace[..|trace| - 1]);
      if before == None then None else Watch(before.value, trace[|trace| - 1])
  }

  /* ---- what an accepted trace means ---- */

  predicate Concerns(e: Event, t: nat) {
    (e.Begun? || e.Staged? || e.Published? || e.Dropped?) && e.txn == t
  }

  predicate Ends(e: Event, t: nat) {
    (e.Published? || e.Dropped?) && e.txn == t
  }

  /** All writes staged by a transaction, in order. */
  function StagedBy(trace: seq<Event>, t: nat): seq<Write> {
    if trace == [] then []
    else
      var e := trace[|trace| - 1];
      StagedBy(trace[..|trace| - 1], t) + if e.Staged? && e.txn == t then e.writes else []
  }

  lemma {:induction false} WatchedPrefix(trace: seq<Event>, n: nat)
    requires Watched(trace).Some? && n <= |trace|
    ensures Watched(trace[..n]).Some?
    ensures n < |trace| ==> Watched(trace[..n + 1]) == Watch(Watched(trace[..n]).value, trace[n])
    ensures n < |trace| ==> Watched(trace[..n + 1]).Some?
  {
    if n == |trace| {
      assert trace[..n] == trace;
    } else if n + 1 == |trace| {
      assert trace[..n + 1] == trace;
    } else {
      var shorter := trace[..|trace| - 1];
      WatchedPrefix(shorter, n);
      assert shorter[..n] == trace[..n] && shorter[..n + 1] == trace[..n + 1];
    }
  }

  /** A transaction number not yet given out has left no mark. */
  lemma {:induction false} Unborn(trace: seq<Event>, t: nat)
    requires Watched(trace).Some? && Watched(trace).value.next <= t
    ensures forall i :: 0 <= i < |trace| ==> !Concerns(trace[i], t)
    ensures StagedBy(trace, t) == []
    ensures Watched(trace).value.open != Some(t)
  {
    OpenIsOld(trace);
    if trace != [] {
      Unborn(trace[..|trace| - 1], t);
      OpenIsOld(trace[..|trace| - 1]);
    }
  }

  lemma {:induction false} OpenIsOld(trace: seq<Event>)
    requires Watched(trace).Some?
    ensures var m := Watched(trace).value; m.open.Some? ==> m.open.value < m.next
  {
    if trace != [] {
      OpenIsOld(trace[..|trace| - 1]);
    }
  }

  /** What is published is exactly what was staged. */
  lemma {:induction false} OpenStages(trace: seq<Event>)
    requires Watched(trace).Some?
    ensures var m := Watched(trace).value; m.open.Some? ==> m.staged == StagedBy(trace, m.open.value)
  {
    if trace != [] {
      var before := trace[..|trace| - 1];
      OpenStages(before);
      if trace[|trace| - 1].Begun? {
        Unborn(before, Watched(before).value.next);
      }
    }
  }

  lemma {:induction false} PublishedIsStaged(trace: seq<Event>, i: nat)
    requires Watched(trace).Some? && i < |trace| && trace[i].Published?
    ensures trace[i].writes == StagedBy(trace[..i], trace[i].txn)
  {
    WatchedPrefix(trace, i);
    OpenStages(trace[..i]);
  }

  /** A transaction that ended is not open and its number is not given out again. */
  lemma {:induction false} EndedStaysEnded(trace: seq<Event>, i: nat, t: nat)
    requires Watched(trace).Some? && i < |trace| && Ends(trace[i], t)
    ensures Watched(trace).value.open != Some(t) && t < Watched(trace).value.next
  {
    var before := trace[..|trace| - 1];
    OpenIsOld(before);
    if i < |before| {
      EndedStaysEnded(before, i, t);
    }
  }

  /** After a transaction is published, rolled back, expired or dropped, nothing more
      happens in its name: it is published at most once and never after its end. */
  lemma {:induction false} EndIsFinal(trace: seq<Event>, i: nat, j: nat, t: nat)
    requires Watched(trace).Some? && i < j < |trace| && Ends(trace[i], t)
    ensures !Concerns(trace[j], t)
  {
    WatchedPrefix(trace, j);
    EndedStaysEnded(trace[..j], i, t);
  }

  /** While a transaction is open there is no cursor and no autocommit statement, and the
      other way round. */
  lemma {:induction false} NeverBoth(trace: seq<Event>)
    requires Watched(trace).Some?
    ensures var m := Watched(trace).value; !(m.open.Some? && m.cursor)
  {
    if trace != [] {
      NeverBoth(trace[..|trace| - 1]);
    }
  }

  /** With no transaction open, every one that began has ended. */
  lemma {:induction false} AllEnded(trace: seq<Event>, t: nat)
    requires Watched(trace).Some?
    requires var m := Watched(trace).value; m.open != Some(t) && t < m.next
    ensures exists i :: 0 <= i < |trace| && Ends(trace[i], t)
  {
    var before := trace[..|trace| - 1];
    if Watched(before).value.open == Some(t) {
      assert Ends(trace[|trace| - 1], t);
    } else {
      AllEnded(before, t);
      var i :| 0 <= i < |before| && Ends(before[i], t);
      assert Ends(trace[i], t);
    }
  }

  lemma {:induction false} WatchedSnoc(trace: seq<Event>, e: Event)
    requires Watched(trace).Some?
    ensures Watched(trace + [e]) == Watch(Watched(trace).value, e)
  {
    assert (trace + [e])[..|trace|] == trace;
  }

  /* ---- requests ---- */

  datatype TimeoutField = NoTimeout | UnsignedTimeout | BadTimeout
  datatype RowsField = DefaultRows | BadRows | Rows(count: nat)

  /** A request by its `op`, with the presence of the fields that decide its path. */
  datatype Request =
    | Auth(token: Option<Token>)
    | Ping
    | Stats
    | Query(hasSql: bool, timeout: TimeoutField)
    | QueryOpen(hasSql: bool, timeout: TimeoutField)
    | QueryNext(rows: RowsField)
    | QueryClose
    | Search
    | Begin
    | QueryInTxn(hasSql: bool)
    | TxnInsert(hasTable: bool, hasRecord: bool)
    | TxnGet(hasTable: bool, hasId: bool)
    | TxnUpdate(hasPatch: bool, hasTable: bool, hasId: bool)
    | TxnDelete(hasTable: bool, hasId: bool)
    | Commit
    | Rollback
    | Maintain
    | Unknown

  datatype Reason =
    | BadJson
    | AuthRefused
    | AuthRequired
    | Expired
    | InvalidArgument
    | EngineError

  /** `Closed` tells whether there was a cursor to close. */
  datatype Reply = Done | Closed(existed: bool) | Failed(reason: Reason)

  /** What the engine answers to the call a request makes, what that call stages, whether it
      reports the cursor exhausted, and whether a commit that reports an error took effect. */
  datatype Outcome = Outcome(ok: bool, writes: seq<Write>, exhausted: bool, tookEffect: bool)

  /** A commit that succeeds is published; one that fails may be. */
  predicate Publishes(outcome: Outcome) {
    outcome.ok || outcome.tookEffect
  }

  function Supplied(token: Option<Token>): Token {
    if token == None then [] else token.value
  }

  predicate Presents(line: Option<Request>, expected: Option<Token>) {
    && line.Some? && line.value.Auth? && expected.Some?
    && (line.value.token == expected || (line.value.token == None && expected.value == []))
  }

  datatype Txn = Txn(number: nat, started: nat, staged: seq<Write>)

  class Conn {
    /** The token to present, or none on a trusted transport. */
    const expected: Option<Token>
    var authenticated: bool
    var txn: Option<Txn>
    var cursor: bool
    var begun: nat

    ghost var trace: seq<Event>

    constructor (expected: Option<Token>)
      ensures Valid() && this.expected == expected && trace == []
      ensures authenticated == expected.None? && txn == None && !cursor
    {
      this.expected := expected;
      authenticated, txn, cursor, begun, trace := expected.None?, None, false, 0, [];
    }

    /** The fields are what the trace says, and nothing is in the trace of a connection
        that has not authenticated. */
    ghost predicate Valid()
      reads this
    {
      && Agrees(Watched(trace), txn, cursor, begun)
      && !(txn.Some? && cursor)
      && (!authenticated ==> expected.Some? && trace == [])
      && (authenticated && expected.Some? ==> trace != [] && trace[0] == Authenticated)
    }

    ghost method Note(e: Event)
      requires Watched(trace).Some?
      modifies this`trace
      ensures trace == old(trace) + [e] && Watched(trace) == Watch(Watched(old(trace)).value, e)
    {
      WatchedSnoc(trace, e);
      trace := trace + [e];
    }

    /** A failed or finished step that changed nothing. */
    twostate predicate Same()
      reads this
    {
      && authenticated == old(authenticated) && txn == old(txn) && cursor == old(cursor) && begun == old(begun)
      && trace == old(trace)
    }

    /** Only `auth` may pass before authentication, and it alone changes that state. */
    method Dispatch(line: Option<Request>, now: nat, outcome: Outcome) returns (reply: Reply)
      requires Valid()
      modifies this
      ensures Valid() && old(trace) <= trace
      ensures authenticated <==> old(authenticated) || Presents(line, expected)
      ensures !authenticated ==> Same() && reply.Failed?
      ensures !old(authenticated) && authenticated ==> trace == [Authenticated] && txn == None && !cursor
      ensures line == None ==> Same() && reply == Failed(BadJson)
      ensures line.Some? && line.value.Auth? ==>
        if Presents(line, expected) then reply == Done && txn == old(txn) && trace == old(trace) + [Authenticated]
        else Same() && reply == Failed(AuthRefused)
      ensures !old(authenticated) && line.Some? && !line.value.Auth? ==> Same() && reply == Failed(AuthRequired)
      ensures old(authenticated) && line.Some? && !line.value.Auth? ==>
        if old(txn.Some? && now > txn.value.started + 30_000) then ExpiredNow(reply)
        else Effect(line.value, now, outcome, reply)
      ensures reply == Failed(Expired) <==>
        old(authenticated && txn.Some? && now > txn.value.started + 30_000) && line.Some? && !line.value.Auth?
    {
      if line == None { return Failed(BadJson); }
      var request := line.value;
      if request.Auth? {
        if expected == None { return Failed(AuthRefused); }
        var same := TokenMatches(expected.value, Supplied(request.token));
        if !same { return Failed(AuthRefused); }
        Note(Authenticated);
        authenticated := true;
        return Done;
      }
      if !authenticated { return Failed(AuthRequired); }
      reply := Handle(request, now, outcome);
    }

    method Handle(request: Request, now: nat, outcome: Outcome) returns (reply: Reply)
      requires Valid() && authenticated && !request.Auth?
      modifies this
      ensures Valid() && old(trace) <= trace && authenticated
      ensures if old(txn.Some? && now > txn.value.started + 30_000) then ExpiredNow(reply)
              else Effect(request, now, outcome, reply)
      ensures reply == Failed(Expired) <==> old(txn.Some? && now > txn.value.started + 30_000)
    {
      if TooOld(now) {
        Drop();
        return Failed(Expired);
      }
      reply := Execute(request, now, outcome);
    }

    /** The request is not looked at: the transaction is dropped and the client told so. */
    twostate predicate ExpiredNow(reply: Reply)
      reads this
    {
      && reply == Failed(Expired) && old(txn).Some? && txn == None && cursor == old(cursor)
      && trace == old(trace) + [Dropped(old(txn).value.number)]
    }

    predicate TooOld(now: nat)
      reads this
    {
      txn.Some? && now - txn.value.started > SIDECAR_TXN_TIMEOUT_MS
    }

    /** Dropping a transaction is its rollback. */
    method Drop()
      requires Valid() && txn.Some? && authenticated
      modifies this
      ensures Valid() && txn == None && cursor == old(cursor) && authenticated
      ensures trace == old(trace) + [Dropped(old(txn).value.number)]
    {
      Note(Dropped(txn.value.number));
      txn := None;
    }

    /** What a request outside the transaction group does. */
    twostate predicate PlainEffect(request: Request, outcome: Outcome, reply: Reply)
      reads this
    {
      && txn == old(txn)
      && (request.Ping? ==> Same() && reply == Done)
      && (request.Unknown? ==> Same() && reply == Failed(InvalidArgument))
      && (request.Stats? || request.Search? || request.Maintain? ==>
            && trace == old(trace) + [EngineCall] && cursor == old(cursor)
            && reply == Answer(request.Stats? || outcome.ok))
      && (request.Query? ==>
            if txn.Some? || !SqlOk(request) then Same() && reply == Failed(InvalidArgument)
            else trace == old(trace) + [AutoCommit] && cursor == old(cursor) && reply == Answer(outcome.ok))
      && (request.QueryOpen? ==>
            && (cursor <==> old(cursor) || reply == Done)
            && (if txn.Some? || old(cursor) || !SqlOk(request) then Same() && reply == Failed(InvalidArgument)
                else
                  && reply == Answer(outcome.ok)
                  && trace == old(trace) + [if outcome.ok then OpenCursor else EngineCall]))
      && (request.QueryNext? ==>
            && (cursor <==> old(cursor) && !(reply == Done && outcome.exhausted))
            && (if old(cursor) && RowsOk(request.rows)
                then
                  && reply == Answer(outcome.ok)
                  && trace == old(trace) + if old(cursor) && !cursor then [Fetch, CloseCursor] else [Fetch]
                else Same() && reply == Failed(InvalidArgument)))
      && (request.QueryClose? ==>
            && !cursor && reply == Closed(old(cursor))
            && trace == old(trace) + if old(cursor) then [CloseCursor] else [])
    }

    /** What a request of the transaction group does. */
    twostate predicate TxnEffect(request: Request, now: nat, outcome: Outcome, reply: Reply)
      reads this
    {
      && cursor == old(cursor)
      && (request.Begin? ==>
            if old(txn) == None && !cursor then
              txn == Some(Txn(old(begun), now, [])) && reply == Done && trace == old(trace) + [Begun(old(begun))]
            else Same() && reply == Failed(InvalidArgument))
      && (CallsTxn(request) ==>
            if old(txn) == None || !FieldsOk(request) then Same() && reply == Failed(InvalidArgument)
            else
              var writes := if request.TxnGet? then [] else outcome.writes;
              && txn == Some(old(txn).value.(staged := old(txn).value.staged + writes))
              && reply == Answer(outcome.ok) && trace == old(trace) + [Staged(old(txn).value.number, writes)])
      && (request.Commit? || request.Rollback? ==>
            if old(txn) == None then Same() && reply == Failed(InvalidArgument)
            else
              && txn == None && reply == Answer(request.Rollback? || outcome.ok)
              && trace == old(trace) + [if request.Commit? && (outcome.ok || outcome.tookEffect)
                                        then Published(old(txn).value.number, old(txn).value.staged)
                                        else Dropped(old(txn).value.number)])
    }

    twostate predicate Effect(request: Request, now: nat, outcome: Outcome, reply: Reply)
      reads this
    {
      if InTxnGroup(request) then TxnEffect(request, now, outcome, reply) else PlainEffect(request, outcome, reply)
    }

    method Execute(request: Request, now: nat, outcome: Outcome) returns (reply: Reply)
      requires Valid() && authenticated && !request.Auth?
      modifies this
      ensures Valid() && old(trace) <= trace && authenticated && Effect(request, now, outcome, reply)
    {
      if InTxnGroup(request) {
        reply := ExecuteTxn(request, now, outcome);
      } else {
        reply := ExecutePlain(request, outcome);
      }
    }

    method ExecutePlain(request: Request, outcome: Outcome) returns (reply: Reply)
      requires Valid() && authenticated && !request.Auth? && !InTxnGroup(request)
      modifies this`trace, this`cursor
      ensures Valid() && old(trace) <= trace && PlainEffect(request, outcome, reply)
    {
      match request {
        case Ping => reply := Done;
        case Unknown => reply := Failed(InvalidArgument);
        case Stats => reply := Call(Outcome(true, [], false, false));
        case Search => reply := Call(outcome);
        case Maintain => reply := Call(outcome);
        case Query(hasSql, timeout) => reply := AutoQuery(hasSql, timeout, outcome);
        case QueryOpen(hasSql, timeout) => reply := OpenQuery(hasSql, timeout, outcome);
        case QueryNext(rows) => reply := FetchRows(rows, outcome);
        case QueryClose => reply := CloseQuery();
      }
    }

    method ExecuteTxn(request: Request, now: nat, outcome: Outcome) returns (reply: Reply)
      requires Valid() && authenticated && InTxnGroup(request)
      modifies this
      ensures Valid() && old(trace) <= trace && authenticated && TxnEffect(request, now, outcome, reply)
    {
      match request {
        case Begin => reply := BeginTxn(now);
        case QueryInTxn(hasSql) => reply := InTxn(hasSql, true, outcome);
        case TxnInsert(hasTable, hasRecord) => reply := InTxn(hasTable && hasRecord, true, outcome);
        case TxnGet(hasTable, hasId) => reply := InTxn(true, hasTable && hasId, outcome.(writes := []));
        case TxnUpdate(hasPatch, hasTable, hasId) => reply := InTxn(hasPatch, hasTable && hasId, outcome);
        case TxnDelete(hasTable, hasId) => reply := InTxn(true, hasTable && hasId, outcome);
        case Commit => reply := CommitTxn(outcome);
        case Rollback =>
          if txn == None { return Failed(InvalidArgument); }
          Drop();
          reply := Done;
      }
    }

    /** An autocommit statement; refused while a transaction is open. */
    method AutoQuery(hasSql: bool, timeout: TimeoutField, outcome: Outcome) returns (reply: Reply)
      requires Valid() && authenticated
      modifies this`trace
      ensures Valid()
      ensures trace == old(trace) + if reply == Failed(InvalidArgument) then [] else [AutoCommit]
      ensures reply == if txn.Some? || !hasSql || timeout == BadTimeout then Failed(InvalidArgument)
        else Answer(outcome.ok)
    {
      if timeout.BadTimeout? || txn.Some? || !hasSql { return Failed(InvalidArgument); }
      Note(AutoCommit);
      reply := Answer(outcome.ok);
    }

    method OpenQuery(hasSql: bool, timeout: TimeoutField, outcome: Outcome) returns (reply: Reply)
      requires Valid() && authenticated
      modifies this`trace, this`cursor
      ensures Valid() && old(trace) <= trace
      ensures reply == if txn.Some? || old(cursor) || !hasSql || timeout == BadTimeout then Failed(InvalidArgument)
        else Answer(outcome.ok)
      ensures reply == Failed(InvalidArgument) ==> Same()
      ensures reply != Failed(InvalidArgument) ==> trace == old(trace) + [if outcome.ok then OpenCursor else EngineCall]
      ensures cursor <==> old(cursor) || reply == Done
    {
      if timeout.BadTimeout? || txn.Some? || cursor || !hasSql { return Failed(InvalidArgument); }
      if !outcome.ok {
        reply := Call(outcome);
      } else {
        Note(OpenCursor);
        cursor, reply := true, Done;
      }
    }

    method CloseQuery() returns (reply: Reply)
      requires Valid() && authenticated
      modifies this`trace, this`cursor
      ensures Valid() && !cursor && reply == Closed(old(cursor))
      ensures trace == old(trace) + if old(cursor) then [CloseCursor] else []
    {
      reply := Closed(cursor);
      if cursor {
        Note(CloseCursor);
        cursor := false;
      }
    }

    method BeginTxn(now: nat) returns (reply: Reply)
      requires Valid() && authenticated
      modifies this`trace, this`txn, this`begun
      ensures Valid() && old(trace) <= trace
      ensures reply == Done <==> old(txn) == None && !cursor
      ensures if reply == Done then txn == Some(Txn(old(begun), now, [])) && trace == old(trace) + [Begun(old(begun))]
              else Same() && reply == Failed(InvalidArgument)
    {
      if cursor || txn.Some? { return Failed(InvalidArgument); }
      Note(Begun(begun));
      txn, begun, reply := Some(Txn(begun, now, [])), begun + 1, Done;
    }

    method CommitTxn(outcome: Outcome) returns (reply: Reply)
      requires Valid() && authenticated
      modifies this
      ensures Valid() && txn == None && authenticated && old(trace) <= trace && cursor == old(cursor)
      ensures old(txn) == None ==> Same() && reply == Failed(InvalidArgument)
      ensures old(txn).Some? ==>
                && reply == Answer(outcome.ok)
                && trace == old(trace) + [if outcome.ok || outcome.tookEffect
                                          then Published(old(txn).value.number, old(txn).value.staged)
                                          else Dropped(old(txn).value.number)]
    {
      if txn == None { return Failed(InvalidArgument); }
      if Publishes(outcome) {
        Note(Published(txn.value.number, txn.value.staged));
        txn := None;
      } else {
        Drop();
      }
      reply := Answer(outcome.ok);
    }

    /** A call into the engine outside any transaction. */
    method Call(outcome: Outcome) returns (reply: Reply)
      requires Valid() && authenticated
      modifies this`trace
      ensures Valid() && trace == old(trace) + [EngineCall] && reply == Answer(outcome.ok)
    {
      Note(EngineCall);
      reply := Answer(outcome.ok);
    }

    method FetchRows(rows: RowsField, outcome: Outcome) returns (reply: Reply)
      requires Valid() && authenticated
      modifies this`trace, this`cursor
      ensures Valid() && old(trace) <= trace
      ensures reply == if old(cursor) && RowsOk(rows) then Answer(outcome.ok) else Failed(InvalidArgument)
      ensures reply == Failed(InvalidArgument) ==> Same()
      ensures reply != Failed(InvalidArgument) ==>
                trace == old(trace) + if old(cursor) && !cursor then [Fetch, CloseCursor] else [Fetch]
      ensures cursor <==> old(cursor) && !(reply == Done && outcome.exhausted)
    {
      if rows.BadRows? { return Failed(InvalidArgument); }
      var requested := if rows.Rows? then rows.count else DEFAULT_CURSOR_ROWS;
      if requested == 0 || requested > MAX_CURSOR_ROWS || !cursor { return Failed(InvalidArgument); }
      Note(Fetch);
      if !outcome.ok { return Failed(EngineError); }
      if outcome.exhausted {
        Note(CloseCursor);
        cursor := false;
      }
      reply := Done;
    }

    /** A call on the open transaction: fields checked before and after looking for it. A
        call may stage writes and still report an error. */
    method InTxn(fieldsBefore: bool, fieldsAfter: bool, outcome: Outcome) returns (reply: Reply)
      requires Valid() && authenticated
      modifies this`trace, this`txn
      ensures Valid() && old(trace) <= trace
      ensures if old(txn) == None || !fieldsBefore || !fieldsAfter then Same() && reply == Failed(InvalidArgument)
              else (
                && txn == Some(old(txn).value.(staged := old(txn).value.staged + outcome.writes))
                && reply == Answer(outcome.ok) && trace == old(trace) + [Staged(old(txn).value.number, outcome.writes)])
    {
      if !fieldsBefore || txn == None || !fieldsAfter { return Failed(InvalidArgument); }
      Note(Staged(txn.value.number, outcome.writes));
      txn := Some(txn.value.(staged := txn.value.staged + outcome.writes));
      reply := Answer(outcome.ok);
    }

    /** The peer is gone, or idle for too long: whatever is open is dropped. */
    method Disconnect()
      requires Valid()
      modifies this
      ensures Valid() && txn == None && !cursor && old(trace) <= trace
      ensures trace == old(trace) + if old(txn).Some? then [Dropped(old(txn).value.number)]
                                    else if old(cursor) then [CloseCursor] else []
      ensures authenticated == old(authenticated)
    {
      if txn.Some? { Drop(); }
      if cursor {
        Note(CloseCursor);
        cursor := false;
      }
    }
  }

  function Answer(ok: bool): Reply {
    if ok then Done else Failed(EngineError)
  }

  predicate SqlOk(request: Request)
    requires request.Query? || request.QueryOpen?
  {
    request.hasSql && request.timeout != BadTimeout
  }

  predicate RowsOk(rows: RowsField) {
    match rows
    case DefaultRows => true
    case BadRows => false
    case Rows(count) => 1 <= count <= MAX_CURSOR_ROWS
  }

  /** Requests that work on the open transaction. */
  predicate CallsTxn(request: Request) {
    request.QueryInTxn? || request.TxnInsert? || request.TxnGet? || request.TxnUpdate? || request.TxnDelete?
  }

  predicate InTxnGroup(request: Request) {
    CallsTxn(request) || request.Begin? || request.Commit? || request.Rollback?
  }

  predicate FieldsOk(request: Request)
    requires CallsTxn(request)
  {
    match request
    case QueryInTxn(hasSql) => hasSql
    case TxnInsert(hasTable, hasRecord) => hasTable && hasRecord
    case TxnGet(hasTable, hasId) => hasTable && hasId
    case TxnUpdate(hasPatch, hasTable, hasId) => hasPatch && hasTable && hasId
    case TxnDelete(hasTable, hasId) => hasTable && hasId
  }

  /** One turn of the serving loop: a line to dispatch, or a blank one; the reply may fail
      to reach the peer. */
  datatype Turn = Turn(blank: bool, line: Option<Request>, now: nat, outcome: Outcome, delivered: bool)

  /** A connection from start to end, for any sequence of turns. */
  method Serve(conn: Conn, turns: seq<Turn>)
    requires conn.Valid() && conn.trace == [] && conn.txn == None && !conn.cursor
    modifies conn
    ensures conn.Valid() && conn.txn == None && !conn.cursor
    ensures Watched(conn.trace).Some?
    ensures forall t :: 0 <= t < conn.begun ==> ExactlyOneEnd(conn.trace, t)
    ensures conn.expected.Some? && conn.trace != [] ==> conn.trace[0] == Authenticated
    ensures (forall i :: 0 <= i < |turns| ==> !Presents(turns[i].line, conn.expected)) && conn.expected.Some? ==>
      conn.trace == []
  {
    var i := 0;
    while i < |turns|
      invariant 0 <= i <= |turns| && conn.Valid()
      invariant conn.authenticated ==>
        conn.expected == None || exists k :: 0 <= k < i && Presents(turns[k].line, conn.expected)
    {
      var turn := turns[i];
      i := i + 1;
      if turn.blank { continue; }
      var _ := conn.Dispatch(turn.line, turn.now, turn.outcome);
      if !turn.delivered { break; }
    }
    conn.Disconnect();
    forall t | 0 <= t < conn.begun ensures ExactlyOneEnd(conn.trace, t) {
      AllEnded(conn.trace, t);
      EndUnique(conn.trace, t);
    }
  }

  /** The transaction ends at one place of the trace, and nothing of it comes later. */
  ghost predicate ExactlyOneEnd(trace: seq<Event>, t: nat) {
    exists i :: EndsAt(trace, i, t)
  }

  ghost predicate EndsAt(trace: seq<Event>, i: int, t: nat) {
    && 0 <= i < |trace| && Ends(trace[i], t)
    && forall j :: 0 <= j < |trace| && j != i ==> !Ends(trace[j], t) && (j > i ==> !Concerns(trace[j], t))
  }

  lemma {:induction false} EndUnique(trace: seq<Event>, t: nat)
    requires Watched(trace).Some? && exists i :: 0 <= i < |trace| && Ends(trace[i], t)
    ensures ExactlyOneEnd(trace, t)
  {
    var i :| 0 <= i < |trace| && Ends(trace[i], t);
    forall j | 0 <= j < |trace| && j != i ensures !Ends(trace[j], t) && (j > i ==> !Concerns(trace[j], t)) {
      if j > i {
        EndIsFinal(trace, i, j, t);
      } else if Ends(trace[j], t) {
        EndIsFinal(trace, j, i, t);
        assert false;
      }
    }
    assert EndsAt(trace, i, t);
  }

  ghost predicate Agrees(w: Option<Monitor>, txn: Option<Txn>, cursor: bool, begun: nat) {
    && w.Some? && w.value.cursor == cursor && w.value.next == begun
    && (txn == None ==> w.value.open == None)
    && (txn.Some? ==> w.value.open == Some(txn.value.number) && w.value.staged == txn.value.staged)
  }
}
