/** Activities sharing one sidecar client: the request lock, transactions and cursors that keep
    it for their whole life, the cursor that goes on without it after a failed close, and the
    matching of responses to requests. */
module ClientLock {
  import opened Order
  import Runs

  datatype Op = Plain | Begin | TxnCall | Commit | Rollback | QueryOpen | QueryNext | QueryClose

  /** What an activity is. A leftover is a cursor whose close failed: it gave the lock back but
      does not know that it is finished. */
  datatype Kind =
    | Single
    | Opening
    | InTxn
    | OpeningCursor
    | InCursor
    | Leftover

  /** Where an activity stands. A session is one stretch from taking the lock to the end of what
      it was taken for. */
  datatype Thread =
    | Outside
    | Ready(session: nat, kind: Kind)
    | Sending(session: nat, kind: Kind, op: Op)
    | Waiting(session: nat, kind: Kind, op: Op, at: nat)

  /** What became of a request: not known yet, answered, answered by a line that makes no sense,
      or lost with the connection. */
  datatype Fate = Open | Took(ok: bool) | Senseless | Lost

  /** A request as the server sees it. `opens` tells whether the server opened a transaction. */
  datatype Sent = Sent(id: nat, session: nat, op: Op, locked: bool, opens: bool, fate: Fate)

  datatype Client = Client(
    lock: Option<nat>,
    threads: map<nat, Thread>,
    nextId: nat,
    broken: bool,
    /** Some leftover cursor has started a request without the lock. */
    strayed: bool,
    wire: seq<Sent>,
    sessions: nat)

  function At(threads: map<nat, Thread>, o: nat): Thread {
    if o in threads then threads[o] else Outside
  }

  predicate Holds(t: Thread) {
    t != Outside && t.kind != Leftover
  }

  predicate Fresh(kind: Kind) {
    kind == Single || kind == Opening || kind == OpeningCursor
  }

  predicate Permitted(kind: Kind, op: Op) {
    match kind
    case Single => op == Plain
    case Opening => op == Begin
    case InTxn => op == TxnCall || op == Commit || op == Rollback
    case OpeningCursor => op == QueryOpen
    case InCursor => op == QueryNext || op == QueryClose
    case Leftover => op == QueryNext
  }

  /** Requests with fields of the caller's, which may have no JSON text. */
  predicate HasFields(op: Op) {
    op == Plain || op == TxnCall || op == QueryOpen
  }

  /** Where the activity goes after its exchange. */
  function After(session: nat, kind: Kind, op: Op, ok: bool, done: bool): Thread {
    match kind
    case Single => Outside
    case Opening => if ok then Ready(session, InTxn) else Outside
    case InTxn => if op == TxnCall then Ready(session, kind) else Outside
    case OpeningCursor => if ok then Ready(session, InCursor) else Outside
    case InCursor =>
      if op == QueryClose then (if ok then Outside else Ready(session, Leftover))
      else if ok && done then Outside else Ready(session, kind)
    case Leftover => if ok && done then Outside else Ready(session, kind)
  }

  /** Move an activity; the lock is freed when its holder stops holding it. */
  function Settle(c: Client, o: nat, t: Thread): Client {
    c.(threads := c.threads[o := t], lock := if c.lock == Some(o) && !Holds(t) then None else c.lock)
  }

  function Mark(wire: seq<Sent>, at: nat, fate: Fate): seq<Sent>
    requires at < |wire|
  {
    wire[at := wire[at].(fate := fate)]
  }

  /** The end of an exchange whose request is on the wire. */
  function Finish(c: Client, o: nat, fate: Fate, done: bool): Client
    requires At(c.threads, o).Waiting? && At(c.threads, o).at < |c.wire|
  {
    var t := At(c.threads, o);
    Settle(c.(wire := Mark(c.wire, t.at, fate), broken := c.broken || fate == Lost), o,
           After(t.session, t.kind, t.op, fate == Took(true), done))
  }

  /** Where an activity goes when its call fails. */
  function Failing(t: Thread, op: Op): Thread
    requires t != Outside
  {
    After(t.session, t.kind, op, false, false)
  }

  datatype Step =
    | Acquire(o: nat, kind: Kind)
    | Start(o: nat, op: Op)
    | Unsent(o: nat, next: nat)
    | Write(o: nat, id: nat, next: nat, opens: bool)
    | Receive(o: nat, answer: Option<nat>, ok: bool, done: bool)
    | Lose(o: nat)
    | Garble(o: nat)
    | Forget(o: nat)

  /** The request counter, as long as nobody races for it. */
  predicate Counts(c: Client, next: nat) {
    c.strayed || next == c.nextId + 1
  }

  /** The answer is for the request the activity waits for. */
  predicate Matches(c: Client, t: Thread, id: Option<nat>) {
    t.Waiting? && t.at < |c.wire| && id == Some(c.wire[t.at].id)
  }

  /** Whether a step can be taken. Responses carry any id at all, or none, or make no sense; the
      answer to a begin is true as long as answers cannot be mixed up. */
  predicate Enabled(c: Client, s: Step) {
    var t := At(c.threads, s.o);
    match s
    case Acquire(_, kind) => c.lock == None && t == Outside && Fresh(kind)
    case Start(_, op) => t.Ready? && Permitted(t.kind, op)
    case Unsent(_, next) => t.Sending? && (c.broken || HasFields(t.op)) && Counts(c, next)
    case Write(_, id, next, opens) =>
      t.Sending? && !c.broken && Counts(c, next) && (c.strayed || id == next) && (opens ==> t.op == Begin)
    case Receive(_, answer, ok, _) =>
      && t.Waiting? && t.at < |c.wire|
      && (Matches(c, t, answer) && t.op == Begin && !c.strayed ==> ok == c.wire[t.at].opens)
    case Lose(_) => t.Sending? || (t.Waiting? && t.at < |c.wire|)
    case Garble(_) => t.Waiting? && t.at < |c.wire|
    case Forget(_) => t.Ready? && t.kind == Leftover
  }

  function Apply(c: Client, s: Step): Client
    requires Enabled(c, s)
  {
    var t := At(c.threads, s.o);
    match s
    case Acquire(o, kind) =>
      c.(lock := Some(o), threads := c.threads[o := Ready(c.sessions, kind)], sessions := c.sessions + 1)
    case Start(o, op) =>
      if c.broken then Settle(c, o, Failing(t, op))
      else
        c.(threads := c.threads[o := Sending(t.session, t.kind, op)], strayed := c.strayed || t.kind == Leftover)
    case Unsent(o, next) => Settle(c.(nextId := next), o, Failing(t, t.op))
    case Write(o, id, next, opens) =>
      c.(nextId := next, wire := c.wire + [Sent(id, t.session, t.op, t.kind != Leftover, opens, Open)],
         threads := c.threads[o := Waiting(t.session, t.kind, t.op, |c.wire|)])
    case Receive(o, answer, ok, done) =>
      if Matches(c, t, answer) then Finish(c, o, Took(ok), done) else Finish(c, o, Lost, false)
    case Lose(o) =>
      if t.Waiting? then Finish(c, o, Lost, false) else Settle(c.(broken := true), o, Failing(t, t.op))
    case Garble(o) => Finish(c, o, Senseless, false)
    case Forget(o) => Settle(c, o, Outside)
  }

  ghost predicate Next(c: Client, s: Step, d: Client) {
    Enabled(c, s) && d == Apply(c, s)
  }

  /* ---- what isolation means ---- */

  predicate Closes(op: Op) {
    op == Commit || op == Rollback
  }

  /** The session of the request at `i` sent its commit or rollback before `j`. */
  ghost predicate EndedBy(wire: seq<Sent>, i: nat, j: nat)
    requires i < |wire| && j <= |wire|
  {
    exists k :: i < k < j && wire[k].session == wire[i].session && Closes(wire[k].op)
  }

  predicate Opened(s: Sent) {
    s.op == Begin && s.opens
  }

  /** The transaction opened at `i` is still open when the request at `j` arrives. */
  ghost predicate OpenAt(wire: seq<Sent>, i: nat, j: nat)
    requires i < |wire| && j <= |wire|
  {
    i < j && Opened(wire[i]) && !EndedBy(wire, i, j)
  }

  /** Requests that arrive while a transaction is open are all of that transaction. */
  ghost predicate Isolated(wire: seq<Sent>) {
    forall i, j :: 0 <= i < |wire| && 0 <= j < |wire| && OpenAt(wire, i, j) ==> wire[j].session == wire[i].session
  }

  /** The server opened a transaction and the client did not learn it. */
  predicate Missed(s: Sent) {
    Opened(s) && (s.fate == Senseless || s.fate == Took(false))
  }

  /** A request followed a begin the client gave up although the server opened a transaction. */
  ghost predicate Abandoned(wire: seq<Sent>) {
    exists i :: 0 <= i < |wire| - 1 && Missed(wire[i])
  }

  /** A leftover cursor sent a request while a transaction was open. */
  ghost predicate Intruded(wire: seq<Sent>) {
    exists i, j :: 0 <= i < |wire| && 0 <= j < |wire| && OpenAt(wire, i, j) && !wire[j].locked
  }

  /* ---- what every run keeps ---- */

  /** Whoever went through the lock and is not out again holds it. */
  ghost predicate Exclusive(c: Client) {
    forall o: nat {:trigger At(c.threads, o)} :: Holds(At(c.threads, o)) <==> c.lock == Some(o)
  }

  /** Activities are different sessions. */
  ghost predicate Apart(c: Client) {
    && (forall o: nat {:trigger At(c.threads, o)} ::
          At(c.threads, o) != Outside ==> At(c.threads, o).session < c.sessions)
    && (forall o: nat, p: nat {:trigger At(c.threads, o), At(c.threads, p)} ::
          o != p && At(c.threads, o) != Outside && At(c.threads, p) != Outside ==>
            At(c.threads, o).session != At(c.threads, p).session)
    && (forall i :: 0 <= i < |c.wire| ==> c.wire[i].session < c.sessions)
  }

  /** A close of that session was answered, but not with success. */
  ghost predicate FailedClose(wire: seq<Sent>, n: nat, session: nat)
    requires n <= |wire|
  {
    exists i :: 0 <= i < n && FailedCloseOf(wire[i], session)
  }

  predicate FailedCloseOf(s: Sent, session: nat) {
    s.session == session && s.op == QueryClose && (s.fate == Senseless || s.fate == Took(false))
  }

  /** The request an activity waits for is its last one and not answered. */
  ghost predicate Awaited(wire: seq<Sent>, t: Thread)
    requires t.Waiting?
  {
    && t.at < |wire| && wire[t.at].session == t.session && wire[t.at].op == t.op && wire[t.at].fate == Open
    && forall j :: t.at < j < |wire| ==> wire[j].session != t.session
  }

  /** A begin belongs to the transaction that came of it, or is being waited for. */
  ghost predicate BeginsOf(wire: seq<Sent>, t: Thread)
    requires t != Outside
  {
    forall i :: 0 <= i < |wire| && wire[i].op == Begin && wire[i].session == t.session ==>
      !Missed(wire[i]) && (t.kind == InTxn || (t.kind == Opening && t.Waiting? && i == t.at))
  }

  /** What an activity knows about the wire. */
  ghost predicate Agrees(wire: seq<Sent>, broken: bool, t: Thread) {
    t != Outside ==>
      && (t.Sending? || t.Waiting? ==> Permitted(t.kind, t.op))
      && (t.Waiting? ==> Awaited(wire, t))
      && BeginsOf(wire, t)
      && (t.kind == Leftover && !broken ==> FailedClose(wire, |wire|, t.session))
  }

  ghost predicate AllAgree(c: Client) {
    forall o: nat {:trigger At(c.threads, o)} :: Agrees(c.wire, c.broken, At(c.threads, o))
  }

  /** A request that took the lock arrives while no other transaction is open, unless one was
      missed; one of a transaction took the lock; one without the lock follows a failed close. */
  ghost predicate WireOk(wire: seq<Sent>) {
    && (forall i, j ::
          0 <= i < j < |wire| && Opened(wire[i]) && wire[j].locked && wire[j].session != wire[i].session ==>
            Missed(wire[i]) || EndedBy(wire, i, j))
    && (forall i, j :: 0 <= i < j < |wire| && wire[i].op == Begin && wire[j].session == wire[i].session ==>
          wire[j].locked && !Missed(wire[i]))
    && (forall j :: 0 <= j < |wire| && !wire[j].locked ==> FailedClose(wire, j, wire[j].session))
  }

  /** The session that holds the lock. */
  ghost predicate InProgress(c: Client, session: nat) {
    c.lock.Some? && At(c.threads, c.lock.value) != Outside && At(c.threads, c.lock.value).session == session
  }

  /** Every transaction the server opened is over, missed, or in progress. */
  ghost predicate Accounted(c: Client) {
    !c.broken ==>
      forall i :: 0 <= i < |c.wire| && Opened(c.wire[i]) ==>
        Missed(c.wire[i]) || EndedBy(c.wire, i, |c.wire|) || InProgress(c, c.wire[i].session)
  }

  /** Requests carry increasing ids, all sent under the lock, and begins were answered truly. */
  ghost predicate CalmWire(wire: seq<Sent>, nextId: nat) {
    && (forall i :: 0 <= i < |wire| ==> wire[i].id <= nextId && wire[i].locked)
    && (forall i, j :: 0 <= i < j < |wire| ==> wire[i].id < wire[j].id)
    && (forall i :: 0 <= i < |wire| && wire[i].op == Begin && wire[i].fate.Took? ==> wire[i].fate.ok == wire[i].opens)
  }

  /** An activity in a run where no leftover cursor was used. */
  ghost predicate CalmThread(c: Client, t: Thread) {
    t.Sending? || t.Waiting? ==> !c.broken && t.kind != Leftover && (t.Waiting? ==> t.at == |c.wire| - 1)
  }

  ghost predicate Calm(c: Client) {
    !c.strayed ==>
      && CalmWire(c.wire, c.nextId)
      && (forall o: nat {:trigger At(c.threads, o)} :: CalmThread(c, At(c.threads, o)))
  }

  ghost predicate Inv(c: Client) {
    Exclusive(c) && Apart(c) && AllAgree(c) && WireOk(c.wire) && Accounted(c) && Calm(c)
  }

  predicate Starts(c: Client) {
    c == Client(None, map[], 0, false, false, [], 0)
  }

  /* ---- activities move ---- */

  lemma MoveExclusive(c: Client, d: Client, o: nat, t: Thread)
    requires Exclusive(c) && d.threads == c.threads[o := t]
    requires if Holds(t) then d.lock == Some(o) && (c.lock == None || c.lock == Some(o))
             else d.lock == if c.lock == Some(o) then None else c.lock
    ensures Exclusive(d)
  {
    forall p: nat ensures Holds(At(d.threads, p)) <==> d.lock == Some(p) {
      var before := At(c.threads, p);
    }
  }

  lemma MoveApart(c: Client, d: Client, o: nat, t: Thread)
    requires Apart(c) && d.threads == c.threads[o := t] && d.sessions >= c.sessions
    requires t != Outside ==> t.session < d.sessions
    requires t != Outside ==>
      t.session == c.sessions || (At(c.threads, o) != Outside && At(c.threads, o).session == t.session)
    requires forall i :: 0 <= i < |d.wire| ==> d.wire[i].session < d.sessions
    ensures Apart(d)
  {
    forall p: nat, q: nat | p != q && At(d.threads, p) != Outside && At(d.threads, q) != Outside
      ensures At(d.threads, p).session != At(d.threads, q).session
    {
      assert At(c.threads, p) == At(c.threads, p) && At(c.threads, q) == At(c.threads, q);
    }
    forall p: nat ensures At(d.threads, p) != Outside ==> At(d.threads, p).session < d.sessions {
      assert At(c.threads, p) == At(c.threads, p);
    }
  }

  /** Everybody else sees the same wire. */
  lemma MoveAgrees(c: Client, d: Client, o: nat, t: Thread)
    requires AllAgree(c) && d.threads == c.threads[o := t] && d.wire == c.wire && (c.broken ==> d.broken)
    requires Agrees(d.wire, d.broken, t)
    ensures AllAgree(d)
  {
    forall p: nat ensures Agrees(d.wire, d.broken, At(d.threads, p)) {
      assert Agrees(c.wire, c.broken, At(c.threads, p));
    }
  }

  lemma MoveCalm(c: Client, d: Client, o: nat, t: Thread)
    requires Calm(c) && d.threads == c.threads[o := t] && d.wire == c.wire
    requires !d.strayed ==> !c.strayed && d.nextId >= c.nextId && CalmThread(d, t)
    requires !d.strayed && d.broken && !c.broken ==> forall p: nat :: p != o ==> !Holds(At(c.threads, p))
    ensures Calm(d)
  {
    if !d.strayed {
      forall p: nat ensures CalmThread(d, At(d.threads, p)) {
        assert CalmThread(c, At(c.threads, p));
      }
    }
  }

  lemma AcquireKeeps(c: Client, s: Step)
    requires Inv(c) && Enabled(c, s) && s.Acquire?
    ensures Inv(Apply(c, s))
  {
    var d, t := Apply(c, s), Ready(c.sessions, s.kind);
    MoveExclusive(c, d, s.o, t);
    MoveApart(c, d, s.o, t);
    MoveAgrees(c, d, s.o, t);
    MoveCalm(c, d, s.o, t);
  }

  /** A call that fails before anything is sent, on a broken connection or not. */
  lemma FailKeeps(c: Client, o: nat, op: Op, d: Client)
    requires Inv(c) && At(c.threads, o) != Outside && Permitted(At(c.threads, o).kind, op)
    requires At(c.threads, o).Ready? || At(c.threads, o).Sending?
    requires d == Settle(c.(nextId := d.nextId, broken := d.broken), o, Failing(At(c.threads, o), op))
    requires (c.broken ==> d.broken) && (c.strayed || d.nextId >= c.nextId)
    requires d.broken || HasFields(op)
    requires d.broken && !c.broken ==> At(c.threads, o).Sending?
    ensures Inv(d)
  {
    var t := Failing(At(c.threads, o), op);
    MoveExclusive(c, d, o, t);
    MoveApart(c, d, o, t);
    assert Agrees(c.wire, c.broken, At(c.threads, o));
    MoveAgrees(c, d, o, t);
    if !c.strayed { CalmFail(c, o); }
    MoveCalm(c, d, o, t);
    if !d.broken { FailAccounted(c, o, op, d); }
  }

  /** Without leftovers at work, whoever is at work holds the lock. */
  lemma CalmFail(c: Client, o: nat)
    requires Exclusive(c) && Calm(c) && !c.strayed
    ensures At(c.threads, o).Sending? || At(c.threads, o).Waiting? ==>
      Holds(At(c.threads, o)) && forall p: nat :: p != o ==> !Holds(At(c.threads, p))
  {
    assert CalmThread(c, At(c.threads, o));
    assert Holds(At(c.threads, o)) <==> c.lock == Some(o);
    forall p: nat | p != o && c.lock == Some(o) ensures !Holds(At(c.threads, p)) {
      assert Holds(At(c.threads, p)) <==> c.lock == Some(p);
    }
  }

  lemma FailAccounted(c: Client, o: nat, op: Op, d: Client)
    requires Inv(c) && At(c.threads, o) != Outside && Permitted(At(c.threads, o).kind, op) && HasFields(op)
    requires At(c.threads, o).Ready? || At(c.threads, o).Sending?
    requires d == Settle(c.(nextId := d.nextId, broken := d.broken), o, Failing(At(c.threads, o), op)) && !c.broken
    ensures Accounted(d)
  {
    var me := At(c.threads, o);
    assert Agrees(c.wire, c.broken, me) && (Holds(me) <==> c.lock == Some(o));
    forall i | 0 <= i < |d.wire| && Opened(d.wire[i])
      ensures Missed(d.wire[i]) || EndedBy(d.wire, i, |d.wire|) || InProgress(d, d.wire[i].session)
    {
      if InProgress(c, c.wire[i].session) && c.lock == Some(o) { assert me.kind == InTxn; }
    }
  }

  lemma StartKeeps(c: Client, s: Step)
    requires Inv(c) && Enabled(c, s) && s.Start? && !c.broken
    ensures Inv(Apply(c, s))
  {
    var me := At(c.threads, s.o);
    var d, t := Apply(c, s), Sending(me.session, me.kind, s.op);
    assert Agrees(c.wire, c.broken, me) && (Holds(me) <==> c.lock == Some(s.o));
    MoveExclusive(c, d, s.o, t);
    MoveApart(c, d, s.o, t);
    MoveAgrees(c, d, s.o, t);
    MoveCalm(c, d, s.o, t);
    SameProgress(c, d);
  }

  /** The holder stays and so does what is in progress. */
  lemma SameProgress(c: Client, d: Client)
    requires Accounted(c) && d.wire == c.wire && d.lock == c.lock && !c.broken
    requires forall session :: InProgress(c, session) ==> InProgress(d, session)
    ensures Accounted(d)
  {
  }

  lemma ForgetKeeps(c: Client, s: Step)
    requires Inv(c) && Enabled(c, s) && s.Forget?
    ensures Inv(Apply(c, s))
  {
    var d := Apply(c, s);
    assert Holds(At(c.threads, s.o)) <==> c.lock == Some(s.o);
    MoveExclusive(c, d, s.o, Outside);
    MoveApart(c, d, s.o, Outside);
    MoveAgrees(c, d, s.o, Outside);
    MoveCalm(c, d, s.o, Outside);
    if !c.broken { SameProgress(c, d); }
  }

  /* ---- a request goes out ---- */

  lemma EndedByExtends(wire: seq<Sent>, i: nat, j: nat, x: Sent)
    requires i < |wire| && j <= |wire|
    ensures EndedBy(wire, i, j) <==> EndedBy(wire + [x], i, j)
    ensures EndedBy(wire, i, |wire|) ==> EndedBy(wire + [x], i, |wire| + 1)
  {
    var w := wire + [x];
    if EndedBy(wire, i, j) {
      var k :| i < k < j && wire[k].session == wire[i].session && Closes(wire[k].op);
      assert w[k] == wire[k];
    }
    if EndedBy(wire, i, |wire|) {
      var k :| i < k < |wire| && wire[k].session == wire[i].session && Closes(wire[k].op);
      assert w[k] == wire[k];
    }
  }

  lemma FailedCloseExtends(wire: seq<Sent>, n: nat, session: nat, x: Sent)
    requires n <= |wire|
    ensures FailedClose(wire, n, session) ==>
      FailedClose(wire + [x], n, session) && FailedClose(wire + [x], n + 1, session)
  {
    if FailedClose(wire, n, session) {
      var i :| 0 <= i < n && FailedCloseOf(wire[i], session);
      assert (wire + [x])[i] == wire[i];
    }
  }

  /** The new request fits the wire. */
  lemma WireExtends(wire: seq<Sent>, x: Sent)
    requires WireOk(wire)
    requires forall i :: 0 <= i < |wire| && Opened(wire[i]) && x.locked && x.session != wire[i].session ==>
      Missed(wire[i]) || EndedBy(wire, i, |wire|)
    requires forall i :: 0 <= i < |wire| && wire[i].op == Begin && x.session == wire[i].session ==>
      x.locked && !Missed(wire[i])
    requires !x.locked ==> FailedClose(wire, |wire|, x.session)
    ensures WireOk(wire + [x])
  {
    var w := wire + [x];
    forall i, j | 0 <= i < j < |w| && Opened(w[i]) && w[j].locked && w[j].session != w[i].session
      ensures Missed(w[i]) || EndedBy(w, i, j)
    {
      EndedByExtends(wire, i, j, x);
    }
    forall j | 0 <= j < |w| && !w[j].locked ensures FailedClose(w, j, w[j].session) {
      FailedCloseExtends(wire, j, w[j].session, x);
    }
  }

  lemma AgreesExtends(wire: seq<Sent>, broken: bool, t: Thread, x: Sent)
    requires Agrees(wire, broken, t) && (t != Outside ==> x.session != t.session)
    ensures Agrees(wire + [x], broken, t)
  {
    if t != Outside { FailedCloseExtends(wire, |wire|, t.session, x); }
  }

  /** The writer has not sent anything after its request. */
  lemma WriterAgrees(wire: seq<Sent>, t: Thread, x: Sent)
    requires t.Sending? && Agrees(wire, false, t) && x.session == t.session && x.op == t.op && x.fate == Open
    ensures Agrees(wire + [x], false, Waiting(t.session, t.kind, t.op, |wire|))
  {
    FailedCloseExtends(wire, |wire|, t.session, x);
  }

  lemma WriteAgrees(c: Client, s: Step)
    requires Inv(c) && Enabled(c, s) && s.Write?
    ensures AllAgree(Apply(c, s))
  {
    var d, me := Apply(c, s), At(c.threads, s.o);
    var x := d.wire[|c.wire|];
    forall p: nat ensures Agrees(d.wire, d.broken, At(d.threads, p)) {
      assert Agrees(c.wire, c.broken, At(c.threads, p));
      if p == s.o {
        WriterAgrees(c.wire, me, x);
      } else {
        AgreesExtends(c.wire, c.broken, At(c.threads, p), x);
      }
    }
  }

  lemma WriteWire(c: Client, s: Step)
    requires Inv(c) && Enabled(c, s) && s.Write?
    ensures WireOk(Apply(c, s).wire) && Accounted(Apply(c, s))
  {
    var d, me := Apply(c, s), At(c.threads, s.o);
    var x := d.wire[|c.wire|];
    assert Agrees(c.wire, c.broken, me) && (Holds(me) <==> c.lock == Some(s.o));
    WireExtends(c.wire, x);
    forall i | 0 <= i < |d.wire| && Opened(d.wire[i])
      ensures Missed(d.wire[i]) || EndedBy(d.wire, i, |d.wire|) || InProgress(d, d.wire[i].session)
    {
      if i < |c.wire| { EndedByExtends(c.wire, i, |c.wire|, x); }
    }
  }

  lemma WriteCalm(c: Client, s: Step)
    requires Inv(c) && Enabled(c, s) && s.Write?
    ensures Calm(Apply(c, s))
  {
    var d := Apply(c, s);
    if !d.strayed {
      CalmFail(c, s.o);
      forall p: nat ensures CalmThread(d, At(d.threads, p)) {
        assert CalmThread(c, At(c.threads, p));
      }
    }
  }

  lemma WriteKeeps(c: Client, s: Step)
    requires Inv(c) && Enabled(c, s) && s.Write?
    ensures Inv(Apply(c, s))
  {
    var d, me := Apply(c, s), At(c.threads, s.o);
    assert Holds(me) <==> c.lock == Some(s.o);
    MoveExclusive(c, d, s.o, At(d.threads, s.o));
    MoveApart(c, d, s.o, At(d.threads, s.o));
    WriteAgrees(c, s);
    WriteWire(c, s);
    WriteCalm(c, s);
  }

  /* ---- an exchange ends ---- */

  lemma MarkEndedBy(wire: seq<Sent>, at: nat, fate: Fate, i: nat, j: nat)
    requires at < |wire| && i < |wire| && j <= |wire|
    ensures EndedBy(Mark(wire, at, fate), i, j) <==> EndedBy(wire, i, j)
  {
    var w := Mark(wire, at, fate);
    assert forall k :: 0 <= k < |wire| ==> w[k].session == wire[k].session && w[k].op == wire[k].op;
  }

  lemma MarkFailedClose(wire: seq<Sent>, at: nat, fate: Fate, n: nat, session: nat)
    requires at < |wire| && wire[at].fate == Open && n <= |wire| && FailedClose(wire, n, session)
    ensures FailedClose(Mark(wire, at, fate), n, session)
  {
    var i :| 0 <= i < n && FailedCloseOf(wire[i], session);
    assert Mark(wire, at, fate)[i] == wire[i];
  }

  lemma MarkWire(wire: seq<Sent>, at: nat, fate: Fate)
    requires WireOk(wire) && at < |wire| && wire[at].fate == Open
    requires forall j :: at < j < |wire| ==> wire[j].session != wire[at].session
    ensures WireOk(Mark(wire, at, fate))
  {
    var w := Mark(wire, at, fate);
    forall i, j | 0 <= i < j < |w| && Opened(w[i]) && w[j].locked && w[j].session != w[i].session
      ensures Missed(w[i]) || EndedBy(w, i, j)
    {
      MarkEndedBy(wire, at, fate, i, j);
      assert Opened(wire[i]) && wire[j].locked && wire[j].session != wire[i].session;
    }
    forall i, j | 0 <= i < j < |w| && w[i].op == Begin && w[j].session == w[i].session
      ensures w[j].locked && !Missed(w[i])
    {
      assert wire[i].op == Begin && wire[j].session == wire[i].session;
    }
    forall j | 0 <= j < |w| && !w[j].locked ensures FailedClose(w, j, w[j].session) {
      assert !wire[j].locked;
      MarkFailedClose(wire, at, fate, j, w[j].session);
    }
  }

  lemma MarkAgrees(wire: seq<Sent>, broken: bool, t: Thread, at: nat, fate: Fate)
    requires Agrees(wire, broken, t) && at < |wire| && wire[at].fate == Open
    requires t != Outside ==> wire[at].session != t.session
    ensures Agrees(Mark(wire, at, fate), broken, t)
  {
    var w := Mark(wire, at, fate);
    assert forall k :: 0 <= k < |wire| && k != at ==> w[k] == wire[k];
    assert w[at].session == wire[at].session;
    if t != Outside && FailedClose(wire, |wire|, t.session) { MarkFailedClose(wire, at, fate, |wire|, t.session); }
  }

  /** The activity whose exchange ended knows where it stands. */
  lemma FinisherAgrees(wire: seq<Sent>, broken: bool, t: Thread, fate: Fate, done: bool)
    requires t.Waiting? && Agrees(wire, broken, t) && fate != Open
    ensures Agrees(Mark(wire, t.at, fate), broken || fate == Lost,
                   After(t.session, t.kind, t.op, fate == Took(true), done))
  {
    var w := Mark(wire, t.at, fate);
    assert forall k :: 0 <= k < |wire| && k != t.at ==> w[k] == wire[k];
    if FailedClose(wire, |wire|, t.session) { MarkFailedClose(wire, t.at, fate, |wire|, t.session); }
    if t.op == QueryClose && fate != Took(true) && fate != Lost { assert FailedCloseOf(w[t.at], t.session); }
  }

  lemma FinishAgrees(c: Client, o: nat, fate: Fate, done: bool)
    requires Apart(c) && AllAgree(c) && At(c.threads, o).Waiting? && At(c.threads, o).at < |c.wire| && fate != Open
    ensures AllAgree(Finish(c, o, fate, done))
  {
    var d, t := Finish(c, o, fate, done), At(c.threads, o);
    assert Agrees(c.wire, c.broken, t);
    forall p: nat ensures Agrees(d.wire, d.broken, At(d.threads, p)) {
      var u := At(c.threads, p);
      assert Agrees(c.wire, c.broken, u);
      if p == o {
        FinisherAgrees(c.wire, c.broken, t, fate, done);
      } else {
        MarkAgrees(c.wire, c.broken, u, t.at, fate);
        assert Agrees(d.wire, c.broken, u);
      }
    }
  }

  /** A transaction whose session just left was missed, or sent its end. */
  lemma FinishAccounts(c: Client, o: nat, fate: Fate, done: bool, i: nat)
    requires Inv(c) && At(c.threads, o).Waiting? && fate != Open && fate != Lost && !c.broken
    requires At(c.threads, o).at < |c.wire| && i < |c.wire| && Opened(c.wire[i])
    ensures var d := Finish(c, o, fate, done);
            Missed(d.wire[i]) || EndedBy(d.wire, i, |d.wire|) || InProgress(d, d.wire[i].session)
  {
    var d, t := Finish(c, o, fate, done), At(c.threads, o);
    assert Agrees(c.wire, c.broken, t) && (Holds(t) <==> c.lock == Some(o));
    MarkEndedBy(c.wire, t.at, fate, i, |c.wire|);
    assert d.wire[i].session == c.wire[i].session;
    if c.wire[i].session == t.session {
      if t.kind == InTxn && t.op != TxnCall {
        assert i < t.at && Closes(c.wire[t.at].op);
        assert EndedBy(c.wire, i, |c.wire|);
      }
    } else if InProgress(c, c.wire[i].session) {
      assert c.lock != Some(o);
    }
  }

  lemma FinishCalm(c: Client, o: nat, fate: Fate, done: bool)
    requires Inv(c) && At(c.threads, o).Waiting? && At(c.threads, o).at < |c.wire| && fate != Open
    requires fate.Took? && At(c.threads, o).op == Begin && !c.strayed ==> fate.ok == c.wire[At(c.threads, o).at].opens
    ensures Calm(Finish(c, o, fate, done))
  {
    var d, t := Finish(c, o, fate, done), At(c.threads, o);
    assert Agrees(c.wire, c.broken, t);
    if !d.strayed {
      CalmFail(c, o);
      forall p: nat ensures CalmThread(d, At(d.threads, p)) {
        assert CalmThread(c, At(c.threads, p));
      }
      assert forall k :: 0 <= k < |c.wire| && k != t.at ==> d.wire[k] == c.wire[k];
      assert d.wire[t.at] == c.wire[t.at].(fate := fate);
    }
  }

  lemma FinishKeeps(c: Client, o: nat, fate: Fate, done: bool)
    requires Inv(c) && At(c.threads, o).Waiting? && At(c.threads, o).at < |c.wire| && fate != Open
    requires fate.Took? && At(c.threads, o).op == Begin && !c.strayed ==> fate.ok == c.wire[At(c.threads, o).at].opens
    ensures Inv(Finish(c, o, fate, done))
  {
    var d, t := Finish(c, o, fate, done), At(c.threads, o);
    assert Agrees(c.wire, c.broken, t) && (Holds(t) <==> c.lock == Some(o));
    MoveExclusive(c, d, o, At(d.threads, o));
    MoveApart(c, d, o, At(d.threads, o));
    FinishAgrees(c, o, fate, done);
    MarkWire(c.wire, t.at, fate);
    FinishCalm(c, o, fate, done);
    if !d.broken {
      forall i | 0 <= i < |d.wire| && Opened(d.wire[i])
        ensures Missed(d.wire[i]) || EndedBy(d.wire, i, |d.wire|) || InProgress(d, d.wire[i].session)
      {
        assert Opened(c.wire[i]);
        FinishAccounts(c, o, fate, done, i);
      }
    }
  }

  /** Every step of every activity keeps the lock exclusive, the open transactions accounted
      for and, as long as no leftover cursor is used, the request ids increasing. */
  lemma StepKeeps(c: Client, s: Step)
    requires Inv(c) && Enabled(c, s)
    ensures Inv(Apply(c, s))
  {
    var t := At(c.threads, s.o);
    assert Agrees(c.wire, c.broken, t);
    match s
    case Acquire(_, _) => AcquireKeeps(c, s);
    case Start(o, op) => if c.broken { FailKeeps(c, o, op, Apply(c, s)); } else { StartKeeps(c, s); }
    case Unsent(o, _) => FailKeeps(c, o, t.op, Apply(c, s));
    case Write(_, _, _, _) => WriteKeeps(c, s);
    case Receive(o, answer, ok, done) =>
      if Matches(c, t, answer) { FinishKeeps(c, o, Took(ok), done); } else { FinishKeeps(c, o, Lost, false); }
    case Lose(o) =>
      if t.Waiting? { FinishKeeps(c, o, Lost, false); } else { FailKeeps(c, o, t.op, Apply(c, s)); }
    case Garble(o) => FinishKeeps(c, o, Senseless, false);
    case Forget(_) => ForgetKeeps(c, s);
  }

  ghost predicate IsRun(run: seq<Client>, steps: seq<Step>) {
    Runs.IsRun((c, s, d) => Next(c, s, d), run, steps) && Starts(run[0])
  }

  lemma StartInv(c: Client)
    requires Starts(c)
    ensures Inv(c)
  {
  }

  lemma RunKeeps(run: seq<Client>, steps: seq<Step>, n: nat)
    requires IsRun(run, steps) && n <= |steps|
    ensures Inv(run[n])
  {
    forall c, s, d | Inv(c) && Next(c, s, d) ensures Inv(d) { StepKeeps(c, s); }
    StartInv(run[0]);
    Runs.Keeps((c: Client) => Inv(c), (c: Client, s: Step, d: Client) => Next(c, s, d), run, steps, n);
  }

  /* ---- isolation ---- */

  lemma OpenPair(wire: seq<Sent>, i: nat, j: nat)
    requires WireOk(wire) && i < |wire| && j < |wire| && OpenAt(wire, i, j)
    ensures wire[j].session == wire[i].session <==> wire[j].locked && !Missed(wire[i])
  {
  }

  /** In every interleaving, a request that arrives while a transaction is open is one of that
      transaction, exactly when it was sent under the lock and the client learned that the
      transaction had been opened. */
  lemma TransactionsAreIsolated(run: seq<Client>, steps: seq<Step>, n: nat, i: nat, j: nat)
    requires IsRun(run, steps) && n <= |steps| && i < |run[n].wire| && j < |run[n].wire| && OpenAt(run[n].wire, i, j)
    ensures var wire := run[n].wire;
            wire[j].session == wire[i].session <==> wire[j].locked && !Missed(wire[i])
  {
    RunKeeps(run, steps, n);
    OpenPair(run[n].wire, i, j);
  }

  lemma WireIsolated(wire: seq<Sent>)
    requires WireOk(wire)
    ensures Isolated(wire) <==> !Abandoned(wire) && !Intruded(wire)
  {
    forall i, j | 0 <= i < |wire| && 0 <= j < |wire| && OpenAt(wire, i, j)
      ensures wire[j].session == wire[i].session <==> wire[j].locked && !Missed(wire[i])
    {
      OpenPair(wire, i, j);
    }
    if Abandoned(wire) {
      var i :| 0 <= i < |wire| - 1 && Missed(wire[i]);
      assert OpenAt(wire, i, i + 1);
    }
  }

  /** A run keeps its transactions apart exactly when nothing was sent after a begin the client
      gave up although the server had opened a transaction, and no cursor was fetched from
      after its failed close while a transaction was open. */
  lemma IsolatedExactly(run: seq<Client>, steps: seq<Step>, n: nat)
    requires IsRun(run, steps) && n <= |steps|
    ensures Isolated(run[n].wire) <==> !Abandoned(run[n].wire) && !Intruded(run[n].wire)
  {
    RunKeeps(run, steps, n);
    WireIsolated(run[n].wire);
  }

  /** Where the two come from: a request without the lock follows a close that was answered but
      not with success; and as long as there is none, a begin is given up wrongly only if its
      answer made no sense. */
  lemma WhatGoesWrong(run: seq<Client>, steps: seq<Step>, n: nat, i: nat)
    requires IsRun(run, steps) && n <= |steps| && i < |run[n].wire|
    ensures !run[n].wire[i].locked ==> run[n].strayed && FailedClose(run[n].wire, i, run[n].wire[i].session)
    ensures Missed(run[n].wire[i]) && !run[n].strayed ==> run[n].wire[i].fate == Senseless
  {
    RunKeeps(run, steps, n);
  }

  /** Some close was answered, but not with success. */
  ghost predicate SomeFailedClose(wire: seq<Sent>) {
    exists i :: 0 <= i < |wire| && FailedCloseOf(wire[i], wire[i].session)
  }

  ghost predicate Blamed(c: Client) {
    Inv(c) && (c.strayed ==> SomeFailedClose(c.wire))
  }

  lemma StepBlamed(c: Client, s: Step)
    requires Blamed(c) && Enabled(c, s)
    ensures Blamed(Apply(c, s))
  {
    var t, d := At(c.threads, s.o), Apply(c, s);
    StepKeeps(c, s);
    assert Agrees(c.wire, c.broken, t);
    if s.Start? && t.kind == Leftover && !c.broken {
      var i :| 0 <= i < |c.wire| && FailedCloseOf(c.wire[i], t.session);
      assert FailedCloseOf(c.wire[i], c.wire[i].session);
    }
    if SomeFailedClose(c.wire) {
      var i :| 0 <= i < |c.wire| && FailedCloseOf(c.wire[i], c.wire[i].session);
      StepAnswers(c, s, i);
      assert FailedCloseOf(d.wire[i], d.wire[i].session);
    }
  }

  lemma RunBlamed(run: seq<Client>, steps: seq<Step>, n: nat)
    requires IsRun(run, steps) && n <= |steps|
    ensures Blamed(run[n])
  {
    forall c, s, d | Blamed(c) && Next(c, s, d) ensures Blamed(d) { StepBlamed(c, s); }
    StartInv(run[0]);
    Runs.Keeps((c: Client) => Blamed(c), (c: Client, s: Step, d: Client) => Next(c, s, d), run, steps, n);
  }

  /** As long as every begin was answered by a line that makes sense and every close that was
      answered succeeded, transactions are isolated in every interleaving. */
  lemma CleanRunsAreIsolated(run: seq<Client>, steps: seq<Step>, n: nat)
    requires IsRun(run, steps) && n <= |steps|
    requires forall i :: 0 <= i < |run[n].wire| ==>
      && !(run[n].wire[i].op == Begin && run[n].wire[i].fate == Senseless)
      && !FailedCloseOf(run[n].wire[i], run[n].wire[i].session)
    ensures Isolated(run[n].wire) && !run[n].strayed
  {
    RunBlamed(run, steps, n);
    IsolatedExactly(run, steps, n);
  }

  /* ---- responses ---- */

  /** What one step does to the requests already sent: at most the one being waited for gets its
      fate, from a response that carries its id if it was answered. */
  lemma StepAnswers(c: Client, s: Step, k: nat)
    requires Inv(c) && Enabled(c, s) && k < |c.wire|
    ensures var d := Apply(c, s);
            && |c.wire| <= |d.wire| && d.wire[k].(fate := Open) == c.wire[k].(fate := Open)
            && (c.wire[k].fate != Open ==> d.wire[k] == c.wire[k])
            && (d.wire[k].fate.Took? && c.wire[k].fate == Open ==> s.Receive? && s.answer == Some(c.wire[k].id))
            && (d.wire[k] != c.wire[k] && !c.strayed ==> k == |c.wire| - 1)
  {
    var t := At(c.threads, s.o);
    assert Agrees(c.wire, c.broken, t) && (!c.strayed ==> CalmThread(c, t));
  }

  /** A response is taken only for a request whose id it carries and that has no fate yet, and a
      fate is final. As long as no leftover cursor is used, that is the last request sent, and
      no other one has its id. */
  lemma ResponsesMatch(run: seq<Client>, steps: seq<Step>, n: nat, k: nat)
    requires IsRun(run, steps) && n < |steps| && k < |run[n].wire|
    ensures k < |run[n + 1].wire| && (run[n].wire[k].fate != Open ==> run[n + 1].wire[k] == run[n].wire[k])
    ensures run[n].wire[k].fate == Open && run[n + 1].wire[k].fate.Took? ==>
      && steps[n].Receive? && steps[n].answer == Some(run[n].wire[k].id)
      && (!run[n].strayed ==>
            k == |run[n].wire| - 1 && forall j :: 0 <= j < k ==> run[n].wire[j].id != run[n].wire[k].id)
  {
    RunKeeps(run, steps, n);
    assert Next(run[n], steps[n], run[n + 1]);
    StepAnswers(run[n], steps[n], k);
  }

  lemma BrokenStep(c: Client, s: Step)
    requires Inv(c) && Enabled(c, s) && c.broken
    ensures var d := Apply(c, s);
            && d.broken && d.strayed == c.strayed && |d.wire| == |c.wire|
            && (!c.strayed ==> d.wire == c.wire)
  {
    assert !c.strayed ==> CalmThread(c, At(c.threads, s.o));
  }

  /** After a timeout or a mismatch nothing is sent, ever, and no response is taken either unless
      a leftover cursor was waiting for one beside the lock. */
  lemma {:induction false} BrokenIsFinal(run: seq<Client>, steps: seq<Step>, m: nat, n: nat)
    requires IsRun(run, steps) && m <= n <= |steps| && run[m].broken
    ensures run[n].broken && run[n].strayed == run[m].strayed && |run[n].wire| == |run[m].wire|
    ensures !run[m].strayed ==> run[n].wire == run[m].wire
  {
    if m < n {
      BrokenIsFinal(run, steps, m, n - 1);
      RunKeeps(run, steps, n - 1);
      assert Next(run[n - 1], steps[n - 1], run[n]);
      BrokenStep(run[n - 1], steps[n - 1]);
    }
  }

  /* ---- the two ways it goes wrong ---- */

  datatype History = History(run: seq<Client>, steps: seq<Step>)

  ghost predicate Proper(h: History) {
    h.run != [] && IsRun(h.run, h.steps)
  }

  function Now(h: History): Client
    requires h.run != []
  {
    h.run[|h.run| - 1]
  }

  /** One more step. */
  ghost function Then(h: History, s: Step): (r: History)
    requires Proper(h) && Enabled(Now(h), s)
    ensures Proper(r) && Now(r) == Apply(Now(h), s)
  {
    var r := History(h.run + [Apply(Now(h), s)], h.steps + [s]);
    assert forall k :: 0 <= k < |h.steps| ==> Next(r.run[k], r.steps[k], r.run[k + 1]) by {
      assert forall k :: 0 <= k < |h.steps| ==> Next(h.run[k], h.steps[k], h.run[k + 1]);
    }
    r
  }

  /** A call up to the point where its answer is awaited. */
  lemma Call(h: History, o: nat, op: Op, opens: bool) returns (r: History)
    requires Proper(h) && !Now(h).broken && At(Now(h).threads, o).Ready? && (opens ==> op == Begin)
    requires Permitted(At(Now(h).threads, o).kind, op)
    ensures Proper(r)
    ensures var c := Now(h);
            var t := At(c.threads, o);
            Now(r) == c.(
              nextId := c.nextId + 1,
              strayed := c.strayed || t.kind == Leftover,
              wire := c.wire + [Sent(c.nextId + 1, t.session, op, t.kind != Leftover, opens, Open)],
              threads := c.threads[o := Waiting(t.session, t.kind, op, |c.wire|)])
  {
    var c := Now(h);
    var t := At(c.threads, o);
    var sending := Then(h, Start(o, op));
    assert At(Now(sending).threads, o) == Sending(t.session, t.kind, op);
    r := Then(sending, Write(o, c.nextId + 1, c.nextId + 1, opens));
    var x := Waiting(t.session, t.kind, op, |c.wire|);
    assert c.threads[o := Sending(t.session, t.kind, op)][o := x] == c.threads[o := x];
  }

  lemma FreshClient() returns (h: History)
    ensures Proper(h) && Now(h) == Client(None, map[], 0, false, false, [], 0)
  {
    var c := Client(None, map[], 0, false, false, [], 0);
    h := History([c], []);
  }

  /** One activity begins and cannot decode the answer; the lock is free and the connection in
      use, so another one's statement runs inside the transaction the server opened. */
  lemma UndecodableBegin() returns (h: History)
    ensures Proper(h) && !Now(h).broken && !Now(h).strayed
    ensures !Isolated(Now(h).wire) && !Intruded(Now(h).wire)
  {
    h := FreshClient();
    h := Then(h, Acquire(0, Opening));
    h := Call(h, 0, Begin, true);
    h := Then(h, Garble(0));
    var begin := Sent(1, 0, Begin, true, true, Senseless);
    assert Now(h).wire == [begin] && Now(h).lock == None;
    h := Then(h, Acquire(1, Single));
    h := Call(h, 1, Plain, false);
    var plain := Sent(2, 1, Plain, true, false, Open);
    assert Now(h).wire == [begin, plain];
    OneOpen([begin, plain], 0, 1);
  }

  /** Two requests, of which the first opened a transaction. */
  lemma OneOpen(wire: seq<Sent>, i: nat, j: nat)
    requires i < j < |wire| && Opened(wire[i]) && wire[j].session != wire[i].session
    requires forall k :: i < k < j ==> !Closes(wire[k].op)
    ensures OpenAt(wire, i, j) && !Isolated(wire)
  {
  }

  const OPENED: Sent := Sent(1, 0, QueryOpen, true, false, Took(true))
  const CLOSED: Sent := Sent(2, 0, QueryClose, true, false, Senseless)

  lemma CursorOpened() returns (h: History)
    ensures Proper(h) && Now(h) == Client(Some(0), map[0 := Ready(0, InCursor)], 1, false, false, [OPENED], 1)
  {
    h := FreshClient();
    h := Then(h, Acquire(0, OpeningCursor));
    h := Call(h, 0, QueryOpen, false);
    assert At(Now(h).threads, 0) == Waiting(0, OpeningCursor, QueryOpen, 0);
    h := Then(h, Receive(0, Some(1), true, false));
    assert Now(h).threads == map[0 := Ready(0, InCursor)] && Now(h).wire == [OPENED];
  }

  /** A cursor is opened, and the answer to its close cannot be decoded. */
  lemma LeftBehind() returns (h: History)
    ensures Proper(h) && Now(h) == Client(None, map[0 := Ready(0, Leftover)], 2, false, false, [OPENED, CLOSED], 1)
  {
    h := CursorOpened();
    h := Call(h, 0, QueryClose, false);
    assert At(Now(h).threads, 0) == Waiting(0, InCursor, QueryClose, 1);
    h := Then(h, Garble(0));
    assert Now(h).threads == map[0 := Ready(0, Leftover)] && Now(h).wire == [OPENED, CLOSED];
  }

  /** A cursor whose close could not be confirmed is fetched from while another activity's
      transaction is open: its request goes out beside the lock and into that transaction,
      although every begin was answered, and the answer to the begin is then taken while a later
      request is on the wire. */
  lemma FetchAfterFailedClose() returns (h: History)
    ensures Proper(h) && |h.run| > 1 && !Now(h).broken
    ensures !Isolated(Now(h).wire) && !Abandoned(Now(h).wire)
    ensures |Now(h).wire| == 4 && Now(h).wire[2].fate == Took(true) && Now(h).wire[3].fate == Open
  {
    h := LeftBehind();
    h := Then(h, Acquire(1, Opening));
    h := Call(h, 1, Begin, true);
    assert At(Now(h).threads, 0) == Ready(0, Leftover);
    h := Call(h, 0, QueryNext, false);
    assert At(Now(h).threads, 1) == Waiting(1, Opening, Begin, 2);
    h := Then(h, Receive(1, Some(3), true, false));
    OneOpen(Now(h).wire, 2, 3);
  }
}
