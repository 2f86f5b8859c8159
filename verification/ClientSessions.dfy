/** What an activity of the shared client is entitled to: it is in a transaction or has a cursor
    only if the request that opens one was answered with success, and an answer moves it on. */
module ClientSessions {
  import opened Order
  import opened ClientLock
  import Runs

  predicate Success(s: Sent, session: nat, op: Op) {
    s.session == session && s.op == op && s.fate == Took(true)
  }

  ghost predicate Succeeded(wire: seq<Sent>, session: nat, op: Op) {
    exists i :: 0 <= i < |wire| && Success(wire[i], session, op)
  }

  ghost predicate Earned(wire: seq<Sent>, t: Thread) {
    t != Outside ==>
      && (t.kind == InTxn ==> Succeeded(wire, t.session, Begin))
      && (t.kind == InCursor || t.kind == Leftover ==> Succeeded(wire, t.session, QueryOpen))
  }

  ghost predicate AllEarned(c: Client) {
    forall o: nat {:trigger At(c.threads, o)} :: Earned(c.wire, At(c.threads, o))
  }

  /** Answers that were in stay in. */
  ghost predicate Remembers(before: seq<Sent>, after: seq<Sent>) {
    && |before| <= |after|
    && forall i :: 0 <= i < |before| ==>
         after[i].session == before[i].session && after[i].op == before[i].op
         && (before[i].fate != Open ==> after[i].fate == before[i].fate)
  }

  lemma EarnedStays(before: seq<Sent>, after: seq<Sent>, t: Thread)
    requires Remembers(before, after) && Earned(before, t)
    ensures Earned(after, t)
  {
    forall op | t != Outside && Succeeded(before, t.session, op) ensures Succeeded(after, t.session, op) {
      var i :| 0 <= i < |before| && Success(before[i], t.session, op);
      assert Success(after[i], t.session, op);
    }
  }

  /** One activity moves on what it has earned; the others keep theirs. */
  lemma MoveEarns(c: Client, d: Client, o: nat, t: Thread)
    requires AllEarned(c) && d.threads == c.threads[o := t] && Remembers(c.wire, d.wire) && Earned(d.wire, t)
    ensures AllEarned(d)
  {
    forall p: nat ensures Earned(d.wire, At(d.threads, p)) {
      if p != o {
        assert At(d.threads, p) == At(c.threads, p);
        EarnedStays(c.wire, d.wire, At(c.threads, p));
      }
    }
  }

  /** The end of an exchange. */
  lemma FinishEarns(c: Client, o: nat, fate: Fate, done: bool)
    requires Inv(c) && AllEarned(c) && At(c.threads, o).Waiting?
    ensures At(c.threads, o).at < |c.wire| && AllEarned(Finish(c, o, fate, done))
  {
    var t := At(c.threads, o);
    assert Agrees(c.wire, c.broken, t);
    var d := Finish(c, o, fate, done);
    EarnedStays(c.wire, d.wire, t);
    if fate == Took(true) { assert Success(d.wire[t.at], t.session, t.op); }
    MoveEarns(c, d, o, At(d.threads, o));
  }

  /** A step that ends no exchange on the wire. */
  lemma QuietEarns(c: Client, s: Step, d: Client)
    requires AllEarned(c) && Next(c, s, d) && !s.Receive? && !s.Garble? && (s.Lose? ==> !At(c.threads, s.o).Waiting?)
    ensures AllEarned(d)
  {
    EarnedStays(c.wire, d.wire, At(c.threads, s.o));
    MoveEarns(c, d, s.o, At(d.threads, s.o));
  }

  lemma StepEarns(c: Client, s: Step, d: Client)
    requires Inv(c) && AllEarned(c) && Next(c, s, d)
    ensures AllEarned(d)
  {
    var t := At(c.threads, s.o);
    match s
    case Receive(o, answer, ok, done) =>
      FinishEarns(c, o, Took(ok), done);
      FinishEarns(c, o, Lost, false);
    case Garble(o) => FinishEarns(c, o, Senseless, false);
    case Lose(o) =>
      if t.Waiting? { FinishEarns(c, o, Lost, false); } else { QuietEarns(c, s, d); }
    case _ => QuietEarns(c, s, d);
  }

  /** In every interleaving, whoever is in a transaction or holds a cursor, also one left over by
      a failed close, sent the request that opened it and took a successful answer to it. */
  lemma EntitledOnly(run: seq<Client>, steps: seq<Step>, n: nat, o: nat)
    requires IsRun(run, steps) && n <= |steps|
    ensures Earned(run[n].wire, At(run[n].threads, o))
  {
    forall c, s, d | Inv(c) && AllEarned(c) && Next(c, s, d) ensures Inv(d) && AllEarned(d) {
      StepKeeps(c, s);
      StepEarns(c, s, d);
    }
    StartInv(run[0]);
    Runs.Keeps((c: Client) => Inv(c) && AllEarned(c), (c: Client, s: Step, d: Client) => Next(c, s, d), run, steps, n);
    assert AllEarned(run[n]);
  }

  /** An answer with the id waited for decides what becomes of the activity and of the lock. */
  lemma AnswerMoves(run: seq<Client>, steps: seq<Step>, n: nat, o: nat, answer: Option<nat>, ok: bool, done: bool)
    requires IsRun(run, steps) && n <= |steps| && Enabled(run[n], Receive(o, answer, ok, done))
    requires Matches(run[n], At(run[n].threads, o), answer)
    ensures var t := At(run[n].threads, o);
            var d := Apply(run[n], Receive(o, answer, ok, done));
            && d.wire[t.at].fate == Took(ok)
            && (t.op == Begin ==> At(d.threads, o) == if ok then Ready(t.session, InTxn) else Outside)
            && (t.op == QueryOpen ==> At(d.threads, o) == if ok then Ready(t.session, InCursor) else Outside)
            && (t.op == Commit || t.op == Rollback || t.op == Plain ==> At(d.threads, o) == Outside)
            && (t.op == TxnCall ==> At(d.threads, o) == Ready(t.session, InTxn))
            && (t.op == QueryNext ==> At(d.threads, o) == if ok && done then Outside else Ready(t.session, t.kind))
            && (t.op == QueryClose ==> At(d.threads, o) == if ok then Outside else Ready(t.session, Leftover))
            && (t.kind != Leftover ==> (d.lock == Some(o) <==> Holds(At(d.threads, o))))
  {
    RunKeeps(run, steps, n);
    assert Agrees(run[n].wire, run[n].broken, At(run[n].threads, o));
  }
}
