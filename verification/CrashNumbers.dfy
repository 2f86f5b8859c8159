/** Transaction numbers over a whole run of the harness: across workers, kills, recoveries and
    restarts, no two intents carry the same number. */
module CrashNumbers {
  import opened CrashRecovery
  import opened CrashProtocol

  /** A step that makes an intent durable. */
  ghost predicate Intends(s: World, step: Step, tx: nat) {
    && step.Work? && step.action == WriteIntent && s.up && step.w < |s.workers|
    && s.workers[step.w].phase.Reserved? && s.workers[step.w].phase.tx == tx
  }

  /** The number lies below what the next snapshot will start from. */
  predicate Below(snapshot: Snapshot, journal: seq<Event>, tx: nat) {
    tx < snapshot.nextTx || (journal != [] && tx <= MaxTx(journal))
  }

  /** Nobody holds the number or can still take it. */
  ghost predicate Spent(s: World, tx: nat) {
    && Below(s.snapshot, s.journal, tx)
    && (s.up ==> tx < s.nextTx)
    && (s.up ==> forall w :: 0 <= w < |s.workers| && s.workers[w].phase.Reserved? ==> s.workers[w].phase.tx != tx)
  }

  lemma {:induction false} MaxTxGrows(events: seq<Event>, e: Event)
    ensures MaxTx(events + [e]) == Max(MaxTx(events), e.tx)
  {
    assert (events + [e])[..|events|] == events;
  }

  /** The first intent with a number spends it. */
  lemma IntentSpends(cfg: Config, s: World, step: Step, t: World, tx: nat)
    requires Inv(cfg, s) && Next(cfg, s, step, t) && Intends(s, step, tx)
    ensures Spent(t, tx)
  {
    var me := s.workers[step.w];
    MaxTxGrows(s.journal, Intent(tx, me.phase.m));
    assert WorkerFine(s, Replay(s.snapshot.rows, s.journal).value, step.w);
  }

  lemma RecoveredNext(snapshot: Snapshot, journal: seq<Event>, db: Rows, tx: nat)
    requires Below(snapshot, journal, tx) && Recover(snapshot, journal, db).Ok?
    ensures tx < Recover(snapshot, journal, db).value.0.nextTx
  {
  }

  lemma BelowGrows(snapshot: Snapshot, journal: seq<Event>, e: Event, tx: nat)
    requires Below(snapshot, journal, tx)
    ensures Below(snapshot, journal + [e], tx)
  {
    MaxTxGrows(journal, e);
  }

  /** A worker that gets another phase, the number as spent as before. */
  lemma PutKeepsSpent(s: World, w: nat, me: Worker, t: World, tx: nat)
    requires Spent(s, tx) && s.up && t.up && w < |s.workers| && t.workers == s.workers[w := me]
    requires t.snapshot == s.snapshot && t.nextTx >= s.nextTx && Below(t.snapshot, t.journal, tx)
    requires me.phase.Reserved? ==> me.phase.tx != tx
    ensures Spent(t, tx)
  {
  }

  lemma PlanKeepsSpent(cfg: Config, s: World, w: nat, action: Action, t: World, tx: nat)
    requires s.up && w < |s.workers| && WorkerNext(cfg, s, w, action, t) && Spent(s, tx)
    requires action.PlanInsert? || action.PlanUpdate? || action.PlanDelete?
    ensures Spent(t, tx)
  {
    PutKeepsSpent(s, w, t.workers[w], t, tx);
  }

  lemma WorkKeepsSpent(cfg: Config, s: World, w: nat, action: Action, t: World, tx: nat)
    requires s.up && w < |s.workers| && WorkerNext(cfg, s, w, action, t) && Spent(s, tx)
    ensures Spent(t, tx)
  {
    match action
    case WriteIntent =>
      BelowGrows(s.snapshot, s.journal, Intent(s.workers[w].phase.tx, s.workers[w].phase.m), tx);
      PutKeepsSpent(s, w, t.workers[w], t, tx);
    case WriteCommit =>
      BelowGrows(s.snapshot, s.journal, Commit(s.workers[w].phase.tx), tx);
      PutKeepsSpent(s, w, t.workers[w], t, tx);
    case RunSql => PutKeepsSpent(s, w, t.workers[w], t, tx);
    case _ => PlanKeepsSpent(cfg, s, w, action, t, tx);
  }

  /** No step makes a spent number available again. */
  lemma SpentStays(cfg: Config, s: World, step: Step, t: World, tx: nat)
    requires Next(cfg, s, step, t) && Spent(s, tx)
    ensures Spent(t, tx)
  {
    match step
    case Work(w, action) => WorkKeepsSpent(cfg, s, w, action, t, tx);
    case Kill =>
    case RecoverRun =>
      if Recover(s.snapshot, s.journal, s.db).Ok? { RecoveredNext(s.snapshot, s.journal, s.db, tx); }
    case Restart =>
  }

  lemma {:induction false} SpentLater(cfg: Config, states: seq<World>, steps: seq<Step>, tx: nat, i: nat, j: nat)
    requires IsRun(cfg, states, steps) && i <= j <= |steps| && Spent(states[i], tx)
    ensures Spent(states[j], tx)
    decreases j
  {
    if i < j {
      SpentLater(cfg, states, steps, tx, i, j - 1);
      SpentStays(cfg, states[j - 1], steps[j - 1], states[j], tx);
    }
  }

  /** Along every run from the seed, two intents never carry the same number. */
  lemma NumbersAreUnique(cfg: Config, states: seq<World>, steps: seq<Step>, i: nat, j: nat, tx: nat)
    requires IsRun(cfg, states, steps) && i < j < |steps| && Intends(states[i], steps[i], tx)
    ensures !Intends(states[j], steps[j], tx)
  {
    SeededInv(cfg, states[0]);
    RunKeeps(cfg, states, steps, i);
    IntentSpends(cfg, states[i], steps[i], states[i + 1], tx);
    SpentLater(cfg, states, steps, tx, i + 1, j);
  }
}
