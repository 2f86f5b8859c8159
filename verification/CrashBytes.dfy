/** The crash-stress harness with its journal as the bytes of a file: a kill may cut the
    append in progress anywhere, and recovery starts from what the file then reads as. */
module CrashBytes {
  import opened Order
  import opened CrashRecovery
  import opened Journal
  import P = CrashProtocol
  import Runs

  /** The harness and its journal file; the journal of `rest` stays empty. */
  datatype Machine = Machine(rest: P.World, file: Bytes)

  /** `Kill(w, torn)`: the first `torn` bytes of what worker `w` was appending got out. */
  datatype Step = Work(w: nat, action: P.Action) | Kill(w: nat, torn: nat) | RecoverRun | Restart

  /** What a worker is about to append. */
  function Appending(me: P.Worker): Option<Event> {
    match me.phase
    case Reserved(tx, m) => Some(Intent(tx, m))
    case Applied(tx, _) => Some(Commit(tx))
    case _ => None
  }

  /** The bytes a kill leaves of the append in progress. */
  ghost predicate Torn(c: Codec, workers: seq<P.Worker>, w: nat, torn: nat, tail: Bytes) {
    || (torn == 0 && tail == [])
    || (w < |workers| && Appending(workers[w]).Some?
        && var line := EncodeEvent(c, Appending(workers[w]).value); torn < |line| && tail == line[..torn])
  }

  ghost predicate Next(cfg: P.Config, c: Codec, a: Machine, step: Step, b: Machine) {
    && b.rest.journal == []
    && match step
       case Work(w, action) => exists t ::
         && P.Next(cfg, a.rest, P.Work(w, action), t)
         && b == Machine(t.(journal := []), Chain(a.file, EncodeAll(c, t.journal)))
       case Kill(w, torn) => a.rest.up && exists tail ::
         && Torn(c, a.rest.workers, w, torn, tail)
         && b == Machine(a.rest.(up := false, workers := []), Chain(a.file, tail))
       case RecoverRun => !a.rest.up && (
         match Reading(c, a.file)
         case Bad(_) => b == a
         case Good((events, _, _)) =>
           match Recover(a.rest.snapshot, events, a.rest.db)
           case Err(_) => b == a
           case Ok((snapshot, _)) => b == Machine(a.rest.(snapshot := snapshot, applied := map[]), []))
       case Restart => !a.rest.up && a.file == [] && b == Machine(P.Restarted(cfg, a.rest), a.file)
  }

  /** The state machine over whole events that a step of this one belongs to. */
  function Whole(step: Step): P.Step {
    match step
    case Work(w, action) => P.Work(w, action)
    case Kill(_, _) => P.Kill
    case RecoverRun => P.RecoverRun
    case Restart => P.Restart
  }

  /** The file holds the journal's lines, and after a kill perhaps the front of one more. */
  ghost predicate Holds(c: Codec, file: Bytes, up: bool, events: seq<Event>, tail: Bytes) {
    file == Chain(EncodeAll(c, events), tail) && NEWLINE !in tail && (up ==> tail == [])
  }

  ghost predicate Shows(c: Codec, a: Machine, s: P.World) {
    && a.rest == s.(journal := [])
    && exists tail :: Holds(c, a.file, s.up, s.journal, tail)
  }

  lemma ShowsReads(c: Codec, a: Machine, s: P.World)
    requires WellBehaved(c) && Shows(c, a, s)
    ensures Reading(c, a.file).Good? && Reading(c, a.file).value.0 == s.journal
    ensures Reading(c, a.file).value.2 == MaxTx(s.journal) && (s.up ==> Reading(c, a.file).value.1 == 0)
  {
    var tail :| Holds(c, a.file, s.up, s.journal, tail);
    TailReadsBack(c, s.journal, tail, a.file);
  }

  /** A worker's step only ever adds to the journal. */
  lemma WorkOnAnyJournal(cfg: P.Config, s: P.World, w: nat, action: P.Action, t: P.World)
    requires P.Next(cfg, s.(journal := []), P.Work(w, action), t)
    ensures |t.journal| <= 1 && t.up
    ensures P.Next(cfg, s, P.Work(w, action), t.(journal := Chain(s.journal, t.journal)))
  {
  }

  lemma {:induction false} EncodeSnoc(c: Codec, events: seq<Event>, e: Event)
    ensures EncodeAll(c, events + [e]) == EncodeAll(c, events) + EncodeEvent(c, e)
  {
    var all := events + [e];
    if events == [] {
      assert all[1..] == [];
    } else {
      assert all[1..] == events[1..] + [e];
      EncodeSnoc(c, events[1..], e);
    }
  }

  lemma EncodeChain(c: Codec, events: seq<Event>, more: seq<Event>)
    requires |more| <= 1
    ensures EncodeAll(c, Chain(events, more)) == Chain(EncodeAll(c, events), EncodeAll(c, more))
  {
    if more == [] {
      assert Chain(events, more) == events;
    } else {
      assert more == [more[0]] && EncodeAll(c, more) == EncodeEvent(c, more[0]) by { assert more[1..] == []; }
      EncodeSnoc(c, events, more[0]);
    }
  }

  lemma TornHolds(c: Codec, a: Machine, s: P.World, w: nat, torn: nat, tail: Bytes)
    requires WellBehaved(c) && Shows(c, a, s) && s.up && Torn(c, s.workers, w, torn, tail)
    ensures Holds(c, Chain(a.file, tail), false, s.journal, tail)
  {
    var none :| Holds(c, a.file, s.up, s.journal, none);
    if tail != [] { TornTail(c, Appending(s.workers[w]).value, torn); }
  }

  lemma WorkShows(cfg: P.Config, c: Codec, a: Machine, s: P.World, w: nat, action: P.Action, b: Machine)
    returns (t: P.World)
    requires Shows(c, a, s) && Next(cfg, c, a, Work(w, action), b)
    ensures P.Next(cfg, s, P.Work(w, action), t) && Shows(c, b, t)
  {
    var u :| P.Next(cfg, a.rest, P.Work(w, action), u)
             && b == Machine(u.(journal := []), Chain(a.file, EncodeAll(c, u.journal)));
    WorkOnAnyJournal(cfg, s, w, action, u);
    t := u.(journal := Chain(s.journal, u.journal));
    EncodeChain(c, s.journal, u.journal);
    var none :| Holds(c, a.file, s.up, s.journal, none);
    assert Holds(c, b.file, t.up, t.journal, []);
  }

  lemma KillShows(cfg: P.Config, c: Codec, a: Machine, s: P.World, w: nat, torn: nat, b: Machine) returns (t: P.World)
    requires WellBehaved(c) && Shows(c, a, s) && Next(cfg, c, a, Kill(w, torn), b)
    ensures P.Next(cfg, s, P.Kill, t) && Shows(c, b, t)
  {
    var tail :| Torn(c, a.rest.workers, w, torn, tail)
                && b == Machine(a.rest.(up := false, workers := []), Chain(a.file, tail));
    TornHolds(c, a, s, w, torn, tail);
    t := s.(up := false, workers := []);
  }

  lemma RecoverShows(cfg: P.Config, c: Codec, a: Machine, s: P.World, b: Machine) returns (t: P.World)
    requires WellBehaved(c) && Shows(c, a, s) && Next(cfg, c, a, RecoverRun, b)
    ensures P.Next(cfg, s, P.RecoverRun, t) && Shows(c, b, t)
  {
    ShowsReads(c, a, s);
    match Recover(s.snapshot, s.journal, s.db)
    case Err(_) => t := s;
    case Ok((snapshot, _)) =>
      t := s.(snapshot := snapshot, journal := [], applied := map[]);
      assert Holds(c, b.file, t.up, t.journal, []);
  }

  lemma RestartShows(cfg: P.Config, c: Codec, a: Machine, s: P.World, b: Machine) returns (t: P.World)
    requires WellBehaved(c) && Shows(c, a, s) && Next(cfg, c, a, Restart, b)
    ensures P.Next(cfg, s, P.Restart, t) && Shows(c, b, t)
  {
    var tail :| Holds(c, a.file, s.up, s.journal, tail);
    if s.journal != [] { EncodedEnds(c, s.journal); }
    t := P.Restarted(cfg, s);
    assert Holds(c, b.file, t.up, t.journal, []);
  }

  /** Every step on bytes is the same step on whole events. */
  lemma StepShows(cfg: P.Config, c: Codec, a: Machine, s: P.World, step: Step, b: Machine) returns (t: P.World)
    requires WellBehaved(c) && Shows(c, a, s) && Next(cfg, c, a, step, b)
    ensures P.Next(cfg, s, Whole(step), t) && Shows(c, b, t)
  {
    match step
    case Work(w, action) => t := WorkShows(cfg, c, a, s, w, action, b);
    case Kill(w, torn) => t := KillShows(cfg, c, a, s, w, torn, b);
    case RecoverRun => t := RecoverShows(cfg, c, a, s, b);
    case Restart => t := RestartShows(cfg, c, a, s, b);
  }

  ghost predicate IsRun(cfg: P.Config, c: Codec, machines: seq<Machine>, steps: seq<Step>) {
    && Runs.IsRun((a, x, b) => Next(cfg, c, a, x, b), machines, steps)
    && P.Seeded(cfg, machines[0].rest) && machines[0].file == []
  }

  /** Every run on bytes, torn appends and all, is a run on whole events. */
  lemma RunShows(cfg: P.Config, c: Codec, machines: seq<Machine>, steps: seq<Step>) returns (worlds: seq<P.World>)
    requires WellBehaved(c) && IsRun(cfg, c, machines, steps)
    ensures P.IsRun(cfg, worlds, Runs.Mapped(Whole, steps))
    ensures |worlds| == |machines| && forall k :: 0 <= k < |worlds| ==> Shows(c, machines[k], worlds[k])
  {
    var start := machines[0].rest;
    assert Holds(c, [], false, [], []);
    var shows := (a: Machine, s: P.World) => Shows(c, a, s);
    var next := (s: P.World, x: P.Step, t: P.World) => P.Next(cfg, s, x, t);
    forall a, s, x, b | Shows(c, a, s) && Next(cfg, c, a, x, b) ensures Runs.Answers(shows, next, b, s, Whole(x)) {
      var t := StepShows(cfg, c, a, s, x, b);
      assert next(s, Whole(x), t) && shows(b, t);
    }
    worlds := Runs.Simulates(shows, Whole, (a, x, b) => Next(cfg, c, a, x, b), next, machines, steps, start);
  }

  /** Wherever the process is killed, in the middle of an append or between two, the file
      reads back without an error and recovery from what was read ends without an error,
      equals the database, and counts every statement that took effect exactly once. */
  lemma EveryByteRunRecovers(cfg: P.Config, c: Codec, machines: seq<Machine>, steps: seq<Step>, n: nat)
    requires WellBehaved(c) && IsRun(cfg, c, machines, steps) && n <= |steps|
    ensures var a := machines[n];
            match Reading(c, a.file)
            case Bad(_) => false
            case Good((events, torn, maxTx)) =>
              && maxTx == MaxTx(events) && (a.rest.up ==> torn == 0)
              && match Recover(a.rest.snapshot, events, a.rest.db)
                 case Err(_) => false
                 case Ok((snapshot, stats)) => (
                   && snapshot.rows == a.rest.db
                   && stats.commits + stats.resolvedCommitted + stats.resolvedAborted == P.Intents(events)
                   && stats.counted == a.rest.applied && stats.counts == KindCounts(a.rest.applied)
                   && stats.commits + stats.resolvedCommitted == |a.rest.applied|)
  {
    var worlds := RunShows(cfg, c, machines, steps);
    ShowsReads(c, machines[n], worlds[n]);
    P.EveryRunRecovers(cfg, worlds, Runs.Mapped(Whole, steps), n);
  }
}
