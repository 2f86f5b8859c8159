/** A schema change under interruption: record the intent, rewrite data and catalog together,
    clear the intent; a crash anywhere, and a replay of what is pending on the next open. */
module DdlProtocol {
  import opened Order
  import opened DdlRewrite

  /** Identity high-water marks by table name; they are rewritten with the catalog. */
  type Marks = map<string, nat>

  function RewriteMarks(rw: Rewrite, marks: Marks): Marks {
    if rw.RenameTable? && rw.from in marks then (marks - {rw.from})[rw.to := marks[rw.from]] else marks
  }

  /** How far the running process is; all of it is lost in a crash. */
  datatype Phase = Down | Idle | Recorded | Published

  datatype Disk = Disk(tables: seq<Table>, marks: Marks, intent: Option<Rewrite>)

  datatype World = World(disk: Disk, phase: Phase, finished: seq<Rewrite>)

  datatype Step = Begin(rw: Rewrite) | Publish | Clear | Crash | Open

  /** A statement is started only with no intent pending and its new name free. */
  predicate Enabled(w: World, s: Step) {
    match s
    case Begin(rw) => w.phase == Idle && w.disk.intent == None && NoClash(rw, w.disk.tables)
    case Publish => w.phase == Recorded && w.disk.intent.Some?
    case Clear => w.phase == Published
    case Crash => true
    case Open => w.phase == Down
  }

  function Rewritten(rw: Rewrite, d: Disk): Disk {
    d.(tables := Apply(rw, d.tables), marks := RewriteMarks(rw, d.marks))
  }

  function Take(w: World, s: Step): World
    requires Enabled(w, s)
  {
    match s
    case Begin(rw) => w.(disk := w.disk.(intent := Some(rw)), phase := Recorded)
    case Publish => w.(disk := Rewritten(w.disk.intent.value, w.disk), phase := Published)
    case Clear =>
      w.(disk := w.disk.(intent := None), phase := Idle,
         finished := w.finished + if w.disk.intent.Some? then [w.disk.intent.value] else [])
    case Crash => w.(phase := Down)
    case Open => w.(phase := if w.disk.intent.Some? then Recorded else Idle)
  }

  /** The finished statements, each applied once and without interruption. */
  function Uninterrupted(start: Disk, done: seq<Rewrite>): Disk {
    if done == [] then start else Rewritten(done[|done| - 1], Uninterrupted(start, done[..|done| - 1]))
  }

  predicate NamesOnly(marks: Marks, tables: seq<Table>) {
    forall t :: t in marks ==> HasTable(tables, t)
  }

  predicate GoodDisk(d: Disk) {
    WellFormed(d.tables) && NamesOnly(d.marks, d.tables)
  }

  /** The disk is that of the uninterrupted history, possibly with the pending statement
      already applied; it surely is once published. */
  ghost predicate Inv(w: World, start: Disk) {
    var reference := Uninterrupted(start, w.finished);
    && GoodDisk(reference) && reference.intent == None
    && (w.disk.intent == None ==> w.disk == reference && (w.phase == Idle || w.phase == Down))
    && (w.disk.intent.Some? ==>
          var rw := w.disk.intent.value;
          && NoClash(rw, reference.tables) && w.phase != Idle
          && (w.phase == Published ==> w.disk == Rewritten(rw, reference).(intent := Some(rw)))
          && (w.disk == reference.(intent := Some(rw)) || w.disk == Rewritten(rw, reference).(intent := Some(rw))))
  }

  /** No mark is lost, changed or left behind under the old name. */
  lemma MarksMove(rw: Rewrite, marks: Marks)
    requires rw.RenameTable? && rw.from in marks ==> rw.from == rw.to || rw.to !in marks
    ensures forall t :: t in marks ==>
              OutputTable(rw, t) in RewriteMarks(rw, marks) && RewriteMarks(rw, marks)[OutputTable(rw, t)] == marks[t]
    ensures |RewriteMarks(rw, marks)| == |marks|
    ensures rw.RenameTable? && rw.from != rw.to ==> rw.from !in RewriteMarks(rw, marks)
  {
    if rw.RenameTable? && rw.from in marks {
      RenameMarks(rw.from, rw.to, marks);
    }
  }

  /** Nothing is left to move the second time. */
  lemma MarksMoveOnce(rw: Rewrite, marks: Marks)
    requires rw.RenameTable? && rw.from in marks ==> rw.from == rw.to || rw.to !in marks
    ensures RewriteMarks(rw, RewriteMarks(rw, marks)) == RewriteMarks(rw, marks)
  {
    if rw.RenameTable? && rw.from in marks {
      RenameMarks(rw.from, rw.to, marks);
      if rw.from == rw.to {
        assert RewriteMarks(rw, marks) == marks;
      } else {
        assert rw.from !in RewriteMarks(rw, marks);
      }
    }
  }

  lemma NameIsFree(rw: Rewrite, tables: seq<Table>, marks: Marks)
    requires NamesOnly(marks, tables) && NoClash(rw, tables)
    ensures rw.RenameTable? && rw.from in marks ==> rw.from == rw.to || rw.to !in marks
  {
  }

  lemma MarkOrigin(rw: Rewrite, marks: Marks, t: string) returns (was: string)
    requires t in RewriteMarks(rw, marks)
    requires rw.RenameTable? && rw.from in marks ==> rw.from == rw.to || rw.to !in marks
    ensures was in marks && OutputTable(rw, was) == t
  {
    if rw.RenameTable? && rw.from in marks { RenameMarks(rw.from, rw.to, marks); }
    was := if rw.RenameTable? && t == rw.to && rw.from in marks then rw.from else t;
  }

  lemma MarkNamed(rw: Rewrite, tables: seq<Table>, marks: Marks, t: string)
    requires UniqueTables(tables) && NamesOnly(marks, tables) && t in RewriteMarks(rw, marks)
    requires rw.RenameTable? && rw.from in marks ==> rw.from == rw.to || rw.to !in marks
    ensures HasTable(Apply(rw, tables), t)
  {
    var was := MarkOrigin(rw, marks, t);
    NamesFollow(rw, tables, was);
  }

  lemma MarksFollow(rw: Rewrite, tables: seq<Table>, marks: Marks)
    requires UniqueTables(tables) && NamesOnly(marks, tables) && NoClash(rw, tables)
    ensures NamesOnly(RewriteMarks(rw, marks), Apply(rw, tables))
    ensures RewriteMarks(rw, RewriteMarks(rw, marks)) == RewriteMarks(rw, marks)
  {
    NameIsFree(rw, tables, marks);
    MarksMoveOnce(rw, marks);
    forall t | t in RewriteMarks(rw, marks) ensures HasTable(Apply(rw, tables), t) {
      MarkNamed(rw, tables, marks, t);
    }
  }

  /** Moving one entry to a free name keeps every value and the number of entries. */
  lemma RenameMarks(from: string, to: string, marks: Marks)
    requires from in marks && (from == to || to !in marks)
    ensures
      var next := (marks - {from})[to := marks[from]];
      && (forall t :: t in next <==> t == to || (t in marks && t != from))
      && (forall t :: t in marks && t != from ==> t in next && next[t] == marks[t])
      && |next| == |marks| && (from != to ==> from !in next) && (from == to ==> next == marks)
  {
    var next := (marks - {from})[to := marks[from]];
    assert next.Keys == marks.Keys - {from} + {to};
    assert |next.Keys| == |marks.Keys|;
  }

  lemma NamesFollow(rw: Rewrite, tables: seq<Table>, t: string)
    requires UniqueTables(tables) && HasTable(tables, t)
    ensures HasTable(Apply(rw, tables), OutputTable(rw, t))
  {
    var i :| 0 <= i < |tables| && tables[i].name == t;
    assert Apply(rw, tables)[i].name == OutputTable(rw, t);
  }

  /** Rewriting a disk again changes nothing, and the result is a good disk again. */
  lemma RewriteIsFinal(rw: Rewrite, d: Disk)
    requires GoodDisk(d) && NoClash(rw, d.tables)
    ensures GoodDisk(Rewritten(rw, d)) && Rewritten(rw, Rewritten(rw, d)) == Rewritten(rw, d)
  {
    WellFormedAfter(rw, d.tables);
    ApplyIdempotent(rw, d.tables);
    MarksFollow(rw, d.tables, d.marks);
  }

  lemma StepKeeps(w: World, s: Step, start: Disk)
    requires Inv(w, start) && Enabled(w, s)
    ensures Inv(Take(w, s), start)
  {
    var reference := Uninterrupted(start, w.finished);
    if w.disk.intent.Some? {
      RewriteIsFinal(w.disk.intent.value, reference);
      if s.Publish? { PublishReaches(w, reference); }
      if s.Clear? {
        var done := w.finished + [w.disk.intent.value];
        assert done[..|done| - 1] == w.finished;
      }
    }
  }

  lemma PublishReaches(w: World, reference: Disk)
    requires w.disk.intent.Some? && reference.intent == None
    requires
      var rw := w.disk.intent.value;
      && Rewritten(rw, Rewritten(rw, reference)) == Rewritten(rw, reference)
      && (w.disk == reference.(intent := Some(rw)) || w.disk == Rewritten(rw, reference).(intent := Some(rw)))
    ensures
      var rw := w.disk.intent.value;
      Rewritten(rw, w.disk) == Rewritten(rw, reference).(intent := Some(rw))
  {
  }

  ghost predicate Next(v: World, w: World) {
    exists s :: Enabled(v, s) && w == Take(v, s)
  }

  ghost predicate IsRun(run: seq<World>) {
    && run != [] && run[0].phase == Idle && run[0].finished == [] && run[0].disk.intent == None && GoodDisk(run[0].disk)
    && forall i :: 0 <= i < |run| - 1 ==> Next(run[i], run[i + 1])
  }

  lemma {:induction false} RunKeeps(run: seq<World>, n: nat)
    requires IsRun(run) && n < |run|
    ensures Inv(run[n], run[0].disk)
  {
    if n > 0 {
      RunKeeps(run, n - 1);
      var s :| Enabled(run[n - 1], s) && run[n] == Take(run[n - 1], s);
      StepKeeps(run[n - 1], s, run[0].disk);
    }
  }

  /** After any number of crashes and replays, a database with nothing pending is exactly
      what the same statements give when none is interrupted. */
  lemma InterruptionsDoNotShow(run: seq<World>, n: nat)
    requires IsRun(run) && n < |run| && run[n].disk.intent == None
    ensures run[n].disk == Uninterrupted(run[0].disk, run[n].finished)
    ensures WellFormed(run[n].disk.tables)
  {
    RunKeeps(run, n);
  }

  /** From anywhere, opening, publishing and clearing settles a pending statement. */
  lemma ReplaySettles(run: seq<World>, n: nat)
    requires IsRun(run) && n < |run| && run[n].phase == Down && run[n].disk.intent.Some?
    ensures
      var resumed := Take(run[n], Open);
      && Enabled(resumed, Publish) && Enabled(Take(resumed, Publish), Clear)
      && Take(Take(resumed, Publish), Clear).disk
         == Uninterrupted(run[0].disk, run[n].finished + [run[n].disk.intent.value])
  {
    RunKeeps(run, n);
    var resumed := Take(run[n], Open);
    StepKeeps(run[n], Open, run[0].disk);
    StepKeeps(resumed, Publish, run[0].disk);
    StepKeeps(Take(resumed, Publish), Clear, run[0].disk);
  }
}
