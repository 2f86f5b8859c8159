/** Leases on the native database handle: calls reserve it, `close` waits until none is out,
    and several closes may race with each other and with calls. */
module HandleLease {

  /** One activity, a call or a close, between its critical sections. */
  datatype Phase =
    | Idle
    | Leased
    /** Inside `wait`; woken once the last lease is returned. */
    | Waiting(notified: bool)
    /** Out of the critical section with what was in the handle field: the real handle, or
        nothing when another close took it first. */
    | Captured(genuine: bool)

  datatype Db = Db(
    phases: map<nat, Phase>,
    handle: bool,
    closing: bool,
    activeCalls: nat,
    /** How often the native close ran on the real handle. */
    nativeCloses: nat)

  datatype Step =
    | Acquire(o: nat)
    | Release(o: nat)
    | Close(o: nat)
    | Wake(o: nat)
    | NativeClose(o: nat)

  function At(phases: map<nat, Phase>, o: nat): Phase {
    if o in phases then phases[o] else Idle
  }

  predicate Enabled(d: Db, s: Step) {
    match s
    case Acquire(o) => At(d.phases, o) == Idle
    case Release(o) => At(d.phases, o) == Leased
    case Close(o) => At(d.phases, o) == Idle
    case Wake(o) => At(d.phases, o) == Waiting(true)
    case NativeClose(o) => At(d.phases, o).Captured?
  }

  function NotifyAll(phases: map<nat, Phase>): map<nat, Phase> {
    map o | o in phases :: if phases[o].Waiting? then Waiting(true) else phases[o]
  }

  /** The body of the wait loop: take the handle once no call is active. */
  function TakeOrWait(d: Db, o: nat): Db {
    if d.activeCalls > 0 then d.(phases := d.phases[o := Waiting(false)])
    else d.(phases := d.phases[o := Captured(d.handle)], handle := false)
  }

  function Apply(d: Db, s: Step): Db
    requires Enabled(d, s)
  {
    match s
    case Acquire(o) =>
      if !d.handle || d.closing then d
      else d.(phases := d.phases[o := Leased], activeCalls := d.activeCalls + 1)
    case Release(o) =>
      var left := if d.activeCalls > 0 then d.activeCalls - 1 else 0;
      var phases := d.phases[o := Idle];
      d.(phases := if left == 0 then NotifyAll(phases) else phases, activeCalls := left)
    case Close(o) =>
      if !d.handle then d else TakeOrWait(d.(closing := true), o)
    case Wake(o) => TakeOrWait(d, o)
    case NativeClose(o) =>
      var genuine := At(d.phases, o).genuine;
      d.(phases := d.phases[o := Idle], nativeCloses := d.nativeCloses + if genuine then 1 else 0)
  }

  /* ---- what every run keeps ---- */

  function Holders(phases: map<nat, Phase>): set<nat> {
    set o | o in phases && phases[o] == Leased
  }

  function RealCaptures(phases: map<nat, Phase>): set<nat> {
    set o | o in phases && phases[o] == Captured(true)
  }

  /** The real handle is in the field, on its way to the one native close, or closed. */
  ghost predicate Inv(d: Db) {
    && d.activeCalls == |Holders(d.phases)|
    && (if d.handle then 1 else 0) + |RealCaptures(d.phases)| + d.nativeCloses == 1
    && (!d.handle ==> d.closing && d.activeCalls == 0)
    && (forall o :: o in d.phases && d.phases[o].Waiting? ==> d.closing)
    && (d.closing && d.handle ==> SomeoneWaits(d.phases))
    && (forall o :: o in d.phases && d.phases[o] == Waiting(false) ==> d.activeCalls > 0)
  }

  ghost predicate SomeoneWaits(phases: map<nat, Phase>) {
    exists o :: o in phases && phases[o].Waiting?
  }

  predicate Starts(d: Db) {
    d == Db(map[], true, false, 0, 0)
  }

  lemma HoldersMoved(phases: map<nat, Phase>, o: nat, p: Phase)
    ensures Holders(phases[o := p]) == if p == Leased then Holders(phases) + {o} else Holders(phases) - {o}
    ensures RealCaptures(phases[o := p]) ==
      if p == Captured(true) then RealCaptures(phases) + {o} else RealCaptures(phases) - {o}
  {
  }

  lemma NotifyKeepsSets(phases: map<nat, Phase>)
    ensures Holders(NotifyAll(phases)) == Holders(phases) && RealCaptures(NotifyAll(phases)) == RealCaptures(phases)
  {
  }

  lemma HolderSets(phases: map<nat, Phase>, o: nat)
    ensures o in Holders(phases) <==> At(phases, o) == Leased
    ensures o in RealCaptures(phases) <==> At(phases, o) == Captured(true)
  {
  }

  lemma TakeOrWaitKeeps(d: Db, o: nat)
    requires Inv(d) && (At(d.phases, o) == Idle || At(d.phases, o) == Waiting(true))
    ensures Inv(TakeOrWait(d.(closing := true), o))
  {
    HolderSets(d.phases, o);
    HoldersMoved(d.phases, o, if d.activeCalls > 0 then Waiting(false) else Captured(d.handle));
    var after := TakeOrWait(d.(closing := true), o).phases;
    assert o in after && (d.activeCalls > 0 ==> after[o].Waiting?);
  }

  lemma StillWaits(phases: map<nat, Phase>, o: nat)
    requires !At(phases, o).Waiting?
    ensures SomeoneWaits(phases) ==> SomeoneWaits(phases[o := Idle]) && SomeoneWaits(NotifyAll(phases[o := Idle]))
  {
    if SomeoneWaits(phases) {
      var w :| w in phases && phases[w].Waiting?;
      assert w in phases[o := Idle] && phases[o := Idle][w].Waiting?;
      assert w in NotifyAll(phases[o := Idle]) && NotifyAll(phases[o := Idle])[w].Waiting?;
    }
  }

  lemma AcquireKeeps(d: Db, o: nat)
    requires Inv(d) && At(d.phases, o) == Idle
    ensures Inv(Apply(d, Acquire(o)))
  {
    HolderSets(d.phases, o);
    HoldersMoved(d.phases, o, Leased);
  }

  /** An activity that ends gives back what it held. */
  lemma IdledCounts(phases: map<nat, Phase>, o: nat)
    ensures |Holders(phases[o := Idle])| == |Holders(phases)| - if At(phases, o) == Leased then 1 else 0
    ensures |RealCaptures(phases[o := Idle])| ==
      |RealCaptures(phases)| - if At(phases, o) == Captured(true) then 1 else 0
  {
    HolderSets(phases, o);
    HoldersMoved(phases, o, Idle);
  }

  lemma ReleaseKeeps(d: Db, o: nat)
    requires Inv(d) && At(d.phases, o) == Leased
    ensures Inv(Apply(d, Release(o)))
  {
    IdledCounts(d.phases, o);
    NotifyKeepsSets(d.phases[o := Idle]);
    StillWaits(d.phases, o);
  }

  lemma NativeCloseKeeps(d: Db, o: nat)
    requires Inv(d) && At(d.phases, o).Captured?
    ensures Inv(Apply(d, NativeClose(o)))
  {
    IdledCounts(d.phases, o);
    StillWaits(d.phases, o);
  }

  lemma StepKeeps(d: Db, s: Step)
    requires Inv(d) && Enabled(d, s)
    ensures Inv(Apply(d, s))
  {
    match s
    case Acquire(o) => AcquireKeeps(d, o);
    case Release(o) => ReleaseKeeps(d, o);
    case Close(o) => if d.handle { TakeOrWaitKeeps(d, o); }
    case Wake(o) => TakeOrWaitKeeps(d, o);
    case NativeClose(o) => NativeCloseKeeps(d, o);
  }

  ghost predicate Next(d: Db, e: Db) {
    exists s :: Enabled(d, s) && e == Apply(d, s)
  }

  ghost predicate IsRun(run: seq<Db>) {
    && run != [] && Starts(run[0])
    && forall i :: 0 <= i < |run| - 1 ==> Next(run[i], run[i + 1])
  }

  lemma NextKeeps(d: Db, e: Db)
    requires Inv(d) && Next(d, e)
    ensures Inv(e) && (d.closing ==> e.closing && Holders(e.phases) <= Holders(d.phases))
    ensures d.nativeCloses <= e.nativeCloses
  {
    var s :| Enabled(d, s) && e == Apply(d, s);
    StepKeeps(d, s);
    HolderSets(d.phases, s.o);
  }

  lemma {:induction false} RunKeeps(run: seq<Db>, n: nat)
    requires IsRun(run) && n < |run|
    ensures Inv(run[n])
  {
    if n > 0 {
      RunKeeps(run, n - 1);
      NextKeeps(run[n - 1], run[n]);
    }
  }

  /** The native handle is closed at most once, and never while a call still uses it. */
  lemma ClosedOnceAndUnused(run: seq<Db>, n: nat)
    requires IsRun(run) && n < |run|
    ensures run[n].nativeCloses <= 1
    ensures run[n].nativeCloses == 1 || RealCaptures(run[n].phases) != {} ==> Holders(run[n].phases) == {}
  {
    RunKeeps(run, n);
  }

  /** Once a close has begun no activity that was not already using the handle gets it. */
  lemma {:induction false} NoLeaseAfterClosing(run: seq<Db>, m: nat, n: nat)
    requires IsRun(run) && m <= n < |run| && run[m].closing
    ensures run[n].closing && Holders(run[n].phases) <= Holders(run[m].phases)
  {
    if m < n {
      NoLeaseAfterClosing(run, m, n - 1);
      RunKeeps(run, n - 1);
      NextKeeps(run[n - 1], run[n]);
    }
  }

  /** Until a close begins every activity that asks gets the handle, and after it none does; a
      lease comes and goes without touching anybody else. */
  lemma LeasedUnlessClosing(run: seq<Db>, n: nat, o: nat, p: nat)
    requires IsRun(run) && n < |run| && At(run[n].phases, o) == Idle && p != o
    ensures var d := run[n];
            var leased, closed := Apply(d, Acquire(o)), Apply(d, Close(o));
            && (At(leased.phases, o) == Leased <==> !d.closing) && closed.closing
            && At(leased.phases, p) == At(closed.phases, p) == At(d.phases, p)
            && (!d.closing ==> Apply(leased, Release(o)).activeCalls == d.activeCalls)
  {
    RunKeeps(run, n);
  }

  /** No wake-up is lost: a waiting close is waiting for a call in progress, or is free to
      go on and then leaves the loop. */
  lemma CloseIsNotStuck(run: seq<Db>, n: nat, o: nat)
    requires IsRun(run) && n < |run| && At(run[n].phases, o).Waiting?
    ensures
      || Holders(run[n].phases) != {}
      || (Enabled(run[n], Wake(o)) && At(Apply(run[n], Wake(o)).phases, o).Captured?)
  {
    RunKeeps(run, n);
  }

  /** When everything has come to rest after a close began, the handle was closed. */
  lemma ClosingCloses(run: seq<Db>, n: nat)
    requires IsRun(run) && n < |run| && run[n].closing
    requires forall o :: o in run[n].phases ==> run[n].phases[o] == Idle
    ensures run[n].nativeCloses == 1
  {
    RunKeeps(run, n);
  }
}
