/** Every history of a secondary index: commits, freezes, publications, promotions. The
    layered index always shows what a plain map from key to ids would show. */
module IndexHistory {
  import opened Order
  import opened OverlayMerge
  import opened PairCodec
  import opened IndexLayers
  import opened SecondaryIndex
  import KeyEncoding

  /* ---- all operations known about one pair ---- */

  ghost function AllOps(L: Layers, key: Bytes, id: Id): set<VOp> {
    OpsIn(L.runs, PairKey(key, id)) + FrozenOps(L.frozen, key, id)
  }

  /** Operations of one generation agree about a pair. */
  ghost predicate Agreeing(ops: set<VOp>) {
    forall a, b :: a in ops && b in ops && a.version == b.version ==> a == b
  }

  /** With agreeing generations a pair is decided by its newest operation, whichever layer
      holds it: level order and tie rules play no part. */
  lemma PersistedIsNewest(L: Layers, key: Bytes, id: Id)
    requires Agreeing(AllOps(L, key, id))
    ensures Persisted(L, key, id) == Newest(AllOps(L, key, id))
  {
    var ops := OpsIn(L.runs, PairKey(key, id));
    var n := Newest(ops);
    var p := Persisted(L, key, id);
    if L.frozen.Some? {
      var f := L.frozen.value;
      assert Has(f.delta, key, id) ==> VOp(f.generation, Add) in AllOps(L, key, id);
      assert Has(f.removed, key, id) ==> VOp(f.generation, Delete) in AllOps(L, key, id);
      assert n.Some? ==> n.value in AllOps(L, key, id);
    }
    assert IsNewest(AllOps(L, key, id), p);
  }

  /* ---- the system ---- */

  datatype Change = Put(key: Bytes, id: Id) | Drop(key: Bytes, id: Id, readFails: bool)

  /** The index and the version of the last commit. */
  datatype Sys = Sys(L: Layers, committed: nat)

  datatype Step =
    | Commit(changes: seq<Change>)
    | Freeze
    | PushRun(run: Run)
    | ClearFrozen
    | Consolidate(run: Run)
    | Permute
    | Promote(kept: seq<Run>, selected: seq<Run>, merged: Run)

  ghost function ApplyChange(L: Layers, c: Change): Layers {
    match c
    case Put(key, id) => AddOp(L, key, id)
    case Drop(key, id, readFails) => RemoveOp(L, key, id, readFails)
  }

  ghost function ApplyChanges(L: Layers, cs: seq<Change>): Layers
    decreases |cs|
  {
    if cs == [] then L else ApplyChanges(ApplyChange(L, cs[0]), cs[1..])
  }

  ghost predicate IsPromotion(selected: seq<Run>, merged: Run) {
    forall p :: RunOps(merged, p) == Latest(selected, p)
  }

  /** Runs already hold, for every frozen pair, an operation at least as new. */
  ghost predicate FrozenCovered(L: Layers) {
    L.frozen.Some? && forall k: Bytes, i: Id ::
                        Has(L.frozen.value.delta, k, i) || Has(L.frozen.value.removed, k, i) ==>
                          exists o :: o in OpsIn(L.runs, PairKey(k, i)) && o.version >= L.frozen.value.generation
  }

  ghost predicate Next(keys: iset<Bytes>, s: Sys, step: Step, t: Sys) {
    match step
    case Commit(changes) => (
      && (forall c :: c in changes ==> c.key in keys)
      && t == Sys(ApplyChanges(s.L, changes), s.committed + 1))
    case Freeze => (
      && s.L.frozen.None? && !(s.L.delta == map[] && s.L.removed == map[])
      && t == s.(L := FreezeOp(s.L, s.committed)))
    case PushRun(run) => (
      && s.L.frozen.Some? && IsRunOf(keys, run, s.L.frozen.value)
      && t == s.(L := s.L.(runs := s.L.runs + [run])))
    case ClearFrozen => (
      && FrozenCovered(s.L)
      && t == s.(L := s.L.(frozen := None)))
    case Consolidate(run) => (
      && !(s.L.delta == map[] && s.L.removed == map[])
      && IsRunOf(keys, run, Frozen(s.committed, s.L.delta, s.L.removed))
      && t == s.(L := s.L.(runs := s.L.runs + [run], delta := map[], removed := map[])))
    case Permute => (
      && multiset(t.L.runs) == multiset(s.L.runs)
      && t == s.(L := s.L.(runs := t.L.runs)))
    case Promote(kept, selected, merged) => (
      && multiset(s.L.runs) == multiset(kept + selected)
      && WellFormedRun(keys, merged) && IsPromotion(selected, merged)
      && t == s.(L := s.L.(runs := kept + [merged])))
  }

  /* ---- the invariant ---- */

  ghost predicate Older(ops: set<VOp>, version: nat) {
    forall o :: o in ops ==> o.version < version
  }

  ghost predicate PairInv(s: Sys, k: Bytes, i: Id) {
    && Agreeing(AllOps(s.L, k, i))
    && Older(AllOps(s.L, k, i), s.committed + 1)
    && (Has(s.L.delta, k, i) || Has(s.L.removed, k, i) ==> Older(AllOps(s.L, k, i), s.committed))
    && !(Has(s.L.delta, k, i) && Has(s.L.removed, k, i))
  }

  ghost predicate Inv(keys: iset<Bytes>, s: Sys) {
    && WellFormed(keys, s.L)
    && (s.L.frozen.Some? ==> s.L.frozen.value.generation <= s.committed)
    && forall k: Bytes, i: Id :: PairInv(s, k, i)
  }

  /** What readers see is exactly the reference map. */
  ghost predicate Shows(L: Layers, ref: IdMap) {
    forall k: Bytes, i: Id :: Holds(L, k, i) <==> Has(ref, k, i)
  }

  function RefChange(ref: IdMap, c: Change): IdMap {
    match c
    case Put(key, id) => With(ref, key, id)
    case Drop(key, id, _) => Without(ref, key, id)
  }

  function RefChanges(ref: IdMap, cs: seq<Change>): IdMap
    decreases |cs|
  {
    if cs == [] then ref else RefChanges(RefChange(ref, cs[0]), cs[1..])
  }

  /** Only commits change the reference. */
  function RefStep(ref: IdMap, step: Step): IdMap {
    match step
    case Commit(changes) => RefChanges(ref, changes)
    case _ => ref
  }

  /* ---- commits ---- */

  lemma ChangeKeeps(keys: iset<Bytes>, s: Sys, c: Change, ref: IdMap)
    requires Inv(keys, s) && Shows(s.L, ref) && c.key in keys
    requires forall k: Bytes, i: Id :: Older(AllOps(s.L, k, i), s.committed)
    ensures var t := s.(L := ApplyChange(s.L, c));
            && Inv(keys, t) && Shows(t.L, RefChange(ref, c))
            && forall k: Bytes, i: Id :: AllOps(t.L, k, i) == AllOps(s.L, k, i)
  {
    var t := s.(L := ApplyChange(s.L, c));
    match c {
      case Put(key, id) => AddWellFormed(keys, s.L, key, id);
      case Drop(key, id, readFails) => RemoveWellFormed(keys, s.L, key, id, readFails);
    }
    forall k: Bytes, i: Id ensures PairInv(t, k, i) && (Holds(t.L, k, i) <==> Has(RefChange(ref, c), k, i)) {
      assert PairInv(s, k, i);
      HasUpdated(s.L.delta, c.key, c.id, k, i);
      HasUpdated(s.L.removed, c.key, c.id, k, i);
      HasUpdated(ref, c.key, c.id, k, i);
      match c {
        case Put(key, id) => AddVisible(s.L, key, id, k, i);
        case Drop(key, id, readFails) => RemoveVisible(s.L, key, id, readFails, k, i);
      }
    }
  }

  lemma {:induction false} ChangesKeep(keys: iset<Bytes>, s: Sys, cs: seq<Change>, ref: IdMap)
    requires Inv(keys, s) && Shows(s.L, ref) && forall c :: c in cs ==> c.key in keys
    requires forall k: Bytes, i: Id :: Older(AllOps(s.L, k, i), s.committed)
    ensures var t := s.(L := ApplyChanges(s.L, cs)); Inv(keys, t) && Shows(t.L, RefChanges(ref, cs))
    decreases |cs|
  {
    if cs != [] {
      ChangeKeeps(keys, s, cs[0], ref);
      ChangesKeep(keys, s.(L := ApplyChange(s.L, cs[0])), cs[1..], RefChange(ref, cs[0]));
    }
  }

  /** A commit raises the version first, so everything known is older than it. */
  lemma CommitKeeps(keys: iset<Bytes>, s: Sys, changes: seq<Change>, ref: IdMap)
    requires Inv(keys, s) && Shows(s.L, ref) && forall c :: c in changes ==> c.key in keys
    ensures var t := Sys(ApplyChanges(s.L, changes), s.committed + 1);
            Inv(keys, t) && Shows(t.L, RefChanges(ref, changes))
  {
    var begun := s.(committed := s.committed + 1);
    forall k: Bytes, i: Id ensures PairInv(begun, k, i) && Older(AllOps(begun.L, k, i), begun.committed) {
      assert PairInv(s, k, i);
    }
    ChangesKeep(keys, begun, changes, ref);
  }

  /* ---- maintenance ---- */

  /** Two layer stacks that decide a pair alike. */
  lemma SameDecision(L: Layers, M: Layers, k: Bytes, i: Id)
    requires Agreeing(AllOps(L, k, i)) && Agreeing(AllOps(M, k, i))
    requires Newest(AllOps(L, k, i)) == Newest(AllOps(M, k, i))
    requires Has(L.delta, k, i) == Has(M.delta, k, i) && Has(L.removed, k, i) == Has(M.removed, k, i)
    ensures Holds(L, k, i) <==> Holds(M, k, i)
  {
    PersistedIsNewest(L, k, i);
    PersistedIsNewest(M, k, i);
  }

  /** One operation newer than all others decides. */
  lemma NewestAdded(ops: set<VOp>, o: VOp)
    requires Older(ops, o.version)
    ensures Newest(ops + {o}) == Some(o)
    ensures Agreeing(ops) ==> Agreeing(ops + {o})
  {
    assert IsNewest(ops + {o}, Some(o));
  }

  /** Moving the overlay of a pair into a layer at a strictly newer generation. */
  lemma Sealed(s: Sys, t: Sys, k: Bytes, i: Id)
    requires PairInv(s, k, i) && t.committed == s.committed
    requires AllOps(t.L, k, i) == AllOps(s.L, k, i) + FrozenOps(Some(Frozen(s.committed, s.L.delta, s.L.removed)), k, i)
    requires t.L.delta == map[] && t.L.removed == map[]
    ensures PairInv(t, k, i) && (Holds(t.L, k, i) <==> Holds(s.L, k, i))
  {
    var ops := AllOps(s.L, k, i);
    if Has(s.L.delta, k, i) {
      SealedAs(t, k, i, ops, VOp(s.committed, Add));
    } else if Has(s.L.removed, k, i) {
      SealedAs(t, k, i, ops, VOp(s.committed, Delete));
    } else {
      assert AllOps(t.L, k, i) == ops;
      SameDecision(s.L, t.L, k, i);
    }
  }

  lemma SealedAs(t: Sys, k: Bytes, i: Id, ops: set<VOp>, o: VOp)
    requires Agreeing(ops) && Older(ops, o.version) && o.version == t.committed && AllOps(t.L, k, i) == ops + {o}
    requires t.L.delta == map[] && t.L.removed == map[]
    ensures PairInv(t, k, i) && (Holds(t.L, k, i) <==> o.op == Add)
  {
    NewestAdded(ops, o);
    PersistedIsNewest(t.L, k, i);
  }

  lemma FreezeKeeps(keys: iset<Bytes>, s: Sys, t: Sys, ref: IdMap)
    requires Inv(keys, s) && Shows(s.L, ref) && Next(keys, s, Freeze, t)
    ensures Inv(keys, t) && Shows(t.L, ref)
  {
    forall k: Bytes, i: Id ensures PairInv(t, k, i) && (Holds(t.L, k, i) <==> Has(ref, k, i)) {
      assert PairInv(s, k, i);
      Sealed(s, t, k, i);
    }
  }

  lemma ConsolidateKeeps(keys: iset<Bytes>, s: Sys, t: Sys, run: Run, ref: IdMap)
    requires Inv(keys, s) && Shows(s.L, ref) && Next(keys, s, Consolidate(run), t)
    ensures Inv(keys, t) && Shows(t.L, ref)
  {
    forall k: Bytes, i: Id ensures PairInv(t, k, i) && (Holds(t.L, k, i) <==> Has(ref, k, i)) {
      assert PairInv(s, k, i);
      OpsInExtend(s.L.runs, run, PairKey(k, i));
      Sealed(s, t, k, i);
    }
  }

  /** While run and frozen overlay coexist the pair is decided as before. */
  lemma PushKeeps(keys: iset<Bytes>, s: Sys, t: Sys, run: Run, ref: IdMap)
    requires Inv(keys, s) && Shows(s.L, ref) && Next(keys, s, PushRun(run), t)
    ensures Inv(keys, t) && Shows(t.L, ref) && FrozenCovered(t.L)
  {
    var f := s.L.frozen.value;
    forall k: Bytes, i: Id
      ensures PairInv(t, k, i) && (Holds(t.L, k, i) <==> Has(ref, k, i))
      ensures FrozenOps(Some(f), k, i) <= OpsIn(t.L.runs, PairKey(k, i))
    {
      assert PairInv(s, k, i);
      OpsInExtend(s.L.runs, run, PairKey(k, i));
      assert AllOps(t.L, k, i) == AllOps(s.L, k, i);
      SameDecision(s.L, t.L, k, i);
    }
    forall k: Bytes, i: Id | Has(f.delta, k, i) || Has(f.removed, k, i)
      ensures exists o :: o in OpsIn(t.L.runs, PairKey(k, i)) && o.version >= f.generation
    {
      var o := if Has(f.delta, k, i) then VOp(f.generation, Add) else VOp(f.generation, Delete);
      assert o in FrozenOps(Some(f), k, i);
    }
  }

  lemma ClearKeeps(keys: iset<Bytes>, s: Sys, t: Sys, ref: IdMap)
    requires Inv(keys, s) && Shows(s.L, ref) && Next(keys, s, ClearFrozen, t)
    ensures Inv(keys, t) && Shows(t.L, ref)
  {
    forall k: Bytes, i: Id ensures PairInv(t, k, i) && (Holds(t.L, k, i) <==> Has(ref, k, i)) {
      assert PairInv(s, k, i);
      assert AllOps(t.L, k, i) <= AllOps(s.L, k, i);
      assert IsNewest(AllOps(s.L, k, i), Newest(AllOps(t.L, k, i)));
      SameDecision(s.L, t.L, k, i);
    }
  }

  lemma SameRunsSameOps(a: seq<Run>, b: seq<Run>, p: Bytes)
    requires multiset(a) == multiset(b)
    ensures OpsIn(a, p) == OpsIn(b, p)
  {
    forall o ensures o in OpsIn(a, p) <==> o in OpsIn(b, p) {
      if o in OpsIn(a, p) {
        var r, i :| 0 <= r < |a| && 0 <= i < |a[r]| && a[r][i].key == p && a[r][i].vop == o;
        assert a[r] in multiset(b);
        var q :| 0 <= q < |b| && b[q] == a[r];
        assert b[q][i].key == p && b[q][i].vop == o;
      }
      if o in OpsIn(b, p) {
        var r, i :| 0 <= r < |b| && 0 <= i < |b[r]| && b[r][i].key == p && b[r][i].vop == o;
        assert b[r] in multiset(a);
        var q :| 0 <= q < |a| && a[q] == b[r];
        assert a[q][i].key == p && a[q][i].vop == o;
      }
    }
  }

  lemma SameRunsWellFormed(keys: iset<Bytes>, a: seq<Run>, b: seq<Run>)
    requires multiset(a) == multiset(b) && forall r :: 0 <= r < |a| ==> WellFormedRun(keys, a[r])
    ensures forall r :: 0 <= r < |b| ==> WellFormedRun(keys, b[r])
  {
    forall r | 0 <= r < |b| ensures WellFormedRun(keys, b[r]) {
      assert b[r] in multiset(a);
      var q :| 0 <= q < |a| && a[q] == b[r];
    }
  }

  lemma PermuteKeeps(keys: iset<Bytes>, s: Sys, t: Sys, ref: IdMap)
    requires Inv(keys, s) && Shows(s.L, ref) && Next(keys, s, Permute, t)
    ensures Inv(keys, t) && Shows(t.L, ref)
  {
    SameRunsWellFormed(keys, s.L.runs, t.L.runs);
    forall k: Bytes, i: Id ensures PairInv(t, k, i) && (Holds(t.L, k, i) <==> Has(ref, k, i)) {
      assert PairInv(s, k, i);
      SameRunsSameOps(s.L.runs, t.L.runs, PairKey(k, i));
      SameDecision(s.L, t.L, k, i);
    }
  }

  lemma OpsInConcat(a: seq<Run>, b: seq<Run>, p: Bytes)
    ensures OpsIn(a + b, p) == OpsIn(a, p) + OpsIn(b, p)
  {
    if b == [] {
      assert a + b == a;
    } else {
      var c := b[..|b| - 1];
      assert a + b == (a + c) + [b[|b| - 1]] && b == c + [b[|b| - 1]];
      OpsInConcat(a, c, p);
      OpsInExtend(a + c, b[|b| - 1], p);
      OpsInExtend(c, b[|b| - 1], p);
    }
  }

  /** Dropping operations that are not the newest of their part changes no decision. */
  lemma NewestOfParts(rest: set<VOp>, part: set<VOp>, kept: set<VOp>)
    requires kept == match Newest(part) case None => {} case Some(o) => {o}
    ensures Newest(rest + part) == Newest(rest + kept) && rest + kept <= rest + part
  {
    assert IsNewest(rest + part, Newest(rest + kept));
  }

  lemma PromotedPair(s: Sys, t: Sys, k: Bytes, i: Id, rest: set<VOp>, part: set<VOp>, kept: set<VOp>)
    requires PairInv(s, k, i) && t.committed == s.committed && t.L.delta == s.L.delta && t.L.removed == s.L.removed
    requires AllOps(s.L, k, i) == rest + part && AllOps(t.L, k, i) == rest + kept
    requires kept == match Newest(part) case None => {} case Some(o) => {o}
    ensures PairInv(t, k, i) && (Holds(t.L, k, i) <==> Holds(s.L, k, i))
  {
    NewestOfParts(rest, part, kept);
    SameDecision(s.L, t.L, k, i);
  }

  lemma PromotedOps(L: Layers, kept: seq<Run>, selected: seq<Run>, merged: Run, k: Bytes, i: Id)
    requires multiset(L.runs) == multiset(kept + selected) && IsPromotion(selected, merged)
    ensures
      var p := PairKey(k, i);
      var rest := OpsIn(kept, p) + FrozenOps(L.frozen, k, i);
      && AllOps(L, k, i) == rest + OpsIn(selected, p)
      && AllOps(L.(runs := kept + [merged]), k, i) == rest + Latest(selected, p)
  {
    var p := PairKey(k, i);
    SameRunsSameOps(L.runs, kept + selected, p);
    OpsInConcat(kept, selected, p);
    OpsInExtend(kept, merged, p);
  }

  /** Promotion discards superseded operations without reviving an old value. */
  lemma PromoteKeeps(keys: iset<Bytes>, s: Sys, t: Sys, kept: seq<Run>, selected: seq<Run>, merged: Run, ref: IdMap)
    requires Inv(keys, s) && Shows(s.L, ref) && Next(keys, s, Promote(kept, selected, merged), t)
    ensures Inv(keys, t) && Shows(t.L, ref)
  {
    PromotedWellFormed(keys, s.L, kept, selected, merged);
    forall k: Bytes, i: Id ensures PairInv(t, k, i) && (Holds(t.L, k, i) <==> Has(ref, k, i)) {
      assert PairInv(s, k, i);
      var p := PairKey(k, i);
      var rest := OpsIn(kept, p) + FrozenOps(s.L.frozen, k, i);
      PromotedOps(s.L, kept, selected, merged, k, i);
      PromotedPair(s, t, k, i, rest, OpsIn(selected, p), Latest(selected, p));
    }
  }

  lemma PromotedWellFormed(keys: iset<Bytes>, L: Layers, kept: seq<Run>, selected: seq<Run>, merged: Run)
    requires WellFormed(keys, L) && multiset(L.runs) == multiset(kept + selected) && WellFormedRun(keys, merged)
    ensures WellFormed(keys, L.(runs := kept + [merged]))
  {
    SameRunsWellFormed(keys, L.runs, kept + selected);
    assert forall r :: 0 <= r < |kept| ==> kept[r] == (kept + selected)[r];
  }

  /* ---- the theorem ---- */

  lemma StepKeeps(keys: iset<Bytes>, s: Sys, step: Step, t: Sys, ref: IdMap)
    requires Inv(keys, s) && Shows(s.L, ref) && Next(keys, s, step, t)
    ensures Inv(keys, t) && Shows(t.L, RefStep(ref, step))
  {
    match step {
      case Commit(changes) => CommitKeeps(keys, s, changes, ref);
      case Freeze => FreezeKeeps(keys, s, t, ref);
      case PushRun(run) => PushKeeps(keys, s, t, run, ref);
      case ClearFrozen => ClearKeeps(keys, s, t, ref);
      case Consolidate(run) => ConsolidateKeeps(keys, s, t, run, ref);
      case Permute => PermuteKeeps(keys, s, t, ref);
      case Promote(kept, selected, merged) => PromoteKeeps(keys, s, t, kept, selected, merged, ref);
    }
  }

  ghost predicate IsHistory(keys: iset<Bytes>, states: seq<Sys>, steps: seq<Step>) {
    |states| == |steps| + 1 && forall n :: 0 <= n < |steps| ==> Next(keys, states[n], steps[n], states[n + 1])
  }

  function RefAfter(ref: IdMap, steps: seq<Step>): IdMap {
    if steps == [] then ref else RefStep(RefAfter(ref, steps[..|steps| - 1]), steps[|steps| - 1])
  }

  /** In every reachable state of every history the index shows the reference map. */
  lemma {:induction false} HistoryShowsReference(keys: iset<Bytes>, states: seq<Sys>, steps: seq<Step>, ref: IdMap,
                                                 n: nat)
    requires IsHistory(keys, states, steps) && n <= |steps|
    requires Inv(keys, states[0]) && Shows(states[0].L, ref)
    ensures Inv(keys, states[n]) && Shows(states[n].L, RefAfter(ref, steps[..n]))
  {
    if n > 0 {
      HistoryShowsReference(keys, states, steps, ref, n - 1);
      StepKeeps(keys, states[n - 1], steps[n - 1], states[n], RefAfter(ref, steps[..n - 1]));
      assert steps[..n][..n - 1] == steps[..n - 1];
    }
  }

  /** A resident index starts a history. */
  lemma ResidentStarts(keys: iset<Bytes>, m: IdMap, committed: nat)
    requires PrefixFree(keys) && KeysIn(keys, m)
    ensures var s := Sys(Layers([], None, m, map[]), committed); Inv(keys, s) && Shows(s.L, m)
  {
    var L := Layers([], None, m, map[]);
    forall k: Bytes, i: Id ensures AllOps(L, k, i) == {} && (Holds(L, k, i) <==> Has(m, k, i)) {
      assert Newest(OpsIn(L.runs, PairKey(k, i))) == None;
    }
  }

  /** Freezing at a generation a run already uses would break publication: the tombstone
      wins while frozen and loses once it is a run. */
  lemma PublishAtEqualGenerationRevives(key: Bytes, id: Id, gen: nat)
    ensures var pair := PairKey(key, id);
            var prior: Run := [Item(pair, VOp(gen, Add))];
            var run: Run := [Item(pair, VOp(gen, Delete))];
            var frozen := Layers([prior], Some(Frozen(gen, map[], map[key := {id}])), map[], map[]);
            var published := Layers([prior, run], None, map[], map[]);
            !Holds(frozen, key, id) && Holds(published, key, id)
  {
    var pair := PairKey(key, id);
    var prior: Run := [Item(pair, VOp(gen, Add))];
    var run: Run := [Item(pair, VOp(gen, Delete))];
    OpsInExtend([], prior, pair);
    OpsInExtend([prior], run, pair);
    assert [] + [prior] == [prior] && [prior] + [run] == [prior, run];
    assert prior[0].vop in RunOps(prior, pair) && run[0].vop in RunOps(run, pair);
    assert RunOps(prior, pair) == {VOp(gen, Add)} && RunOps(run, pair) == {VOp(gen, Delete)};
    assert IsNewest(OpsIn([prior], pair), Some(VOp(gen, Add)));
    assert IsNewest(OpsIn([prior, run], pair), Some(VOp(gen, Add)));
  }

  /** The keys of an index over `n` columns meet what the index asks of its keys, and every
      sequence of at most `n` complete components is a usable walk prefix. */
  lemma {:induction false} TupleKeysUsable(n: nat, ps: seq<KeyEncoding.Value>)
    requires |ps| <= n && KeyEncoding.SizedTuple(ps)
    ensures PrefixFree(KeyEncoding.TupleKeys(n))
    ensures EndsBetweenComponents(KeyEncoding.TupleKeys(n), KeyEncoding.TupleKey(ps))
  {
    KeyEncoding.TupleKeysPrefixFree(n);
    forall k | k in KeyEncoding.TupleKeys(n) && k <= KeyEncoding.TupleKey(ps) ensures k == KeyEncoding.TupleKey(ps) {
      var vs: seq<KeyEncoding.Value> :| |vs| == n && KeyEncoding.SizedTuple(vs) && KeyEncoding.TupleKey(vs) == k;
      KeyEncoding.TupleNotInside(vs, ps);
    }
  }

  /** What the level compactor writes is a promotion of the runs it read. */
  method Compact(selected: seq<Run>) returns (merged: Run)
    requires forall r :: 0 <= r < |selected| ==> SortedRun(BytesLt, selected[r])
    ensures SortedRun(BytesLt, merged) && IsPromotion(selected, merged)
  {
    BytesOrder();
    merged := MergeLatest(BytesLt, selected);
  }
}
