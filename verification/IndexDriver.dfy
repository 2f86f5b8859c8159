/** A secondary index in use: commits, freezes, publications and compactions drive it, each adds
    a step to its history, and every read is told by the plain map the commits make. */
module IndexDriver {
  import opened Order
  import opened OverlayMerge
  import opened PairCodec
  import opened IndexLayers
  import opened SecondaryIndex
  import opened IndexHistory
  import opened IndexReads

  lemma HistoryGrows(keys: iset<Bytes>, states: seq<Sys>, steps: seq<Step>, step: Step, t: Sys)
    requires IsHistory(keys, states, steps) && Next(keys, states[|steps|], step, t)
    ensures IsHistory(keys, states + [t], steps + [step])
  {
    var more, all := states + [t], steps + [step];
    forall n | 0 <= n < |all| ensures Next(keys, more[n], all[n], more[n + 1]) {
      if n < |steps| { assert Next(keys, states[n], steps[n], states[n + 1]); }
    }
  }

  lemma RefGrows(ref: IdMap, steps: seq<Step>, step: Step)
    ensures RefAfter(ref, steps + [step]) == RefStep(RefAfter(ref, steps), step)
  {
    assert (steps + [step])[..|steps|] == steps;
  }

  /** What a compaction writes holds only keys of what it read. */
  lemma MergedWellFormed(keys: iset<Bytes>, selected: seq<Run>, merged: Run)
    requires forall r :: 0 <= r < |selected| ==> WellFormedRun(keys, selected[r])
    requires SortedRun(BytesLt, merged) && IsPromotion(selected, merged)
    ensures WellFormedRun(keys, merged)
  {
    forall i | 0 <= i < |merged| ensures PairParts(merged[i].key).Ok? && PairParts(merged[i].key).value.0 in keys {
      var p := merged[i].key;
      assert merged[i].vop in RunOps(merged, p);
      assert OpsIn(selected, p) != {};
      var op :| op in OpsIn(selected, p);
      var r, j :| 0 <= r < |selected| && 0 <= j < |selected[r]| && selected[r][j].key == p && selected[r][j].vop == op;
      assert WellFormedRun(keys, selected[r]);
    }
  }

  class LiveIndex {
    const idx: SecIdx
    /** The version of the last commit. */
    var committed: nat
    ghost const ref: IdMap
    ghost var states: seq<Sys>
    ghost var steps: seq<Step>

    /** The object is where its history is. */
    ghost predicate Valid()
      reads this, idx
    {
      && idx.Valid() && StandsAt(idx.keys, idx.Value(), states, steps, ref, |steps|)
      && states[|steps|].committed == committed
    }

    /** The map the commits have made. */
    ghost function Map(): IdMap
      reads this
    {
      RefAfter(ref, steps)
    }

    constructor (m: IdMap, ghost keys: iset<Bytes>)
      requires PrefixFree(keys) && KeysIn(keys, m)
      ensures Valid() && fresh(idx) && idx.keys == keys && Map() == m && committed == 0
    {
      idx := new SecIdx.Resident(m, keys);
      committed, ref, steps := 0, m, [];
      states := [Sys(Layers([], None, m, map[]), 0)];
      ResidentStarts(keys, m, 0);
    }

    /** Add one step that the object has taken. */
    ghost method Note(step: Step, t: Sys)
      requires |states| == |steps| + 1 && StandsAt(idx.keys, states[|steps|].L, states, steps, ref, |steps|)
      requires Next(idx.keys, states[|steps|], step, t)
      modifies this`states, this`steps
      ensures steps == old(steps) + [step] && states == old(states) + [t]
      ensures StandsAt(idx.keys, t.L, states, steps, ref, |steps|) && Map() == RefStep(old(Map()), step)
    {
      HistoryGrows(idx.keys, states, steps, step, t);
      RefGrows(ref, steps, step);
      states, steps := states + [t], steps + [step];
    }

    /** One change inside a commit. */
    method Change(c: Change)
      requires idx.Valid() && c.key in idx.keys
      modifies idx
      ensures idx.Valid() && idx.Value() == ApplyChange(old(idx.Value()), c)
    {
      match c {
        case Put(key, id) => idx.Add(key, id);
        case Drop(key, id, readFails) => idx.Remove(key, id, readFails);
      }
    }

    method ChangeAll(changes: seq<Change>)
      requires idx.Valid() && forall k :: 0 <= k < |changes| ==> changes[k].key in idx.keys
      modifies idx
      ensures idx.Valid() && idx.Value() == ApplyChanges(old(idx.Value()), changes)
    {
      ghost var before := idx.Value();
      for i := 0 to |changes|
        invariant idx.Valid() && ApplyChanges(before, changes) == ApplyChanges(idx.Value(), changes[i..])
      {
        assert changes[i..][0] == changes[i] && changes[i..][1..] == changes[i + 1..];
        Change(changes[i]);
      }
    }

    /** A commit takes effect on the map as a whole, in the order of its changes. */
    method Commit(changes: seq<Change>)
      requires Valid() && forall k :: 0 <= k < |changes| ==> changes[k].key in idx.keys
      modifies this, idx
      ensures Valid() && committed == old(committed) + 1 && Map() == RefChanges(old(Map()), changes)
    {
      ChangeAll(changes);
      committed := committed + 1;
      Note(IndexHistory.Commit(changes), Sys(idx.Value(), committed));
    }

    /** Freezing changes nothing that can be read. */
    method Freeze() returns (f: FrozenSecDelta?)
      requires Valid()
      modifies this, idx
      ensures Valid() && committed == old(committed) && Map() == old(Map())
      ensures f != null ==> idx.frozen == f
    {
      f := idx.FreezeDelta(committed);
      if f != null { Note(IndexHistory.Freeze, Sys(idx.Value(), committed)); }
    }

    /** Nor does adopting the run written from the frozen overlay, which is first read beside it
        and then instead of it. */
    method Publish(f: FrozenSecDelta, run: Run) returns (ok: bool)
      requires Valid() && IsRunOf(idx.keys, run, Frozen(f.generation, f.delta, f.removed))
      modifies this, idx
      ensures Valid() && committed == old(committed) && Map() == old(Map()) && (ok <==> old(idx.frozen) == f)
    {
      ghost var s := states[|steps|];
      ghost var beside := s.(L := s.L.(runs := s.L.runs + [run]));
      HistoryShowsReference(idx.keys, states, steps, ref, |steps|);
      assert steps[..|steps|] == steps;
      ok := idx.Publish(f, run);
      if ok {
        PushKeeps(idx.keys, s, beside, run, Map());
        Note(PushRun(run), beside);
        Note(IndexHistory.ClearFrozen, Sys(idx.Value(), committed));
      }
    }

    /** Nor does a compaction of some of the runs. */
    method Promote(kept: seq<Run>, selected: seq<Run>)
      requires Valid() && multiset(idx.runs) == multiset(kept + selected)
      modifies this, idx
      ensures Valid() && committed == old(committed) && Map() == old(Map())
    {
      RunsKept(idx.keys, idx.runs, kept, selected);
      var merged := Compact(selected);
      MergedWellFormed(idx.keys, selected, merged);
      ghost var s := states[|steps|];
      idx.runs := kept + [merged];
      Note(IndexHistory.Promote(kept, selected, merged), s.(L := s.L.(runs := kept + [merged])));
    }

    /** The first ids the map holds for a key past the resume id. */
    method Ids(key: Bytes, after: Option<Id>, limit: nat) returns (r: Result<seq<Bytes>>)
      requires Valid() && key in idx.keys
      ensures r.Ok? && var m := Map(); IsBatch(BytesLt, x => InMap(m, key, after, x), limit, r.value)
    {
      assert steps[..|steps|] == steps;
      r := ReadIds(idx, key, after, limit, states, steps, ref, |steps|);
    }

    /** The first pairs the map holds under a prefix past the resume pair, in tuple order. */
    method Pairs(prefix: Bytes, after: Option<Bytes>, limit: nat) returns (r: Result<seq<(Bytes, Id)>>)
      requires Valid() && EndsBetweenComponents(idx.keys, prefix)
      ensures r.Ok? && forall i, j :: 0 <= i < j < |r.value| ==> TupleBefore(r.value[i], r.value[j])
      ensures var m := Map(); IsBatch(BytesLt, p => PairInMap(m, prefix, after, p), limit, PairsOf(r.value))
    {
      assert steps[..|steps|] == steps;
      r := ReadPairs(idx, prefix, after, limit, states, steps, ref, |steps|);
    }

    /** All ids the map holds for a key. */
    method AllIds(key: Bytes, chunk: nat) returns (all: seq<Bytes>)
      requires Valid() && key in idx.keys && chunk > 0
      ensures Ascending(BytesLt, all) && forall x: Bytes :: x in all <==> ValidUtf8(x) && Has(Map(), key, x)
    {
      assert steps[..|steps|] == steps;
      all := ReadAll(idx, key, chunk, states, steps, ref, |steps|);
    }
  }

  lemma RunsKept(keys: iset<Bytes>, runs: seq<Run>, kept: seq<Run>, selected: seq<Run>)
    requires multiset(runs) == multiset(kept + selected)
    requires forall r :: 0 <= r < |runs| ==> WellFormedRun(keys, runs[r])
    ensures forall r :: 0 <= r < |kept| ==> WellFormedRun(keys, kept[r])
    ensures forall r :: 0 <= r < |selected| ==> WellFormedRun(keys, selected[r])
  {
    forall run | run in kept + selected ensures WellFormedRun(keys, run) {
      assert run in multiset(kept + selected);
      assert run in runs;
    }
    assert forall r :: 0 <= r < |kept| ==> kept[r] in kept + selected;
    assert forall r :: 0 <= r < |selected| ==> selected[r] in kept + selected;
  }
}
