/** The secondary index object: readers merge its layers, commits update the mutable
    overlay, background maintenance freezes and publishes it. */
module SecondaryIndex {
  import opened Order
  import opened OverlayMerge
  import opened PairCodec
  import opened IndexLayers

  /* ---- streams of one key ---- */

  ghost predicate IdStream(s: seq<Item<Bytes>>) {
    SortedRun(BytesLt, s) && forall i :: 0 <= i < |s| ==> ValidUtf8(s[i].key)
  }

  /** The entries of one run for `key` past `after`, as ids. */
  method RunIds(run: Run, ghost keys: iset<Bytes>, key: Bytes, after: Option<Id>) returns (r: Result<seq<Item<Bytes>>>)
    requires PrefixFree(keys) && WellFormedRun(keys, run) && key in keys
    ensures r.Ok? && IdStream(r.value)
    ensures forall x: Id :: RunOps(r.value, x) == if Past(after, x) then RunOps(run, PairKey(key, x)) else {}
  {
    var prefix := PairPrefix(key);
    var bound := if after.Some? then Some(PairKey(key, after.value)) else None;
    var found, lo := ScanPrefix(run, prefix, bound);
    forall i | 0 <= i < |found| ensures UnderKey(keys, key, found[i].key) {
      assert found[i] == run[lo + i] && Hit(run, prefix, bound, lo + i);
    }
    r := StripAll(found, keys, key);
    ghost var items := r.value;
    IdsSorted(run, found, lo, key, items);
    forall x: Id ensures RunOps(items, x) == if Past(after, x) then RunOps(run, PairKey(key, x)) else {} {
      RunIdsOps(run, found, lo, key, after, items, x);
    }
  }

  /** A pair of a known key that starts with the prefix of `key`. */
  ghost predicate UnderKey(keys: iset<Bytes>, key: Bytes, pair: Bytes) {
    PairParts(pair).Ok? && PairParts(pair).value.0 in keys && PairPrefix(key) <= pair
  }

  /** The ids of run entries under one key. */
  method StripAll(found: Run, ghost keys: iset<Bytes>, key: Bytes) returns (r: Result<seq<Item<Bytes>>>)
    requires PrefixFree(keys) && key in keys && forall i :: 0 <= i < |found| ==> UnderKey(keys, key, found[i].key)
    ensures r.Ok? && |r.value| == |found| && forall j :: 0 <= j < |found| ==> Stripped(key, r.value[j], found[j])
  {
    var prefix := PairPrefix(key);
    var items: seq<Item<Bytes>> := [];
    for i := 0 to |found|
      invariant |items| == i && forall j :: 0 <= j < i ==> Stripped(key, items[j], found[j])
    {
      assert UnderKey(keys, key, found[i].key);
      StripPrefix(keys, key, found[i].key);
      if !(prefix <= found[i].key) { return Corrupt("secondary index: invalid pair prefix"); }
      var id := found[i].key[|prefix|..];
      if !ValidUtf8(id) { return Corrupt("secondary index: invalid id utf8"); }
      items := items + [Item(id, found[i].vop)];
    }
    r := Ok(items);
  }

  /** A run entry without the part that names the key. */
  ghost predicate Stripped(key: Bytes, item: Item<Bytes>, entry: Item<Bytes>) {
    ValidUtf8(item.key) && PairKey(key, item.key) == entry.key && item.vop == entry.vop
  }

  lemma IdsSorted(run: Run, found: Run, lo: nat, key: Bytes, items: seq<Item<Bytes>>)
    requires SortedRun(BytesLt, run) && lo + |found| <= |run| && |items| == |found|
    requires forall j :: 0 <= j < |found| ==> found[j] == run[lo + j]
    requires forall j :: 0 <= j < |items| ==> Stripped(key, items[j], found[j])
    ensures IdStream(items)
  {
    forall i, j | 0 <= i < j < |items| ensures !BytesLt(items[j].key, items[i].key) {
      assert Stripped(key, items[i], found[i]) && Stripped(key, items[j], found[j]);
      assert !BytesLt(run[lo + j].key, run[lo + i].key);
      LtSharedHead(PairPrefix(key), items[j].key, items[i].key);
    }
  }

  lemma StripPrefix(keys: iset<Bytes>, key: Bytes, pair: Bytes)
    requires PrefixFree(keys) && key in keys
    requires PairParts(pair).Ok? && PairParts(pair).value.0 in keys && PairPrefix(key) <= pair
    ensures ValidUtf8(pair[|PairPrefix(key)|..]) && PairKey(key, pair[|PairPrefix(key)|..]) == pair
  {
    var (k, id) := PairParts(pair).value;
    PairPartsInverse(pair);
    PairIsolation(keys, key, k, id);
    assert pair[|PairPrefix(key)|..] == id;
  }

  lemma RunIdsOps(run: Run, found: Run, lo: nat, key: Bytes, after: Option<Id>, items: seq<Item<Bytes>>, x: Id)
    requires lo + |found| <= |run| && |items| == |found| && forall j :: 0 <= j < |found| ==> found[j] == run[lo + j]
    requires var bound := if after.Some? then Some(PairKey(key, after.value)) else None;
             forall i :: 0 <= i < |run| ==> (lo <= i < lo + |found| <==> Hit(run, PairPrefix(key), bound, i))
    requires forall j :: 0 <= j < |items| ==> Stripped(key, items[j], found[j])
    ensures RunOps(items, x) == if Past(after, x) then RunOps(run, PairKey(key, x)) else {}
  {
    var pair := PairKey(key, x);
    if after.Some? { LtSharedHead(PairPrefix(key), after.value, x); }
    forall o | o in RunOps(items, x) ensures o in RunOps(run, pair) && Past(after, x) {
      var j :| 0 <= j < |items| && items[j].key == x && items[j].vop == o;
      assert run[lo + j] == found[j];
      assert Hit(run, PairPrefix(key), if after.Some? then Some(PairKey(key, after.value)) else None, lo + j);
      assert run[lo + j].key == pair && run[lo + j].vop == o;
    }
    if Past(after, x) {
      forall o | o in RunOps(run, pair) ensures o in RunOps(items, x) {
        var i :| 0 <= i < |run| && run[i].key == pair && run[i].vop == o;
        assert PairPrefix(key) <= pair
          && Hit(run, PairPrefix(key), if after.Some? then Some(PairKey(key, after.value)) else None, i);
        var j := i - lo;
        assert found[j] == run[i];
        assert PairKey(key, items[j].key) == pair;
        assert items[j].key == pair[|PairPrefix(key)|..] == x;
      }
    }
  }

  /** The streams of every run that may hold `key`. */
  method RunStreams(runs: seq<Run>, ghost keys: iset<Bytes>, key: Bytes, after: Option<Id>)
      returns (r: Result<seq<seq<Item<Bytes>>>>)
    requires PrefixFree(keys) && key in keys && forall r :: 0 <= r < |runs| ==> WellFormedRun(keys, runs[r])
    ensures r.Ok? && forall s :: 0 <= s < |r.value| ==> IdStream(r.value[s])
    ensures forall x: Id :: OpsIn(r.value, x) == if Past(after, x) then OpsIn(runs, PairKey(key, x)) else {}
  {
    var streams: seq<seq<Item<Bytes>>> := [];
    for c := 0 to |runs|
      invariant forall s :: 0 <= s < |streams| ==> IdStream(streams[s])
      invariant forall x: Id :: OpsIn(streams, x) == if Past(after, x) then OpsIn(runs[..c], PairKey(key, x)) else {}
    {
      assert runs[..c + 1] == runs[..c] + [runs[c]];
      ghost var before := streams;
      if MayContainPrefix(runs[c], PairPrefix(key)) {
        var s := RunIds(runs[c], keys, key, after);
        match s {
          case Corrupt(message) => return Corrupt(message);
          case Ok(items) =>
            streams := streams + [items];
            forall x: Id
              ensures OpsIn(streams, x) == if Past(after, x) then OpsIn(runs[..c + 1], PairKey(key, x)) else {}
            {
              OpsInExtend(before, items, x);
              OpsInExtend(runs[..c], runs[c], PairKey(key, x));
            }
        }
      } else {
        forall x: Id ensures OpsIn(runs[..c + 1], PairKey(key, x)) == OpsIn(runs[..c], PairKey(key, x)) {
          OpsInExtend(runs[..c], runs[c], PairKey(key, x));
          forall i | 0 <= i < |runs[c]| ensures runs[c][i].key != PairKey(key, x) {
            if runs[c][i].key == PairKey(key, x) { MayContainSound(runs[c], PairPrefix(key), i); }
          }
        }
      }
    }
    assert runs[..|runs|] == runs;
    r := Ok(streams);
  }

  method IdsOf(m: IdMap, key: Bytes, after: Option<Id>) returns (s: seq<Bytes>)
    ensures Ascending(BytesLt, s)
    ensures forall x :: x in s <==> Has(m, key, x) && Past(after, x)
  {
    s := AscendingAfter(if key in m then m[key] else {}, after);
  }

  /** Drop one id of a key, and the key with its last id. */
  method DropId(m: IdMap, key: Bytes, id: Id) returns (r: IdMap)
    ensures r == Without(m, key, id)
  {
    r := m;
    if key in m {
      var ids := m[key] - {id};
      if ids == {} { r := m - {key}; } else { r := m[key := ids]; }
    }
  }

  method PutId(m: IdMap, key: Bytes, id: Id) returns (r: IdMap)
    ensures r == With(m, key, id)
  {
    r := m[key := (if key in m then m[key] else {}) + {id}];
  }

  /* ---- the index object ---- */

  /** Overlay handed to the background writer. It never changes once built and is
      recognised by identity, like the `Arc` it models. */
  class FrozenSecDelta {
    const generation: nat
    const delta: IdMap
    const removed: IdMap

    constructor (generation: nat, delta: IdMap, removed: IdMap)
      ensures this.generation == generation && this.delta == delta && this.removed == removed
    {
      this.generation, this.delta, this.removed := generation, delta, removed;
    }
  }

  /** The ids an equality lookup must return: visible under the key and past the resume
      point. */
  ghost predicate Wanted(L: Layers, key: Bytes, after: Option<Id>, x: Bytes) {
    ValidUtf8(x) && Past(after, x) && Holds(L, key, x)
  }

  /** The pairs an ordered walk must return. */
  ghost predicate WantedPair(L: Layers, prefix: Bytes, after: Option<Bytes>, p: Bytes) {
    PairParts(p).Ok? && prefix <= PairParts(p).value.0 && Past(after, p)
    && Holds(L, PairParts(p).value.0, PairParts(p).value.1)
  }

  class SecIdx {
    var generation: nat
    var runs: seq<Run>
    var delta: IdMap
    var removed: IdMap
    var frozen: FrozenSecDelta?
    /** The keys the indexed columns can produce. */
    ghost const keys: iset<Bytes>

    ghost function Value(): Layers
      reads this
    {
      Layers(runs, if frozen == null then None else Some(Frozen(frozen.generation, frozen.delta, frozen.removed)),
             delta, removed)
    }

    ghost predicate Valid()
      reads this
    {
      WellFormed(keys, Value()) && Disjoint(delta, removed)
    }

    constructor Resident(map0: IdMap, ghost keys: iset<Bytes>)
      requires PrefixFree(keys) && KeysIn(keys, map0)
      ensures Valid() && this.keys == keys
      ensures Value() == Layers([], None, map0, map[])
    {
      generation, runs, delta, removed, frozen := 0, [], map0, map[], null;
      this.keys := keys;
    }

    constructor PagedRuns(generation: nat, runs: seq<Run>, ghost keys: iset<Bytes>)
      requires PrefixFree(keys) && forall r :: 0 <= r < |runs| ==> WellFormedRun(keys, runs[r])
      ensures Valid() && this.keys == keys
      ensures Value() == Layers(runs, None, map[], map[])
    {
      this.generation, this.runs, delta, removed, frozen := generation, runs, map[], map[], null;
      this.keys := keys;
    }

    method PersistedPair(key: Bytes, id: Id) returns (b: bool)
      ensures b <==> IsAdd(Persisted(Value(), key, id))
    {
      var newest: Option<VOp> := None;
      var pair := PairKey(key, id);
      for c := 0 to |runs|
        invariant IsNewest(OpsIn(runs[..c], pair), newest)
      {
        ghost var seen := OpsIn(runs[..c], pair);
        for i := 0 to |runs[c]|
          invariant IsNewest(seen + RunOps(runs[c][..i], pair), newest)
        {
          var entry := runs[c][i];
          assert RunOps(runs[c][..i + 1], pair)
                 == RunOps(runs[c][..i], pair) + if entry.key == pair then {entry.vop} else {} by {
            RunOpsExtend(runs[c], i, pair);
          }
          if entry.key == pair && (newest.None? || Newer(entry.vop, newest.value)) { newest := Some(entry.vop); }
        }
        assert runs[c][..|runs[c]|] == runs[c];
        OpsInExtend(runs[..c], runs[c], pair);
        assert runs[..c] + [runs[c]] == runs[..c + 1];
      }
      assert runs[..|runs|] == runs;
      if frozen != null {
        if Has(frozen.delta, key, id) && (newest.None? || frozen.generation > newest.value.version) {
          newest := Some(VOp(frozen.generation, Op.Add));
        }
        if Has(frozen.removed, key, id)
           && (newest.None? || frozen.generation > newest.value.version || frozen.generation == newest.value.version) {
          newest := Some(VOp(frozen.generation, Op.Delete));
        }
      }
      b := IsAdd(newest);
    }

    method ContainsPair(key: Bytes, id: Id) returns (b: bool)
      ensures b <==> Holds(Value(), key, id)
    {
      if Has(removed, key, id) { return false; }
      if Has(delta, key, id) { return true; }
      b := PersistedPair(key, id);
    }

    /** The first `limit` ids of `key` above `after`. */
    method IdsBatchInto(key: Bytes, after: Option<Id>, limit: nat) returns (r: Result<seq<Bytes>>)
      requires Valid() && key in keys
      ensures r.Ok?
      ensures var L := Value(); IsBatch(BytesLt, x => Wanted(L, key, after, x), limit, r.value)
    {
      ghost var L := Value();
      if limit == 0 { return Ok([]); }
      var streams := RunStreams(runs, keys, key, after);
      match streams {
        case Corrupt(message) => return Corrupt(message);
        case Ok(items) =>
          var added := IdsOf(delta, key, after);
          var gone := IdsOf(removed, key, after);
          var gen, fa, fr := 0, [], [];
          if frozen != null {
            gen := frozen.generation;
            fa := IdsOf(frozen.delta, key, after);
            fr := IdsOf(frozen.removed, key, after);
          }
          var o := Overlay(gen, fa, fr, added, gone);
          BytesOrder();
          var out := Merge(BytesLt, items, o, limit);
          forall x ensures Live(items, o, x) <==> Wanted(L, key, after, x) {
            if ValidUtf8(x) { LiveIsWanted(L, key, after, items, o, x); } else { NoStream(items, x); }
          }
          r := Ok(out);
      }
    }

    /** Page through a key `chunk` ids at a time, resuming after the last id seen, until a
        batch comes back short. */
    method PageThrough(key: Bytes, chunk: nat) returns (all: seq<Bytes>)
      requires Valid() && key in keys && chunk > 0
      ensures Ascending(BytesLt, all)
      ensures forall x: Bytes :: x in all <==> ValidUtf8(x) && Holds(Value(), key, x)
    {
      ghost var L := Value();
      all := [];
      var cursor: Option<Id> := None;
      while true
        invariant all == [] ==> cursor == None
        invariant all != [] ==> cursor == Some(all[|all| - 1])
        invariant Paged(L, key, all)
        decreases Unpaged(L, key, all)
      {
        var batch := IdsBatchInto(key, cursor, chunk);
        PageStep(L, key, all, cursor, chunk, batch.value);
        all := all + batch.value;
        if |batch.value| < chunk { break; }
        cursor := Some(all[|all| - 1]);
      }
    }

    /** The in-memory overlays as ordered pair streams. */
    method PairOverlay(prefix: Bytes, after: Option<Bytes>) returns (o: Overlay<Bytes>)
      requires Valid()
      ensures IsPairOverlay(Value(), prefix, after, o)
    {
      var added := PairStream(delta, keys, prefix, after);
      var gone := PairStream(removed, keys, prefix, after);
      o := Overlay(0, [], [], added, gone);
      if frozen != null {
        var fa := PairStream(frozen.delta, keys, prefix, after);
        var fr := PairStream(frozen.removed, keys, prefix, after);
        o := Overlay(frozen.generation, fa, fr, added, gone);
      }
    }

    /** The first `limit` live pairs under a tuple prefix, still encoded. */
    method MergedPairs(prefix: Bytes, after: Option<Bytes>, limit: nat) returns (pairs: seq<Bytes>)
      requires Valid() && EndsBetweenComponents(keys, prefix)
      ensures var L := Value(); IsBatch(BytesLt, p => WantedPair(L, prefix, after, p), limit, pairs)
    {
      ghost var L := Value();
      var streams := OrderedStreams(runs, keys, [ENTRY_TAG] + prefix, after);
      var o := PairOverlay(prefix, after);
      BytesOrder();
      pairs := Merge(BytesLt, streams, o, limit);
      BatchOfPairs(keys, L, prefix, after, streams, o, limit, pairs);
    }

    /** The first `limit` live pairs under a tuple prefix and past the resume pair. */
    method OrderedEntriesInto(prefix: Bytes, after: Option<Bytes>, limit: nat) returns (r: Result<seq<(Bytes, Id)>>)
      requires Valid() && EndsBetweenComponents(keys, prefix)
      ensures r.Ok?
      ensures var L := Value(); IsBatch(BytesLt, p => WantedPair(L, prefix, after, p), limit, PairsOf(r.value))
      ensures forall i, j :: 0 <= i < j < |r.value| ==> TupleBefore(r.value[i], r.value[j])
    {
      if limit == 0 { return Ok([]); }
      ghost var L := Value();
      var pairs := MergedPairs(prefix, after, limit);
      assert forall i :: 0 <= i < |pairs| ==> WantedPair(L, prefix, after, pairs[i]) && PairParts(pairs[i]).Ok?;
      r := Decode(pairs);
      WalkOrder(keys, L, prefix, after, r.value);
    }

    method Add(key: Bytes, id: Id)
      requires Valid() && key in keys
      modifies this
      ensures Valid() && Disjoint(delta, removed) && generation == old(generation) && frozen == old(frozen)
      ensures Value() == AddOp(old(Value()), key, id)
    {
      AddWellFormed(keys, Value(), key, id);
      AddDisjoint(delta, removed, key, id);
      removed := DropId(removed, key, id);
      delta := PutId(delta, key, id);
    }

    /** `readFails` stands for a run that could not be read: the tombstone is kept. */
    method Remove(key: Bytes, id: Id, readFails: bool)
      requires Valid() && key in keys
      modifies this
      ensures Valid() && Disjoint(delta, removed) && generation == old(generation) && frozen == old(frozen)
      ensures Value() == RemoveOp(old(Value()), key, id, readFails)
    {
      RemoveWellFormed(keys, Value(), key, id, readFails);
      RemoveDisjoint(delta, removed, key, id);
      delta := DropId(delta, key, id);
      if runs != [] || frozen != null {
        var persisted := PersistedPair(key, id);
        assert Persisted(Value(), key, id) == Persisted(old(Value()), key, id);
        if readFails || persisted { removed := PutId(removed, key, id); }
      }
    }

    method FreezeDelta(generation: nat) returns (f: FrozenSecDelta?)
      requires Valid()
      modifies this
      ensures Valid() && this.generation == old(this.generation)
      ensures f != null <==> old(frozen == null && !(delta == map[] && removed == map[]))
      ensures f != null ==> fresh(f) && frozen == f && Value() == FreezeOp(old(Value()), generation)
      ensures f == null ==> frozen == old(frozen) && Value() == old(Value())
    {
      if frozen != null || (delta == map[] && removed == map[]) { return null; }
      f := new FrozenSecDelta(generation, delta, removed);
      delta, removed := map[], map[];
      frozen := f;
    }

    method ClearFrozen(f: FrozenSecDelta)
      requires Valid()
      modifies this
      ensures Valid() && this.generation == old(this.generation)
      ensures frozen == if old(frozen) == f then null else old(frozen)
      ensures Value() == if old(frozen) == f then old(Value()).(frozen := None) else old(Value())
    {
      if frozen == f { frozen := null; }
    }

    /** Adopt the run written from the frozen overlay `f`; a stale overlay is refused. */
    method Publish(f: FrozenSecDelta, run: Run) returns (ok: bool)
      requires Valid() && IsRunOf(keys, run, Frozen(f.generation, f.delta, f.removed))
      modifies this
      ensures Valid() && (ok <==> old(frozen) == f)
      ensures ok ==> Value() == old(Value()).(runs := old(runs) + [run], frozen := None) && generation == f.generation
      ensures !ok ==> Value() == old(Value()) && generation == old(generation)
    {
      if frozen != f { return false; }
      runs := runs + [run];
      generation := f.generation;
      ClearFrozen(f);
      ok := true;
    }
  }

  /* ---- what the mutations do to the layers ---- */

  function AddOp(L: Layers, key: Bytes, id: Id): Layers {
    L.(delta := With(L.delta, key, id), removed := Without(L.removed, key, id))
  }

  /** A removal leaves a tombstone only where a published generation still offers the
      pair, or where that could not be read. */
  ghost function RemoveOp(L: Layers, key: Bytes, id: Id, readFails: bool): Layers {
    var hidden := (L.runs != [] || L.frozen.Some?) && (readFails || IsAdd(Persisted(L, key, id)));
    L.(delta := Without(L.delta, key, id), removed := if hidden then With(L.removed, key, id) else L.removed)
  }

  function FreezeOp(L: Layers, generation: nat): Layers {
    L.(frozen := Some(Frozen(generation, L.delta, L.removed)), delta := map[], removed := map[])
  }

  lemma AddWellFormed(keys: iset<Bytes>, L: Layers, key: Bytes, id: Id)
    requires WellFormed(keys, L) && key in keys
    ensures WellFormed(keys, AddOp(L, key, id))
  {
    assert KeysIn(keys, With(L.delta, key, id)) && KeysIn(keys, Without(L.removed, key, id));
  }

  lemma AddDisjoint(delta: IdMap, removed: IdMap, key: Bytes, id: Id)
    requires Disjoint(delta, removed)
    ensures Disjoint(With(delta, key, id), Without(removed, key, id))
  {
    forall k, i ensures !(Has(With(delta, key, id), k, i) && Has(Without(removed, key, id), k, i)) {
      HasUpdated(delta, key, id, k, i);
      HasUpdated(removed, key, id, k, i);
    }
  }

  /** With or without the tombstone. */
  lemma RemoveDisjoint(delta: IdMap, removed: IdMap, key: Bytes, id: Id)
    requires Disjoint(delta, removed)
    ensures Disjoint(Without(delta, key, id), With(removed, key, id)) && Disjoint(Without(delta, key, id), removed)
  {
    forall k, i
      ensures !(Has(Without(delta, key, id), k, i) && Has(With(removed, key, id), k, i))
      ensures !(Has(Without(delta, key, id), k, i) && Has(removed, k, i))
    {
      HasUpdated(delta, key, id, k, i);
      HasUpdated(removed, key, id, k, i);
    }
  }

  lemma RemoveWellFormed(keys: iset<Bytes>, L: Layers, key: Bytes, id: Id, readFails: bool)
    requires WellFormed(keys, L) && key in keys
    ensures WellFormed(keys, RemoveOp(L, key, id, readFails))
  {
    assert KeysIn(keys, With(L.removed, key, id)) && KeysIn(keys, Without(L.delta, key, id));
  }

  lemma AddVisible(L: Layers, key: Bytes, id: Id, k: Bytes, i: Id)
    ensures Holds(AddOp(L, key, id), k, i) <==> (k == key && i == id) || Holds(L, k, i)
  {
    HasUpdated(L.delta, key, id, k, i);
    HasUpdated(L.removed, key, id, k, i);
    assert Persisted(AddOp(L, key, id), k, i) == Persisted(L, k, i);
  }

  /** Skipping the tombstone of an unpublished pair hides it all the same. */
  lemma RemoveVisible(L: Layers, key: Bytes, id: Id, readFails: bool, k: Bytes, i: Id)
    ensures Holds(RemoveOp(L, key, id, readFails), k, i) <==> !(k == key && i == id) && Holds(L, k, i)
  {
    HasUpdated(L.delta, key, id, k, i);
    HasUpdated(L.removed, key, id, k, i);
    assert Persisted(RemoveOp(L, key, id, readFails), k, i) == Persisted(L, k, i);
    if L.runs == [] && L.frozen.None? { assert Newest(OpsIn(L.runs, PairKey(key, id))) == None; }
  }

  /* ---- the ordered walk ---- */

  /** No key ends strictly inside `prefix`; true of every sequence of complete tuple
      components no longer than the tuple. */
  ghost predicate EndsBetweenComponents(keys: iset<Bytes>, prefix: Bytes) {
    forall k :: k in keys && k <= prefix ==> k == prefix
  }

  predicate TupleBefore(a: (Bytes, Id), b: (Bytes, Id)) {
    Lt(a.0, b.0) || (a.0 == b.0 && Lt(a.1, b.1))
  }

  /** Key first, id second is a strict total order of pairs. */
  lemma TupleOrderIsTotal(a: (Bytes, Id), b: (Bytes, Id), c: (Bytes, Id))
    ensures !TupleBefore(a, a) && (a == b || TupleBefore(a, b) || TupleBefore(b, a))
    ensures TupleBefore(a, b) && TupleBefore(b, c) ==> TupleBefore(a, c)
    ensures Lt(a.0, b.0) ==> TupleBefore(a, b)
  {
    LtIrreflexive(a.0);
    LtIrreflexive(a.1);
    LtTotal(a.0, b.0);
    LtTotal(a.1, b.1);
    if Lt(a.0, b.0) && Lt(b.0, c.0) { LtTransitive(a.0, b.0, c.0); }
    if Lt(a.1, b.1) && Lt(b.1, c.1) { LtTransitive(a.1, b.1, c.1); }
  }

  function PairsOf(entries: seq<(Bytes, Id)>): seq<Bytes> {
    seq(|entries|, i requires 0 <= i < |entries| => PairKey(entries[i].0, entries[i].1))
  }

  ghost predicate IsPairOverlay(L: Layers, prefix: Bytes, after: Option<Bytes>, o: Overlay<Bytes>) {
    && IsPairStream(L.delta, prefix, after, o.added) && IsPairStream(L.removed, prefix, after, o.removed)
    && match L.frozen
       case None => o.frozenAdded == [] && o.frozenRemoved == []
       case Some(f) => (
         && o.gen == f.generation
         && IsPairStream(f.delta, prefix, after, o.frozenAdded)
         && IsPairStream(f.removed, prefix, after, o.frozenRemoved))
  }

  method OrderedStreams(runs: seq<Run>, ghost keys: iset<Bytes>, physical: Bytes, after: Option<Bytes>)
      returns (streams: seq<Run>)
    requires physical != [] && physical[0] == ENTRY_TAG && forall r :: 0 <= r < |runs| ==> WellFormedRun(keys, runs[r])
    ensures forall s :: 0 <= s < |streams| ==> SortedRun(BytesLt, streams[s])
    ensures forall p :: OpsIn(streams, p) == if physical <= p && Past(after, p) then OpsIn(runs, p) else {}
  {
    streams := [];
    for c := 0 to |runs|
      invariant forall s :: 0 <= s < |streams| ==> SortedRun(BytesLt, streams[s])
      invariant forall p :: OpsIn(streams, p) == if physical <= p && Past(after, p) then OpsIn(runs[..c], p) else {}
    {
      assert runs[..c + 1] == runs[..c] + [runs[c]];
      var admitted, found := PairsUnder(runs[c], keys, physical, after);
      forall p ensures OpsIn(runs[..c + 1], p) == OpsIn(runs[..c], p) + RunOps(runs[c], p) {
        OpsInExtend(runs[..c], runs[c], p);
      }
      if admitted {
        forall p ensures OpsIn(streams + [found], p) == OpsIn(streams, p) + RunOps(found, p) {
          OpsInExtend(streams, found, p);
        }
        streams := streams + [found];
      }
    }
    assert runs[..|runs|] == runs;
  }

  /** The cursor of one run, unless its key range rules the prefix out. */
  method PairsUnder(run: Run, ghost keys: iset<Bytes>, physical: Bytes, after: Option<Bytes>)
      returns (admitted: bool, found: Run)
    requires physical != [] && physical[0] == ENTRY_TAG && WellFormedRun(keys, run)
    ensures SortedRun(BytesLt, found)
    ensures forall p :: RunOps(found, p) == if physical <= p && Past(after, p) then RunOps(run, p) else {}
    ensures !admitted ==> found == []
  {
    admitted := MayContainPrefix(run, physical);
    found := [];
    if admitted {
      ghost var lo;
      found, lo := ScanPrefix(run, physical, after);
      forall i, j | 0 <= i < j < |found| ensures !BytesLt(found[j].key, found[i].key) {
        assert found[i] == run[lo + i] && found[j] == run[lo + j];
      }
      forall p ensures RunOps(found, p) == if physical <= p && Past(after, p) then RunOps(run, p) else {} {
        ScanOps(run, found, lo, physical, after, p);
      }
    } else {
      forall p | physical <= p ensures RunOps(run, p) == {} {
        forall i | 0 <= i < |run| ensures run[i].key != p {
          if run[i].key == p { MayContainSound(run, physical, i); }
        }
      }
    }
  }

  lemma ScanOps(run: Run, found: Run, lo: nat, prefix: Bytes, after: Option<Bytes>, p: Bytes)
    requires lo + |found| <= |run| && forall j :: 0 <= j < |found| ==> found[j] == run[lo + j]
    requires forall i :: 0 <= i < |run| ==> (lo <= i < lo + |found| <==> Hit(run, prefix, after, i))
    ensures RunOps(found, p) == if prefix <= p && Past(after, p) then RunOps(run, p) else {}
  {
    forall o | o in RunOps(found, p) ensures o in RunOps(run, p) && prefix <= p && Past(after, p) {
      var j :| 0 <= j < |found| && found[j].key == p && found[j].vop == o;
      assert run[lo + j] == found[j] && Hit(run, prefix, after, lo + j);
    }
    if prefix <= p && Past(after, p) {
      forall o | o in RunOps(run, p) ensures o in RunOps(found, p) {
        var i :| 0 <= i < |run| && run[i].key == p && run[i].vop == o;
        assert Hit(run, prefix, after, i) && found[i - lo] == run[i];
      }
    }
  }

  method Decode(pairs: seq<Bytes>) returns (r: Result<seq<(Bytes, Id)>>)
    ensures r.Ok? ==> PairsOf(r.value) == pairs
    ensures r.Corrupt? ==> exists i :: 0 <= i < |pairs| && PairParts(pairs[i]).Corrupt?
  {
    var entries: seq<(Bytes, Id)> := [];
    for i := 0 to |pairs|
      invariant PairsOf(entries) == pairs[..i]
    {
      match PairParts(pairs[i]) {
        case Corrupt(message) => return Corrupt(message);
        case Ok(parts) =>
          PairPartsInverse(pairs[i]);
          ghost var before := entries;
          entries := entries + [parts];
          assert PairsOf(entries) == PairsOf(before) + [pairs[i]];
          assert pairs[..i + 1] == pairs[..i] + [pairs[i]];
      }
    }
    assert pairs[..|pairs|] == pairs;
    r := Ok(entries);
  }

  lemma PrefixOfPair(prefix: Bytes, k: Bytes, id: Id)
    requires k <= prefix ==> k == prefix
    ensures [ENTRY_TAG] + prefix <= PairKey(k, id) <==> prefix <= k
  {
    var physical, pair := [ENTRY_TAG] + prefix, PairKey(k, id);
    assert physical[1..] == prefix && pair[1..|k| + 1] == k;
    if physical <= pair {
      assert prefix == pair[1..|prefix| + 1];
      assert |k| <= |prefix| ==> k == prefix[..|k|];
    }
  }

  /** Merging the streams of a prefix decides each pair as the layers do. */
  lemma LiveIsWantedPair(keys: iset<Bytes>, L: Layers, prefix: Bytes, after: Option<Bytes>,
                         streams: seq<Run>, o: Overlay<Bytes>, p: Bytes)
    requires WellFormed(keys, L) && EndsBetweenComponents(keys, prefix)
    requires OpsIn(streams, p) == if [ENTRY_TAG] + prefix <= p && Past(after, p) then OpsIn(L.runs, p) else {}
    requires IsPairOverlay(L, prefix, after, o)
    ensures Live(streams, o, p) <==> WantedPair(L, prefix, after, p)
  {
    var ops := OpsIn(L.runs, p);
    if ops != {} {
      var op :| op in ops;
      var r, i :| 0 <= r < |L.runs| && 0 <= i < |L.runs[r]| && L.runs[r][i].key == p && L.runs[r][i].vop == op;
      assert WellFormedRun(keys, L.runs[r]);
    }
    if PairParts(p).Ok? {
      var (k, id) := PairParts(p).value;
      PairPartsInverse(p);
      if k in keys {
        PrefixOfPair(prefix, k, id);
        if !(prefix <= k && Past(after, p)) { assert Newest(OpsIn(streams, p)) == None; }
      } else {
        assert Newest(OpsIn(streams, p)) == Newest(ops) == None;
      }
    } else {
      assert Newest(OpsIn(streams, p)) == None;
    }
  }

  lemma BatchOfPairs(keys: iset<Bytes>, L: Layers, prefix: Bytes, after: Option<Bytes>, streams: seq<Run>,
                     o: Overlay<Bytes>, limit: nat, pairs: seq<Bytes>)
    requires WellFormed(keys, L) && EndsBetweenComponents(keys, prefix) && IsPairOverlay(L, prefix, after, o)
    requires forall p ::
      OpsIn(streams, p) == if [ENTRY_TAG] + prefix <= p && Past(after, p) then OpsIn(L.runs, p) else {}
    requires IsBatch(BytesLt, p => Live(streams, o, p), limit, pairs)
    ensures IsBatch(BytesLt, p => WantedPair(L, prefix, after, p), limit, pairs)
  {
    forall p ensures Live(streams, o, p) <==> WantedPair(L, prefix, after, p) {
      LiveIsWantedPair(keys, L, prefix, after, streams, o, p);
    }
    BatchAs(BytesLt, p => Live(streams, o, p), p => WantedPair(L, prefix, after, p), limit, pairs);
  }

  /** Ascending pairs are ascending (key, id) tuples. */
  lemma WalkOrder(keys: iset<Bytes>, L: Layers, prefix: Bytes, after: Option<Bytes>, entries: seq<(Bytes, Id)>)
    requires WellFormed(keys, L) && Ascending(BytesLt, PairsOf(entries))
    requires forall i :: 0 <= i < |entries| ==> WantedPair(L, prefix, after, PairsOf(entries)[i])
    ensures forall i, j :: 0 <= i < j < |entries| ==> TupleBefore(entries[i], entries[j])
  {
    forall i | 0 <= i < |entries| ensures entries[i].0 in keys {
      assert PairsOf(entries)[i] == PairKey(entries[i].0, entries[i].1);
      PairRoundTrip(entries[i].0, entries[i].1);
      HeldKeyKnown(keys, L, entries[i].0, entries[i].1);
    }
    forall i, j | 0 <= i < j < |entries| ensures TupleBefore(entries[i], entries[j]) {
      assert BytesLt(PairsOf(entries)[i], PairsOf(entries)[j]);
      PairOrder(keys, entries[i].0, entries[i].1, entries[j].0, entries[j].1);
    }
  }

  lemma HeldKeyKnown(keys: iset<Bytes>, L: Layers, k: Bytes, id: Id)
    requires WellFormed(keys, L) && Holds(L, k, id)
    ensures k in keys
  {
    var ops := OpsIn(L.runs, PairKey(k, id));
    if ops != {} {
      var op :| op in ops;
      var r, i :| 0 <= r < |L.runs| && 0 <= i < |L.runs[r]| && L.runs[r][i].key == PairKey(k, id)
        && L.runs[r][i].vop == op;
      assert WellFormedRun(keys, L.runs[r]);
      PairRoundTrip(k, id);
    } else {
      assert Newest(ops) == None;
    }
  }

  lemma {:induction false} NoStream(items: seq<seq<Item<Bytes>>>, x: Bytes)
    requires (forall s :: 0 <= s < |items| ==> IdStream(items[s])) && !ValidUtf8(x)
    ensures OpsIn(items, x) == {} && Newest(OpsIn(items, x)) == None
  {
    forall r, i | 0 <= r < |items| && 0 <= i < |items[r]| ensures items[r][i].key != x { assert IdStream(items[r]); }
  }

  /** Merging the streams of one key decides each id as the layers do. */
  lemma LiveIsWanted(L: Layers, key: Bytes, after: Option<Id>, items: seq<seq<Item<Bytes>>>, o: Overlay<Bytes>, x: Id)
    requires OpsIn(items, x) == if Past(after, x) then OpsIn(L.runs, PairKey(key, x)) else {}
    requires x in o.added <==> Has(L.delta, key, x) && Past(after, x)
    requires x in o.removed <==> Has(L.removed, key, x) && Past(after, x)
    requires match L.frozen
             case None => o.frozenAdded == [] && o.frozenRemoved == []
             case Some(f) => (
               && o.gen == f.generation
               && (x in o.frozenAdded <==> Has(f.delta, key, x) && Past(after, x))
               && (x in o.frozenRemoved <==> Has(f.removed, key, x) && Past(after, x)))
    ensures Live(items, o, x) <==> Wanted(L, key, after, x)
  {
    if !Past(after, x) { assert Newest(OpsIn(items, x)) == None; }
  }

  ghost function Candidates(L: Layers, key: Bytes): set<Bytes> {
    (set r, i | 0 <= r < |L.runs| && 0 <= i < |L.runs[r]| && PairParts(L.runs[r][i].key).Ok?
       :: PairParts(L.runs[r][i].key).value.1)
    + (if key in L.delta then L.delta[key] else {})
    + (if L.frozen.Some? && key in L.frozen.value.delta then L.frozen.value.delta[key] else {})
  }

  /** The ids visible under a key. */
  ghost function IdsUnder(L: Layers, key: Bytes): set<Bytes> {
    set x | x in Candidates(L, key) && Wanted(L, key, None, x)
  }

  lemma UnderFinite(L: Layers, key: Bytes, x: Bytes)
    requires Wanted(L, key, None, x)
    ensures x in IdsUnder(L, key)
  {
    var ops := OpsIn(L.runs, PairKey(key, x));
    if ops != {} {
      var op :| op in ops;
      var r, i :| 0 <= r < |L.runs| && 0 <= i < |L.runs[r]| && L.runs[r][i].key == PairKey(key, x)
        && L.runs[r][i].vop == op;
      PairRoundTrip(key, x);
    } else {
      assert Newest(ops) == None;
    }
  }

  /** `all` is a full leading part of the ids of `key`. */
  ghost predicate Paged(L: Layers, key: Bytes, all: seq<Bytes>) {
    IsBatch(BytesLt, x => Wanted(L, key, None, x), |all|, all)
  }

  ghost function Unpaged(L: Layers, key: Bytes, all: seq<Bytes>): set<Bytes> {
    IdsUnder(L, key) - set x | x in all
  }

  lemma PageStep(L: Layers, key: Bytes, all: seq<Bytes>, cursor: Option<Id>, chunk: nat, ids: seq<Bytes>)
    requires all == [] ==> cursor == None
    requires all != [] ==> cursor == Some(all[|all| - 1])
    requires Paged(L, key, all) && chunk > 0
    requires IsBatch(BytesLt, x => Wanted(L, key, cursor, x), chunk, ids)
    ensures |ids| == chunk ==> Paged(L, key, all + ids) && Unpaged(L, key, all + ids) < Unpaged(L, key, all)
    ensures |ids| == chunk ==> ValidUtf8((all + ids)[|all + ids| - 1])
    ensures |ids| < chunk ==> Ascending(BytesLt, all + ids)
                              && forall x: Bytes :: x in all + ids <==> ValidUtf8(x) && Holds(L, key, x)
  {
    var live := x => Wanted(L, key, None, x);
    var later := x => Wanted(L, key, cursor, x);
    PageResume(L, key, all, cursor, chunk, ids);
    if |ids| == chunk {
      var x := ids[chunk - 1];
      assert later(x);
      UnderFinite(L, key, x);
      assert x in ids && x in Unpaged(L, key, all) && x !in Unpaged(L, key, all + ids);
    } else {
      forall x: Bytes ensures x in all + ids <==> live(x) {
        if x in all + ids {
          var i :| 0 <= i < |all + ids| && (all + ids)[i] == x;
        }
      }
      forall x: Bytes ensures x in all + ids <==> ValidUtf8(x) && Holds(L, key, x) {
        assert live(x) <==> Wanted(L, key, None, x);
      }
    }
  }

  lemma PageResume(L: Layers, key: Bytes, all: seq<Bytes>, cursor: Option<Id>, chunk: nat, ids: seq<Bytes>)
    requires all == [] ==> cursor == None
    requires all != [] ==> cursor == Some(all[|all| - 1])
    requires Paged(L, key, all)
    requires IsBatch(BytesLt, x => Wanted(L, key, cursor, x), chunk, ids)
    ensures IsBatch(BytesLt, x => Wanted(L, key, None, x), |all| + chunk, all + ids)
    ensures forall x :: x in ids ==> x !in all
  {
    if all == [] {
      assert all + ids == ids;
      BatchAs(BytesLt, x => Wanted(L, key, cursor, x), x => Wanted(L, key, None, x), chunk, ids);
    } else {
      PageBehind(L, key, all, chunk, ids);
    }
  }

  lemma LaterIsNew(live: Bytes -> bool, all: seq<Bytes>, later: Bytes -> bool, chunk: nat, ids: seq<Bytes>)
    requires all != [] && StrictTotal(BytesLt)
    requires IsBatch(BytesLt, live, |all|, all) && IsBatch(BytesLt, later, chunk, ids)
    requires forall x :: later(x) ==> BytesLt(all[|all| - 1], x)
    ensures forall x :: x in ids ==> x !in all
  {
    forall i, j | 0 <= i < |ids| && 0 <= j < |all| ensures ids[i] != all[j] {
      assert later(ids[i]);
      assert j < |all| - 1 ==> BytesLt(all[j], all[|all| - 1]);
    }
  }

  lemma PageBehind(L: Layers, key: Bytes, all: seq<Bytes>, chunk: nat, ids: seq<Bytes>)
    requires all != [] && ValidUtf8(all[|all| - 1]) && Paged(L, key, all)
    requires IsBatch(BytesLt, x => Wanted(L, key, Some(all[|all| - 1]), x), chunk, ids)
    ensures IsBatch(BytesLt, x => Wanted(L, key, None, x), |all| + chunk, all + ids)
    ensures forall x :: x in ids ==> x !in all
  {
    var live, last := x => Wanted(L, key, None, x), all[|all| - 1];
    BytesOrder();
    LaterIsNew(live, all, x => Wanted(L, key, Some(last), x), chunk, ids);
    BatchAs(BytesLt, x => Wanted(L, key, Some(last), x), x => live(x) && BytesLt(last, x), chunk, ids);
    BatchResume(BytesLt, live, |all|, all, chunk, ids);
  }
}
