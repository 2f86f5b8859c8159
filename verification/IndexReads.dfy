/** Reads of a secondary index in any state of any history, told in terms of the plain map that
    the committed changes make. */
module IndexReads {
  import opened Order
  import opened OverlayMerge
  import opened PairCodec
  import opened IndexLayers
  import opened SecondaryIndex
  import opened IndexHistory

  /** The index stands where the history does after `n` steps. */
  ghost predicate StandsAt(keys: iset<Bytes>, L: Layers, states: seq<Sys>, steps: seq<Step>, ref: IdMap, n: nat) {
    && IsHistory(keys, states, steps) && n <= |steps| && L == states[n].L
    && Inv(keys, states[0]) && Shows(states[0].L, ref)
  }

  /** The ids of a key, past the resume id. */
  predicate InMap(m: IdMap, key: Bytes, after: Option<Id>, x: Bytes) {
    ValidUtf8(x) && Past(after, x) && Has(m, key, x)
  }

  /** The pairs under a tuple prefix, past the resume pair. */
  predicate PairInMap(m: IdMap, prefix: Bytes, after: Option<Bytes>, p: Bytes) {
    && PairParts(p).Ok? && prefix <= PairParts(p).value.0 && Past(after, p)
    && Has(m, PairParts(p).value.0, PairParts(p).value.1)
  }

  lemma MapBatch(L: Layers, m: IdMap, key: Bytes, after: Option<Id>, limit: nat, out: seq<Bytes>)
    requires Shows(L, m) && IsBatch(BytesLt, x => Wanted(L, key, after, x), limit, out)
    ensures IsBatch(BytesLt, x => InMap(m, key, after, x), limit, out)
  {
    forall x ensures Wanted(L, key, after, x) <==> InMap(m, key, after, x) {
      if ValidUtf8(x) { assert Holds(L, key, x) <==> Has(m, key, x); }
    }
    BatchAs(BytesLt, x => Wanted(L, key, after, x), x => InMap(m, key, after, x), limit, out);
  }

  lemma MapPairs(L: Layers, m: IdMap, prefix: Bytes, after: Option<Bytes>, limit: nat, out: seq<Bytes>)
    requires Shows(L, m) && IsBatch(BytesLt, p => WantedPair(L, prefix, after, p), limit, out)
    ensures IsBatch(BytesLt, p => PairInMap(m, prefix, after, p), limit, out)
  {
    forall p ensures WantedPair(L, prefix, after, p) <==> PairInMap(m, prefix, after, p) {
      if PairParts(p).Ok? {
        var (k, id) := PairParts(p).value;
        assert Holds(L, k, id) <==> Has(m, k, id);
      }
    }
    BatchAs(BytesLt, p => WantedPair(L, prefix, after, p), p => PairInMap(m, prefix, after, p), limit, out);
  }

  /** A batch of ids read after any history is the first ids the map holds for the key. */
  method ReadIds(idx: SecIdx, key: Bytes, after: Option<Id>, limit: nat, ghost states: seq<Sys>, ghost steps: seq<Step>,
                 ghost ref: IdMap, ghost n: nat)
    returns (r: Result<seq<Bytes>>)
    requires idx.Valid() && key in idx.keys && StandsAt(idx.keys, idx.Value(), states, steps, ref, n)
    ensures r.Ok?
    ensures var m := RefAfter(ref, steps[..n]); IsBatch(BytesLt, x => InMap(m, key, after, x), limit, r.value)
  {
    HistoryShowsReference(idx.keys, states, steps, ref, n);
    r := idx.IdsBatchInto(key, after, limit);
    MapBatch(states[n].L, RefAfter(ref, steps[..n]), key, after, limit, r.value);
  }

  /** A walk after any history is the first pairs the map holds under the prefix, in tuple
      order. */
  method ReadPairs(idx: SecIdx, prefix: Bytes, after: Option<Bytes>, limit: nat, ghost states: seq<Sys>,
                   ghost steps: seq<Step>, ghost ref: IdMap, ghost n: nat)
    returns (r: Result<seq<(Bytes, Id)>>)
    requires idx.Valid() && EndsBetweenComponents(idx.keys, prefix)
    requires StandsAt(idx.keys, idx.Value(), states, steps, ref, n)
    ensures r.Ok? && forall i, j :: 0 <= i < j < |r.value| ==> TupleBefore(r.value[i], r.value[j])
    ensures var m := RefAfter(ref, steps[..n]);
            IsBatch(BytesLt, p => PairInMap(m, prefix, after, p), limit, PairsOf(r.value))
  {
    HistoryShowsReference(idx.keys, states, steps, ref, n);
    r := idx.OrderedEntriesInto(prefix, after, limit);
    MapPairs(states[n].L, RefAfter(ref, steps[..n]), prefix, after, limit, PairsOf(r.value));
  }

  /** Paging through a key after any history yields exactly the ids the map holds for it. */
  method ReadAll(idx: SecIdx, key: Bytes, chunk: nat, ghost states: seq<Sys>, ghost steps: seq<Step>, ghost ref: IdMap,
                 ghost n: nat)
    returns (all: seq<Bytes>)
    requires idx.Valid() && key in idx.keys && chunk > 0
    requires StandsAt(idx.keys, idx.Value(), states, steps, ref, n)
    ensures Ascending(BytesLt, all)
    ensures forall x: Bytes :: x in all <==> ValidUtf8(x) && Has(RefAfter(ref, steps[..n]), key, x)
  {
    HistoryShowsReference(idx.keys, states, steps, ref, n);
    all := idx.PageThrough(key, chunk);
    forall x: Bytes ensures x in all <==> ValidUtf8(x) && Has(RefAfter(ref, steps[..n]), key, x) {
      if ValidUtf8(x) { assert Holds(states[n].L, key, x) <==> Has(RefAfter(ref, steps[..n]), key, x); }
    }
  }
}
