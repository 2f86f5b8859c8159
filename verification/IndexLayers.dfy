/** The layers of a secondary index and the streams its readers merge: immutable versioned
    runs, an optional frozen overlay being written in the background, and the mutable
    overlay of recent commits. */
module IndexLayers {
  import opened Order
  import opened OverlayMerge
  import opened PairCodec

  type Run = seq<Item<Bytes>>

  type IdMap = map<Bytes, set<Id>>

  datatype Frozen = Frozen(generation: nat, delta: IdMap, removed: IdMap)

  /** The value of an index: everything its readers consult. */
  datatype Layers = Layers(runs: seq<Run>, frozen: Option<Frozen>, delta: IdMap, removed: IdMap)

  predicate Has(m: IdMap, key: Bytes, id: Bytes) {
    key in m && id in m[key]
  }

  function With(m: IdMap, key: Bytes, id: Id): IdMap {
    m[key := (if key in m then m[key] else {}) + {id}]
  }

  /** Drop one id, and the key with its last id. */
  function Without(m: IdMap, key: Bytes, id: Id): IdMap {
    if key !in m then m
    else if m[key] - {id} == {} then m - {key}
    else m[key := m[key] - {id}]
  }

  lemma HasUpdated(m: IdMap, key: Bytes, id: Id, k: Bytes, i: Bytes)
    ensures Has(With(m, key, id), k, i) <==> (k == key && i == id) || Has(m, k, i)
    ensures Has(Without(m, key, id), k, i) <==> !(k == key && i == id) && Has(m, k, i)
  {
    if key in m && k == key { assert i in m[key] && i != id ==> i in m[key] - {id}; }
  }

  /** The newest operation the runs and the frozen overlay hold for a pair. */
  ghost function Persisted(L: Layers, key: Bytes, id: Id): Option<VOp> {
    var newest := Newest(OpsIn(L.runs, PairKey(key, id)));
    match L.frozen
    case None => newest
    case Some(f) => WithFrozen(newest, f.generation, Has(f.delta, key, id), Has(f.removed, key, id))
  }

  /** Whether `id` is visible under `key`. */
  ghost predicate Holds(L: Layers, key: Bytes, id: Id) {
    !Has(L.removed, key, id) && (Has(L.delta, key, id) || IsAdd(Persisted(L, key, id)))
  }

  /* ---- well-formed layers ---- */

  ghost predicate WellFormedRun(keys: iset<Bytes>, run: Run) {
    && SortedRun(BytesLt, run)
    && forall i :: 0 <= i < |run| ==> PairParts(run[i].key).Ok? && PairParts(run[i].key).value.0 in keys
  }

  ghost predicate KeysIn(keys: iset<Bytes>, m: IdMap) {
    forall k :: k in m ==> k in keys
  }

  ghost predicate WellFormed(keys: iset<Bytes>, L: Layers) {
    && PrefixFree(keys)
    && (forall r :: 0 <= r < |L.runs| ==> WellFormedRun(keys, L.runs[r]))
    && KeysIn(keys, L.delta) && KeysIn(keys, L.removed)
    && (L.frozen.Some? ==> KeysIn(keys, L.frozen.value.delta) && KeysIn(keys, L.frozen.value.removed))
  }

  /** No pair is both added and removed. */
  ghost predicate Disjoint(a: IdMap, b: IdMap) {
    forall k, i :: !(Has(a, k, i) && Has(b, k, i))
  }

  /** The operations a frozen overlay holds for a pair. */
  ghost function FrozenOps(f: Option<Frozen>, key: Bytes, id: Id): set<VOp> {
    match f
    case None => {}
    case Some(f) =>
      (if Has(f.delta, key, id) then {VOp(f.generation, Add)} else {})
      + (if Has(f.removed, key, id) then {VOp(f.generation, Delete)} else {})
  }

  /** The run the background writer produces from an overlay. */
  ghost predicate IsRunOf(keys: iset<Bytes>, run: Run, f: Frozen) {
    && WellFormedRun(keys, run)
    && forall k: Bytes, i: Id :: RunOps(run, PairKey(k, i)) == FrozenOps(Some(f), k, i)
  }

  /* ---- paged runs: the marker key [0], then the entries ---- */

  function FirstKey(run: Run): Bytes { [0] }

  function LastKey(run: Run): Bytes { if run == [] then [0] else run[|run| - 1].key }

  predicate MayContainPrefix(run: Run, prefix: Bytes) {
    (!Lt(prefix, FirstKey(run)) || prefix <= FirstKey(run)) && !Lt(LastKey(run), prefix)
  }

  /** The range test never rules out a run that holds the prefix. */
  lemma MayContainSound(run: Run, prefix: Bytes, i: nat)
    requires SortedRun(BytesLt, run) && i < |run| && prefix <= run[i].key
    requires prefix != [] && prefix[0] == ENTRY_TAG
    ensures MayContainPrefix(run, prefix)
  {
    PrefixNotGreater(prefix, run[i].key);
    assert i < |run| - 1 ==> !BytesLt(LastKey(run), run[i].key);
    LtIrreflexive(LastKey(run));
    if Lt(LastKey(run), prefix) { LtThenLe(LastKey(run), prefix, run[i].key); }
  }

  /** A string under the prefix lies between the first and the last key. */
  ghost predicate Reaches(run: Run, prefix: Bytes, x: Bytes) {
    prefix <= x && !Lt(x, FirstKey(run)) && !Lt(LastKey(run), x)
  }

  lemma RangeReached(run: Run, prefix: Bytes) returns (x: Bytes)
    requires MayContainPrefix(run, prefix) && !Lt(LastKey(run), FirstKey(run))
    ensures Reaches(run, prefix, x)
  {
    x := if prefix <= FirstKey(run) then FirstKey(run) else prefix;
    LtIrreflexive(FirstKey(run));
  }

  /** Nor does it let through a run whose range has no room for the prefix. */
  lemma MayContainExact(run: Run, prefix: Bytes)
    requires !Lt(LastKey(run), FirstKey(run))
    ensures MayContainPrefix(run, prefix) <==> exists x: Bytes :: Reaches(run, prefix, x)
  {
    if MayContainPrefix(run, prefix) {
      var x := RangeReached(run, prefix);
    } else if exists x: Bytes :: Reaches(run, prefix, x) {
      var x: Bytes :| Reaches(run, prefix, x);
      PrefixNotGreater(prefix, x);
      if Lt(LastKey(run), prefix) {
        LtThenLe(LastKey(run), prefix, x);
      } else {
        LtAsymmetric(prefix, FirstKey(run));
        PrefixInterval(prefix, FirstKey(run), x);
      }
    }
  }

  predicate Past(after: Option<Bytes>, x: Bytes) {
    after.Some? ==> Lt(after.value, x)
  }

  /** Strings that share a prefix form an interval that starts at the prefix. */
  lemma {:induction false} PrefixInterval(p: seq<int>, x: seq<int>, y: seq<int>)
    requires !Lt(x, p) && !(p <= x) && p <= y
    ensures Lt(y, x)
  {
    assert p != [];
    if x != [] && x[0] == p[0] {
      PrefixInterval(p[1..], x[1..], y[1..]);
    }
  }

  /** In a sorted run everything from a key past the bound on is past it. */
  lemma PastFrom(run: Run, i: nat, after: Option<Bytes>)
    requires SortedRun(BytesLt, run) && i < |run| && Past(after, run[i].key)
    ensures forall j :: i <= j < |run| ==> Past(after, run[j].key)
  {
    forall j | i < j < |run| ensures Past(after, run[j].key) {
      assert !BytesLt(run[j].key, run[i].key);
      if after.Some? { LtThenLe(after.value, run[i].key, run[j].key); }
    }
  }

  /** Once a key is above the prefix without starting with it, no later one starts with it. */
  lemma NoneFrom(run: Run, i: nat, prefix: Bytes)
    requires SortedRun(BytesLt, run) && i < |run| && !(prefix <= run[i].key) && Lt(prefix, run[i].key)
    ensures forall j :: i <= j < |run| ==> !(prefix <= run[j].key)
  {
    LtAsymmetric(prefix, run[i].key);
    forall j | i < j < |run| ensures !(prefix <= run[j].key) {
      assert !BytesLt(run[j].key, run[i].key);
      if prefix <= run[j].key { PrefixInterval(prefix, run[i].key, run[j].key); }
    }
  }

  /** A key below the prefix cannot follow one that starts with it. */
  lemma BelowIsBefore(run: Run, i: nat, prefix: Bytes)
    requires SortedRun(BytesLt, run) && 0 < i < |run| && prefix <= run[i - 1].key && !(prefix <= run[i].key)
    ensures Lt(prefix, run[i].key)
  {
    PrefixNotGreater(prefix, run[i - 1].key);
    assert !BytesLt(run[i].key, run[i - 1].key);
    LtTotal(run[i].key, prefix);
    if Lt(run[i].key, prefix) { LeThenLt(run[i - 1].key, run[i].key, prefix); }
  }

  ghost predicate Hit(run: Run, prefix: Bytes, after: Option<Bytes>, j: int)
    requires 0 <= j < |run|
  {
    prefix <= run[j].key && Past(after, run[j].key)
  }

  /** Everything a prefix cursor positioned after a complete key yields: the entries from
      `lo` up to `hi`, which are exactly those under the prefix and past the bound. */
  method ScanRange(run: Run, prefix: Bytes, after: Option<Bytes>) returns (lo: nat, hi: nat)
    requires SortedRun(BytesLt, run)
    ensures lo <= hi <= |run| && forall j :: 0 <= j < |run| ==> (lo <= j < hi <==> Hit(run, prefix, after, j))
  {
    lo, hi := 0, 0;
    var bound := after;
    var i := 0;
    while i < |run|
      invariant lo <= hi <= i <= |run| && (bound == after || bound.None?)
      invariant lo < hi ==> hi == i && bound.None?
      invariant forall j :: 0 <= j < i ==> (lo <= j < hi <==> Hit(run, prefix, after, j))
      invariant bound.None? ==> forall j :: i <= j < |run| ==> Past(after, run[j].key)
    {
      var key := run[i].key;
      if bound.Some? && !Lt(bound.value, key) {
        assert !Hit(run, prefix, after, i);
        i := i + 1;
        continue;
      }
      if bound.Some? { PastFrom(run, i, after); }
      bound := None;
      if prefix <= key {
        assert Hit(run, prefix, after, i);
        if lo == hi { lo := i; }
        hi := i + 1;
      } else if Lt(prefix, key) {
        NoneFrom(run, i, prefix);
        break;
      } else if lo < hi {
        assert Hit(run, prefix, after, i - 1);
        BelowIsBefore(run, i, prefix);
      }
      i := i + 1;
    }
  }

  method ScanPrefix(run: Run, prefix: Bytes, after: Option<Bytes>) returns (found: Run, ghost lo: nat)
    requires SortedRun(BytesLt, run)
    ensures lo + |found| <= |run| && forall j :: 0 <= j < |found| ==> found[j] == run[lo + j]
    ensures forall j :: 0 <= j < |run| ==> (lo <= j < lo + |found| <==> Hit(run, prefix, after, j))
  {
    var start, hi := ScanRange(run, prefix, after);
    found, lo := run[start..hi], start;
  }

  /* ---- ordered iteration of the in-memory overlays ---- */

  lemma {:induction false} MinExists(s: set<Bytes>)
    requires s != {}
    ensures exists m :: m in s && forall y :: y in s ==> !Lt(y, m)
    decreases |s|
  {
    var x :| x in s;
    LtIrreflexive(x);
    var rest := s - {x};
    assert s == rest + {x};
    if rest != {} {
      MinExists(rest);
      var m :| m in rest && forall y :: y in rest ==> !Lt(y, m);
      if Lt(x, m) {
        forall y | y in s ensures !Lt(y, x) {
          if y != x && Lt(y, x) { LtTransitive(y, x, m); }
        }
      }
    }
  }

  /** The members above `after`, in ascending order. */
  method AscendingAfter(ids: set<Bytes>, after: Option<Bytes>) returns (s: seq<Bytes>)
    ensures Ascending(BytesLt, s)
    ensures forall x :: x in s <==> x in ids && Past(after, x)
  {
    s := [];
    var rest := set x | x in ids && Past(after, x);
    while rest != {}
      invariant Ascending(BytesLt, s)
      invariant forall x, y :: x in s && y in rest ==> Lt(x, y)
      invariant forall x :: x in s || x in rest <==> x in ids && Past(after, x)
      decreases rest
    {
      MinExists(rest);
      var m :| m in rest && forall y :: y in rest ==> !Lt(y, m);
      forall y | y in rest && y != m ensures Lt(m, y) { LtTotal(m, y); }
      s, rest := s + [m], rest - {m};
    }
  }

  /** An overlay as the ordered walk reads it: the pairs whose key starts with `prefix`,
      past `after`, in ascending order. */
  ghost predicate IsPairStream(m: IdMap, prefix: Bytes, after: Option<Bytes>, s: seq<Bytes>) {
    && Ascending(BytesLt, s)
    && (forall k: Bytes, id: Id :: PairKey(k, id) in s <==> Has(m, k, id) && prefix <= k && Past(after, PairKey(k, id)))
    && (forall p :: p in s ==> PairParts(p).Ok?)
  }

  method KeysFrom(m: IdMap, prefix: Bytes) returns (ks: seq<Bytes>)
    ensures Ascending(BytesLt, ks)
    ensures forall k :: k in ks <==> k in m && !Lt(k, prefix)
  {
    ks := AscendingAfter((set k | k in m && !Lt(k, prefix)), None);
  }

  /** The pairs of one key above `after`. */
  method PairsOfKey(key: Bytes, ids: set<Id>, after: Option<Bytes>) returns (s: seq<Bytes>)
    ensures Ascending(BytesLt, s)
    ensures forall id: Id :: PairKey(key, id) in s <==> id in ids && Past(after, PairKey(key, id))
    ensures forall p :: p in s ==> PairParts(p).Ok? && PairParts(p).value.0 == key
  {
    var sorted := AscendingAfter(ids, None);
    s := [];
    for i := 0 to |sorted|
      invariant Ascending(BytesLt, s)
      invariant forall p :: p in s ==> exists j :: 0 <= j < i && sorted[j] in ids && p == PairKey(key, sorted[j])
      invariant forall id: Id :: id in sorted[..i] && Past(after, PairKey(key, id)) ==> PairKey(key, id) in s
      invariant forall p :: p in s ==> Past(after, p)
    {
      assert sorted[i] in sorted && sorted[..i + 1] == sorted[..i] + [sorted[i]];
      var pair := PairKey(key, sorted[i]);
      if Past(after, pair) {
        forall p | p in s ensures Lt(p, pair) {
          var j :| 0 <= j < i && sorted[j] in ids && p == PairKey(key, sorted[j]);
          assert BytesLt(sorted[j], sorted[i]);
          LtSharedHead(PairPrefix(key), sorted[j], sorted[i]);
        }
        s := s + [pair];
      }
    }
    forall p | p in s ensures PairParts(p).Ok? && PairParts(p).value.0 == key && PairParts(p).value.1 in ids {
      var j :| 0 <= j < |sorted| && sorted[j] in ids && p == PairKey(key, sorted[j]);
      PairRoundTrip(key, sorted[j]);
    }
    forall id: Id ensures PairKey(key, id) in s <==> id in ids && Past(after, PairKey(key, id)) {
      PairRoundTrip(key, id);
      if id in ids && Past(after, PairKey(key, id)) {
        assert id in sorted && sorted[..|sorted|] == sorted;
      }
    }
  }

  /** `s` holds exactly the pairs past `after` of the keys in `done`. */
  ghost predicate Covers(m: IdMap, done: set<Bytes>, after: Option<Bytes>, s: seq<Bytes>) {
    && (forall k :: k in done ==> k in m)
    && (forall p :: p in s ==> PairParts(p).Ok? && PairParts(p).value.0 in done)
    && (forall k: Bytes, id: Id :: k in done ==> (PairKey(k, id) in s <==> id in m[k] && Past(after, PairKey(k, id))))
  }

  lemma CoversMore(m: IdMap, done: set<Bytes>, key: Bytes, after: Option<Bytes>, s: seq<Bytes>, more: seq<Bytes>)
    requires Covers(m, done, after, s) && key in m && key !in done
    requires forall id: Id :: PairKey(key, id) in more <==> id in m[key] && Past(after, PairKey(key, id))
    requires forall p :: p in more ==> PairParts(p).Ok? && PairParts(p).value.0 == key
    ensures Covers(m, done + {key}, after, s + more)
  {
    forall k: Bytes, id: Id | k in done + {key}
      ensures PairKey(k, id) in s + more <==> id in m[k] && Past(after, PairKey(k, id))
    {
      PairRoundTrip(k, id);
    }
  }

  /** The pairs of a later key come after those of the keys before it. */
  lemma LaterPairs(keys: iset<Bytes>, m: IdMap, done: set<Bytes>, key: Bytes, after: Option<Bytes>, s: seq<Bytes>,
                   more: seq<Bytes>)
    requires PrefixFree(keys) && KeysIn(keys, m) && key in m && Covers(m, done, after, s)
    requires forall k :: k in done ==> Lt(k, key)
    requires forall q :: q in more ==> PairParts(q).Ok? && PairParts(q).value.0 == key
    ensures forall p, q :: p in s && q in more ==> Lt(p, q)
  {
    forall p, q | p in s && q in more ensures Lt(p, q) {
      var (k, id) := PairParts(p).value;
      PairPartsInverse(p);
      PairPartsInverse(q);
      PairOrder(keys, k, id, key, PairParts(q).value.1);
    }
  }

  /** Keys behind the last one taken do not start with the prefix. */
  lemma NothingMissed(ks: seq<Bytes>, i: nat, prefix: Bytes, k: Bytes)
    requires Ascending(BytesLt, ks) && i < |ks| && !(prefix <= ks[i]) && !Lt(ks[i], prefix)
    requires k in ks[i..]
    ensures !(prefix <= k)
  {
    var j :| 0 <= j < |ks[i..]| && ks[i..][j] == k;
    if prefix <= k {
      PrefixInterval(prefix, ks[i], k);
      if j > 0 {
        assert BytesLt(ks[i], ks[i + j]);
        LtAsymmetric(k, ks[i]);
      }
    }
  }

  lemma AscendingJoin(a: seq<Bytes>, b: seq<Bytes>)
    requires Ascending(BytesLt, a) && Ascending(BytesLt, b) && forall p, q :: p in a && q in b ==> Lt(p, q)
    ensures Ascending(BytesLt, a + b)
  {
  }

  lemma StreamComplete(m: IdMap, ks: seq<Bytes>, i: nat, done: set<Bytes>, prefix: Bytes, after: Option<Bytes>,
                       s: seq<Bytes>)
    requires Ascending(BytesLt, ks) && (forall k :: k in ks <==> k in m && !Lt(k, prefix))
    requires i <= |ks| && (i < |ks| ==> !(prefix <= ks[i]))
    requires (forall j :: 0 <= j < i ==> ks[j] in done) && (forall k :: k in done ==> prefix <= k)
    requires Ascending(BytesLt, s) && Covers(m, done, after, s)
    ensures IsPairStream(m, prefix, after, s)
  {
    forall k: Bytes, id: Id
      ensures PairKey(k, id) in s <==> Has(m, k, id) && prefix <= k && Past(after, PairKey(k, id))
    {
      PairRoundTrip(k, id);
      if k in m && prefix <= k {
        PrefixNotGreater(prefix, k);
        var j :| 0 <= j < |ks| && ks[j] == k;
        if j >= i {
          assert ks[i] in ks && k == ks[i..][j - i];
          NothingMissed(ks, i, prefix, k);
        }
      }
    }
  }

  method PairStream(m: IdMap, ghost keys: iset<Bytes>, prefix: Bytes, after: Option<Bytes>) returns (s: seq<Bytes>)
    requires PrefixFree(keys) && KeysIn(keys, m)
    ensures IsPairStream(m, prefix, after, s)
  {
    var ks := KeysFrom(m, prefix);
    s := [];
    var i := 0;
    ghost var done: set<Bytes> := {};
    while i < |ks| && prefix <= ks[i]
      invariant 0 <= i <= |ks| && Ascending(BytesLt, s) && Covers(m, done, after, s)
      invariant forall j :: 0 <= j < i ==> ks[j] in done
      invariant forall k :: k in done ==> prefix <= k
      invariant forall k, j :: k in done && i <= j < |ks| ==> Lt(k, ks[j])
    {
      var key := ks[i];
      assert key in ks;
      var more := PairsOfKey(key, m[key], after);
      LaterPairs(keys, m, done, key, after, s, more);
      AscendingJoin(s, more);
      LtIrreflexive(key);
      CoversMore(m, done, key, after, s, more);
      assert forall j :: i < j < |ks| ==> BytesLt(key, ks[j]);
      s, done, i := s + more, done + {key}, i + 1;
    }
    StreamComplete(m, ks, i, done, prefix, after, s);
  }

  lemma RunOpsExtend(run: Run, i: nat, x: Bytes)
    requires i < |run|
    ensures RunOps(run[..i + 1], x) == RunOps(run[..i], x) + if run[i].key == x then {run[i].vop} else {}
  {
    var a, b := run[..i], run[..i + 1];
    assert forall j :: 0 <= j < i ==> a[j] == b[j];
    forall o | o in RunOps(a, x) ensures o in RunOps(b, x) {
      var j :| 0 <= j < i && a[j].key == x && a[j].vop == o;
      assert b[j].key == x && b[j].vop == o;
    }
    if run[i].key == x { assert b[i].vop in RunOps(b, x); }
  }
}
