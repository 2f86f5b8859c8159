/** The k-way merge behind `ids_batch_into` and `ordered_entries_into`: one cursor per
    immutable run, the frozen overlay and the mutable overlay, decided key by key. The
    two loops differ only in what a head is (an id or a whole pair), so the merge is
    written once over an arbitrary ordered head. */
module OverlayMerge {
  import opened Order

  datatype Op = Delete | Add

  /** A versioned operation, compared as the pair (version, op). */
  datatype VOp = VOp(version: nat, op: Op)

  predicate Newer(a: VOp, b: VOp) {
    a.version > b.version || (a.version == b.version && a.op == Add && b.op == Delete)
  }

  datatype Item<+K> = Item(key: K, vop: VOp)

  /* ---- what one key resolves to ---- */

  ghost predicate IsNewest(ops: set<VOp>, n: Option<VOp>) {
    match n
    case None => ops == {}
    case Some(o) => o in ops && forall p :: p in ops ==> !Newer(p, o)
  }

  ghost function Newest(ops: set<VOp>): (n: Option<VOp>)
    ensures IsNewest(ops, n)
    ensures forall m :: IsNewest(ops, m) ==> m == n
    decreases |ops|
  {
    if ops == {} then None else
      var o :| o in ops;
      var rest := Newest(ops - {o});
      assert ops == {o} + (ops - {o});
      if rest.None? || Newer(o, rest.value) then Some(o) else rest
  }

  /** Fold the frozen overlay over the newest run operation. An addition needs a newer
      generation, a removal also wins a tie. */
  function WithFrozen(newest: Option<VOp>, gen: nat, inAdded: bool, inRemoved: bool): Option<VOp> {
    var n := if inAdded && (newest.None? || gen > newest.value.version)
             then Some(VOp(gen, Add)) else newest;
    if inRemoved && (n.None? || gen >= n.value.version) then Some(VOp(gen, Delete)) else n
  }

  /** The greater generation decides; on a tie the runs keep an addition, the overlay's addition
      yields to whatever the runs say and its removal wins. */
  lemma TiesDecided(o: VOp, gen: nat)
    ensures Newest({VOp(gen, Add), VOp(gen, Delete)}) == Some(VOp(gen, Add))
    ensures WithFrozen(Some(o), gen, true, false) == Some(if gen > o.version then VOp(gen, Add) else o)
    ensures WithFrozen(Some(o), gen, false, true) == Some(if gen >= o.version then VOp(gen, Delete) else o)
    ensures WithFrozen(Some(o), gen, false, false) == Some(o) && WithFrozen(None, gen, true, false).Some?
  {
    var both := {VOp(gen, Add), VOp(gen, Delete)};
    assert VOp(gen, Add) in both && VOp(gen, Delete) in both;
  }

  predicate IsAdd(n: Option<VOp>) {
    n.Some? && n.value.op == Add
  }

  /* ---- streams ---- */

  ghost predicate SortedRun<K(!new)>(lt: (K, K) -> bool, run: seq<Item<K>>) {
    forall i, j :: 0 <= i < j < |run| ==> !lt(run[j].key, run[i].key)
  }

  ghost predicate Ascending<K(!new)>(lt: (K, K) -> bool, s: seq<K>) {
    forall i, j :: 0 <= i < j < |s| ==> lt(s[i], s[j])
  }

  ghost function RunOps<K(!new)>(run: seq<Item<K>>, x: K): set<VOp> {
    set i | 0 <= i < |run| && run[i].key == x :: run[i].vop
  }

  ghost function OpsIn<K(!new)>(runs: seq<seq<Item<K>>>, x: K): set<VOp> {
    set r, i | 0 <= r < |runs| && 0 <= i < |runs[r]| && runs[r][i].key == x :: runs[r][i].vop
  }

  datatype Overlay<K> = Overlay(gen: nat, frozenAdded: seq<K>, frozenRemoved: seq<K>,
                                added: seq<K>, removed: seq<K>)

  ghost predicate SortedStreams<K(!new)>(lt: (K, K) -> bool, runs: seq<seq<Item<K>>>, o: Overlay<K>) {
    && (forall r :: 0 <= r < |runs| ==> SortedRun(lt, runs[r]))
    && Ascending(lt, o.frozenAdded) && Ascending(lt, o.frozenRemoved)
    && Ascending(lt, o.added) && Ascending(lt, o.removed)
  }

  /** Whether a key is live: the mutable overlay decides, removals first; otherwise the
      newest operation of the runs and the frozen overlay. */
  ghost predicate Live<K(!new)>(runs: seq<seq<Item<K>>>, o: Overlay<K>, x: K) {
    x !in o.removed &&
    (x in o.added ||
     IsAdd(WithFrozen(Newest(OpsIn(runs, x)), o.gen, x in o.frozenAdded, x in o.frozenRemoved)))
  }

  /** `out` is exactly the first `limit` keys satisfying `live`, in ascending order. */
  ghost predicate IsBatch<K(!new)>(lt: (K, K) -> bool, live: K -> bool, limit: nat, out: seq<K>) {
    && |out| <= limit
    && Ascending(lt, out)
    && (forall i :: 0 <= i < |out| ==> live(out[i]))
    && (forall x :: live(x) ==> x in out || (|out| == limit && forall i :: 0 <= i < |out| ==> lt(out[i], x)))
  }

  lemma BatchAs<K(!new)>(lt: (K, K) -> bool, live: K -> bool, wanted: K -> bool, limit: nat, out: seq<K>)
    requires IsBatch(lt, live, limit, out) && forall x :: live(x) <==> wanted(x)
    ensures IsBatch(lt, wanted, limit, out)
  {
  }

  /** The batch is determined by what is live: two answers to one question are equal. */
  lemma {:induction false} BatchUnique<K(!new)>(lt: (K, K) -> bool, live: K -> bool, limit: nat, a: seq<K>, b: seq<K>)
    requires StrictTotal(lt)
    requires IsBatch(lt, live, limit, a) && IsBatch(lt, live, limit, b)
    ensures a == b
  {
    forall i | 0 <= i < |a| && i < |b| ensures a[i] == b[i] { BatchAgree(lt, live, limit, a, b, i); }
    if b != [] { BatchCovers(lt, live, limit, a, b, |b| - 1); }
    if a != [] { BatchCovers(lt, live, limit, b, a, |a| - 1); }
  }

  lemma BatchCovers<K(!new)>(lt: (K, K) -> bool, live: K -> bool, limit: nat, a: seq<K>, b: seq<K>, k: nat)
    requires StrictTotal(lt)
    requires IsBatch(lt, live, limit, a) && IsBatch(lt, live, limit, b)
    requires forall i :: 0 <= i < |a| && i < |b| ==> a[i] == b[i]
    requires k < |b|
    ensures k < |a|
  {
    assert live(b[k]);
  }

  lemma {:induction false} BatchAgree<K(!new)>(lt: (K, K) -> bool, live: K -> bool, limit: nat, a: seq<K>, b: seq<K>,
                                               i: nat)
    requires StrictTotal(lt)
    requires IsBatch(lt, live, limit, a) && IsBatch(lt, live, limit, b)
    requires i < |a| && i < |b|
    ensures a[i] == b[i]
  {
    forall j | 0 <= j < i ensures a[j] == b[j] { BatchAgree(lt, live, limit, a, b, j); }
    if lt(a[i], b[i]) { NotSkipped(lt, live, limit, a, b, i); }
    if lt(b[i], a[i]) { NotSkipped(lt, live, limit, b, a, i); }
  }

  lemma NotSkipped<K(!new)>(lt: (K, K) -> bool, live: K -> bool, limit: nat, a: seq<K>, b: seq<K>, i: nat)
    requires StrictTotal(lt)
    requires IsBatch(lt, live, limit, a) && IsBatch(lt, live, limit, b)
    requires i < |a| && i < |b|
    requires forall j :: 0 <= j < i ==> a[j] == b[j]
    ensures !lt(a[i], b[i])
  {
    if lt(a[i], b[i]) {
      assert live(a[i]);
      if a[i] in b {
        var j :| 0 <= j < |b| && b[j] == a[i];
      }
    }
  }

  /** Resuming strictly after the last key of a full batch continues where it stopped. */
  lemma BatchResume<K(!new)>(lt: (K, K) -> bool, live: K -> bool, n: nat, a: seq<K>, m: nat, b: seq<K>)
    requires StrictTotal(lt)
    requires IsBatch(lt, live, n, a) && |a| == n > 0
    requires IsBatch(lt, x => live(x) && lt(a[n - 1], x), m, b)
    ensures IsBatch(lt, live, n + m, a + b)
  {
    var later := x => live(x) && lt(a[n - 1], x);
    var out := a + b;
    forall i, j | 0 <= i < j < |out| ensures lt(out[i], out[j]) {
      if i < n <= j {
        assert later(b[j - n]);
        assert i < n - 1 ==> lt(a[i], a[n - 1]);
      }
    }
    forall x | live(x) ensures x in out || (|out| == n + m && forall i :: 0 <= i < |out| ==> lt(out[i], x)) {
      if x !in a {
        assert later(x);
        if x !in b {
          assert forall i :: 0 <= i < |out| ==> lt(out[i], x);
        } else {
          assert x in out;
        }
      } else {
        assert x in out;
      }
    }
    forall i | 0 <= i < |out| ensures live(out[i]) {
      if i >= n { assert later(b[i - n]); }
    }
  }

  /* ---- the merge itself ---- */

  /** The cursor of one run stands between the keys up to `bound` and the later ones. */
  ghost predicate CutRun<K(!new)>(lt: (K, K) -> bool, run: seq<Item<K>>, pos: nat, bound: Option<K>) {
    && pos <= |run|
    && (bound.None? ==> pos == 0)
    && (bound.Some? ==> forall i :: 0 <= i < |run| ==> (i < pos <==> !lt(bound.value, run[i].key)))
  }

  ghost predicate Cut<K(!new)>(lt: (K, K) -> bool, s: seq<K>, pos: nat, bound: Option<K>) {
    && pos <= |s|
    && (bound.None? ==> pos == 0)
    && (bound.Some? ==> forall i :: 0 <= i < |s| ==> (i < pos <==> !lt(bound.value, s[i])))
  }

  ghost predicate CutRuns<K(!new)>(lt: (K, K) -> bool, runs: seq<seq<Item<K>>>, pos: seq<nat>, bound: Option<K>) {
    |pos| == |runs| && forall r :: 0 <= r < |runs| ==> CutRun(lt, runs[r], pos[r], bound)
  }

  function Min<K>(lt: (K, K) -> bool, a: Option<K>, b: Option<K>): Option<K> {
    if a.None? then b else if b.None? || !lt(b.value, a.value) then a else b
  }

  function Head<K>(s: seq<K>, pos: nat): Option<K> {
    if pos < |s| then Some(s[pos]) else None
  }

  /** The smallest head among the run cursors. */
  method MinRunHead<K(!new)>(lt: (K, K) -> bool, runs: seq<seq<Item<K>>>, pos: seq<nat>) returns (m: Option<K>)
    requires StrictTotal(lt)
    requires |pos| == |runs|
    ensures m.None? <==> forall r :: 0 <= r < |runs| ==> pos[r] >= |runs[r]|
    ensures m.Some? ==> exists r :: 0 <= r < |runs| && pos[r] < |runs[r]| && runs[r][pos[r]].key == m.value
    ensures m.Some? ==> forall r :: 0 <= r < |runs| && pos[r] < |runs[r]| ==> !lt(runs[r][pos[r]].key, m.value)
  {
    m := None;
    for c := 0 to |runs|
      invariant m.None? <==> forall r :: 0 <= r < c ==> pos[r] >= |runs[r]|
      invariant m.Some? ==> exists r :: 0 <= r < c && pos[r] < |runs[r]| && runs[r][pos[r]].key == m.value
      invariant m.Some? ==> forall r :: 0 <= r < c && pos[r] < |runs[r]| ==> !lt(runs[r][pos[r]].key, m.value)
    {
      if pos[c] < |runs[c]| { m := Min(lt, m, Some(runs[c][pos[c]].key)); }
    }
  }

  /** Consume every entry of one run for the key `x`, keeping the newest operation. */
  method DrainRun<K(==, !new)>(lt: (K, K) -> bool, run: seq<Item<K>>, start: nat, x: K, ghost bound: Option<K>,
                               ghost seen: set<VOp>, newest0: Option<VOp>) returns (pos: nat, newest: Option<VOp>)
    requires StrictTotal(lt) && SortedRun(lt, run)
    requires CutRun(lt, run, start, bound) && (bound.Some? ==> lt(bound.value, x))
    requires start < |run| ==> !lt(run[start].key, x)
    requires IsNewest(seen, newest0)
    ensures CutRun(lt, run, pos, Some(x))
    ensures IsNewest(seen + RunOps(run, x), newest)
  {
    pos, newest := start, newest0;
    while pos < |run| && run[pos].key == x
      invariant start <= pos <= |run|
      invariant forall i :: start <= i < pos ==> run[i].key == x
      invariant IsNewest(seen + Slots(run, start, pos), newest)
    {
      NewestOfOneMore(seen + Slots(run, start, pos), newest, run[pos].vop);
      assert seen + Slots(run, start, pos + 1) == seen + Slots(run, start, pos) + {run[pos].vop};
      if newest.None? || Newer(run[pos].vop, newest.value) { newest := Some(run[pos].vop); }
      pos := pos + 1;
    }
    Drained(lt, run, start, pos, x, bound);
  }

  ghost function Slots<K>(run: seq<Item<K>>, from: nat, to: nat): set<VOp>
    requires from <= to <= |run|
  {
    set i | from <= i < to :: run[i].vop
  }

  lemma NewestOfOneMore(ops: set<VOp>, n: Option<VOp>, v: VOp)
    requires IsNewest(ops, n)
    ensures IsNewest(ops + {v}, if n.None? || Newer(v, n.value) then Some(v) else n)
  {
  }

  /** What was consumed is all the run holds for `x`. */
  lemma Drained<K(!new)>(lt: (K, K) -> bool, run: seq<Item<K>>, start: nat, pos: nat, x: K, bound: Option<K>)
    requires StrictTotal(lt) && SortedRun(lt, run)
    requires CutRun(lt, run, start, bound) && (bound.Some? ==> lt(bound.value, x))
    requires start < |run| ==> !lt(run[start].key, x)
    requires start <= pos <= |run| && forall i :: start <= i < pos ==> run[i].key == x
    requires pos < |run| ==> run[pos].key != x
    ensures CutRun(lt, run, pos, Some(x)) && RunOps(run, x) == Slots(run, start, pos)
  {
    forall i | 0 <= i < start ensures lt(run[i].key, x) {
      assert bound.Some? && !lt(bound.value, run[i].key);
    }
    forall i | pos <= i < |run| ensures lt(x, run[i].key) {
      assert !lt(run[pos].key, x);
      assert i == pos || !lt(run[i].key, run[pos].key);
    }
  }

  /** Consume `x` from every run; the result is the newest operation any run holds for it. */
  method DrainRuns<K(==, !new)>(lt: (K, K) -> bool, runs: seq<seq<Item<K>>>, start: seq<nat>, x: K,
                                ghost bound: Option<K>)
      returns (pos: seq<nat>, newest: Option<VOp>)
    requires StrictTotal(lt) && forall r :: 0 <= r < |runs| ==> SortedRun(lt, runs[r])
    requires CutRuns(lt, runs, start, bound) && (bound.Some? ==> lt(bound.value, x))
    requires forall r :: 0 <= r < |runs| && start[r] < |runs[r]| ==> !lt(runs[r][start[r]].key, x)
    ensures CutRuns(lt, runs, pos, Some(x))
    ensures newest == Newest(OpsIn(runs, x))
  {
    pos, newest := [], None;
    for c := 0 to |runs|
      invariant |pos| == c && forall r :: 0 <= r < c ==> CutRun(lt, runs[r], pos[r], Some(x))
      invariant IsNewest(OpsIn(runs[..c], x), newest)
    {
      var p;
      p, newest := DrainRun(lt, runs[c], start[c], x, bound, OpsIn(runs[..c], x), newest);
      pos := pos + [p];
      OpsInExtend(runs[..c], runs[c], x);
      assert runs[..c] + [runs[c]] == runs[..c + 1];
    }
    assert runs[..|runs|] == runs;
  }

  lemma OpsInExtend<K(!new)>(runs: seq<seq<Item<K>>>, run: seq<Item<K>>, x: K)
    ensures OpsIn(runs + [run], x) == OpsIn(runs, x) + RunOps(run, x)
  {
    var all := runs + [run];
    forall o | o in OpsIn(runs, x) + RunOps(run, x) ensures o in OpsIn(all, x) {
      if o in OpsIn(runs, x) {
        var r, i :| 0 <= r < |runs| && 0 <= i < |runs[r]| && runs[r][i].key == x && runs[r][i].vop == o;
        assert all[r][i].key == x && all[r][i].vop == o;
      } else {
        var i :| 0 <= i < |run| && run[i].key == x && run[i].vop == o;
        assert all[|runs|][i].key == x && all[|runs|][i].vop == o;
      }
    }
  }

  /** Advance an overlay iterator that stands on `x`. */
  method Step<K(==, !new)>(lt: (K, K) -> bool, s: seq<K>, start: nat, x: K, ghost bound: Option<K>)
      returns (pos: nat, hit: bool)
    requires StrictTotal(lt) && Ascending(lt, s)
    requires Cut(lt, s, start, bound) && (bound.Some? ==> lt(bound.value, x))
    requires start < |s| ==> !lt(s[start], x)
    ensures Cut(lt, s, pos, Some(x))
    ensures hit <==> x in s
  {
    pos, hit := start, false;
    if start < |s| && s[start] == x { pos, hit := start + 1, true; }
    assert forall i :: pos <= i < |s| ==> lt(x, s[i]);
    assert forall i :: 0 <= i < start ==> lt(s[i], x);
  }

  datatype Cursors = Cursors(runs: seq<nat>, frozenAdded: nat, frozenRemoved: nat, added: nat, removed: nat)

  /** Every cursor stands just past `bound`. */
  ghost predicate CutAll<K(!new)>(lt: (K, K) -> bool, runs: seq<seq<Item<K>>>, o: Overlay<K>, c: Cursors,
                                  bound: Option<K>) {
    && CutRuns(lt, runs, c.runs, bound)
    && Cut(lt, o.frozenAdded, c.frozenAdded, bound) && Cut(lt, o.frozenRemoved, c.frozenRemoved, bound)
    && Cut(lt, o.added, c.added, bound) && Cut(lt, o.removed, c.removed, bound)
  }

  /** The keys some stream still holds past `bound`. */
  ghost predicate IsPending<K(!new)>(lt: (K, K) -> bool, runs: seq<seq<Item<K>>>, o: Overlay<K>, bound: Option<K>,
                                     x: K) {
    && (bound.Some? ==> lt(bound.value, x))
    && (x in o.frozenAdded || x in o.frozenRemoved || x in o.added || x in o.removed || OpsIn(runs, x) != {})
  }

  ghost function Keys<K(!new)>(runs: seq<seq<Item<K>>>, o: Overlay<K>): set<K> {
    (set r, i | 0 <= r < |runs| && 0 <= i < |runs[r]| :: runs[r][i].key)
    + (set x | x in o.frozenAdded) + (set x | x in o.frozenRemoved) + (set x | x in o.added) + (set x | x in o.removed)
  }

  ghost function Pending<K(!new)>(lt: (K, K) -> bool, runs: seq<seq<Item<K>>>, o: Overlay<K>,
                                  bound: Option<K>): set<K> {
    set x | x in Keys(runs, o) && IsPending(lt, runs, o, bound, x)
  }

  lemma HeadsBound<K(!new)>(lt: (K, K) -> bool, s: seq<K>, pos: nat, bound: Option<K>, x: K)
    requires StrictTotal(lt) && Ascending(lt, s) && Cut(lt, s, pos, bound)
    requires x in s && (bound.Some? ==> lt(bound.value, x))
    ensures pos < |s| && !lt(x, s[pos])
  {
    var i :| 0 <= i < |s| && s[i] == x;
    assert pos <= i;
  }

  lemma RunHeadsBound<K(!new)>(lt: (K, K) -> bool, runs: seq<seq<Item<K>>>, pos: seq<nat>, bound: Option<K>, x: K)
      returns (r: nat)
    requires StrictTotal(lt) && (forall r :: 0 <= r < |runs| ==> SortedRun(lt, runs[r]))
      && CutRuns(lt, runs, pos, bound)
    requires OpsIn(runs, x) != {} && (bound.Some? ==> lt(bound.value, x))
    ensures r < |runs| && pos[r] < |runs[r]| && !lt(x, runs[r][pos[r]].key)
  {
    var op :| op in OpsIn(runs, x);
    var q, i :| 0 <= q < |runs| && 0 <= i < |runs[q]| && runs[q][i].key == x && runs[q][i].vop == op;
    r := q;
    assert CutRun(lt, runs[q], pos[q], bound) && SortedRun(lt, runs[q]);
    assert pos[q] <= i;
  }

  /** The smallest key not yet merged, taken from the heads of all cursors. */
  method NextKey<K(!new)>(lt: (K, K) -> bool, runs: seq<seq<Item<K>>>, o: Overlay<K>, c: Cursors,
                          ghost bound: Option<K>)
      returns (next: Option<K>)
    requires StrictTotal(lt) && SortedStreams(lt, runs, o) && CutAll(lt, runs, o, c, bound)
    ensures next.Some? ==> IsPending(lt, runs, o, bound, next.value)
    ensures forall x :: IsPending(lt, runs, o, bound, x) ==> next.Some? && !lt(x, next.value)
  {
    var a := MinRunHead(lt, runs, c.runs);
    var b := Min(lt, a, Head(o.frozenAdded, c.frozenAdded));
    var d := Min(lt, b, Head(o.frozenRemoved, c.frozenRemoved));
    var e := Min(lt, d, Head(o.added, c.added));
    next := Min(lt, e, Head(o.removed, c.removed));
    if a.Some? {
      ghost var r :| 0 <= r < |runs| && c.runs[r] < |runs[r]| && runs[r][c.runs[r]].key == a.value;
      assert CutRun(lt, runs[r], c.runs[r], bound);
      assert runs[r][c.runs[r]].vop in OpsIn(runs, a.value);
    }
    forall x | IsPending(lt, runs, o, bound, x) ensures next.Some? && !lt(x, next.value) {
      if x in o.frozenAdded { HeadsBound(lt, o.frozenAdded, c.frozenAdded, bound, x); }
      else if x in o.frozenRemoved { HeadsBound(lt, o.frozenRemoved, c.frozenRemoved, bound, x); }
      else if x in o.added { HeadsBound(lt, o.added, c.added, bound, x); }
      else if x in o.removed { HeadsBound(lt, o.removed, c.removed, bound, x); }
      else { var r := RunHeadsBound(lt, runs, c.runs, bound, x); }
    }
  }

  /** No cursor stands before the smallest pending key. */
  lemma HeadsFromHere<K(!new)>(lt: (K, K) -> bool, runs: seq<seq<Item<K>>>, o: Overlay<K>, c: Cursors, x: K,
                               bound: Option<K>)
    requires CutAll(lt, runs, o, c, bound)
    requires forall y :: IsPending(lt, runs, o, bound, y) ==> !lt(y, x)
    ensures forall r :: 0 <= r < |runs| && c.runs[r] < |runs[r]| ==> !lt(runs[r][c.runs[r]].key, x)
    ensures c.frozenAdded < |o.frozenAdded| ==> !lt(o.frozenAdded[c.frozenAdded], x)
    ensures c.frozenRemoved < |o.frozenRemoved| ==> !lt(o.frozenRemoved[c.frozenRemoved], x)
    ensures c.added < |o.added| ==> !lt(o.added[c.added], x)
    ensures c.removed < |o.removed| ==> !lt(o.removed[c.removed], x)
  {
    forall r | 0 <= r < |runs| && c.runs[r] < |runs[r]| ensures !lt(runs[r][c.runs[r]].key, x) {
      var y := runs[r][c.runs[r]].key;
      assert CutRun(lt, runs[r], c.runs[r], bound);
      assert runs[r][c.runs[r]].vop in OpsIn(runs, y);
      assert IsPending(lt, runs, o, bound, y);
    }
    assert c.frozenAdded < |o.frozenAdded| ==> IsPending(lt, runs, o, bound, o.frozenAdded[c.frozenAdded]);
    assert c.frozenRemoved < |o.frozenRemoved| ==> IsPending(lt, runs, o, bound, o.frozenRemoved[c.frozenRemoved]);
    assert c.added < |o.added| ==> IsPending(lt, runs, o, bound, o.added[c.added]);
    assert c.removed < |o.removed| ==> IsPending(lt, runs, o, bound, o.removed[c.removed]);
  }

  /** Consume `x` from every cursor and decide whether it survives. */
  method Consume<K(==, !new)>(lt: (K, K) -> bool, runs: seq<seq<Item<K>>>, o: Overlay<K>, c: Cursors, x: K,
                              ghost bound: Option<K>)
      returns (c': Cursors, keep: bool)
    requires StrictTotal(lt) && SortedStreams(lt, runs, o) && CutAll(lt, runs, o, c, bound)
    requires bound.Some? ==> lt(bound.value, x)
    requires forall y :: IsPending(lt, runs, o, bound, y) ==> !lt(y, x)
    ensures CutAll(lt, runs, o, c', Some(x))
    ensures keep <==> Live(runs, o, x)
  {
    HeadsFromHere(lt, runs, o, c, x, bound);
    var pos, newest := DrainRuns(lt, runs, c.runs, x, bound);
    var fa, hitFa := Step(lt, o.frozenAdded, c.frozenAdded, x, bound);
    var fr, hitFr := Step(lt, o.frozenRemoved, c.frozenRemoved, x, bound);
    var ad, hitAd := Step(lt, o.added, c.added, x, bound);
    var re, hitRe := Step(lt, o.removed, c.removed, x, bound);
    keep := Decide(newest, o.gen, hitFa, hitFr, hitAd, hitRe);
    c' := Cursors(pos, fa, fr, ad, re);
  }

  /** Fold the overlay hits of one key over the newest run operation, in the order the
      merge visits them. */
  method Decide(runNewest: Option<VOp>, gen: nat, hitFa: bool, hitFr: bool, hitAd: bool, hitRe: bool)
    returns (keep: bool)
    ensures keep <==> !hitRe && (hitAd || IsAdd(WithFrozen(runNewest, gen, hitFa, hitFr)))
  {
    var newest := runNewest;
    if hitFa && (newest.None? || gen > newest.value.version) { newest := Some(VOp(gen, Add)); }
    if hitFr && (newest.None? || gen >= newest.value.version) { newest := Some(VOp(gen, Delete)); }
    keep := IsAdd(newest);
    if hitAd { keep := true; }
    if hitRe { keep := false; }
  }

  /** The merge loop. */
  method Merge<K(==, !new)>(lt: (K, K) -> bool, runs: seq<seq<Item<K>>>, o: Overlay<K>, limit: nat)
    returns (out: seq<K>)
    requires StrictTotal(lt) && SortedStreams(lt, runs, o)
    ensures IsBatch(lt, x => Live(runs, o, x), limit, out)
  {
    out := [];
    if limit == 0 { return; }
    var c := Cursors(seq(|runs|, _ => 0), 0, 0, 0, 0);
    ghost var bound: Option<K> := None;
    while true
      invariant CutAll(lt, runs, o, c, bound) && OutUpTo(lt, runs, o, bound, out) && |out| < limit
      decreases Pending(lt, runs, o, bound)
    {
      var next := NextKey(lt, runs, o, c, bound);
      if next.None? { break; }
      var x := next.value;
      var keep;
      c, keep := Consume(lt, runs, o, c, x, bound);
      OutStep(lt, runs, o, bound, out, x);
      PendingShrinks(lt, runs, o, bound, x);
      bound := Some(x);
      if keep {
        out := out + [x];
        if |out| == limit { break; }
      }
    }
    OutIsBatch(lt, runs, o, bound, limit, out);
  }

  /** `out` holds exactly the live keys up to `bound`, in order. */
  ghost predicate OutUpTo<K(!new)>(lt: (K, K) -> bool, runs: seq<seq<Item<K>>>, o: Overlay<K>, bound: Option<K>,
                                   out: seq<K>) {
    && Ascending(lt, out)
    && (forall i :: 0 <= i < |out| ==> Live(runs, o, out[i]) && bound.Some? && !lt(bound.value, out[i]))
    && (forall x :: Live(runs, o, x) ==> x in out || IsPending(lt, runs, o, bound, x))
  }

  lemma OutStep<K(!new)>(lt: (K, K) -> bool, runs: seq<seq<Item<K>>>, o: Overlay<K>, bound: Option<K>, out: seq<K>,
                         x: K)
    requires StrictTotal(lt) && OutUpTo(lt, runs, o, bound, out)
    requires IsPending(lt, runs, o, bound, x) && forall y :: IsPending(lt, runs, o, bound, y) ==> !lt(y, x)
    ensures OutUpTo(lt, runs, o, Some(x), if Live(runs, o, x) then out + [x] else out)
  {
    forall y | IsPending(lt, runs, o, bound, y) ensures y == x || IsPending(lt, runs, o, Some(x), y) {
      assert !lt(y, x);
    }
  }

  /** Stopping when nothing is pending, or when the batch is full. */
  lemma OutIsBatch<K(!new)>(lt: (K, K) -> bool, runs: seq<seq<Item<K>>>, o: Overlay<K>, bound: Option<K>, limit: nat,
                            out: seq<K>)
    requires StrictTotal(lt) && OutUpTo(lt, runs, o, bound, out) && |out| <= limit
    requires |out| == limit || forall y :: !IsPending(lt, runs, o, bound, y)
    ensures IsBatch(lt, x => Live(runs, o, x), limit, out)
  {
  }

  lemma PendingShrinks<K(!new)>(lt: (K, K) -> bool, runs: seq<seq<Item<K>>>, o: Overlay<K>, bound: Option<K>, x: K)
    requires StrictTotal(lt) && IsPending(lt, runs, o, bound, x)
    ensures Pending(lt, runs, o, Some(x)) < Pending(lt, runs, o, bound)
  {
    if OpsIn(runs, x) != {} {
      var op :| op in OpsIn(runs, x);
      var r, i :| 0 <= r < |runs| && 0 <= i < |runs[r]| && runs[r][i].key == x && runs[r][i].vop == op;
    }
    assert x in Pending(lt, runs, o, bound);
  }

  /* ---- promotion ---- */

  /** The one operation a promoted run keeps for a key. */
  ghost function Latest<K(!new)>(runs: seq<seq<Item<K>>>, x: K): set<VOp> {
    match Newest(OpsIn(runs, x)) case None => {} case Some(o) => {o}
  }

  /** Merge sorted runs, retaining only the newest operation of each key. */
  method MergeLatest<K(==, !new)>(lt: (K, K) -> bool, runs: seq<seq<Item<K>>>) returns (merged: seq<Item<K>>)
    requires StrictTotal(lt) && forall r :: 0 <= r < |runs| ==> SortedRun(lt, runs[r])
    ensures SortedRun(lt, merged)
    ensures forall x :: RunOps(merged, x) == Latest(runs, x)
  {
    var o: Overlay<K> := Overlay(0, [], [], [], []);
    var c := Cursors(seq(|runs|, _ => 0), 0, 0, 0, 0);
    ghost var bound: Option<K> := None;
    merged := [];
    while true
      invariant CutAll(lt, runs, o, c, bound) && MergedUpTo(lt, runs, o, bound, merged)
      decreases Pending(lt, runs, o, bound)
    {
      var next := NextKey(lt, runs, o, c, bound);
      if next.None? { break; }
      var x := next.value;
      HeadsFromHere(lt, runs, o, c, x, bound);
      var pos, newest := DrainRuns(lt, runs, c.runs, x, bound);
      MergedStep(lt, runs, o, bound, merged, x);
      c, merged := c.(runs := pos), merged + [Item(x, newest.value)];
      PendingShrinks(lt, runs, o, bound, x);
      bound := Some(x);
    }
    forall x ensures RunOps(merged, x) == Latest(runs, x) { LatestOfMerged(runs, merged, x); }
  }

  /** `merged` holds exactly the keys up to `bound`, each with its newest operation. */
  ghost predicate MergedUpTo<K(!new)>(lt: (K, K) -> bool, runs: seq<seq<Item<K>>>, o: Overlay<K>, bound: Option<K>,
                                      merged: seq<Item<K>>) {
    && (forall i, j :: 0 <= i < j < |merged| ==> lt(merged[i].key, merged[j].key))
    && (forall i :: 0 <= i < |merged| ==> bound.Some? && !lt(bound.value, merged[i].key))
    && (forall i :: 0 <= i < |merged| ==> Newest(OpsIn(runs, merged[i].key)) == Some(merged[i].vop))
    && (forall x :: OpsIn(runs, x) != {} ==>
                      IsPending(lt, runs, o, bound, x) || exists i :: 0 <= i < |merged| && merged[i].key == x)
  }

  lemma MergedStep<K(!new)>(lt: (K, K) -> bool, runs: seq<seq<Item<K>>>, o: Overlay<K>, bound: Option<K>,
                            merged: seq<Item<K>>, x: K)
    requires StrictTotal(lt) && MergedUpTo(lt, runs, o, bound, merged)
    requires IsPending(lt, runs, o, bound, x) && forall y :: IsPending(lt, runs, o, bound, y) ==> !lt(y, x)
    requires o.frozenAdded == [] && o.frozenRemoved == [] && o.added == [] && o.removed == []
    ensures Newest(OpsIn(runs, x)).Some?
    ensures MergedUpTo(lt, runs, o, Some(x), merged + [Item(x, Newest(OpsIn(runs, x)).value)])
  {
    var more := merged + [Item(x, Newest(OpsIn(runs, x)).value)];
    assert more[|merged|].key == x;
    assert forall i :: 0 <= i < |merged| ==> more[i] == merged[i];
    forall y | OpsIn(runs, y) != {}
      ensures IsPending(lt, runs, o, Some(x), y) || exists i :: 0 <= i < |more| && more[i].key == y
    {
      if !IsPending(lt, runs, o, bound, y) {
        var i :| 0 <= i < |merged| && merged[i].key == y;
        assert more[i].key == y;
      }
    }
  }

  lemma LatestOfMerged<K(!new)>(runs: seq<seq<Item<K>>>, merged: seq<Item<K>>, x: K)
    requires forall i :: 0 <= i < |merged| ==> Newest(OpsIn(runs, merged[i].key)) == Some(merged[i].vop)
    requires OpsIn(runs, x) != {} ==> exists i :: 0 <= i < |merged| && merged[i].key == x
    ensures RunOps(merged, x) == Latest(runs, x)
  {
    if OpsIn(runs, x) != {} {
      var i :| 0 <= i < |merged| && merged[i].key == x;
      assert merged[i].vop in RunOps(merged, x);
    } else {
      assert Newest(OpsIn(runs, x)) == None;
    }
  }
}
