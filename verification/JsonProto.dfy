/** Which documents the exact parser understands as written: a member called `__proto__` is
    assigned to the object's prototype and is not a property of the result. */
module JsonProto {
  import opened Order
  import opened JsonText
  import opened ExactJson
  import opened JsonRoundTrip

  /** No object anywhere in the document has a member called `__proto__`. */
  predicate ProtoFree(d: Doc)
    requires Good(d)
  {
    match d
    case Array(items) => ProtoFreeItems(items)
    case Object(ms) => ProtoFreeMembers(ms)
    case _ => true
  }

  predicate ProtoFreeItems(items: Items)
    requires GoodItems(items)
  {
    ProtoFree(items.value) && (items.More? ==> ProtoFreeItems(items.rest))
  }

  predicate ProtoFreeMembers(ms: Members)
    requires GoodMembers(ms)
  {
    PiecesValue(ms.m.key) != PROTO && ProtoFree(ms.m.value) && (ms.MoreMembers? ==> ProtoFreeMembers(ms.rest))
  }

  function Keys(ms: Members): set<Text>
    requires GoodMembers(ms)
  {
    {PiecesValue(ms.m.key)} + if ms.LastMember? then {} else Keys(ms.rest)
  }

  /** The members of every object have different names. */
  predicate Distinct(d: Doc)
    requires Good(d)
  {
    match d
    case Array(items) => DistinctItems(items)
    case Object(ms) => DistinctMembers(ms)
    case _ => true
  }

  predicate DistinctItems(items: Items)
    requires GoodItems(items)
  {
    Distinct(items.value) && (items.More? ==> DistinctItems(items.rest))
  }

  predicate DistinctMembers(ms: Members)
    requires GoodMembers(ms)
  {
    Distinct(ms.m.value) && (ms.MoreMembers? ==> PiecesValue(ms.m.key) !in Keys(ms.rest) && DistinctMembers(ms.rest))
  }

  /* ---- without such a member nothing is lost ---- */

  lemma {:induction false} FreeIsExact(d: Doc)
    requires Good(d) && ProtoFree(d)
    ensures Meaning(d, false) == Meaning(d, true)
  {
    match d
    case Array(items) => FreeItemsExact(items, []);
    case Object(ms) => FreeMembersExact(ms, NO_FIELDS);
    case _ =>
  }

  lemma {:induction false} FreeItemsExact(items: Items, out: seq<Json>)
    requires GoodItems(items) && ProtoFreeItems(items)
    ensures ItemsMeaning(items, out, false) == ItemsMeaning(items, out, true)
  {
    FreeIsExact(items.value);
    if items.More? {
      FreeItemsExact(items.rest, out + [Meaning(items.value, true)]);
    }
  }

  lemma {:induction false} FreeMembersExact(ms: Members, out: Fields)
    requires GoodMembers(ms) && ProtoFreeMembers(ms)
    ensures MembersMeaning(ms, out, false) == MembersMeaning(ms, out, true)
  {
    FreeIsExact(ms.m.value);
    if ms.MoreMembers? {
      FreeMembersExact(ms.rest, Assign(out, PiecesValue(ms.m.key), Meaning(ms.m.value, true), true));
    }
  }

  /* ---- with one, something is ---- */

  lemma {:induction false} ItemsExtend(items: Items, out: seq<Json>, own: bool)
    requires GoodItems(items)
    ensures out + [Meaning(items.value, own)] <= ItemsMeaning(items, out, own)
  {
    if items.More? {
      ItemsExtend(items.rest, out + [Meaning(items.value, own)], own);
    }
  }

  lemma {:induction false} OtherKeysKept(ms: Members, out: Fields, exact: bool, key: Text)
    requires GoodMembers(ms) && key !in Keys(ms)
    ensures
      var after := MembersMeaning(ms, out, exact).own;
      (key in after <==> key in out.own) && (key in out.own ==> after[key] == out.own[key])
  {
    if ms.MoreMembers? {
      OtherKeysKept(ms.rest, Assign(out, PiecesValue(ms.m.key), Meaning(ms.m.value, exact), exact), exact, key);
    }
  }

  lemma {:induction false} LossShows(d: Doc)
    requires Good(d) && Distinct(d) && !ProtoFree(d)
    ensures Meaning(d, false) != Meaning(d, true)
  {
    match d
    case Array(items) => LossShowsItems(items, [], []);
    case Object(ms) => LossShowsMembers(ms, NO_FIELDS, NO_FIELDS);
  }

  lemma {:induction false} LossShowsItems(items: Items, a: seq<Json>, b: seq<Json>)
    requires GoodItems(items) && DistinctItems(items) && !ProtoFreeItems(items) && |a| == |b|
    ensures ItemsMeaning(items, a, false) != ItemsMeaning(items, b, true)
  {
    var x, y := Meaning(items.value, false), Meaning(items.value, true);
    if !ProtoFree(items.value) {
      LossShows(items.value);
      ItemsExtend(items, a, false);
      ItemsExtend(items, b, true);
      assert (a + [x])[|a|] == x && (b + [y])[|a|] == y;
    } else {
      LossShowsItems(items.rest, a + [x], b + [y]);
    }
  }

  lemma {:induction false} LossShowsMembers(ms: Members, a: Fields, b: Fields)
    requires GoodMembers(ms) && DistinctMembers(ms) && !ProtoFreeMembers(ms) && PROTO !in a.own && a.ordinary
    ensures MembersMeaning(ms, a, false) != MembersMeaning(ms, b, true)
  {
    var key := PiecesValue(ms.m.key);
    var x, y := Meaning(ms.m.value, false), Meaning(ms.m.value, true);
    var p, q := Assign(a, key, x, false), Assign(b, key, y, true);
    if key == PROTO || !ProtoFree(ms.m.value) {
      if ms.MoreMembers? {
        OtherKeysKept(ms.rest, p, false, key);
        OtherKeysKept(ms.rest, q, true, key);
      }
      if key != PROTO { LossShows(ms.m.value); }
      assert key in MembersMeaning(ms, b, true).own;
    } else {
      LossShowsMembers(ms.rest, p, q);
    }
  }

  /** The parser's result is the document's value exactly when no object of the document
      has a member called `__proto__`. */
  lemma {:induction false} ExactUnlessProto(d: Doc)
    requires Good(d) && Distinct(d)
    ensures Meaning(d, false) == Meaning(d, true) <==> ProtoFree(d)
  {
    if ProtoFree(d) {
      FreeIsExact(d);
    } else {
      LossShows(d);
    }
  }

  /** Text spelled without escapes. */
  function Unescaped(s: Text): seq<Piece> {
    if s == [] then [] else [Plain(s[0])] + Unescaped(s[1..])
  }

  lemma {:induction false} UnescapedValue(s: Text)
    requires forall i :: 0 <= i < |s| ==> GoodPiece(Plain(s[i]))
    ensures GoodPieces(Unescaped(s)) && PiecesValue(Unescaped(s)) == s
  {
    if s != [] {
      UnescapedValue(s[1..]);
    }
  }

  /** `{"__proto__":null}` comes back as an object without properties. */
  lemma {:induction false} ProtoExample(m: Member)
    requires m == Member([], Unescaped(PROTO), [], [], Null, [])
    ensures GoodMembers(LastMember(m)) && Distinct(Object(LastMember(m)))
    ensures Meaning(Object(LastMember(m)), false) == JObject(Fields(map[], false))
    ensures PROTO in MembersMeaning(LastMember(m), NO_FIELDS, true).own
  {
    UnescapedValue(PROTO);
    assert Meaning(m.value, false) == JNull;
    var fields := MembersMeaning(LastMember(m), NO_FIELDS, false);
    assert fields == Assign(NO_FIELDS, PROTO, JNull, false) == NO_FIELDS.(ordinary := false);
  }

  /** Once null is the prototype, a repeated `__proto__` is a property after all. */
  lemma {:induction false} RepeatedProtoExample(m: Member, n: Member)
    requires m == Member([], Unescaped(PROTO), [], [], Null, [])
    requires n == Member([], Unescaped(PROTO), [], [], Bool(true), [])
    ensures GoodMembers(MoreMembers(m, LastMember(n)))
    ensures MembersMeaning(MoreMembers(m, LastMember(n)), NO_FIELDS, false).own == NO_FIELDS.own[PROTO := JBool(true)]
  {
    UnescapedValue(PROTO);
    assert Meaning(m.value, false) == JNull && Meaning(n.value, false) == JBool(true);
    var first := Assign(NO_FIELDS, PROTO, JNull, false);
    assert first == NO_FIELDS.(ordinary := false);
    var ms := MoreMembers(m, LastMember(n));
    assert GoodMembers(ms.rest) && GoodMembers(ms);
    assert MembersMeaning(ms, NO_FIELDS, false) == MembersMeaning(ms.rest, first, false);
    assert MembersMeaning(ms.rest, first, false) == Assign(first, PROTO, JBool(true), false);
  }

  /** So is one behind a prototype that itself has none, but not behind an ordinary object. */
  lemma {:induction false} ProtoChainExample(out: Fields, inner: Fields, v: Json)
    requires out.ordinary
    ensures var after := Assign(Assign(out, PROTO, JObject(inner), false), PROTO, v, false);
            after.own == if inner.ordinary then out.own else out.own[PROTO := v]
  {
  }
}
