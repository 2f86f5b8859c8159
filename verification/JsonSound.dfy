/** Every text the parser accepts is a document, and the result is what that document means:
    with the other direction, the parser accepts exactly the documents. */
module JsonSound {
  import opened Order
  import opened JsonText
  import opened ExactJson
  import opened JsonRoundTrip

  /* ---- pieces of text ---- */

  lemma Glue(text: Text, a: nat, b: nat, c: nat)
    requires a <= b <= c <= |text|
    ensures text[a..b] + text[b..c] == text[a..c]
  {
  }

  lemma One(text: Text, i: nat)
    requires i < |text|
    ensures text[i..i + 1] == [text[i]]
  {
  }

  lemma {:induction false} SkippedAreSpaces(text: Text, i: nat)
    requires i <= |text|
    ensures Spaces(text[i..SkipSpaces(text, i)])
    decreases |text| - i
  {
    var k := SkipSpaces(text, i);
    if i < |text| && IsSpace(text[i]) {
      SkippedAreSpaces(text, i + 1);
      Glue(text, i, i + 1, k);
      One(text, i);
    }
  }

  lemma {:induction false} TakenAreDigits(text: Text, i: nat)
    requires i <= |text|
    ensures Digits(text[i..DigitsEnd(text, i)])
    decreases |text| - i
  {
    var k := DigitsEnd(text, i);
    if i < |text| && IsDigit(text[i]) {
      TakenAreDigits(text, i + 1);
      Glue(text, i, i + 1, k);
      One(text, i);
    }
  }

  /* ---- strings ---- */

  /** The piece at a position of a token that decodes. */
  lemma {:induction false} PieceAt(body: Text, k: nat) returns (p: Piece)
    requires k < |body| && Unescape(body, k).Some?
    ensures GoodPiece(p) && k + |PieceText(p)| <= |body| && body[k..k + |PieceText(p)|] == PieceText(p)
    ensures var rest := Unescape(body, k + |PieceText(p)|);
            rest.Some? && Unescape(body, k) == Some([PieceValue(p)] + rest.value)
  {
    if body[k] != BACKSLASH {
      p := Plain(body[k]);
    } else if k + 1 < |body| && ShortValue(body[k + 1]).Some? {
      p := Short(body[k + 1]);
    } else {
      p := Hex(body[k + 2], body[k + 3], body[k + 4], body[k + 5]);
    }
  }

  lemma {:induction false} UnescapedPieces(body: Text, k: nat) returns (ps: seq<Piece>)
    requires k <= |body| && Unescape(body, k).Some?
    ensures GoodPieces(ps) && PiecesText(ps) == body[k..|body|] && PiecesValue(ps) == Unescape(body, k).value
    decreases |body| - k
  {
    if k == |body| {
      ps := [];
    } else {
      var p := PieceAt(body, k);
      var rest := UnescapedPieces(body, k + |PieceText(p)|);
      ps := [p] + rest;
      assert ps[1..] == rest;
      Glue(body, k, k + |PieceText(p)|, |body|);
    }
  }

  lemma {:induction false} StringSound(text: Text, i: nat) returns (ps: seq<Piece>)
    requires i < |text| && text[i] == QUOTE && ParseString(text, i).Ok?
    ensures GoodPieces(ps) && PiecesValue(ps) == ParseString(text, i).value
    ensures text[i..ParseString(text, i).next] == StringText(ps)
  {
    var j := ScanEnd(text, i + 1);
    ps := BodySound(text[i + 1..j]);
    QuotedGlued(text, i, j);
  }

  lemma {:induction false} BodySound(body: Text) returns (ps: seq<Piece>)
    requires Unescape(body, 0).Some?
    ensures GoodPieces(ps) && PiecesText(ps) == body && PiecesValue(ps) == Unescape(body, 0).value
  {
    ps := UnescapedPieces(body, 0);
    assert body[0..|body|] == body;
  }

  lemma QuotedGlued(text: Text, i: nat, j: nat)
    requires i < j < |text| && text[i] == QUOTE && text[j] == QUOTE
    ensures text[i..j + 1] == [QUOTE] + (text[i + 1..j] + [QUOTE])
  {
    One(text, i);
    One(text, j);
    Glue(text, i + 1, j, j + 1);
    Glue(text, i, i + 1, j + 1);
  }

  /* ---- numbers ---- */

  lemma ExponentSound(text: Text, i: nat) returns (e: Exponent)
    requires i <= |text|
    ensures GoodExponent(e) && ExponentText(e) == text[i..ExponentEnd(text, i)]
    ensures e == NoExponent <==> ExponentEnd(text, i) == i
  {
    var end := ExponentEnd(text, i);
    if end == i {
      e := NoExponent;
    } else {
      var s := if At(text, i + 1) == PLUS || At(text, i + 1) == MINUS then i + 2 else i + 1;
      e := Exponent(text[i], text[i + 1..s], text[s..end]);
      TakenAreDigits(text, s);
      One(text, i);
      Glue(text, i + 1, s, end);
      Glue(text, i, i + 1, end);
      if s == i + 2 { One(text, i + 1); }
    }
  }

  lemma FractionSound(text: Text, whole: nat, end: nat) returns (f: Text)
    requires whole <= end <= |text|
    requires end == whole || (At(text, whole) == DOT && end == DigitsEnd(text, whole + 1) > whole + 1)
    ensures Digits(f) && FractionText(f) == text[whole..end] && (f == [] <==> end == whole)
  {
    if end == whole {
      f := [];
    } else {
      f := text[whole + 1..end];
      TakenAreDigits(text, whole + 1);
      One(text, whole);
      Glue(text, whole, whole + 1, end);
    }
  }

  lemma NumberSound(text: Text, i: nat) returns (d: Doc)
    requires i <= |text| && ParseNumber(text, i).Ok?
    ensures Good(d) && d.Number? && text[i..ParseNumber(text, i).next] == DocText(d)
    ensures ParseNumber(text, i).value == Meaning(d, false)
  {
    var m := MatchNumber(text, i);
    var f := FractionSound(text, m.whole, m.fraction);
    var e := ExponentSound(text, m.fraction);
    TakenAreDigits(text, m.start);
    d := Number(m.start > i, text[m.start..m.whole], f, e);
    SignAt(text, i);
    Glue(text, m.whole, m.fraction, m.end);
    Glue(text, m.start, m.whole, m.end);
    Glue(text, i, m.start, m.end);
    NumberFrom(text, i, m, d);
  }

  lemma SignAt(text: Text, i: nat)
    requires i <= |text| && MatchNumber(text, i).Match?
    ensures SignText(MatchNumber(text, i).start > i) == text[i..MatchNumber(text, i).start]
  {
    if At(text, i) == MINUS { One(text, i); }
  }

  /* ---- values ---- */

  lemma ScalarSound(text: Text, k: nat) returns (d: Doc)
    requires k <= |text| && ParseScalar(text, k).Ok?
    ensures Placed(text, k, d, k, ParseScalar(text, k).next) && ParseScalar(text, k).value == Meaning(d, false)
  {
    if At(text, k) == QUOTE {
      var ps := StringSound(text, k);
      d := String(ps);
    } else if ParseWord(text, k).Ok? {
      d := if StartsWith(text, k, TRUE) then Bool(true) else if StartsWith(text, k, FALSE) then Bool(false) else Null;
    } else {
      d := NumberSound(text, k);
    }
    assert text[k..k] == [];
  }

  /** What the parser reads as a value is the text of a document, and the value its meaning. */
  lemma {:induction false} ValueSound(text: Text, i: nat) returns (d: Doc, v: nat)
    requires i <= |text| && ParseValue(text, i).Ok?
    ensures Placed(text, i, d, v, ParseValue(text, i).next) && ParseValue(text, i).value == Meaning(d, false)
    decreases |text| - i, 1
  {
    v := SkipSpaces(text, i);
    SkippedAreSpaces(text, i);
    if At(text, v) == OPEN_BRACE {
      d := ObjectSound(text, v);
    } else if At(text, v) == OPEN_BRACKET {
      d := ArraySound(text, v);
    } else {
      d := ScalarSound(text, v);
    }
  }

  lemma {:induction false} ArraySound(text: Text, k: nat) returns (d: Doc)
    requires k < |text| && text[k] == OPEN_BRACKET && ParseArray(text, k).Ok?
    ensures Good(d) && text[k..ParseArray(text, k).next] == DocText(d) && ParseArray(text, k).value == Meaning(d, false)
    decreases |text| - k, 0
  {
    var e, end := SkipSpaces(text, k + 1), ParseArray(text, k).next;
    SkippedAreSpaces(text, k + 1);
    One(text, k);
    Glue(text, k, k + 1, end);
    if At(text, e) == CLOSE_BRACKET {
      d := EmptyArray(text[k + 1..e]);
      One(text, e);
      Glue(text, k + 1, e, end);
    } else {
      BehindReads(text, k);
      var items := ElementsSound(text, e, [], Behind(text, k));
      d := Array(Before(text[k + 1..e], items));
      Glue(text, k + 1, e, end);
      BeforeText(text[k + 1..e], items);
    }
  }

  /** The same elements with more whitespace in front. */
  function Before(w: Text, items: Items): Items {
    items.(before := w + items.before)
  }

  lemma {:induction false} BeforeText(w: Text, items: Items)
    requires Spaces(w) && GoodItems(items)
    ensures GoodItems(Before(w, items)) && ItemsText(Before(w, items)) == w + ItemsText(items)
    ensures ItemsMeaning(Before(w, items), [], false) == ItemsMeaning(items, [], false)
  {
    assert ItemsBody(Before(w, items)) == ItemsBody(items);
  }

  lemma {:induction false} ItemSound(text: Text, i: nat, read: Reader) returns (d: Doc, v: nat)
    requires i <= |text| && Reads(text, i, read) && read.requires(i) && read(i).Ok?
    ensures Placed(text, i, d, v, read(i).next) && read(i).value == Meaning(d, false)
    decreases |text| - i, 2
  {
    assert read(i) == ParseValue(text, i);
    d, v := ValueSound(text, i);
  }

  /** An element with what follows it. */
  function ItemText(before: Text, d: Doc, after: Text, tail: Text): Text {
    before + (DocText(d) + (after + tail))
  }

  lemma {:induction false} ItemIsFirst(before: Text, d: Doc, after: Text, rest: Items)
    ensures ItemsText(Last(before, d, after)) == ItemText(before, d, after, [CLOSE_BRACKET])
    ensures ItemsText(More(before, d, after, rest)) == ItemText(before, d, after, [COMMA] + ItemsText(rest))
  {
  }

  /** An element and the whitespace behind it. */
  lemma {:induction false} ElementSound(text: Text, i: nat, read: Reader)
    returns (before: Text, d: Doc, after: Text, c: nat)
    requires i <= |text| && Reads(text, i, read) && read.requires(i) && read(i).Ok?
    ensures read(i).next <= |text| && c == SkipSpaces(text, read(i).next) && i <= c
    ensures Spaces(before) && Spaces(after) && Good(d) && read(i).value == Meaning(d, false)
    ensures forall end :: c < end <= |text| ==> text[i..end] == ItemText(before, d, after, [text[c]] + text[c + 1..end])
    decreases |text| - i, 3
  {
    var v;
    d, v := ItemSound(text, i, read);
    var a := read(i).next;
    c := SkipSpaces(text, a);
    SkippedAreSpaces(text, a);
    before, after := text[i..v], text[a..c];
    forall end | c < end <= |text| ensures text[i..end] == ItemText(before, d, after, [text[c]] + text[c + 1..end]) {
      ItemGlued(text, i, v, a, c, end);
    }
  }

  lemma {:induction false} ElementsSound(text: Text, i: nat, out: seq<Json>, read: Reader) returns (items: Items)
    requires i <= |text| && Readable(text, i, read) && Reads(text, i, read) && ParseElements(text, i, out, read).Ok?
    ensures GoodItems(items) && text[i..ParseElements(text, i, out, read).next] == ItemsText(items)
    ensures ParseElements(text, i, out, read).value == JArray(ItemsMeaning(items, out, false))
    decreases |text| - i, 4
  {
    var before, d, after, c := ElementSound(text, i, read);
    if At(text, c) == COMMA {
      var rest := ElementsSound(text, c + 1, out + [Meaning(d, false)], read);
      items := More(before, d, after, rest);
      ItemIsFirst(before, d, after, rest);
    } else {
      items := Last(before, d, after);
      ItemIsFirst(before, d, after, items);
      LastGlued(text, c);
    }
  }

  /** A text cut where an element, its whitespace and the character behind it meet. */
  lemma ItemGlued(text: Text, i: nat, v: nat, a: nat, c: nat, end: nat)
    requires i <= v <= a <= c < end <= |text|
    ensures text[i..end] == text[i..v] + (text[v..a] + (text[a..c] + ([text[c]] + text[c + 1..end])))
  {
    One(text, c);
    Glue(text, c, c + 1, end);
    Glue(text, a, c, end);
    Glue(text, v, a, end);
    Glue(text, i, v, end);
  }

  lemma {:induction false} ObjectSound(text: Text, k: nat) returns (d: Doc)
    requires k < |text| && text[k] == OPEN_BRACE && ParseObject(text, k).Ok?
    ensures Good(d) && text[k..ParseObject(text, k).next] == DocText(d)
    ensures ParseObject(text, k).value == Meaning(d, false)
    decreases |text| - k, 0
  {
    var e, end := SkipSpaces(text, k + 1), ParseObject(text, k).next;
    SkippedAreSpaces(text, k + 1);
    One(text, k);
    Glue(text, k, k + 1, end);
    if At(text, e) == CLOSE_BRACE {
      d := EmptyObject(text[k + 1..e]);
      One(text, e);
      Glue(text, k + 1, e, end);
    } else {
      BehindReads(text, k);
      EntriesBehindRead(text, k);
      var ms := EntriesSound(text, e, NO_FIELDS, Behind(text, k), EntriesBehind(text, k));
      d := Object(BeforeMember(text[k + 1..e], ms));
      Glue(text, k + 1, e, end);
      BeforeMemberText(text[k + 1..e], ms);
    }
  }

  function BeforeMember(w: Text, ms: Members): Members {
    ms.(m := ms.m.(beforeKey := w + ms.m.beforeKey))
  }

  lemma {:induction false} BeforeMemberText(w: Text, ms: Members)
    requires Spaces(w) && GoodMembers(ms)
    ensures GoodMembers(BeforeMember(w, ms)) && MembersText(BeforeMember(w, ms)) == w + MembersText(ms)
    ensures MembersMeaning(BeforeMember(w, ms), NO_FIELDS, false) == MembersMeaning(ms, NO_FIELDS, false)
  {
    assert MembersBody(BeforeMember(w, ms)) == MembersBody(ms);
  }

  /** A key with its whitespace and colon. */
  lemma {:induction false} KeySound(text: Text, i: nat) returns (q: nat, ps: seq<Piece>, a: nat)
    requires i <= |text| && ParseKey(text, i).Ok?
    ensures i <= q < a < ParseKey(text, i).next && Spaces(text[i..q]) && Spaces(text[a..ParseKey(text, i).next - 1])
    ensures GoodPieces(ps) && text[q..a] == StringText(ps) && PiecesValue(ps) == ParseKey(text, i).value
    ensures text[ParseKey(text, i).next - 1] == COLON
  {
    q := SkipSpaces(text, i);
    SkippedAreSpaces(text, i);
    ps := StringSound(text, q);
    a := ParseString(text, q).next;
    SkippedAreSpaces(text, a);
  }

  /** A member and the whitespace behind its value. */
  lemma {:induction false} MemberSound(text: Text, i: nat, read: Reader, entry: EntryReader) returns (m: Member, c: nat)
    requires i <= |text| && Readable(text, i, read) && Reads(text, i, read) && ReadsEntries(text, i, read, entry)
    requires entry.requires(i) && entry(i).Ok?
    ensures entry(i).next <= |text| && c == SkipSpaces(text, entry(i).next) && i <= c
    ensures GoodAround(m) && Good(m.value) && entry(i).value == (PiecesValue(m.key), Meaning(m.value, false))
    ensures forall end :: c < end <= |text| ==> text[i..end] == MemberText(m, [text[c]] + text[c + 1..end])
    decreases |text| - i, 3
  {
    assert entry(i) == ParseEntry(text, i, read);
    var q, ps, a := KeySound(text, i);
    var start := ParseKey(text, i).next;
    var d, v := ItemSound(text, start, read);
    var b := read(start).next;
    c := SkipSpaces(text, b);
    SkippedAreSpaces(text, b);
    m := Member(text[i..q], ps, text[a..start - 1], text[start..v], d, text[b..c]);
    forall end | c < end <= |text| ensures text[i..end] == MemberText(m, [text[c]] + text[c + 1..end]) {
      MemberGlued(text, i, q, a, start, v, b, c, end);
    }
  }

  /** A member with what follows it. */
  function MemberText(m: Member, tail: Text): Text {
    m.beforeKey + (StringText(m.key) + (m.afterKey + ([COLON] + (m.before + (DocText(m.value) + (m.after + tail))))))
  }

  lemma {:induction false} MemberIsFirst(m: Member, rest: Members)
    ensures MembersText(LastMember(m)) == MemberText(m, [CLOSE_BRACE])
    ensures MembersText(MoreMembers(m, rest)) == MemberText(m, [COMMA] + MembersText(rest))
  {
  }

  lemma {:induction false} EntriesSound(text: Text, i: nat, out: Fields, read: Reader, entry: EntryReader)
    returns (ms: Members)
    requires i <= |text| && Readable(text, i, read) && Reads(text, i, read)
    requires ReadableEntries(text, i, entry) && ReadsEntries(text, i, read, entry)
    requires ParseEntries(text, i, out, entry).Ok?
    ensures GoodMembers(ms) && text[i..ParseEntries(text, i, out, entry).next] == MembersText(ms)
    ensures ParseEntries(text, i, out, entry).value == JObject(MembersMeaning(ms, out, false))
    decreases |text| - i, 4
  {
    var m, c := MemberSound(text, i, read, entry);
    if At(text, c) == COMMA {
      var more := Assign(out, PiecesValue(m.key), Meaning(m.value, false), false);
      var rest := EntriesSound(text, c + 1, more, read, entry);
      ms := MoreMembers(m, rest);
      MemberIsFirst(m, rest);
    } else {
      ms := LastMember(m);
      MemberIsFirst(m, ms);
      LastGlued(text, c);
    }
  }

  lemma LastGlued(text: Text, c: nat)
    requires c < |text|
    ensures [text[c]] + text[c + 1..c + 1] == [text[c]]
  {
  }

  lemma MemberGlued(text: Text, i: nat, q: nat, a: nat, start: nat, v: nat, b: nat, c: nat, end: nat)
    requires i <= q <= a < start <= v <= b <= c < end <= |text|
    ensures text[i..end] == text[i..q] + (text[q..a] + (text[a..start - 1] + ([text[start - 1]] + text[start..end])))
    ensures text[start..end] == text[start..v] + (text[v..b] + (text[b..c] + ([text[c]] + text[c + 1..end])))
  {
    ItemGlued(text, start, v, b, c, end);
    ItemGlued(text, i, q, a, start - 1, end);
  }

  /* ---- whole texts ---- */

  /** A text that is a document with whitespace around it. */
  ghost predicate IsTextOf(text: Text, d: Doc, v: nat, end: nat) {
    Placed(text, 0, d, v, end) && Spaces(text[end..|text|])
  }

  /** The text is that of some document with this meaning. */
  ghost predicate Denotes(text: Text, j: Json) {
    exists d, v, end :: IsTextOf(text, d, v, end) && Meaning(d, false) == j
  }

  function ParseText(text: Text): Option<Json> {
    var out := ParseValue(text, 0);
    if out.Ok? && SkipSpaces(text, out.next) == |text| then Some(out.value) else None
  }

  lemma {:induction false} AroundDocument(text: Text, end: nat)
    requires end <= |text| && Spaces(text[end..|text|])
    ensures Delimiter(At(text, end)) && SkipSpaces(text, end) == |text|
  {
    SkipTo(text, end, |text|);
    assert end < |text| ==> text[end] == text[end..|text|][0];
  }

  /** However it is spaced and spelled, a document parses to its meaning, and nothing but a
      document parses. */
  lemma {:induction false} ParsesExactly(text: Text, j: Json)
    ensures ParseText(text) == Some(j) <==> Denotes(text, j)
  {
    if ParseText(text) == Some(j) {
      var d, v := ValueSound(text, 0);
      var end := ParseValue(text, 0).next;
      SkippedAreSpaces(text, end);
      assert IsTextOf(text, d, v, end);
    }
    if Denotes(text, j) {
      var d, v, end :| IsTextOf(text, d, v, end) && Meaning(d, false) == j;
      AroundDocument(text, end);
      ValueParsed(text, 0, d, v, end);
    }
  }

  /** So a text has at most one meaning. */
  lemma MeaningIsUnique(text: Text, j: Json, k: Json)
    requires Denotes(text, j) && Denotes(text, k)
    ensures j == k
  {
    ParsesExactly(text, j);
    ParsesExactly(text, k);
  }

  /** The parser as called: it succeeds exactly on the texts of documents, and then with what
      the document means, every integer exact. */
  method ParseJsonExact(text: Text) returns (r: Option<Json>)
    ensures r.Some? ==> Denotes(text, r.value)
    ensures forall j :: Denotes(text, j) ==> r == Some(j)
  {
    var out := Value(text, 0);
    r := None;
    if out.Ok? {
      var k := Ws(text, out.next);
      if k == |text| { r := Some(out.value); }
    }
    assert r == ParseText(text);
    forall j ensures r == Some(j) <==> Denotes(text, j) { ParsesExactly(text, j); }
  }
}
