/** What a reply of the streaming cursor carries: reading its text as a JSON document gives the
    echoed id, whether this was the last batch, and the rows in their order. */
module SidecarWire {
  import opened Order
  import opened JsonText
  import opened JsonMeans
  import opened JsonSound
  import Cursor = SidecarCursor
  import CursorBook
  import Scalars = Utf8

  /* ---- the bytes of a text ---- */

  predicate Ascii(c: Code) {
    c < 128
  }

  /** Text can be cut here: next to an ASCII character, or at its start or end. */
  predicate Border(a: Text, b: Text) {
    a == [] || b == [] || Ascii(a[|a| - 1]) || Ascii(b[0])
  }

  /** An encoding that writes ASCII as it is and what lies between on its own, as UTF-8 does. */
  ghost predicate Encoding(enc: Text -> Bytes) {
    && (forall c: Code :: Ascii(c) ==> enc([c]) == [c])
    && (forall a, b :: Border(a, b) ==> enc(a + b) == enc(a) + enc(b))
  }

  predicate AllAscii(s: Text) {
    forall i :: 0 <= i < |s| ==> Ascii(s[i])
  }

  lemma EncodedNothing(enc: Text -> Bytes)
    requires Encoding(enc)
    ensures enc([]) == []
  {
    var none: Text := [];
    assert Border(none, none) && none + none == none;
    assert |enc(none)| == |enc(none)| + |enc(none)|;
  }

  lemma {:induction false} EncodedAscii(enc: Text -> Bytes, s: Text)
    requires Encoding(enc) && AllAscii(s)
    ensures enc(s) == s
  {
    if s == [] {
      EncodedNothing(enc);
    } else {
      EncodedAscii(enc, s[1..]);
      assert Border([s[0]], s[1..]) && s == [s[0]] + s[1..];
    }
  }

  /** ASCII, then anything. */
  lemma EncodedBehind(enc: Text -> Bytes, s: Text, t: Text)
    requires Encoding(enc) && AllAscii(s)
    ensures enc(s + t) == s + enc(t)
  {
    EncodedAscii(enc, s);
    assert Border(s, t);
  }

  /** Anything, then ASCII, then anything. */
  lemma EncodedAround(enc: Text -> Bytes, a: Text, s: Text, t: Text)
    requires Encoding(enc) && AllAscii(s) && s != []
    ensures enc(a + (s + t)) == enc(a) + (s + enc(t))
  {
    EncodedBehind(enc, s, t);
    assert Border(a, s + t);
  }

  predicate Pair(s: Text) {
    |s| >= 2 && 0xd800 <= s[0] < 0xdc00 <= s[1] < 0xe000
  }

  /** The character a text starts with; half of a pair on its own is replaced. */
  function FirstScalar(s: Text): (n: int)
    requires s != []
    ensures Scalars.IsScalar(n)
  {
    var high: int := s[0];
    if Pair(s) then (var low: int := s[1]; 0x10000 + (high - 0xd800) * 1024 + (low - 0xdc00))
    else if 0xd800 <= high < 0xe000 then 0xfffd
    else high
  }

  /** How many code units the first character takes, and its bytes. */
  function Width(s: Text): nat
    requires s != []
  {
    if Pair(s) then 2 else 1
  }

  function FirstBytes(s: Text): Bytes
    requires s != []
  {
    Scalars.ScalarBytes(FirstScalar(s))
  }

  function Utf8(s: Text): Bytes {
    if s == [] then [] else FirstBytes(s) + Utf8(s[Width(s)..])
  }

  lemma FirstStays(a: Text, b: Text)
    requires Border(a, b) && a != []
    ensures Width(a + b) == Width(a) && FirstScalar(a + b) == FirstScalar(a)
    ensures (a + b)[Width(a)..] == a[Width(a)..] + b && Border(a[Width(a)..], b)
  {
  }

  lemma {:induction false} Utf8Splits(a: Text, b: Text)
    requires Border(a, b)
    ensures Utf8(a + b) == Utf8(a) + Utf8(b)
  {
    if a == [] {
      assert a + b == b;
    } else {
      var rest := a[Width(a)..];
      FirstStays(a, b);
      Utf8Splits(rest, b);
      Associate(FirstBytes(a), Utf8(rest), Utf8(b));
    }
  }

  /** UTF-8 is such an encoding. */
  lemma Utf8IsEncoding()
    ensures Encoding(Utf8)
  {
    forall a, b | Border(a, b) ensures Utf8(a + b) == Utf8(a) + Utf8(b) { Utf8Splits(a, b); }
    forall c: Code | Ascii(c) ensures Utf8([c]) == [c] {
      assert [c][1..] == [];
    }
  }

  /* ---- the reply as a document ---- */

  function Letters(name: Text): seq<Piece> {
    seq(|name|, i requires 0 <= i < |name| => Plain(name[i]))
  }

  /** A name that needs no escapes and is not `__proto__`. */
  predicate PlainName(name: Text) {
    AllAscii(name) && GoodPieces(Letters(name)) && name != PROTO
  }

  lemma {:induction false} LettersMean(name: Text)
    requires GoodPieces(Letters(name))
    ensures PiecesText(Letters(name)) == name && PiecesValue(Letters(name)) == name
  {
    if name != [] {
      assert Letters(name)[1..] == Letters(name[1..]);
      LettersMean(name[1..]);
      assert name == [name[0]] + name[1..];
    }
  }

  function Entry(name: Text, d: Doc): Member {
    Member([], Letters(name), [], [], d, [])
  }

  function RowItems(rows: seq<Doc>): Items
    requires rows != []
  {
    if |rows| == 1 then Last([], rows[0], []) else More([], rows[0], [], RowItems(rows[1..]))
  }

  function RowsDoc(rows: seq<Doc>): Doc {
    if rows == [] then EmptyArray([]) else Array(RowItems(rows))
  }

  function ResultDoc(rows: seq<Doc>, done: bool): Doc {
    Object(MoreMembers(Entry(Codes("done"), Bool(done)), LastMember(Entry(Codes("rows"), RowsDoc(rows)))))
  }

  function Body(rows: seq<Doc>, done: bool): Members {
    MoreMembers(Entry(Codes("ok"), Bool(true)), LastMember(Entry(Codes("result"), ResultDoc(rows, done))))
  }

  function ReplyDoc(id: Option<Doc>, rows: seq<Doc>, done: bool): Doc {
    Object(if id.Some? then MoreMembers(Entry(Codes("id"), id.value), Body(rows, done)) else Body(rows, done))
  }

  predicate GoodDocs(rows: seq<Doc>) {
    forall i :: 0 <= i < |rows| ==> Good(rows[i])
  }

  /* ---- its meaning ---- */

  ghost function Meanings(rows: seq<Doc>, exact: bool): seq<Json>
    requires GoodDocs(rows)
  {
    seq(|rows|, i requires 0 <= i < |rows| => Meaning(rows[i], exact))
  }

  lemma {:induction false} RowItemsMean(rows: seq<Doc>, out: seq<Json>, exact: bool)
    requires rows != [] && GoodDocs(rows)
    ensures GoodItems(RowItems(rows)) && ItemsMeaning(RowItems(rows), out, exact) == out + Meanings(rows, exact)
    decreases |rows|
  {
    if |rows| > 1 {
      var next := out + [Meaning(rows[0], exact)];
      RowItemsMean(rows[1..], next, exact);
      assert Meanings(rows, exact) == [Meaning(rows[0], exact)] + Meanings(rows[1..], exact);
      assert next + Meanings(rows[1..], exact) == out + Meanings(rows, exact);
    }
  }

  lemma RowsMean(rows: seq<Doc>, exact: bool)
    requires GoodDocs(rows)
    ensures Good(RowsDoc(rows)) && Meaning(RowsDoc(rows), exact) == JArray(Meanings(rows, exact))
  {
    if rows != [] {
      RowItemsMean(rows, [], exact);
      assert [] + Meanings(rows, exact) == Meanings(rows, exact);
    }
  }

  function With(out: Fields, name: Text, v: Json): Fields {
    out.(own := out.own[name := v])
  }

  /** A member with a plain name is a property of its object. */
  lemma EntryMeans(name: Text, d: Doc, out: Fields, exact: bool)
    requires PlainName(name) && Good(d)
    ensures GoodMembers(LastMember(Entry(name, d)))
    ensures MembersMeaning(LastMember(Entry(name, d)), out, exact) == With(out, name, Meaning(d, exact))
  {
    LettersMean(name);
  }

  lemma EntryMeansMore(name: Text, d: Doc, rest: Members, out: Fields, exact: bool)
    requires PlainName(name) && Good(d) && GoodMembers(rest)
    ensures GoodMembers(MoreMembers(Entry(name, d), rest))
    ensures MembersMeaning(MoreMembers(Entry(name, d), rest), out, exact)
      == MembersMeaning(rest, With(out, name, Meaning(d, exact)), exact)
  {
    LettersMean(name);
  }

  lemma NamesArePlain()
    ensures PlainName(Codes("id")) && PlainName(Codes("ok")) && PlainName(Codes("result"))
    ensures PlainName(Codes("done")) && PlainName(Codes("rows"))
  {
  }

  lemma ResultMeans(rows: seq<Doc>, done: bool, exact: bool)
    requires GoodDocs(rows)
    ensures Good(ResultDoc(rows, done))
    ensures Meaning(ResultDoc(rows, done), exact)
      == JObject(Fields(map[Codes("done") := JBool(done), Codes("rows") := JArray(Meanings(rows, exact))], true))
  {
    NamesArePlain();
    RowsMean(rows, exact);
    var last := LastMember(Entry(Codes("rows"), RowsDoc(rows)));
    var first := With(NO_FIELDS, Codes("done"), JBool(done));
    EntryMeans(Codes("rows"), RowsDoc(rows), first, exact);
    EntryMeansMore(Codes("done"), Bool(done), last, NO_FIELDS, exact);
  }

  /** The reply has the id if there was one, `ok`, and the result; nothing else. */
  ghost function ReplyFields(id: Option<Doc>, rows: seq<Doc>, done: bool, exact: bool): map<Text, Json>
    requires (id.Some? ==> Good(id.value)) && GoodDocs(rows)
  {
    var result :=
      JObject(Fields(map[Codes("done") := JBool(done), Codes("rows") := JArray(Meanings(rows, exact))], true));
    if id.Some? then
      map[Codes("id") := Meaning(id.value, exact), Codes("ok") := JBool(true), Codes("result") := result]
    else
      map[Codes("ok") := JBool(true), Codes("result") := result]
  }

  lemma ReplyMeans(id: Option<Doc>, rows: seq<Doc>, done: bool, exact: bool)
    requires (id.Some? ==> Good(id.value)) && GoodDocs(rows)
    ensures Good(ReplyDoc(id, rows, done))
    ensures Meaning(ReplyDoc(id, rows, done), exact) == JObject(Fields(ReplyFields(id, rows, done, exact), true))
  {
    NamesArePlain();
    ResultMeans(rows, done, exact);
    var last := LastMember(Entry(Codes("result"), ResultDoc(rows, done)));
    var body := MoreMembers(Entry(Codes("ok"), Bool(true)), last);
    var start := if id.Some? then With(NO_FIELDS, Codes("id"), Meaning(id.value, exact)) else NO_FIELDS;
    EntryMeans(Codes("result"), ResultDoc(rows, done), With(start, Codes("ok"), JBool(true)), exact);
    EntryMeansMore(Codes("ok"), Bool(true), last, start, exact);
    if id.Some? { EntryMeansMore(Codes("id"), id.value, body, NO_FIELDS, exact); }
  }

  /* ---- its text ---- */

  function Label(name: Text): Text {
    [QUOTE] + (name + [QUOTE, COLON])
  }

  lemma EntryText(name: Text, d: Doc, text: Text)
    requires PlainName(name) && text == DocText(d)
    ensures MembersText(LastMember(Entry(name, d))) == Label(name) + (text + [CLOSE_BRACE])
  {
    LettersMean(name);
    LabelJoined(name, text + [CLOSE_BRACE]);
    EmptyAround(text, [CLOSE_BRACE]);
  }

  lemma EntryTextMore(name: Text, d: Doc, rest: Members, text: Text, more: Text)
    requires PlainName(name) && text == DocText(d) && more == [COMMA] + MembersText(rest)
    ensures MembersText(MoreMembers(Entry(name, d), rest)) == Label(name) + (text + more)
  {
    LettersMean(name);
    LabelJoined(name, text + more);
    EmptyAround(text, more);
  }

  lemma LabelJoined(name: Text, t: Text)
    ensures [] + (([QUOTE] + (name + [QUOTE])) + ([] + ([COLON] + t))) == Label(name) + t
  {
  }

  lemma EmptyAround(text: Text, more: Text)
    ensures [] + (text + ([] + more)) == text + more
  {
  }

  lemma LabelIsAscii(name: Text)
    requires AllAscii(name)
    ensures AllAscii(Label(name))
  {
  }

  /* ---- its bytes ---- */

  lemma EntryBytes(enc: Text -> Bytes, name: Text, d: Doc)
    requires Encoding(enc) && PlainName(name)
    ensures enc(MembersText(LastMember(Entry(name, d)))) == Label(name) + (enc(DocText(d)) + [0x7d])
  {
    var text := DocText(d);
    EntryText(name, d, text);
    LabelIsAscii(name);
    EncodedBehind(enc, Label(name), text + [CLOSE_BRACE]);
    EncodedNothing(enc);
    EncodedAround(enc, text, [CLOSE_BRACE], []);
    assert [CLOSE_BRACE] + [] == [CLOSE_BRACE];
  }

  lemma EntryBytesMore(enc: Text -> Bytes, name: Text, d: Doc, rest: Members)
    requires Encoding(enc) && PlainName(name)
    ensures enc(MembersText(MoreMembers(Entry(name, d), rest)))
      == Label(name) + (enc(DocText(d)) + ([0x2c] + enc(MembersText(rest))))
  {
    var text, more := DocText(d), MembersText(rest);
    EntryTextMore(name, d, rest, text, [COMMA] + more);
    LabelIsAscii(name);
    EncodedBehind(enc, Label(name), text + ([COMMA] + more));
    EncodedAround(enc, text, [COMMA], more);
  }

  lemma ObjectBytes(enc: Text -> Bytes, ms: Members)
    requires Encoding(enc)
    ensures enc(DocText(Object(ms))) == [0x7b] + enc(MembersText(ms))
  {
    EncodedBehind(enc, [OPEN_BRACE], MembersText(ms));
  }

  lemma BoolBytes(enc: Text -> Bytes, b: bool)
    requires Encoding(enc)
    ensures enc(DocText(Bool(b))) == Cursor.Text(b)
  {
    EncodedAscii(enc, DocText(Bool(b)));
  }

  /** The rows as the server writes them. */
  ghost function RowBytes(enc: Text -> Bytes, rows: seq<Doc>): seq<Cursor.Row> {
    seq(|rows|, i requires 0 <= i < |rows| => enc(DocText(rows[i])))
  }

  /** Joining row by row from the front. */
  lemma {:induction false} JoinedFirst(row: Cursor.Row, rest: seq<Cursor.Row>)
    requires rest != []
    ensures Cursor.Joined([row] + rest) == row + ([0x2c] + Cursor.Joined(rest))
  {
    var all, n := [row] + rest, |rest|;
    assert all[..n] == [row] + rest[..n - 1];
    if n > 1 {
      JoinedFirst(row, rest[..n - 1]);
      Regroup(row, [0x2c], Cursor.Joined(rest[..n - 1]), [0x2c], rest[n - 1]);
    } else {
      Associate(row, [0x2c], rest[0]);
    }
  }

  lemma Associate(a: Bytes, b: Bytes, c: Bytes)
    ensures (a + b) + c == a + (b + c)
  {
  }

  lemma Regroup(a: Bytes, b: Bytes, c: Bytes, d: Bytes, e: Bytes)
    ensures ((a + (b + c)) + d) + e == a + (b + ((c + d) + e))
  {
    Associate(a, b + c, d);
    Associate(b, c, d);
    Associate(a, b + (c + d), e);
    Associate(b, c + d, e);
  }

  lemma ItemTexts(rows: seq<Doc>)
    requires rows != []
    ensures |rows| == 1 ==> ItemsText(RowItems(rows)) == DocText(rows[0]) + [CLOSE_BRACKET]
    ensures |rows| > 1 ==> ItemsText(RowItems(rows)) == DocText(rows[0]) + ([COMMA] + ItemsText(RowItems(rows[1..])))
  {
    EmptyAround(DocText(rows[0]), if |rows| == 1 then [CLOSE_BRACKET] else [COMMA] + ItemsText(RowItems(rows[1..])));
  }

  lemma LoneItemBytes(enc: Text -> Bytes, first: Text)
    requires Encoding(enc)
    ensures enc(first + [CLOSE_BRACKET]) == enc(first) + [0x5d]
  {
    EncodedNothing(enc);
    EncodedAround(enc, first, [CLOSE_BRACKET], []);
    assert [CLOSE_BRACKET] + [] == [CLOSE_BRACKET];
  }

  lemma FirstItemBytes(enc: Text -> Bytes, first: Text, more: Text, rest: seq<Cursor.Row>)
    requires Encoding(enc) && rest != [] && enc(more) == Cursor.Joined(rest) + [0x5d]
    ensures enc(first + ([COMMA] + more)) == Cursor.Joined([enc(first)] + rest) + [0x5d]
  {
    EncodedAround(enc, first, [COMMA], more);
    FirstJoined(enc(first), rest, enc(more));
  }

  lemma {:induction false} ItemBytes(enc: Text -> Bytes, rows: seq<Doc>)
    requires Encoding(enc) && rows != []
    ensures enc(ItemsText(RowItems(rows))) == Cursor.Joined(RowBytes(enc, rows)) + [0x5d]
    decreases |rows|
  {
    var first := DocText(rows[0]);
    ItemTexts(rows);
    if |rows| == 1 {
      LoneItemBytes(enc, first);
    } else {
      ItemBytes(enc, rows[1..]);
      FirstItemBytes(enc, first, ItemsText(RowItems(rows[1..])), RowBytes(enc, rows[1..]));
      assert RowBytes(enc, rows) == [enc(first)] + RowBytes(enc, rows[1..]);
    }
  }

  lemma FirstJoined(first: Cursor.Row, rest: seq<Cursor.Row>, more: Bytes)
    requires rest != [] && more == Cursor.Joined(rest) + [0x5d]
    ensures first + ([0x2c] + more) == Cursor.Joined([first] + rest) + [0x5d]
  {
    JoinedFirst(first, rest);
    LastAround(first, [0x2c], Cursor.Joined(rest), [0x5d]);
  }

  lemma LastAround(a: Bytes, b: Bytes, c: Bytes, d: Bytes)
    ensures a + (b + (c + d)) == (a + (b + c)) + d
  {
    Associate(b, c, d);
    Associate(a, b + c, d);
  }

  lemma RowsBytes(enc: Text -> Bytes, rows: seq<Doc>)
    requires Encoding(enc)
    ensures enc(DocText(RowsDoc(rows))) == Cursor.Serialized(RowBytes(enc, rows))
  {
    if rows == [] {
      EncodedAscii(enc, DocText(RowsDoc(rows)));
      assert [OPEN_BRACKET] + ([] + [CLOSE_BRACKET]) == [0x5b] + [] + [0x5d];
    } else {
      ItemBytes(enc, rows);
      EncodedBehind(enc, [OPEN_BRACKET], ItemsText(RowItems(rows)));
      Associate([0x5b], Cursor.Joined(RowBytes(enc, rows)), [0x5d]);
    }
  }

  const OK_LABEL: Bytes := [0x22, 0x6f, 0x6b, 0x22, 0x3a]
  const RESULT_LABEL: Bytes := [0x22, 0x72, 0x65, 0x73, 0x75, 0x6c, 0x74, 0x22, 0x3a]
  const DONE_LABEL: Bytes := [0x22, 0x64, 0x6f, 0x6e, 0x65, 0x22, 0x3a]
  const ROWS_LABEL: Bytes := [0x22, 0x72, 0x6f, 0x77, 0x73, 0x22, 0x3a]
  const ID_LABEL: Bytes := [0x22, 0x69, 0x64, 0x22, 0x3a]

  lemma LabelsAre()
    ensures Label(Codes("ok")) == OK_LABEL && Label(Codes("result")) == RESULT_LABEL
    ensures Label(Codes("done")) == DONE_LABEL && Label(Codes("rows")) == ROWS_LABEL && Label(Codes("id")) == ID_LABEL
  {
  }

  /** `"ok":true,"result":R}` around the bytes of a result. */
  function BodyBytes(result: Bytes): Bytes {
    OK_LABEL + (Cursor.Text(true) + ([0x2c] + (RESULT_LABEL + (result + [0x7d]))))
  }

  /** `{"done":D,"rows":R}`. */
  function ResultBytes(done: Bytes, rows: Bytes): Bytes {
    [0x7b] + (DONE_LABEL + (done + ([0x2c] + (ROWS_LABEL + (rows + [0x7d])))))
  }

  lemma ResultWritten(enc: Text -> Bytes, rows: seq<Doc>, done: bool)
    requires Encoding(enc)
    ensures enc(DocText(ResultDoc(rows, done)))
      == ResultBytes(Cursor.Text(done), Cursor.Serialized(RowBytes(enc, rows)))
  {
    BoolBytes(enc, done);
    RowsBytes(enc, rows);
    ResultParts(enc, Bool(done), RowsDoc(rows));
  }

  lemma ResultParts(enc: Text -> Bytes, done: Doc, rows: Doc)
    requires Encoding(enc)
    ensures enc(DocText(Object(MoreMembers(Entry(Codes("done"), done), LastMember(Entry(Codes("rows"), rows))))))
      == ResultBytes(enc(DocText(done)), enc(DocText(rows)))
  {
    NamesArePlain();
    LabelsAre();
    var last := LastMember(Entry(Codes("rows"), rows));
    EntryBytes(enc, Codes("rows"), rows);
    EntryBytesMore(enc, Codes("done"), done, last);
    ObjectBytes(enc, MoreMembers(Entry(Codes("done"), done), last));
  }

  lemma BodyWritten(enc: Text -> Bytes, rows: seq<Doc>, done: bool)
    requires Encoding(enc)
    ensures enc(MembersText(Body(rows, done))) == BodyBytes(enc(DocText(ResultDoc(rows, done))))
  {
    NamesArePlain();
    LabelsAre();
    BoolBytes(enc, true);
    EntryBytes(enc, Codes("result"), ResultDoc(rows, done));
    EntryBytesMore(enc, Codes("ok"), Bool(true), LastMember(Entry(Codes("result"), ResultDoc(rows, done))));
  }

  /** The fixed bytes between the id and the value of `done`. */
  function Opening(): Bytes {
    OK_LABEL + (Cursor.Text(true) + ([0x2c] + (RESULT_LABEL + ([0x7b] + DONE_LABEL))))
  }

  lemma PushEnd(done: Bytes, rows: Bytes)
    ensures ResultBytes(done, rows) + [0x7d]
      == [0x7b] + (DONE_LABEL + (done + (([0x2c] + ROWS_LABEL) + (rows + [0x7d, 0x7d]))))
  {
    var end := [0x7d];
    var a := rows + end;
    var b := ROWS_LABEL + a;
    var c := [0x2c] + b;
    var d := done + c;
    Associate([0x7b], DONE_LABEL + d, end);
    Associate(DONE_LABEL, d, end);
    Associate(done, c, end);
    Associate([0x2c], b, end);
    Associate(ROWS_LABEL, a, end);
    Associate(rows, end, end);
    Associate([0x2c], ROWS_LABEL, rows + (end + end));
    assert end + end == [0x7d, 0x7d];
  }

  lemma PullOpening(rest: Bytes)
    ensures OK_LABEL + (Cursor.Text(true) + ([0x2c] + (RESULT_LABEL + ([0x7b] + (DONE_LABEL + rest)))))
      == Opening() + rest
  {
    var a := [0x7b] + DONE_LABEL;
    var b := RESULT_LABEL + a;
    var c := [0x2c] + b;
    var d := Cursor.Text(true) + c;
    Associate([0x7b], DONE_LABEL, rest);
    Associate(RESULT_LABEL, a, rest);
    Associate([0x2c], b, rest);
    Associate(Cursor.Text(true), c, rest);
    Associate(OK_LABEL, d, rest);
  }

  lemma BodyIs(done: Bytes, rows: Bytes)
    ensures BodyBytes(ResultBytes(done, rows))
      == Opening() + (done + (([0x2c] + ROWS_LABEL) + (rows + [0x7d, 0x7d])))
  {
    PushEnd(done, rows);
    PullOpening(done + (([0x2c] + ROWS_LABEL) + (rows + [0x7d, 0x7d])));
  }

  lemma HeadIs(id: Option<Bytes>)
    ensures Cursor.Head(id) == ([0x7b] + Cursor.IdMember(id)) + Opening() && Cursor.Middle() == [0x2c] + ROWS_LABEL
  {
    var k1 := [0x22, 0x6f, 0x6b, 0x22, 0x3a, 0x74, 0x72, 0x75, 0x65, 0x2c];
    var k2 := [0x22, 0x72, 0x65, 0x73, 0x75, 0x6c, 0x74, 0x22, 0x3a, 0x7b, 0x22, 0x64, 0x6f, 0x6e, 0x65, 0x22, 0x3a];
    assert Opening() == k1 + k2;
    Associate([0x7b] + Cursor.IdMember(id), k1, k2);
  }

  lemma ReplyIs(id: Option<Bytes>, rows: seq<Cursor.Row>, done: bool)
    ensures Cursor.Reply(id, rows, done)
      == ([0x7b] + Cursor.IdMember(id)) + BodyBytes(ResultBytes(Cursor.Text(done), Cursor.Serialized(rows)))
  {
    var t, m, r, e := Cursor.Text(done), [0x2c] + ROWS_LABEL, Cursor.Serialized(rows), [0x7d, 0x7d];
    var head := [0x7b] + Cursor.IdMember(id);
    HeadIs(id);
    BodyIs(t, r);
    Associate(head + Opening() + t + m, r, e);
    Associate(head + Opening() + t, m, r + e);
    Associate(head + Opening(), t, m + (r + e));
    Associate(head, Opening(), t + (m + (r + e)));
  }

  function IdBytes(enc: Text -> Bytes, id: Option<Doc>): Option<Bytes> {
    if id.Some? then Some(enc(DocText(id.value))) else None
  }

  /** The reply is the document's text, encoded. */
  lemma ReplyWritten(enc: Text -> Bytes, id: Option<Doc>, rows: seq<Doc>, done: bool)
    requires Encoding(enc)
    ensures enc(DocText(ReplyDoc(id, rows, done))) == Cursor.Reply(IdBytes(enc, id), RowBytes(enc, rows), done)
  {
    var body := Body(rows, done);
    ReplyIs(IdBytes(enc, id), RowBytes(enc, rows), done);
    BodyWritten(enc, rows, done);
    ResultWritten(enc, rows, done);
    if id.Some? {
      IdWritten(enc, id.value, body);
    } else {
      ObjectBytes(enc, body);
      assert [0x7b] + Cursor.IdMember(None) == [0x7b];
    }
  }

  lemma IdWritten(enc: Text -> Bytes, id: Doc, body: Members)
    requires Encoding(enc)
    ensures enc(DocText(Object(MoreMembers(Entry(Codes("id"), id), body))))
      == ([0x7b] + Cursor.IdMember(Some(enc(DocText(id))))) + enc(MembersText(body))
  {
    var i, b := enc(DocText(id)), enc(MembersText(body));
    NamesArePlain();
    LabelsAre();
    EntryBytesMore(enc, Codes("id"), id, body);
    ObjectBytes(enc, MoreMembers(Entry(Codes("id"), id), body));
    LastAround(ID_LABEL, i, [0x2c], b);
    Associate(ID_LABEL, i, [0x2c]);
    Associate([0x7b], ID_LABEL + i + [0x2c], b);
  }

  /** Where decoding gives the text back, reading it as JSON finds the id, `done` and the rows in
      their order, and nothing else. */
  lemma ReplyReadsBack(enc: Text -> Bytes, dec: Bytes -> Text, id: Option<Doc>, rows: seq<Doc>, done: bool)
    requires Encoding(enc) && (id.Some? ==> Good(id.value)) && GoodDocs(rows)
    requires var text := DocText(ReplyDoc(id, rows, done)); dec(enc(text)) == text
    ensures ParseText(dec(Cursor.Reply(IdBytes(enc, id), RowBytes(enc, rows), done)))
      == Some(JObject(Fields(ReplyFields(id, rows, done, false), true)))
  {
    var d := ReplyDoc(id, rows, done);
    ReplyWritten(enc, id, rows, done);
    ReplyMeans(id, rows, done, false);
    DocumentParses(d, DocText(d), JObject(Fields(ReplyFields(id, rows, done, false), true)));
  }

  lemma {:induction false} DigitsOf(n: nat)
    ensures |Decimal(n)| == CursorBook.Digits(n)
  {
    if n >= 10 { DigitsOf(n / 10); }
  }

  /** The bytes counted for a numeric id are those it takes in the reply. */
  lemma IdBytesCounted(enc: Text -> Bytes, n: nat)
    requires Encoding(enc)
    ensures CursorBook.IdBytes(n) == |Cursor.IdMember(Some(enc(Decimal(n))))|
  {
    DecimalMeans(n);
    DigitsOf(n);
    EncodedAscii(enc, Decimal(n));
  }
}
