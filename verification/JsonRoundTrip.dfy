/** Every text of every document parses to the document's meaning. */
module JsonRoundTrip {
  import opened Order
  import opened JsonText
  import opened ExactJson

  /* ---- pieces of text ---- */

  lemma StartsSplit(text: Text, i: nat, a: Text, b: Text)
    requires i <= |text| && StartsWith(text, i, a + b)
    ensures StartsWith(text, i, a) && StartsWith(text, i + |a|, b)
  {
    assert text[i..i + |a + b|][..|a|] == a;
    assert text[i..i + |a + b|][|a|..] == b;
  }

  lemma StartsHead(text: Text, i: nat, s: Text)
    requires i <= |text| && s != [] && StartsWith(text, i, s)
    ensures i < |text| && At(text, i) == text[i] == s[0] && StartsWith(text, i + 1, s[1..])
  {
    assert text[i..i + |s|][0] == s[0];
    assert s == [s[0]] + s[1..];
    StartsSplit(text, i, [s[0]], s[1..]);
  }

  lemma {:induction false} SpacesSkipped(text: Text, i: nat, w: Text)
    requires i <= |text| && StartsWith(text, i, w) && Spaces(w) && !IsSpace(At(text, i + |w|))
    ensures SkipSpaces(text, i) == i + |w|
    decreases |w|
  {
    if w != [] {
      StartsHead(text, i, w);
      SpacesSkipped(text, i + 1, w[1..]);
    }
  }

  lemma {:induction false} DigitsTaken(text: Text, i: nat, w: Text)
    requires i <= |text| && StartsWith(text, i, w) && Digits(w) && !IsDigit(At(text, i + |w|))
    ensures DigitsEnd(text, i) == i + |w|
    decreases |w|
  {
    if w != [] {
      StartsHead(text, i, w);
      DigitsTaken(text, i + 1, w[1..]);
    }
  }

  /* ---- strings ---- */

  /** The scan stops at the quote that really closes the string. */
  lemma {:induction false} ScanFindsClosingQuote(text: Text, j: nat, ps: seq<Piece>)
    requires j <= |text| && GoodPieces(ps) && StartsWith(text, j, PiecesText(ps) + [QUOTE])
    ensures ScanEnd(text, j) == j + |PiecesText(ps)|
    decreases |ps|
  {
    if ps == [] {
      StartsHead(text, j, [QUOTE]);
    } else {
      var p := PieceText(ps[0]);
      assert PiecesText(ps) + [QUOTE] == p + (PiecesText(ps[1..]) + [QUOTE]);
      StartsSplit(text, j, p, PiecesText(ps[1..]) + [QUOTE]);
      ScanOverPiece(text, j, ps[0]);
      ScanFindsClosingQuote(text, j + |p|, ps[1..]);
    }
  }

  lemma ScanOverPiece(text: Text, j: nat, p: Piece)
    requires j <= |text| && GoodPiece(p) && StartsWith(text, j, PieceText(p))
    ensures ScanEnd(text, j) == ScanEnd(text, j + |PieceText(p)|)
  {
    StartsHead(text, j, PieceText(p));
    if p.Hex? {
      HexIsPlain(p);
      var t := PieceText(p);
      assert text[j + 2] == text[j..j + |t|][2] == p.a;
      assert text[j + 3] == text[j..j + |t|][3] == p.b;
      assert text[j + 4] == text[j..j + |t|][4] == p.c;
      assert text[j + 5] == text[j..j + |t|][5] == p.d;
      assert ScanEnd(text, j + 2) == ScanEnd(text, j + 3);
      assert ScanEnd(text, j + 4) == ScanEnd(text, j + 5);
    }
  }

  lemma HexIsPlain(p: Piece)
    requires GoodPiece(p) && p.Hex?
    ensures QUOTE !in [p.a, p.b, p.c, p.d] && BACKSLASH !in [p.a, p.b, p.c, p.d]
  {
  }

  lemma PieceUnescaped(body: Text, k: nat, p: Piece)
    requires k <= |body| && GoodPiece(p) && StartsWith(body, k, PieceText(p))
    ensures Unescape(body, k) == Prepend(PieceValue(p), Unescape(body, k + |PieceText(p)|))
  {
    var t := PieceText(p);
    assert body[k..k + |t|] == t;
    match p
    case Plain(c) => assert body[k] == t[0];
    case Short(c) => assert body[k] == t[0] && body[k + 1] == t[1];
    case Hex(a, b, c, d) =>
      assert body[k] == t[0] && body[k + 1] == t[1] && body[k + 2] == t[2];
      assert body[k + 3] == t[3] && body[k + 4] == t[4] && body[k + 5] == t[5];
  }

  lemma {:induction false} PiecesUnescaped(body: Text, k: nat, ps: seq<Piece>)
    requires k <= |body| && GoodPieces(ps) && StartsWith(body, k, PiecesText(ps)) && k + |PiecesText(ps)| == |body|
    ensures Unescape(body, k) == Some(PiecesValue(ps))
    decreases |ps|
  {
    if ps != [] {
      StartsSplit(body, k, PieceText(ps[0]), PiecesText(ps[1..]));
      PieceUnescaped(body, k, ps[0]);
      PiecesUnescaped(body, k + |PieceText(ps[0])|, ps[1..]);
    }
  }

  lemma {:induction false} TokenUnescaped(text: Text, i: nat, ps: seq<Piece>)
    requires i <= |text| && GoodPieces(ps) && StartsWith(text, i, PiecesText(ps))
    ensures Unescape(text[i..i + |PiecesText(ps)|], 0) == Some(PiecesValue(ps))
  {
    var body := text[i..i + |PiecesText(ps)|];
    assert body[0..0 + |PiecesText(ps)|] == PiecesText(ps);
    PiecesUnescaped(body, 0, ps);
  }

  lemma {:induction false} StringParsed(text: Text, i: nat, ps: seq<Piece>)
    requires i <= |text| && GoodPieces(ps) && StartsWith(text, i, StringText(ps))
    ensures i < |text| && text[i] == QUOTE
    ensures ParseString(text, i) == Ok(PiecesValue(ps), i + |StringText(ps)|)
  {
    var t := PiecesText(ps);
    QuotedLaid(text, i, t);
    ScanFindsClosingQuote(text, i + 1, ps);
    TokenUnescaped(text, i + 1, ps);
    TokenParsed(text, i, i + 1 + |t|, PiecesValue(ps));
  }

  lemma {:induction false} TokenParsed(text: Text, i: nat, j: nat, value: Text)
    requires i < j < |text| && ScanEnd(text, i + 1) == j && Unescape(text[i + 1..j], 0) == Some(value)
    ensures ParseString(text, i) == Ok(value, j + 1)
  {
  }

  lemma QuotedLaid(text: Text, i: nat, t: Text)
    requires i <= |text| && StartsWith(text, i, [QUOTE] + (t + [QUOTE]))
    ensures i < |text| && text[i] == QUOTE && StartsWith(text, i + 1, t) && StartsWith(text, i + 1, t + [QUOTE])
    ensures i + 1 + |t| < |text| && text[i + 1 + |t|] == QUOTE
  {
    StartsSplit(text, i, [QUOTE], t + [QUOTE]);
    StartsHead(text, i, [QUOTE]);
    StartsSplit(text, i + 1, t, [QUOTE]);
    StartsHead(text, i + 1 + |t|, [QUOTE]);
  }

  /* ---- numbers ---- */

  /** What may follow a value. */
  predicate Delimiter(c: int) {
    c == -1 || IsSpace(c) || c == COMMA || c == CLOSE_BRACKET || c == CLOSE_BRACE
  }

  lemma ExponentTaken(text: Text, i: nat, end: nat, e: Exponent)
    requires i <= |text| && GoodExponent(e) && StartsWith(text, i, ExponentText(e))
    requires end == i + |ExponentText(e)| && Delimiter(At(text, end))
    ensures ExponentEnd(text, i) == end && !IsDigit(At(text, i)) && At(text, i) != DOT
  {
    if e.Exponent? {
      StartsHead(text, i, ExponentText(e));
      StartsSplit(text, i + 1, e.sign, e.digits);
      SignedDigitsTaken(text, i + 1, i + 1 + |e.sign|, end, e.sign, e.digits);
    }
  }

  lemma {:induction false} SignedDigitsTaken(text: Text, i: nat, s: nat, end: nat, sign: Text, digits: Text)
    requires i <= s <= end <= |text| && text[i..s] == sign && text[s..end] == digits
    requires digits != [] && Digits(digits) && (sign == [] || sign == [PLUS] || sign == [MINUS])
      && !IsDigit(At(text, end))
    ensures s == (if At(text, i) == PLUS || At(text, i) == MINUS then i + 1 else i) && DigitsEnd(text, s) == end > s
  {
    StartsHead(text, s, digits);
    DigitsTaken(text, s, digits);
    if sign != [] { StartsHead(text, i, sign); }
  }

  lemma StartsSplit4(text: Text, i: nat, a: Text, b: Text, c: Text, d: Text)
    requires i <= |text| && StartsWith(text, i, a + (b + (c + d)))
    ensures
      var j := i + |a|;
      var k := j + |b|;
      var l := k + |c|;
      l + |d| <= |text| && text[i..j] == a && text[j..k] == b && text[k..l] == c && text[l..l + |d|] == d
  {
    StartsSplit(text, i, a, b + (c + d));
    StartsSplit(text, i + |a|, b, c + d);
    StartsSplit(text, i + |a| + |b|, c, d);
  }

  /** Where the four parts of a number lie in a text. */
  ghost predicate Laid(text: Text, i: nat, start: nat, whole: nat, fraction: nat, end: nat, d: Doc)
    requires d.Number?
  {
    && i <= start <= whole <= fraction <= end <= |text|
    && text[i..start] == SignText(d.negative)
    && text[start..whole] == d.whole
    && text[whole..fraction] == FractionText(d.fraction)
    && text[fraction..end] == ExponentText(d.exponent)
  }

  lemma NumberLaid(text: Text, i: nat, d: Doc) returns (start: nat, whole: nat, fraction: nat, end: nat)
    requires d.Number? && i <= |text| && StartsWith(text, i, DocText(d))
    ensures Laid(text, i, start, whole, fraction, end, d) && end == i + |DocText(d)|
  {
    StartsSplit4(text, i, SignText(d.negative), d.whole, FractionText(d.fraction), ExponentText(d.exponent));
    start := i + |SignText(d.negative)|;
    whole := start + |d.whole|;
    fraction := whole + |FractionText(d.fraction)|;
    end := fraction + |ExponentText(d.exponent)|;
  }

  lemma {:induction false} FractionTaken(text: Text, whole: nat, fraction: nat, f: Text)
    requires whole <= fraction <= |text| && text[whole..fraction] == FractionText(f) && Digits(f)
    requires !IsDigit(At(text, fraction)) && At(text, fraction) != DOT
    ensures !IsDigit(At(text, whole)) && (At(text, whole) == DOT <==> fraction > whole)
    ensures f == [] <==> fraction == whole
    ensures fraction > whole ==> DigitsEnd(text, whole + 1) == fraction > whole + 1
  {
    if f != [] {
      StartsHead(text, whole, [DOT] + f);
      DigitsTaken(text, whole + 1, f);
    }
  }

  lemma {:induction false} WholeTaken(text: Text, i: nat, start: nat, whole: nat, d: Doc)
    requires d.Number? && Good(d) && i <= start <= whole <= |text| && !IsDigit(At(text, whole))
    requires text[i..start] == SignText(d.negative) && text[start..whole] == d.whole
    ensures start < whole && start == (if At(text, i) == MINUS then i + 1 else i) && DigitsEnd(text, start) == whole
    ensures d.negative <==> start > i
  {
    StartsHead(text, start, d.whole);
    DigitsTaken(text, start, d.whole);
    if d.negative { StartsHead(text, i, [MINUS]); }
  }

  lemma {:induction false} NumberMatched(text: Text, i: nat, start: nat, whole: nat, fraction: nat, end: nat, d: Doc)
    requires d.Number? && Good(d) && Laid(text, i, start, whole, fraction, end, d) && Delimiter(At(text, end))
    ensures MatchNumber(text, i) == Match(start, whole, fraction, end)
    ensures d.negative <==> start > i
    ensures d.fraction == [] && d.exponent == NoExponent <==> end == whole
  {
    ExponentTaken(text, fraction, end, d.exponent);
    FractionTaken(text, whole, fraction, d.fraction);
    WholeTaken(text, i, start, whole, d);
  }

  lemma MatchMeans(text: Text, i: nat)
    requires i <= |text| && MatchNumber(text, i).Match?
    ensures
      var m := MatchNumber(text, i);
      var n := DigitsValue(text[m.start..m.whole]);
      var value := if m.end == m.whole then Exact(if m.start > i then 0 - n else n) else JFloat(text[i..m.end]);
      ParseNumber(text, i) == Ok(value, m.end)
  {
    var m := MatchNumber(text, i);
    var n := DigitsValue(text[m.start..m.whole]);
    FromBigIsExact(if m.start > i then 0 - n else n);
  }

  lemma {:induction false} NumberParsed(text: Text, i: nat, d: Doc)
    requires d.Number? && Good(d) && i <= |text| && StartsWith(text, i, DocText(d))
    requires Delimiter(At(text, i + |DocText(d)|))
    ensures ParseNumber(text, i) == Ok(NumberMeaning(d.negative, d.whole, d.fraction, d.exponent), i + |DocText(d)|)
  {
    var start, whole, fraction, end := NumberLaid(text, i, d);
    NumberMatched(text, i, start, whole, fraction, end, d);
    NumberFrom(text, i, Match(start, whole, fraction, end), d);
  }

  lemma NumberFrom(text: Text, i: nat, m: Match, d: Doc)
    requires d.Number? && Good(d) && m.Match? && i <= m.start <= m.whole <= m.end <= |text|
    requires MatchNumber(text, i) == m && text[i..m.end] == DocText(d) && text[m.start..m.whole] == d.whole
    requires (d.negative <==> m.start > i) && (d.fraction == [] && d.exponent == NoExponent <==> m.end == m.whole)
    ensures ParseNumber(text, i) == Ok(NumberMeaning(d.negative, d.whole, d.fraction, d.exponent), m.end)
  {
    MatchMeans(text, i);
    NumberMeans(text[i..m.end], text[m.start..m.whole], d);
  }

  lemma NumberMeans(all: Text, whole: Text, d: Doc)
    requires d.Number? && Good(d) && all == DocText(d) && whole == d.whole
    ensures NumberMeaning(d.negative, d.whole, d.fraction, d.exponent) ==
      if d.fraction == [] && d.exponent == NoExponent
      then Exact(if d.negative then 0 - DigitsValue(whole) else DigitsValue(whole)) else JFloat(all)
  {
  }

  /* ---- values ---- */

  /** What a value can start with. */
  predicate Opening(c: int) {
    || c == OPEN_BRACE || c == OPEN_BRACKET || c == QUOTE || c == MINUS || IsDigit(c)
    || c == TRUE[0] || c == FALSE[0] || c == NULL[0]
  }

  lemma {:induction false} DocOpens(d: Doc)
    requires Good(d)
    ensures DocText(d) != [] && Opening(DocText(d)[0])
    ensures d.Number? ==> DocText(d)[0] == MINUS || IsDigit(DocText(d)[0])
  {
  }

  lemma {:induction false} SkipTo(text: Text, i: nat, v: nat)
    requires i <= v <= |text| && Spaces(text[i..v]) && !IsSpace(At(text, v))
    ensures SkipSpaces(text, i) == v
  {
    SpacesSkipped(text, i, text[i..v]);
  }

  /** Cut a slice where its text is a concatenation. */
  lemma Cut(text: Text, i: nat, end: nat, a: Text, b: Text)
    requires i <= end <= |text| && text[i..end] == a + b
    ensures i + |a| <= end && text[i..i + |a|] == a && text[i + |a|..end] == b
  {
    StartsSplit(text, i, a, b);
  }

  /** Skip whitespace in front of a known character. */
  lemma SkipBefore(text: Text, i: nat, end: nat, w: Text, c: Code, rest: Text)
    requires i <= end <= |text| && Spaces(w) && text[i..end] == w + ([c] + rest) && !IsSpace(c)
    ensures i + |w| < end && SkipSpaces(text, i) == i + |w| && At(text, i + |w|) == c
    ensures text[i + |w| + 1..end] == rest
  {
    Cut(text, i, end, w, [c] + rest);
    Cut(text, i + |w|, end, [c], rest);
    StartsHead(text, i + |w|, [c]);
    SkipTo(text, i, i + |w|);
  }

  lemma AfterDelimits(text: Text, a: nat, w: Text, c: Code)
    requires a <= |text| && Spaces(w) && SkipSpaces(text, a) == a + |w| && At(text, a + |w|) == c
    requires c == COMMA || c == CLOSE_BRACKET || c == CLOSE_BRACE
    ensures Delimiter(At(text, a))
  {
  }

  /** A value, whitespace and a separator, in this order. */
  lemma ValueLaid(text: Text, v: nat, end: nat, d: Doc, w: Text, c: Code, rest: Text) returns (a: nat, k: nat)
    requires v <= end <= |text| && text[v..end] == DocText(d) + (w + ([c] + rest)) && Spaces(w)
    requires c == COMMA || c == CLOSE_BRACKET || c == CLOSE_BRACE
    ensures v <= a <= k < end && text[v..a] == DocText(d) && Delimiter(At(text, a))
    ensures SkipSpaces(text, a) == k && At(text, k) == c && text[k + 1..end] == rest
  {
    a := v + |DocText(d)|;
    k := a + |w|;
    Cut(text, v, end, DocText(d), w + ([c] + rest));
    SkipBefore(text, a, end, w, c, rest);
    AfterDelimits(text, a, w, c);
  }

  /* ---- the parser ---- */

  /** Skip whitespace. */
  method Ws(text: Text, i: nat) returns (k: nat)
    requires i <= |text|
    ensures k == SkipSpaces(text, i) && i <= k <= |text|
  {
    k := i;
    while k < |text| && IsSpace(text[k])
      invariant i <= k <= |text| && SkipSpaces(text, k) == SkipSpaces(text, i)
    {
      k := k + 1;
    }
  }

  /** Find the end of the string token and decode it. */
  method Str(text: Text, i: nat) returns (r: Out<Text>)
    requires i < |text|
    ensures r == ParseString(text, i)
  {
    var j := i + 1;
    while j < |text| && text[j] != QUOTE
      invariant i < j <= |text| + 1 && ScanEnd(text, j) == ScanEnd(text, i + 1)
    {
      if text[j] == BACKSLASH { j := j + 1; }
      j := j + 1;
    }
    if j >= |text| { return Fail; }
    var s := Unescape(text[i + 1..j], 0);
    r := if s == None then Fail else Ok(s.value, j + 1);
  }

  /** A document's text from `v` to `end`, after whitespace from `i`. */
  ghost predicate Placed(text: Text, i: nat, d: Doc, v: nat, end: nat) {
    Good(d) && i <= v <= end <= |text| && Spaces(text[i..v]) && text[v..end] == DocText(d)
  }

  ghost predicate PlacedItems(text: Text, i: nat, items: Items, v: nat, end: nat) {
    GoodItems(items) && i <= v <= end <= |text| && Spaces(text[i..v]) && text[v..end] == ItemsBody(items)
  }

  ghost predicate PlacedMembers(text: Text, i: nat, ms: Members, v: nat, end: nat) {
    GoodMembers(ms) && i <= v <= end <= |text| && Spaces(text[i..v]) && text[v..end] == MembersBody(ms)
  }

  lemma WordHeads(text: Text, k: nat)
    requires k <= |text|
    ensures StartsWith(text, k, TRUE) ==> At(text, k) == TRUE[0]
    ensures StartsWith(text, k, FALSE) ==> At(text, k) == FALSE[0]
    ensures StartsWith(text, k, NULL) ==> At(text, k) == NULL[0]
  {
    if StartsWith(text, k, TRUE) { StartsHead(text, k, TRUE); }
    if StartsWith(text, k, FALSE) { StartsHead(text, k, FALSE); }
    if StartsWith(text, k, NULL) { StartsHead(text, k, NULL); }
  }

  lemma {:induction false} WordParsed(text: Text, k: nat, d: Doc, end: nat)
    requires Placed(text, k, d, k, end) && (d.Null? || d.Bool?)
    ensures ParseWord(text, k) == Ok(Meaning(d, false), end) && At(text, k) != QUOTE
  {
    assert end == k + |DocText(d)|;
    StartsHead(text, k, DocText(d));
    WordHeads(text, k);
  }

  lemma NumberIsNoWord(text: Text, k: nat, d: Doc, end: nat)
    requires Placed(text, k, d, k, end) && d.Number?
    ensures ParseWord(text, k) == Fail && At(text, k) != QUOTE
  {
    DocOpens(d);
    StartsHead(text, k, DocText(d));
    WordHeads(text, k);
  }

  /** Scalars: no part of them is a value. */
  function ParseScalar(text: Text, k: nat): (r: Out<Json>)
    requires k <= |text|
    ensures r.Ok? ==> k < r.next <= |text|
  {
    if At(text, k) == QUOTE then
      var s := ParseString(text, k);
      if s.Ok? then Ok(JString(s.value), s.next) else Fail
    else if ParseWord(text, k).Ok? then ParseWord(text, k)
    else ParseNumber(text, k)
  }

  /** What a value parser gives at every position from some on. */
  type Reader = nat --> Out<Json>

  /** A value parser can be asked from `i` on and moves forward. */
  ghost predicate Readable(text: Text, i: nat, read: Reader) {
    forall j: nat :: i <= j <= |text| ==> read.requires(j) && (read(j).Ok? ==> j < read(j).next <= |text|)
  }

  /** It is this parser. */
  ghost predicate Reads(text: Text, i: nat, read: Reader) {
    forall j: nat {:trigger ParseValue(text, j)} ::
      i <= j <= |text| ==> read.requires(j) && read(j) == ParseValue(text, j)
  }

  /** A value; the functions that follow are what the methods compute, document or not. */
  function ParseValue(text: Text, i: nat): (r: Out<Json>)
    requires i <= |text|
    ensures r.Ok? ==> i < r.next <= |text|
    decreases |text| - i, 2
  {
    var k := SkipSpaces(text, i);
    if At(text, k) == OPEN_BRACE then ParseObject(text, k)
    else if At(text, k) == OPEN_BRACKET then ParseArray(text, k)
    else ParseScalar(text, k)
  }

  /** The parser behind position `k`. */
  function Behind(text: Text, k: nat): (read: Reader)
    requires k < |text|
    ensures Readable(text, k + 1, read)
    decreases |text| - k, 0, 0
  {
    (j: nat) requires k < j <= |text| => ParseValue(text, j)
  }

  lemma BehindReads(text: Text, k: nat)
    requires k < |text|
    ensures Reads(text, k + 1, Behind(text, k))
  {
  }

  function ParseArray(text: Text, k: nat): (r: Out<Json>)
    requires k < |text|
    ensures r.Ok? ==> k < r.next <= |text|
    decreases |text| - k, 1
  {
    var e := SkipSpaces(text, k + 1);
    if At(text, e) == CLOSE_BRACKET then Ok(JArray([]), e + 1) else ParseElements(text, e, [], Behind(text, k))
  }

  function ParseElements(text: Text, i: nat, out: seq<Json>, read: Reader): (r: Out<Json>)
    requires i <= |text| && Readable(text, i, read)
    ensures r.Ok? ==> i < r.next <= |text|
    decreases |text| - i
  {
    var item := read(i);
    if item == Fail then Fail
    else
      var c := SkipSpaces(text, item.next);
      if At(text, c) == COMMA then ParseElements(text, c + 1, out + [item.value], read)
      else if At(text, c) == CLOSE_BRACKET then Ok(JArray(out + [item.value]), c + 1)
      else Fail
  }

  function ParseObject(text: Text, k: nat): (r: Out<Json>)
    requires k < |text|
    ensures r.Ok? ==> k < r.next <= |text|
    decreases |text| - k, 1
  {
    var e := SkipSpaces(text, k + 1);
    if At(text, e) == CLOSE_BRACE then Ok(JObject(NO_FIELDS), e + 1)
    else ParseEntries(text, e, NO_FIELDS, EntriesBehind(text, k))
  }

  /** A key up to its colon; `next` is where the value starts. */
  function ParseKey(text: Text, i: nat): (r: Out<Text>)
    requires i <= |text|
    ensures r.Ok? ==> i < r.next <= |text|
  {
    var q := SkipSpaces(text, i);
    if At(text, q) != QUOTE then Fail
    else
      var s := ParseString(text, q);
      if s == Fail then Fail
      else
        var colon := SkipSpaces(text, s.next);
        if At(text, colon) == COLON then Ok(s.value, colon + 1) else Fail
  }

  /** A key and its value. */
  function ParseEntry(text: Text, i: nat, read: Reader): (r: Out<(Text, Json)>)
    requires i <= |text| && Readable(text, i, read)
    ensures r.Ok? ==> i < r.next <= |text|
  {
    var key := ParseKey(text, i);
    if key == Fail then Fail
    else
      var item := read(key.next);
      if item == Fail then Fail else Ok((key.value, item.value), item.next)
  }

  type EntryReader = nat --> Out<(Text, Json)>

  ghost predicate ReadableEntries(text: Text, i: nat, entry: EntryReader) {
    forall j: nat :: i <= j <= |text| ==> entry.requires(j) && (entry(j).Ok? ==> j < entry(j).next <= |text|)
  }

  ghost predicate ReadsEntries(text: Text, i: nat, read: Reader, entry: EntryReader)
    requires Readable(text, i, read)
  {
    forall j: nat {:trigger ParseEntry(text, j, read)} ::
      i <= j <= |text| ==> entry.requires(j) && entry(j) == ParseEntry(text, j, read)
  }

  function EntriesBehind(text: Text, k: nat): (entry: EntryReader)
    requires k < |text|
    ensures ReadableEntries(text, k + 1, entry)
    decreases |text| - k, 0, 1
  {
    var read := Behind(text, k);
    (j: nat) requires k < j <= |text| => ParseEntry(text, j, read)
  }

  lemma EntriesBehindRead(text: Text, k: nat)
    requires k < |text|
    ensures ReadsEntries(text, k + 1, Behind(text, k), EntriesBehind(text, k))
  {
  }

  function ParseEntries(text: Text, i: nat, out: Fields, entry: EntryReader): (r: Out<Json>)
    requires i <= |text| && ReadableEntries(text, i, entry)
    ensures r.Ok? ==> i < r.next <= |text|
    decreases |text| - i
  {
    var item := entry(i);
    if item == Fail then Fail
    else
      var c := SkipSpaces(text, item.next);
      var next := Assign(out, item.value.0, item.value.1, false);
      if At(text, c) == COMMA then ParseEntries(text, c + 1, next, entry)
      else if At(text, c) == CLOSE_BRACE then Ok(JObject(next), c + 1)
      else Fail
  }

  lemma {:induction false} ScalarParsed(text: Text, k: nat, d: Doc, end: nat)
    requires Placed(text, k, d, k, end) && Delimiter(At(text, end)) && (d.Null? || d.Bool? || d.Number? || d.String?)
    ensures ParseScalar(text, k) == Ok(Meaning(d, false), end)
  {
    assert end == k + |DocText(d)|;
    match d
    case Null => WordParsed(text, k, d, end);
    case Bool(_) => WordParsed(text, k, d, end);
    case Number(_, _, _, _) =>
      NumberIsNoWord(text, k, d, end);
      NumberParsed(text, k, d);
    case String(ps) => StringParsed(text, k, ps);
  }

  /** A value. */
  method Value(text: Text, i: nat) returns (r: Out<Json>)
    requires i <= |text|
    ensures r == ParseValue(text, i)
    decreases |text| - i, 1
  {
    var k := Ws(text, i);
    if At(text, k) == OPEN_BRACE {
      r := Obj(text, k);
    } else if At(text, k) == OPEN_BRACKET {
      r := Arr(text, k);
    } else {
      r := ParseScalar(text, k);
    }
  }

  /** A value and the whitespace after it. */
  method Item(text: Text, i: nat, ghost read: Reader) returns (item: Out<Json>, c: nat)
    requires i <= |text| && Reads(text, i, read)
    ensures read.requires(i) && item == read(i)
    ensures item.Ok? ==> item.next <= |text| && c == SkipSpaces(text, item.next)
    decreases |text| - i, 2
  {
    item := Value(text, i);
    c := 0;
    if item.Ok? { c := Ws(text, item.next); }
  }

  /** An array, at its opening bracket. */
  method Arr(text: Text, k: nat) returns (r: Out<Json>)
    requires k < |text|
    ensures r == ParseArray(text, k)
    decreases |text| - k, 0
  {
    var e := Ws(text, k + 1);
    if At(text, e) == CLOSE_BRACKET { return Ok(JArray([]), e + 1); }
    BehindReads(text, k);
    r := Elements(text, e, Behind(text, k));
  }

  method Elements(text: Text, i: nat, ghost read: Reader) returns (r: Out<Json>)
    requires i <= |text| && Readable(text, i, read) && Reads(text, i, read)
    ensures r == ParseElements(text, i, [], read)
    decreases |text| - i, 3
  {
    var e := i;
    var out: seq<Json> := [];
    while true
      invariant i <= e <= |text| && Readable(text, e, read) && Reads(text, e, read)
      invariant ParseElements(text, i, [], read) == ParseElements(text, e, out, read)
      decreases |text| - e
    {
      var item, c := Item(text, e, read);
      if item == Fail { return Fail; }
      out := out + [item.value];
      if At(text, c) == COMMA {
        e := c + 1;
      } else if At(text, c) == CLOSE_BRACKET {
        return Ok(JArray(out), c + 1);
      } else {
        return Fail;
      }
    }
  }

  /** An object, at its opening brace. */
  method Obj(text: Text, k: nat) returns (r: Out<Json>)
    requires k < |text|
    ensures r == ParseObject(text, k)
    decreases |text| - k, 0
  {
    var e := Ws(text, k + 1);
    if At(text, e) == CLOSE_BRACE { return Ok(JObject(NO_FIELDS), e + 1); }
    BehindReads(text, k);
    EntriesBehindRead(text, k);
    r := Entries(text, e, Behind(text, k), EntriesBehind(text, k));
  }

  method Entries(text: Text, i: nat, ghost read: Reader, ghost entry: EntryReader) returns (r: Out<Json>)
    requires i <= |text| && Readable(text, i, read) && Reads(text, i, read)
    requires ReadableEntries(text, i, entry) && ReadsEntries(text, i, read, entry)
    ensures r == ParseEntries(text, i, NO_FIELDS, entry)
    decreases |text| - i, 4
  {
    var e, out := i, NO_FIELDS;
    while true
      invariant i <= e <= |text| && Readable(text, e, read) && Reads(text, e, read)
      invariant ReadableEntries(text, e, entry) && ReadsEntries(text, e, read, entry)
      invariant ParseEntries(text, i, NO_FIELDS, entry) == ParseEntries(text, e, out, entry)
      decreases |text| - e
    {
      var item, c := Entry(text, e, read, entry);
      if item == Fail { return Fail; }
      out := Assign(out, item.value.0, item.value.1, false);
      if At(text, c) == COMMA {
        e := c + 1;
      } else if At(text, c) == CLOSE_BRACE {
        return Ok(JObject(out), c + 1);
      } else {
        return Fail;
      }
    }
  }

  /** A key, its value and the whitespace after them. */
  method Entry(text: Text, i: nat, ghost read: Reader, ghost entry: EntryReader)
    returns (item: Out<(Text, Json)>, c: nat)
    requires i <= |text| && Readable(text, i, read) && Reads(text, i, read) && ReadsEntries(text, i, read, entry)
    ensures entry.requires(i) && item == entry(i)
    ensures item.Ok? ==> item.next <= |text| && c == SkipSpaces(text, item.next)
    decreases |text| - i, 3
  {
    assert entry(i) == ParseEntry(text, i, read);
    item, c := Fail, 0;
    var key := Key(text, i);
    if key == Fail { return; }
    var v;
    v, c := Item(text, key.next, read);
    if v.Ok? { item := Ok((key.value, v.value), v.next); }
  }

  /** A key and its colon. */
  method Key(text: Text, i: nat) returns (r: Out<Text>)
    requires i <= |text|
    ensures r == ParseKey(text, i)
  {
    var e := Ws(text, i);
    if At(text, e) != QUOTE { return Fail; }
    var s := Str(text, e);
    if s == Fail { return Fail; }
    e := Ws(text, s.next);
    if At(text, e) != COLON { return Fail; }
    r := Ok(s.value, e + 1);
  }

  /* ---- every document is parsed ---- */

  /** A document whose text is here and ends at a delimiter is read exactly to its end, and its
      meaning is the result. */
  lemma {:induction false} ValueParsed(text: Text, i: nat, d: Doc, v: nat, end: nat)
    requires Placed(text, i, d, v, end) && Delimiter(At(text, end))
    ensures ParseValue(text, i) == Ok(Meaning(d, false), end)
    decreases |text| - i, 1
  {
    ValueHere(text, i, d, v, end);
    if d.Array? || d.EmptyArray? {
      ArrayParsed(text, v, d, end);
    } else if d.Object? || d.EmptyObject? {
      ObjectParsed(text, v, d, end);
    } else {
      ScalarParsed(text, v, d, end);
    }
  }

  lemma {:induction false} ItemParsed(text: Text, i: nat, d: Doc, v: nat, end: nat, read: Reader)
    requires Placed(text, i, d, v, end) && Delimiter(At(text, end)) && Reads(text, i, read)
    ensures read.requires(i) && read(i) == Ok(Meaning(d, false), end)
    decreases |text| - i, 2
  {
    ValueParsed(text, i, d, v, end);
  }

  lemma {:induction false} ArrayParsed(text: Text, k: nat, d: Doc, end: nat)
    requires Placed(text, k, d, k, end) && k < |text| && text[k] == OPEN_BRACKET
    ensures ParseArray(text, k) == Ok(Meaning(d, false), end)
    decreases |text| - k, 0
  {
    var left, v := ArrayInside(text, k, d, end);
    var e := SkipSpaces(text, k + 1);
    if At(text, e) != CLOSE_BRACKET {
      BehindReads(text, k);
      ElementsParsed(text, e, d.items, v, end, [], Behind(text, k));
    }
  }

  lemma {:induction false} ElementsParsed(text: Text, i: nat, items: Items, v: nat, end: nat, out: seq<Json>,
                                          read: Reader)
    requires PlacedItems(text, i, items, v, end) && Readable(text, i, read) && Reads(text, i, read)
    ensures ParseElements(text, i, out, read) == Ok(JArray(ItemsMeaning(items, out, false)), end)
    decreases |text| - i, 3
  {
    var a, c, next := ItemLaid(text, i, items, v, end);
    ItemParsed(text, i, items.value, v, a, read);
    if items.More? { ElementsParsed(text, c + 1, items.rest, next, end, out + [Meaning(items.value, false)], read); }
  }

  lemma {:induction false} ObjectParsed(text: Text, k: nat, d: Doc, end: nat)
    requires Placed(text, k, d, k, end) && k < |text| && text[k] == OPEN_BRACE
    ensures ParseObject(text, k) == Ok(Meaning(d, false), end)
    decreases |text| - k, 0
  {
    var left, v := ObjectInside(text, k, d, end);
    var e := SkipSpaces(text, k + 1);
    if At(text, e) != CLOSE_BRACE {
      BehindReads(text, k);
      EntriesBehindRead(text, k);
      EntriesParsed(text, e, d.members, v, end, NO_FIELDS, Behind(text, k), EntriesBehind(text, k));
    }
  }

  /** A member is read as its key and its value's meaning. */
  lemma {:induction false} EntryParsed(text: Text, i: nat, ms: Members, v: nat, end: nat, read: Reader,
                                       entry: EntryReader)
    returns (a: nat, c: nat, next: nat)
    requires PlacedMembers(text, i, ms, v, end) && Readable(text, i, read) && Reads(text, i, read)
    requires ReadsEntries(text, i, read, entry)
    ensures entry.requires(i) && entry(i) == Ok((PiecesValue(ms.m.key), Meaning(ms.m.value, false)), a)
    ensures i <= a <= |text| && SkipSpaces(text, a) == c
    ensures ms.LastMember? ==> At(text, c) == CLOSE_BRACE && end == c + 1
    ensures ms.MoreMembers? ==> At(text, c) == COMMA && PlacedMembers(text, c + 1, ms.rest, next, end)
    decreases |text| - i, 3
  {
    var colon, start;
    colon, start, a, c, next := KeyRead(text, i, ms, v, end);
    ItemParsed(text, colon + 1, ms.m.value, start, a, read);
    EntryFrom(text, i, PiecesValue(ms.m.key), colon + 1, Meaning(ms.m.value, false), a, read);
  }

  lemma EntryFrom(text: Text, i: nat, key: Text, start: nat, value: Json, a: nat, read: Reader)
    requires i <= |text| && Readable(text, i, read)
    requires ParseKey(text, i) == Ok(key, start) && read(start) == Ok(value, a)
    ensures ParseEntry(text, i, read) == Ok((key, value), a)
  {
  }

  lemma KeyRead(text: Text, i: nat, ms: Members, v: nat, end: nat)
    returns (colon: nat, start: nat, a: nat, c: nat, next: nat)
    requires PlacedMembers(text, i, ms, v, end)
    ensures ParseKey(text, i) == Ok(PiecesValue(ms.m.key), colon + 1) && i <= colon < |text|
    ensures Placed(text, colon + 1, ms.m.value, start, a) && Delimiter(At(text, a)) && SkipSpaces(text, a) == c
    ensures ms.LastMember? ==> At(text, c) == CLOSE_BRACE && end == c + 1
    ensures ms.MoreMembers? ==> At(text, c) == COMMA && PlacedMembers(text, c + 1, ms.rest, next, end)
  {
    colon, start, a, c, next := MemberLaid(text, i, ms, v, end);
  }

  lemma {:induction false} EntriesParsed(text: Text, i: nat, ms: Members, v: nat, end: nat, out: Fields, read: Reader,
                                         entry: EntryReader)
    requires PlacedMembers(text, i, ms, v, end) && Readable(text, i, read) && Reads(text, i, read)
    requires ReadableEntries(text, i, entry) && ReadsEntries(text, i, read, entry)
    ensures ParseEntries(text, i, out, entry) == Ok(JObject(MembersMeaning(ms, out, false)), end)
    decreases |text| - i, 4
  {
    var a, c, next := EntryParsed(text, i, ms, v, end, read, entry);
    if ms.MoreMembers? {
      var more := Assign(out, PiecesValue(ms.m.key), Meaning(ms.m.value, false), false);
      EntriesParsed(text, c + 1, ms.rest, next, end, more, read, entry);
    }
  }

  /** The first character of a document decides its kind. */
  lemma {:induction false} ValueHere(text: Text, i: nat, d: Doc, v: nat, end: nat)
    requires Placed(text, i, d, v, end)
    ensures SkipSpaces(text, i) == v && Placed(text, v, d, v, end) && v < |text|
    ensures d.Array? || d.EmptyArray? <==> At(text, v) == OPEN_BRACKET
    ensures d.Object? || d.EmptyObject? <==> At(text, v) == OPEN_BRACE
  {
    DocOpens(d);
    StartsHead(text, v, DocText(d));
    SkipTo(text, i, v);
  }

  /** What follows the opening bracket of an array. */
  lemma ArrayInside(text: Text, k: nat, d: Doc, end: nat) returns (left: Option<Items>, v: nat)
    requires Placed(text, k, d, k, end) && k < |text| && text[k] == OPEN_BRACKET
    ensures
      var e := SkipSpaces(text, k + 1);
      && (At(text, e) == CLOSE_BRACKET ==> d.EmptyArray? && end == e + 1)
      && (At(text, e) != CLOSE_BRACKET ==>
            d.Array? && left == Some(d.items) && PlacedItems(text, e, d.items, v, end))
  {
    ValueHere(text, k, d, k, end);
    StartsHead(text, k, DocText(d));
    left, v := None, 0;
    if d.EmptyArray? {
      SkipBefore(text, k + 1, end, d.inside, CLOSE_BRACKET, []);
    } else {
      assert DocText(d)[1..] == ItemsText(d.items);
      left := Some(d.items);
      v := FirstItem(text, k + 1, d.items, end);
    }
  }

  lemma FirstItem(text: Text, i: nat, items: Items, end: nat) returns (v: nat)
    requires GoodItems(items) && i <= end <= |text| && text[i..end] == ItemsText(items)
    ensures SkipSpaces(text, i) == v && At(text, v) != CLOSE_BRACKET && PlacedItems(text, v, items, v, end)
  {
    v := i + |items.before|;
    Cut(text, i, end, items.before, ItemsBody(items));
    DocOpens(items.value);
    StartsHead(text, v, ItemsBody(items));
    SkipTo(text, i, v);
  }

  /** One element and what follows it. */
  lemma ItemLaid(text: Text, i: nat, items: Items, v: nat, end: nat) returns (a: nat, c: nat, next: nat)
    requires PlacedItems(text, i, items, v, end)
    ensures Placed(text, i, items.value, v, a) && Delimiter(At(text, a)) && SkipSpaces(text, a) == c
    ensures items.Last? ==> At(text, c) == CLOSE_BRACKET && end == c + 1
    ensures items.More? ==> At(text, c) == COMMA && PlacedItems(text, c + 1, items.rest, next, end)
  {
    next := 0;
    if items.Last? {
      a, c := ValueLaid(text, v, end, items.value, items.after, CLOSE_BRACKET, []);
    } else {
      a, c := ValueLaid(text, v, end, items.value, items.after, COMMA, ItemsText(items.rest));
      next := ItemsPlaced(text, c + 1, end, items.rest);
    }
  }

  lemma ItemsPlaced(text: Text, i: nat, end: nat, items: Items) returns (v: nat)
    requires GoodItems(items) && i <= end <= |text| && text[i..end] == ItemsText(items)
    ensures PlacedItems(text, i, items, v, end)
  {
    v := i + |items.before|;
    Cut(text, i, end, items.before, ItemsBody(items));
  }

  /** What follows the opening brace of an object. */
  lemma ObjectInside(text: Text, k: nat, d: Doc, end: nat) returns (left: Option<Members>, v: nat)
    requires Placed(text, k, d, k, end) && k < |text| && text[k] == OPEN_BRACE
    ensures
      var e := SkipSpaces(text, k + 1);
      && (At(text, e) == CLOSE_BRACE ==> d.EmptyObject? && end == e + 1)
      && (At(text, e) != CLOSE_BRACE ==>
            d.Object? && left == Some(d.members) && PlacedMembers(text, e, d.members, v, end))
  {
    ValueHere(text, k, d, k, end);
    StartsHead(text, k, DocText(d));
    left, v := None, 0;
    if d.EmptyObject? {
      SkipBefore(text, k + 1, end, d.inside, CLOSE_BRACE, []);
    } else {
      assert DocText(d)[1..] == MembersText(d.members);
      left := Some(d.members);
      v := FirstMember(text, k + 1, d.members, end);
    }
  }

  lemma FirstMember(text: Text, i: nat, ms: Members, end: nat) returns (v: nat)
    requires GoodMembers(ms) && i <= end <= |text| && text[i..end] == MembersText(ms)
    ensures SkipSpaces(text, i) == v && At(text, v) == QUOTE && PlacedMembers(text, v, ms, v, end)
  {
    v := i + |ms.m.beforeKey|;
    Cut(text, i, end, ms.m.beforeKey, MembersBody(ms));
    StartsHead(text, v, MembersBody(ms));
    SkipTo(text, i, v);
  }

  /** A key and its colon, up to the value. */
  lemma KeyLaid(text: Text, v: nat, end: nat, m: Member, rest: Text) returns (ka: nat, c: nat, start: nat)
    requires v <= end <= |text| && text[v..end] == StringText(m.key) + (m.afterKey + ([COLON] + (m.before + rest)))
    requires GoodAround(m)
    ensures v < ka <= c < start <= end && At(text, v) == QUOTE && ParseString(text, v) == Ok(PiecesValue(m.key), ka)
    ensures SkipSpaces(text, ka) == c && At(text, c) == COLON
    ensures Spaces(text[c + 1..start]) && text[start..end] == rest
  {
    ka, c, start := KeyCut(text, v, end, StringText(m.key), m.afterKey, m.before, rest);
    StringParsed(text, v, m.key);
  }

  lemma KeyCut(text: Text, v: nat, end: nat, token: Text, w: Text, b: Text, rest: Text)
    returns (ka: nat, c: nat, start: nat)
    requires v <= end <= |text| && text[v..end] == token + (w + ([COLON] + (b + rest))) && Spaces(w)
    ensures v + |token| == ka <= c < start <= end && text[v..ka] == token
    ensures SkipSpaces(text, ka) == c && At(text, c) == COLON
    ensures text[c + 1..start] == b && text[start..end] == rest
  {
    ka := v + |token|;
    c := ka + |w|;
    start := c + 1 + |b|;
    Cut(text, v, end, token, w + ([COLON] + (b + rest)));
    SkipBefore(text, ka, end, w, COLON, b + rest);
    Cut(text, c + 1, end, b, rest);
  }

  /** One member and what follows it. */
  lemma MemberLaid(text: Text, i: nat, ms: Members, v: nat, end: nat)
    returns (colon: nat, start: nat, a: nat, c: nat, next: nat)
    requires PlacedMembers(text, i, ms, v, end)
    ensures v < |text| && SkipSpaces(text, i) == v && At(text, v) == QUOTE
    ensures
      var key := ParseString(text, v);
      key.Ok? && key.value == PiecesValue(ms.m.key) && SkipSpaces(text, key.next) == colon && At(text, colon) == COLON
    ensures Placed(text, colon + 1, ms.m.value, start, a) && Delimiter(At(text, a)) && SkipSpaces(text, a) == c
    ensures ms.LastMember? ==> At(text, c) == CLOSE_BRACE && end == c + 1
    ensures ms.MoreMembers? ==> At(text, c) == COMMA && PlacedMembers(text, c + 1, ms.rest, next, end)
  {
    var ka;
    ka, colon, start := KeyLaid(text, v, end, ms.m, ValueText(ms));
    SkipTo(text, i, v);
    a, c, next := MemberValueLaid(text, start, end, ms);
  }

  /** A member's text from its value on. */
  function ValueText(ms: Members): Text {
    DocText(ms.m.value) + (ms.m.after + if ms.LastMember? then [CLOSE_BRACE] else [COMMA] + MembersText(ms.rest))
  }

  lemma MemberValueLaid(text: Text, start: nat, end: nat, ms: Members) returns (a: nat, c: nat, next: nat)
    requires GoodMembers(ms) && start <= end <= |text| && text[start..end] == ValueText(ms)
    ensures start <= a <= |text| && text[start..a] == DocText(ms.m.value) && Delimiter(At(text, a))
      && SkipSpaces(text, a) == c
    ensures ms.LastMember? ==> At(text, c) == CLOSE_BRACE && end == c + 1
    ensures ms.MoreMembers? ==> At(text, c) == COMMA && PlacedMembers(text, c + 1, ms.rest, next, end)
  {
    next := 0;
    if ms.LastMember? {
      a, c := ValueLaid(text, start, end, ms.m.value, ms.m.after, CLOSE_BRACE, []);
    } else {
      a, c := ValueLaid(text, start, end, ms.m.value, ms.m.after, COMMA, MembersText(ms.rest));
      next := RestPlaced(text, c + 1, end, ms.rest);
    }
  }

  lemma RestPlaced(text: Text, i: nat, end: nat, ms: Members) returns (v: nat)
    requires GoodMembers(ms) && i <= end <= |text| && text[i..end] == MembersText(ms)
    ensures PlacedMembers(text, i, ms, v, end)
  {
    v := i + |ms.m.beforeKey|;
    Cut(text, i, end, ms.m.beforeKey, MembersBody(ms));
  }
}
