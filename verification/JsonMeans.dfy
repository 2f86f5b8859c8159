/** What the parser's results are, told without its own arithmetic: decimal numerals, escaped
    characters, arrays and objects written down by a printer come back as what was written. */
module JsonMeans {
  import opened Order
  import opened JsonText
  import opened ExactJson
  import opened JsonRoundTrip
  import opened JsonSound

  /* ---- words ---- */

  function Codes(s: string): Text
    requires forall i :: 0 <= i < |s| ==> s[i] as int < 0x10000
  {
    seq(|s|, i requires 0 <= i < |s| => s[i] as int)
  }

  /** The literal names and punctuation are those of the grammar. */
  lemma WordsMean()
    ensures TRUE == Codes("true") && FALSE == Codes("false") && NULL == Codes("null") && PROTO == Codes("__proto__")
    ensures [OPEN_BRACKET, COMMA, CLOSE_BRACKET] == Codes("[,]")
    ensures [OPEN_BRACE, QUOTE, COLON, CLOSE_BRACE] == Codes("{\":}")
    ensures [MINUS, PLUS, DOT, BACKSLASH] == Codes("-+.\\")
    ensures forall c :: IsSpace(c) <==> c in [' ' as int, '\t' as int, '\n' as int, '\r' as int]
  {
  }

  /** A document alone is a text. */
  lemma {:induction false} DocumentParses(d: Doc, text: Text, v: Json)
    requires Good(d) && text == DocText(d) && v == Meaning(d, false)
    ensures ParseText(text) == Some(v)
  {
    assert text[0..0] == [] && text[0..|text|] == text && text[|text|..|text|] == [];
    assert IsTextOf(text, d, 0, |text|);
    ParsesExactly(text, v);
  }

  /* ---- integers ---- */

  /** A natural number in decimal, most significant digit first. */
  function Decimal(n: nat): Text {
    if n < 10 then [0x30 + n] else Decimal(n / 10) + [0x30 + n % 10]
  }

  function Zeros(k: nat): Text {
    seq(k, i => 0x30)
  }

  function Pow10(k: nat): nat {
    if k == 0 then 1 else 10 * Pow10(k - 1)
  }

  lemma LastDigit(s: Text, c: Code)
    ensures DigitsValue(s + [c]) == 10 * DigitsValue(s) + c - 0x30
  {
    assert (s + [c])[..|s|] == s;
  }

  lemma Carry(x: int, p: int, y: int)
    ensures 10 * (x * p + y) == x * (10 * p) + 10 * y
  {
  }

  /** The law of place value. */
  lemma {:induction false} PlaceValue(a: Text, b: Text)
    ensures DigitsValue(a + b) == DigitsValue(a) * Pow10(|b|) + DigitsValue(b)
  {
    if b == [] {
      assert a + b == a;
    } else {
      var init, c := b[..|b| - 1], b[|b| - 1];
      assert a + b == (a + init) + [c];
      PlaceValue(a, init);
      LastDigit(a + init, c);
      Carry(DigitsValue(a), Pow10(|init|), DigitsValue(init));
    }
  }

  lemma {:induction false} DecimalMeans(n: nat)
    ensures Decimal(n) != [] && Digits(Decimal(n)) && DigitsValue(Decimal(n)) == n
  {
    if n >= 10 {
      DecimalMeans(n / 10);
      assert Decimal(n)[..|Decimal(n)| - 1] == Decimal(n / 10);
    } else {
      assert Decimal(n)[..0] == [];
    }
  }

  lemma {:induction false} ZerosMean(k: nat)
    ensures Digits(Zeros(k)) && DigitsValue(Zeros(k)) == 0
  {
    if k > 0 {
      ZerosMean(k - 1);
      assert Zeros(k)[..k - 1] == Zeros(k - 1);
    }
  }

  /** A numeral with any leading zeros. */
  function Numeral(zeros: nat, n: nat): Text {
    Zeros(zeros) + Decimal(n)
  }

  lemma NumeralMeans(zeros: nat, n: nat)
    ensures Numeral(zeros, n) != [] && Digits(Numeral(zeros, n)) && DigitsValue(Numeral(zeros, n)) == n
  {
    DecimalMeans(n);
    ZerosMean(zeros);
    PlaceValue(Zeros(zeros), Decimal(n));
  }

  lemma WholeMeans(negative: bool, whole: Text) returns (d: Doc)
    requires whole != [] && Digits(whole)
    ensures Good(d) && DocText(d) == SignText(negative) + whole
    ensures Meaning(d, false) == Exact(if negative then 0 - DigitsValue(whole) else DigitsValue(whole))
  {
    d := Number(negative, whole, [], NoExponent);
    assert whole + ([] + []) == whole;
  }

  /** Every integer, written in decimal with or without leading zeros, parses to itself. */
  lemma {:induction false} IntegerParses(negative: bool, zeros: nat, n: nat)
    ensures ParseText(SignText(negative) + Numeral(zeros, n)) == Some(Exact(if negative then 0 - n else n))
  {
    NumeralMeans(zeros, n);
    var d := WholeMeans(negative, Numeral(zeros, n));
    DocumentParses(d, SignText(negative) + Numeral(zeros, n), Exact(if negative then 0 - n else n));
  }

  /** A zero value comes from zeros only. */
  lemma ZerosMore(zeros: nat)
    ensures Zeros(zeros) + [0x30] == Zeros(zeros + 1)
  {
  }

  lemma DecimalMore(m: nat, d: nat)
    requires d < 10
    ensures Decimal(10 * m + d) == if m == 0 then [0x30 + d] else Decimal(m) + [0x30 + d]
  {
    assert (10 * m + d) / 10 == m && (10 * m + d) % 10 == d;
  }

  /** One more digit behind a numeral. */
  lemma NumeralMore(zeros: nat, m: nat, d: nat)
    requires d < 10
    ensures Numeral(zeros, m) + [0x30 + d] == Numeral(if m == 0 then zeros + 1 else zeros, 10 * m + d)
  {
    DecimalMore(m, d);
    if m == 0 {
      ZerosMore(zeros);
    } else {
      Associate(Zeros(zeros), Decimal(m), [0x30 + d]);
    }
  }

  lemma Associate(a: Text, b: Text, c: Text)
    ensures (a + b) + c == a + (b + c)
  {
  }

  lemma LoneDigit(d: nat)
    requires d < 10
    ensures Numeral(0, d) == [0x30 + d]
  {
  }

  /** And every string of digits is such a numeral: the value given to it is the only one. */
  lemma {:induction false} DigitsAreNumeral(s: Text) returns (zeros: nat)
    requires s != [] && Digits(s)
    ensures DigitsValue(s) >= 0 && s == Numeral(zeros, DigitsValue(s))
  {
    var init, d := s[..|s| - 1], s[|s| - 1] - 0x30;
    assert s == init + [0x30 + d];
    if init == [] {
      zeros := 0;
      LoneDigit(d);
    } else {
      zeros := DigitsAreNumeral(init);
      var m := DigitsValue(init);
      NumeralMore(zeros, m, d);
      if m == 0 { zeros := zeros + 1; }
    }
  }

  /* ---- strings ---- */

  /** How a character may be written: as it is if it may be, by its letter if it has one, or by
      four hexadecimal digits, in either case. */
  datatype Style = AsIs | ByLetter | LowerHex | UpperHex

  function Letter(c: Code): Option<Code> {
    if c == '"' as int then Some('"' as int)
    else if c == '\\' as int then Some('\\' as int)
    else if c == '/' as int then Some('/' as int)
    else if c == 8 then Some('b' as int)
    else if c == 9 then Some('t' as int)
    else if c == 10 then Some('n' as int)
    else if c == 12 then Some('f' as int)
    else if c == 13 then Some('r' as int)
    else None
  }

  function HexText(v: nat, upper: bool): Code
    requires v < 16
  {
    if v < 10 then '0' as int + v else (if upper then 'A' as int else 'a' as int) + v - 10
  }

  function Written(c: Code, style: Style): Text {
    if style == AsIs && c >= 0x20 && c != '"' as int && c != '\\' as int then [c]
    else if style == ByLetter && Letter(c).Some? then ['\\' as int, Letter(c).value]
    else
      var up := style == UpperHex;
      ['\\' as int, 'u' as int, HexText(c / 4096, up), HexText(c / 256 % 16, up), HexText(c / 16 % 16, up),
       HexText(c % 16, up)]
  }

  function PieceOf(c: Code, style: Style): Piece {
    if style == AsIs && c >= 0x20 && c != '"' as int && c != '\\' as int then Plain(c)
    else if style == ByLetter && Letter(c).Some? then Short(Letter(c).value)
    else
      var up := style == UpperHex;
      Hex(HexText(c / 4096, up), HexText(c / 256 % 16, up), HexText(c / 16 % 16, up), HexText(c % 16, up))
  }

  lemma HexMeans(v: nat, upper: bool)
    requires v < 16
    ensures IsHex(HexText(v, upper)) && HexValue(HexText(v, upper)) == v
  {
  }

  lemma HexDigitsMean(c: Code)
    ensures c == 4096 * (c / 4096) + 256 * (c / 256 % 16) + 16 * (c / 16 % 16) + c % 16
  {
    HexDigitOff(c);
    HexDigitOff(c / 16);
    HexDigitOff(c / 256);
  }

  lemma HexDigitOff(n: int)
    ensures n == 16 * (n / 16) + n % 16 && n / 16 / 16 == n / 256
  {
  }

  lemma HexPieceMeans(c: Code, up: bool)
    ensures var p := Hex(HexText(c / 4096, up), HexText(c / 256 % 16, up), HexText(c / 16 % 16, up),
                         HexText(c % 16, up));
            GoodPiece(p) && PieceValue(p) == c
  {
    HexMeans(c / 4096, up);
    HexMeans(c / 256 % 16, up);
    HexMeans(c / 16 % 16, up);
    HexMeans(c % 16, up);
    HexDigitsMean(c);
  }

  /** The short escapes are those letters and no others. */
  lemma LetterMeans(c: Code, letter: Code)
    ensures Letter(c) == Some(letter) <==> ShortValue(letter) == Some(c)
  {
  }

  /** The hexadecimal digits are those printed and no others. */
  lemma HexIsPrinted(c: Code)
    ensures IsHex(c) ==> c == HexText(HexValue(c), c < 'a' as int)
  {
  }

  lemma PieceMeans(c: Code, style: Style)
    ensures var p := PieceOf(c, style); GoodPiece(p) && PieceText(p) == Written(c, style) && PieceValue(p) == c
  {
    if style == ByLetter && Letter(c).Some? { LetterMeans(c, Letter(c).value); }
    HexPieceMeans(c, style == UpperHex);
  }

  function WrittenAll(s: Text, styles: seq<Style>): Text
    requires |styles| == |s|
  {
    if s == [] then [] else Written(s[0], styles[0]) + WrittenAll(s[1..], styles[1..])
  }

  function PiecesOf(s: Text, styles: seq<Style>): seq<Piece>
    requires |styles| == |s|
  {
    if s == [] then [] else [PieceOf(s[0], styles[0])] + PiecesOf(s[1..], styles[1..])
  }

  lemma {:induction false} PiecesMean(s: Text, styles: seq<Style>)
    requires |styles| == |s|
    ensures var ps := PiecesOf(s, styles);
            GoodPieces(ps) && PiecesText(ps) == WrittenAll(s, styles) && PiecesValue(ps) == s
  {
    if s != [] {
      PieceMeans(s[0], styles[0]);
      PiecesMean(s[1..], styles[1..]);
      var ps, rest := PiecesOf(s, styles), PiecesOf(s[1..], styles[1..]);
      assert ps[1..] == rest;
      assert s == [s[0]] + s[1..];
    }
  }

  /** Every string, each character written in any of its ways, parses to itself. */
  lemma {:induction false} StringParses(s: Text, styles: seq<Style>)
    requires |styles| == |s|
    ensures ParseText([QUOTE] + (WrittenAll(s, styles) + [QUOTE])) == Some(JString(s))
  {
    PiecesMean(s, styles);
    DocumentParses(String(PiecesOf(s, styles)), [QUOTE] + (WrittenAll(s, styles) + [QUOTE]), JString(s));
  }

  /* ---- arrays ---- */

  /** The elements of an array as a list. */
  function ItemList(items: Items): seq<Doc> {
    [items.value] + if items.Last? then [] else ItemList(items.rest)
  }

  lemma {:induction false} GoodList(items: Items)
    requires GoodItems(items)
    ensures forall i :: 0 <= i < |ItemList(items)| ==> Good(ItemList(items)[i])
  {
    if items.More? { GoodList(items.rest); }
  }

  /** An array means its elements' meanings, in order. */
  lemma {:induction false} ArrayMeans(items: Items, out: seq<Json>, exact: bool)
    requires GoodItems(items)
    ensures |ItemsMeaning(items, out, exact)| == |out| + |ItemList(items)|
    ensures forall i :: 0 <= i < |out| ==> ItemsMeaning(items, out, exact)[i] == out[i]
    ensures forall i :: 0 <= i < |ItemList(items)| ==>
      Good(ItemList(items)[i]) && ItemsMeaning(items, out, exact)[|out| + i] == Meaning(ItemList(items)[i], exact)
  {
    GoodList(items);
    if items.More? {
      var next := out + [Meaning(items.value, exact)];
      ArrayMeans(items.rest, next, exact);
      assert ItemsMeaning(items, out, exact) == ItemsMeaning(items.rest, next, exact);
      forall i | 0 <= i < |ItemList(items)|
        ensures ItemsMeaning(items, out, exact)[|out| + i] == Meaning(ItemList(items)[i], exact)
      {
        if i > 0 {
          assert ItemList(items)[i] == ItemList(items.rest)[i - 1];
          assert |out| + i == |next| + (i - 1);
        }
      }
    }
  }

  /* ---- objects ---- */

  /** The names of the members, in order. */
  function Names(ms: Members): seq<Text>
    requires GoodMembers(ms)
  {
    [PiecesValue(ms.m.key)] + if ms.LastMember? then [] else Names(ms.rest)
  }

  /** The meanings of the members, in order. */
  function Values(ms: Members): (values: seq<Json>)
    requires GoodMembers(ms)
    ensures |values| == |Names(ms)|
  {
    [Meaning(ms.m.value, true)] + if ms.LastMember? then [] else Values(ms.rest)
  }

  /** The last place of a name in a list, if it has one. */
  function LastOf(names: seq<Text>, name: Text): (at: Option<nat>)
    ensures at.Some? ==> at.value < |names| && names[at.value] == name
    ensures forall j :: (if at.Some? then at.value else -1) < j < |names| ==> names[j] != name
  {
    var n := |names|;
    if n == 0 then None else if names[n - 1] == name then Some(n - 1) else LastOf(names[..n - 1], name)
  }

  /** A list with one more name in front. */
  lemma {:induction false} LastBehind(first: Text, rest: seq<Text>, name: Text)
    ensures LastOf(rest, name).Some? ==> LastOf([first] + rest, name) == Some(LastOf(rest, name).value + 1)
    ensures LastOf(rest, name) == None ==> LastOf([first] + rest, name) == if first == name then Some(0) else None
  {
    var n := |rest|;
    if n > 0 && rest[n - 1] != name {
      LastBehind(first, rest[..n - 1], name);
      assert ([first] + rest)[..n] == [first] + rest[..n - 1];
    }
  }

  /** An object has exactly the names of its members, the earlier fields aside, each with the
      meaning of the last member of that name. */
  lemma {:induction false} ObjectMeans(ms: Members, out: Fields, name: Text)
    requires GoodMembers(ms)
    ensures var own, at := MembersMeaning(ms, out, true).own, LastOf(Names(ms), name);
            if at.Some? then name in own && own[name] == Values(ms)[at.value]
            else (name in own <==> name in out.own) && (name in own ==> own[name] == out.own[name])
  {
    var first := PiecesValue(ms.m.key);
    if ms.MoreMembers? {
      ObjectMeans(ms.rest, Assign(out, first, Meaning(ms.m.value, true), true), name);
      LastBehind(first, Names(ms.rest), name);
    } else {
      LastBehind(first, [], name);
      assert [first] + [] == [first];
    }
  }
}
