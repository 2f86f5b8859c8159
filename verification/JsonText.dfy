/** JSON values, their texts with any whitespace and any spelling of numbers and strings
    (sections 2 to 7 of RFC 8259), and what such a text means. */
module JsonText {
  import opened Order

  /** A JavaScript string is a sequence of UTF-16 code units. */
  type Code = c: int | 0 <= c < 0x10000
  type Text = seq<Code>

  const QUOTE: Code := 0x22
  const BACKSLASH: Code := 0x5c
  const COMMA: Code := 0x2c
  const COLON: Code := 0x3a
  const OPEN_BRACE: Code := 0x7b
  const CLOSE_BRACE: Code := 0x7d
  const OPEN_BRACKET: Code := 0x5b
  const CLOSE_BRACKET: Code := 0x5d
  const MINUS: Code := 0x2d
  const PLUS: Code := 0x2b
  const DOT: Code := 0x2e
  const TRUE: Text := [0x74, 0x72, 0x75, 0x65]
  const FALSE: Text := [0x66, 0x61, 0x6c, 0x73, 0x65]
  const NULL: Text := [0x6e, 0x75, 0x6c, 0x6c]
  /** `__proto__`. */
  const PROTO: Text := [0x5f, 0x5f, 0x70, 0x72, 0x6f, 0x74, 0x6f, 0x5f, 0x5f]

  predicate IsSpace(c: int) {
    c == 0x20 || c == 0x09 || c == 0x0a || c == 0x0d
  }

  predicate Spaces(s: Text) {
    forall i :: 0 <= i < |s| ==> IsSpace(s[i])
  }

  predicate IsDigit(c: int) {
    0x30 <= c <= 0x39
  }

  predicate Digits(s: Text) {
    forall i :: 0 <= i < |s| ==> IsDigit(s[i])
  }

  predicate IsHex(c: int) {
    IsDigit(c) || 0x41 <= c <= 0x46 || 0x61 <= c <= 0x66
  }

  function HexValue(c: int): (v: nat)
    requires IsHex(c)
    ensures v < 16
  {
    if IsDigit(c) then c - 0x30 else if c <= 0x46 then c - 0x37 else c - 0x57
  }

  /* ---- values ---- */

  datatype Json =
    | JNull
    | JBool(b: bool)
    | JNumber(n: int)
    | JBig(big: int)
    | JFloat(token: Text)
    | JString(s: Text)
    | JArray(items: seq<Json>)
    | JObject(fields: Fields)

  /** An object: its own properties, and whether assigning to `__proto__` still meets the
      accessor that ordinary objects inherit. */
  datatype Fields = Fields(own: map<Text, Json>, ordinary: bool)

  const NO_FIELDS := Fields(map[], true)

  const MAX_SAFE: int := 0x1F_FFFF_FFFF_FFFF

  /** An integer as an ordinary number where that is exact, as a big integer elsewhere. */
  function Exact(n: int): Json {
    if -MAX_SAFE <= n <= MAX_SAFE then JNumber(n) else JBig(n)
  }

  /* ---- documents: values with their spelling ---- */

  /** One element of a string: a character as it is, a short escape, or four hex digits. */
  datatype Piece = Plain(c: Code) | Short(c: Code) | Hex(a: Code, b: Code, c: Code, d: Code)

  /** The character a short escape stands for. */
  function ShortValue(c: int): Option<Code> {
    if c == QUOTE || c == BACKSLASH || c == 0x2f then Some(c)
    else if c == 0x62 then Some(0x08)
    else if c == 0x66 then Some(0x0c)
    else if c == 0x6e then Some(0x0a)
    else if c == 0x72 then Some(0x0d)
    else if c == 0x74 then Some(0x09)
    else None
  }

  predicate GoodPiece(p: Piece) {
    match p
    case Plain(c) => c >= 0x20 && c != QUOTE && c != BACKSLASH
    case Short(c) => ShortValue(c).Some?
    case Hex(a, b, c, d) => IsHex(a) && IsHex(b) && IsHex(c) && IsHex(d)
  }

  predicate GoodPieces(ps: seq<Piece>) {
    forall i :: 0 <= i < |ps| ==> GoodPiece(ps[i])
  }

  function PieceText(p: Piece): Text {
    match p
    case Plain(c) => [c]
    case Short(c) => [BACKSLASH, c]
    case Hex(a, b, c, d) => [BACKSLASH, 0x75, a, b, c, d]
  }

  function PieceValue(p: Piece): Code
    requires GoodPiece(p)
  {
    match p
    case Plain(c) => c
    case Short(c) => ShortValue(c).value
    case Hex(a, b, c, d) => HexCode(a, b, c, d)
  }

  function HexCode(a: int, b: int, c: int, d: int): Code
    requires IsHex(a) && IsHex(b) && IsHex(c) && IsHex(d)
  {
    4096 * HexValue(a) + 256 * HexValue(b) + 16 * HexValue(c) + HexValue(d)
  }

  function PiecesText(ps: seq<Piece>): Text {
    if ps == [] then [] else PieceText(ps[0]) + PiecesText(ps[1..])
  }

  function PiecesValue(ps: seq<Piece>): Text
    requires GoodPieces(ps)
  {
    if ps == [] then [] else [PieceValue(ps[0])] + PiecesValue(ps[1..])
  }

  function StringText(ps: seq<Piece>): Text {
    [QUOTE] + (PiecesText(ps) + [QUOTE])
  }

  /** An exponent: the letter, an optional sign, digits. */
  datatype Exponent = NoExponent | Exponent(letter: Code, sign: Text, digits: Text)

  predicate GoodExponent(e: Exponent) {
    e.Exponent? ==>
      && (e.letter == 0x65 || e.letter == 0x45)
      && (e.sign == [] || e.sign == [PLUS] || e.sign == [MINUS])
      && e.digits != [] && Digits(e.digits)
  }

  function ExponentText(e: Exponent): Text {
    if e.NoExponent? then [] else [e.letter] + (e.sign + e.digits)
  }

  function DigitsValue(s: Text): int {
    if s == [] then 0 else 10 * DigitsValue(s[..|s| - 1]) + s[|s| - 1] - 0x30
  }

  datatype Doc =
    | Null
    | Bool(b: bool)
    /** Sign, integer digits, digits after a point when there are any, exponent. */
    | Number(negative: bool, whole: Text, fraction: Text, exponent: Exponent)
    | String(pieces: seq<Piece>)
    | EmptyArray(inside: Text)
    | Array(items: Items)
    | EmptyObject(inside: Text)
    | Object(members: Members)

  /** Elements with the whitespace before and after each. */
  datatype Items =
    | Last(before: Text, value: Doc, after: Text)
    | More(before: Text, value: Doc, after: Text, rest: Items)

  /** Members with the whitespace around key and value; `rest` is none for the last. */
  datatype Members =
    | LastMember(m: Member)
    | MoreMembers(m: Member, rest: Members)

  datatype Member = Member(beforeKey: Text, key: seq<Piece>, afterKey: Text, before: Text, value: Doc, after: Text)

  predicate Good(d: Doc) {
    match d
    case Null => true
    case Bool(_) => true
    case Number(_, whole, fraction, exponent) =>
      whole != [] && Digits(whole) && Digits(fraction) && GoodExponent(exponent)
    case String(ps) => GoodPieces(ps)
    case EmptyArray(w) => Spaces(w)
    case Array(items) => GoodItems(items)
    case EmptyObject(w) => Spaces(w)
    case Object(ms) => GoodMembers(ms)
  }

  predicate GoodItems(items: Items) {
    && Spaces(items.before) && Good(items.value) && Spaces(items.after)
    && (items.More? ==> GoodItems(items.rest))
  }

  predicate GoodAround(m: Member) {
    Spaces(m.beforeKey) && GoodPieces(m.key) && Spaces(m.afterKey) && Spaces(m.before) && Spaces(m.after)
  }

  predicate GoodMembers(ms: Members) {
    GoodAround(ms.m) && Good(ms.m.value) && (ms.MoreMembers? ==> GoodMembers(ms.rest))
  }

  /* ---- texts ---- */

  function SignText(negative: bool): Text {
    if negative then [MINUS] else []
  }

  function FractionText(fraction: Text): Text {
    if fraction == [] then [] else [DOT] + fraction
  }

  function NumberText(negative: bool, whole: Text, fraction: Text, exponent: Exponent): Text {
    SignText(negative) + (whole + (FractionText(fraction) + ExponentText(exponent)))
  }

  function DocText(d: Doc): Text
    decreases d, 0
  {
    match d
    case Null => NULL
    case Bool(b) => if b then TRUE else FALSE
    case Number(negative, whole, fraction, exponent) => NumberText(negative, whole, fraction, exponent)
    case String(ps) => StringText(ps)
    case EmptyArray(w) => [OPEN_BRACKET] + (w + [CLOSE_BRACKET])
    case Array(items) => [OPEN_BRACKET] + ItemsText(items)
    case EmptyObject(w) => [OPEN_BRACE] + (w + [CLOSE_BRACE])
    case Object(ms) => [OPEN_BRACE] + MembersText(ms)
  }

  /** Elements up to and including the closing bracket. */
  function ItemsText(items: Items): Text
    decreases items, 1
  {
    items.before + ItemsBody(items)
  }

  /** The same from the first element on. */
  function ItemsBody(items: Items): Text
    decreases items, 0
  {
    DocText(items.value) + (items.after + if items.Last? then [CLOSE_BRACKET] else [COMMA] + ItemsText(items.rest))
  }

  /** Members up to and including the closing brace. */
  function MembersText(ms: Members): Text
    decreases ms, 1
  {
    ms.m.beforeKey + MembersBody(ms)
  }

  /** The same from the first key on. */
  function MembersBody(ms: Members): Text
    decreases ms, 0
  {
    StringText(ms.m.key) + (ms.m.afterKey + ([COLON] + (ms.m.before + (DocText(ms.m.value) + (ms.m.after
    + if ms.LastMember? then [CLOSE_BRACE] else [COMMA] + MembersText(ms.rest))))))
  }

  /* ---- meaning ---- */

  function NumberMeaning(negative: bool, whole: Text, fraction: Text, exponent: Exponent): Json {
    if fraction == [] && exponent == NoExponent
    then Exact(if negative then 0 - DigitsValue(whole) else DigitsValue(whole))
    else JFloat(NumberText(negative, whole, fraction, exponent))
  }

  /** The value of a document. With `exact` every member becomes a property of its object;
      without it members are assigned as the parser does. The last of equal keys wins. */
  function Meaning(d: Doc, exact: bool): Json
    requires Good(d)
  {
    match d
    case Null => JNull
    case Bool(b) => JBool(b)
    case Number(negative, whole, fraction, exponent) => NumberMeaning(negative, whole, fraction, exponent)
    case String(ps) => JString(PiecesValue(ps))
    case EmptyArray(_) => JArray([])
    case Array(items) => JArray(ItemsMeaning(items, [], exact))
    case EmptyObject(_) => JObject(NO_FIELDS)
    case Object(ms) => JObject(MembersMeaning(ms, NO_FIELDS, exact))
  }

  /** The values of the elements, in order, after those in `out`. */
  function ItemsMeaning(items: Items, out: seq<Json>, exact: bool): seq<Json>
    requires GoodItems(items)
  {
    var next := out + [Meaning(items.value, exact)];
    if items.Last? then next else ItemsMeaning(items.rest, next, exact)
  }

  /** `out[key] = v`. The inherited accessor takes an object or null as the new prototype and
      ignores anything else; once it is out of reach `__proto__` is a property like others. */
  function Assign(out: Fields, key: Text, v: Json, exact: bool): Fields {
    if key != PROTO || exact || !out.ordinary then out.(own := out.own[key := v])
    else
      match v
      case JNull => out.(ordinary := false)
      case JObject(f) => out.(ordinary := f.ordinary)
      case _ => out
  }

  function MembersMeaning(ms: Members, out: Fields, exact: bool): Fields
    requires GoodMembers(ms)
  {
    var next := Assign(out, PiecesValue(ms.m.key), Meaning(ms.m.value, exact), exact);
    if ms.LastMember? then next else MembersMeaning(ms.rest, next, exact)
  }
}
