/** What the splitter's scanner computes, told by a grammar: a text is a row of plain
    characters, string literals, comments and statement ends, perhaps left open at the end. */
module SplitterTokens {
  import opened Order
  import opened Splitter

  /** A text, token by token. */
  datatype Script = Stop(tail: Tail) | Then(t: Token, rest: Script)

  datatype Token = Plain(c: char) | Literal(body: string) | LineNote(body: string) | BlockNote(body: string) | End

  /** What is left open where the text stops. */
  datatype Tail = Nothing | OpenLiteral(body: string) | OpenLine(body: string) | OpenBlock(body: string)

  /** The body of a literal: quotes are doubled. */
  function Doubled(body: string): string {
    if body == [] then [] else (if body[0] == '\'' then "''" else [body[0]]) + Doubled(body[1..])
  }

  function TokenText(t: Token): string {
    match t
    case Plain(c) => [c]
    case Literal(body) => "'" + (Doubled(body) + "'")
    case LineNote(body) => "--" + (body + "\n")
    case BlockNote(body) => "/*" + (body + "*/")
    case End => ";"
  }

  function TailText(tail: Tail): string {
    match tail
    case Nothing => ""
    case OpenLiteral(body) => "'" + Doubled(body)
    case OpenLine(body) => "--" + body
    case OpenBlock(body) => "/*" + body
  }

  function Written(p: Script): string {
    match p
    case Stop(tail) => TailText(tail)
    case Then(t, rest) => TokenText(t) + Written(rest)
  }

  predicate StartsWith(s: string, c: char) {
    s != [] && s[0] == c
  }

  predicate NoNewline(s: string) {
    forall k :: 0 <= k < |s| ==> s[k] != '\n'
  }

  predicate NoClose(s: string) {
    forall k :: 0 <= k < |s| - 1 ==> !(s[k] == '*' && s[k + 1] == '/')
  }

  /** A token can stand before a text: neither it nor its border is something else. */
  predicate Fits(t: Token, rest: string) {
    match t
    case Plain(c) =>
      && c != '\'' && c != ';' && !(c == '-' && StartsWith(rest, '-')) && !(c == '/' && StartsWith(rest, '*'))
    case Literal(_) => !StartsWith(rest, '\'')
    case LineNote(body) => NoNewline(body)
    case BlockNote(body) => NoClose(body)
    case End => true
  }

  predicate GoodTail(tail: Tail) {
    match tail
    case OpenLine(body) => NoNewline(body)
    case OpenBlock(body) => NoClose(body)
    case _ => true
  }

  predicate Good(p: Script) {
    match p
    case Stop(tail) => GoodTail(tail)
    case Then(t, rest) => Fits(t, Written(rest)) && Good(rest)
  }

  /* ---- what the grammar says of a text ---- */

  /** The offsets behind the ends, the first token standing at `i`. */
  function EndsOf(p: Script, i: nat): seq<nat> {
    match p
    case Stop(_) => []
    case Then(t, rest) =>
      var j := i + |TokenText(t)|;
      if t == End then [j] + EndsOf(rest, j) else EndsOf(rest, j)
  }

  /** What is open where the text stops. */
  function LeftOpen(p: Script): Tail {
    match p
    case Stop(tail) => tail
    case Then(_, rest) => LeftOpen(rest)
  }

  function StateOf(tail: Tail): State {
    match tail
    case Nothing => Normal
    case OpenLiteral(_) => Quoted
    case OpenLine(_) => LineComment
    case OpenBlock(_) => BlockComment
  }

  /** Code is a literal, open or not, or any plain character that is no space. */
  predicate IsCode(t: Token) {
    t.Literal? || (t.Plain? && t.c != ' ' && t.c != '\t' && t.c != '\n' && t.c != '\r' && t.c as int != 12)
  }

  predicate CodeIn(p: Script) {
    match p
    case Stop(tail) => tail.OpenLiteral?
    case Then(t, rest) => IsCode(t) || CodeIn(rest)
  }

  /* ---- scanning along a text ---- */

  ghost predicate Here(s: string, i: nat, t: string) {
    i + |t| <= |s| && forall k :: 0 <= k < |t| ==> s[i + k] == t[k]
  }

  lemma HereSplit(s: string, i: nat, a: string, b: string)
    requires Here(s, i, a + b)
    ensures Here(s, i, a) && Here(s, i + |a|, b)
  {
    assert forall k :: 0 <= k < |a| ==> (a + b)[k] == a[k];
    assert forall k :: 0 <= k < |b| ==> (a + b)[|a| + k] == b[k];
  }

  /** Between the two places the scanner meets no end. */
  ghost predicate Passes(s: string, st: State, i: nat, to: State, j: nat) {
    i <= j <= |s| && Final(st, s, i) == Final(to, s, j) && Ends(st, s, i) == Ends(to, s, j)
  }

  /** Nor any code. */
  ghost predicate PassesBlank(s: string, st: State, i: nat, to: State, j: nat) {
    Passes(s, st, i, to, j) && (HasCode(st, s, i) <==> HasCode(to, s, j))
  }

  lemma {:induction false} PassesQuoted(s: string, i: nat, body: string)
    requires Here(s, i, Doubled(body))
    ensures Passes(s, Quoted, i, Quoted, i + |Doubled(body)|)
    decreases |body|
  {
    if body != [] {
      var first := if body[0] == '\'' then "''" else [body[0]];
      HereSplit(s, i, first, Doubled(body[1..]));
      PassesQuoted(s, i + |first|, body[1..]);
      assert s[i] == first[0];
      if body[0] == '\'' { assert s[i + 1] == first[1]; }
    }
  }

  lemma {:induction false} PassesLine(s: string, i: nat, body: string)
    requires Here(s, i, body) && NoNewline(body)
    ensures PassesBlank(s, LineComment, i, LineComment, i + |body|)
    decreases |body|
  {
    if body != [] {
      HereSplit(s, i, [body[0]], body[1..]) by { assert body == [body[0]] + body[1..]; }
      PassesLine(s, i + 1, body[1..]);
    }
  }

  /** The body of a block comment, up to its closing mark or the end of the text. */
  lemma {:induction false} PassesBlock(s: string, i: nat, body: string)
    requires Here(s, i, body) && NoClose(body)
    requires i + |body| < |s| ==> s[i + |body|] == '*'
    ensures PassesBlank(s, BlockComment, i, BlockComment, i + |body|)
    decreases |body|
  {
    if body != [] {
      HereSplit(s, i, [body[0]], body[1..]) by { assert body == [body[0]] + body[1..]; }
      PassesBlock(s, i + 1, body[1..]);
      assert s[i] == body[0] && (|body| > 1 ==> s[i + 1] == body[1]);
    }
  }

  lemma LiteralPasses(s: string, i: nat, body: string)
    requires Here(s, i, TokenText(Literal(body)))
    requires var j := i + |TokenText(Literal(body))|; j < |s| ==> s[j] != '\''
    ensures Passes(s, Normal, i, Normal, i + |TokenText(Literal(body))|) && HasCode(Normal, s, i)
  {
    var d := Doubled(body);
    HereSplit(s, i, "'", d + "'");
    HereSplit(s, i + 1, d, "'");
    PassesQuoted(s, i + 1, body);
    assert s[i] == "'"[0] && s[i + 1 + |d|] == "'"[0];
    assert Passes(s, Normal, i, Quoted, i + 1);
    assert Passes(s, Quoted, i + 1 + |d|, Normal, i + 2 + |d|);
  }

  lemma LinePasses(s: string, i: nat, body: string)
    requires Here(s, i, TokenText(LineNote(body))) && NoNewline(body)
    ensures PassesBlank(s, Normal, i, Normal, i + |TokenText(LineNote(body))|)
  {
    HereSplit(s, i, "--", body + "\n");
    HereSplit(s, i + 2, body, "\n");
    PassesLine(s, i + 2, body);
    assert s[i] == "--"[0] && s[i + 1] == "--"[1] && s[i + 2 + |body|] == "\n"[0];
    assert PassesBlank(s, Normal, i, LineComment, i + 2);
    assert PassesBlank(s, LineComment, i + 2 + |body|, Normal, i + 3 + |body|);
  }

  lemma BlockPasses(s: string, i: nat, body: string)
    requires Here(s, i, TokenText(BlockNote(body))) && NoClose(body)
    ensures PassesBlank(s, Normal, i, Normal, i + |TokenText(BlockNote(body))|)
  {
    HereSplit(s, i, "/*", body + "*/");
    HereSplit(s, i + 2, body, "*/");
    assert s[i] == "/*"[0] && s[i + 1] == "/*"[1];
    assert s[i + 2 + |body|] == "*/"[0] && s[i + 3 + |body|] == "*/"[1];
    PassesBlock(s, i + 2, body);
    assert PassesBlank(s, Normal, i, BlockComment, i + 2);
    assert PassesBlank(s, BlockComment, i + 2 + |body|, Normal, i + 4 + |body|);
  }

  lemma PlainPasses(s: string, i: nat, c: char, rest: string)
    requires Here(s, i, [c]) && Here(s, i + 1, rest) && i + 1 + |rest| == |s| && Fits(Plain(c), rest)
    ensures Passes(s, Normal, i, Normal, i + 1)
    ensures HasCode(Normal, s, i) <==> IsCode(Plain(c)) || HasCode(Normal, s, i + 1)
  {
    assert s[i] == [c][0];
    if rest != [] { assert s[i + 1] == rest[0]; }
  }

  /** A token does its own and nothing else. */
  ghost predicate Step(s: string, i: nat, t: Token, j: nat) {
    && i <= j <= |s| && Final(Normal, s, i) == Final(Normal, s, j)
    && Ends(Normal, s, i) == (if t == End then [j] + Ends(Normal, s, j) else Ends(Normal, s, j))
    && (HasCode(Normal, s, i) <==> IsCode(t) || HasCode(Normal, s, j))
  }

  /** One token and what follows it. */
  lemma TokenScans(s: string, i: nat, t: Token, rest: string)
    requires Here(s, i, TokenText(t)) && Here(s, i + |TokenText(t)|, rest) && i + |TokenText(t)| + |rest| == |s|
    requires Fits(t, rest)
    ensures Step(s, i, t, i + |TokenText(t)|)
  {
    match t
    case Plain(c) => PlainPasses(s, i, c, rest);
    case Literal(body) =>
      if rest != [] { assert s[i + |TokenText(t)|] == rest[0]; }
      LiteralPasses(s, i, body);
    case LineNote(body) => LinePasses(s, i, body);
    case BlockNote(body) => BlockPasses(s, i, body);
    case End => assert s[i] == ";"[0];
  }

  lemma OpenLiteralScans(s: string, i: nat, body: string)
    requires Here(s, i, TailText(OpenLiteral(body))) && i + |TailText(OpenLiteral(body))| == |s|
    ensures Final(Normal, s, i) == Quoted && Ends(Normal, s, i) == [] && HasCode(Normal, s, i)
  {
    HereSplit(s, i, "'", Doubled(body));
    assert s[i] == "'"[0];
    PassesQuoted(s, i + 1, body);
    assert Passes(s, Normal, i, Quoted, i + 1);
  }

  lemma OpenLineScans(s: string, i: nat, body: string)
    requires Here(s, i, TailText(OpenLine(body))) && i + |TailText(OpenLine(body))| == |s| && NoNewline(body)
    ensures Final(Normal, s, i) == LineComment && Ends(Normal, s, i) == [] && !HasCode(Normal, s, i)
  {
    HereSplit(s, i, "--", body);
    assert s[i] == "--"[0] && s[i + 1] == "--"[1];
    PassesLine(s, i + 2, body);
    assert PassesBlank(s, Normal, i, LineComment, i + 2);
  }

  lemma OpenBlockScans(s: string, i: nat, body: string)
    requires Here(s, i, TailText(OpenBlock(body))) && i + |TailText(OpenBlock(body))| == |s| && NoClose(body)
    ensures Final(Normal, s, i) == BlockComment && Ends(Normal, s, i) == [] && !HasCode(Normal, s, i)
  {
    HereSplit(s, i, "/*", body);
    assert s[i] == "/*"[0] && s[i + 1] == "/*"[1];
    PassesBlock(s, i + 2, body);
    assert PassesBlank(s, Normal, i, BlockComment, i + 2);
  }

  lemma TailScans(s: string, i: nat, tail: Tail)
    requires Here(s, i, TailText(tail)) && i + |TailText(tail)| == |s| && GoodTail(tail)
    ensures Final(Normal, s, i) == StateOf(tail) && Ends(Normal, s, i) == []
    ensures HasCode(Normal, s, i) <==> tail.OpenLiteral?
  {
    match tail
    case Nothing =>
    case OpenLiteral(body) => OpenLiteralScans(s, i, body);
    case OpenLine(body) => OpenLineScans(s, i, body);
    case OpenBlock(body) => OpenBlockScans(s, i, body);
  }

  /** All that scanning finds from a place on. */
  datatype Seen = Seen(ends: seq<nat>, state: State, code: bool)

  /** The same as the grammar tells it. */
  ghost function Told(p: Script, i: nat): Seen {
    Seen(EndsOf(p, i), StateOf(LeftOpen(p)), CodeIn(p))
  }

  ghost function Before(t: Token, j: nat, later: Seen): Seen {
    Seen(if t == End then [j] + later.ends else later.ends, later.state, IsCode(t) || later.code)
  }

  ghost predicate Stands(s: string, i: nat, t: Token, text: string, rest: string) {
    text == TokenText(t) && Fits(t, rest) && Here(s, i, text + rest) && i + |text + rest| == |s|
  }

  ghost predicate StandsLast(s: string, i: nat, tail: Tail) {
    GoodTail(tail) && Here(s, i, TailText(tail)) && i + |TailText(tail)| == |s|
  }

  /** Scanning the text goes token by token. */
  ghost predicate Faithful(scan: nat -> Seen, s: string) {
    && (forall i: nat, t, text, rest :: Stands(s, i, t, text, rest) ==>
          scan(i) == Before(t, i + |text|, scan(i + |text|)))
    && (forall i: nat, tail :: StandsLast(s, i, tail) ==> scan(i) == Seen([], StateOf(tail), tail.OpenLiteral?))
  }

  lemma {:induction false} ToldFrom(scan: nat -> Seen, s: string, i: nat, p: Script)
    requires Faithful(scan, s) && Good(p) && Here(s, i, Written(p)) && i + |Written(p)| == |s|
    ensures scan(i) == Told(p, i)
    decreases p
  {
    match p
    case Stop(tail) => assert StandsLast(s, i, tail);
    case Then(t, rest) =>
      var text := TokenText(t);
      assert Stands(s, i, t, text, Written(rest));
      HereSplit(s, i, text, Written(rest));
      ToldFrom(scan, s, i + |text|, rest);
  }

  ghost function Scanned(s: string, i: nat): Seen {
    if i <= |s| then Seen(Ends(Normal, s, i), Final(Normal, s, i), HasCode(Normal, s, i)) else Seen([], Normal, false)
  }

  lemma TokenSeen(s: string, i: nat, t: Token, text: string, rest: string)
    requires Stands(s, i, t, text, rest)
    ensures Scanned(s, i) == Before(t, i + |text|, Scanned(s, i + |text|))
  {
    HereSplit(s, i, text, rest);
    TokenScans(s, i, t, rest);
  }

  lemma TailSeen(s: string, i: nat, tail: Tail)
    requires StandsLast(s, i, tail)
    ensures Scanned(s, i) == Seen([], StateOf(tail), tail.OpenLiteral?)
  {
    TailScans(s, i, tail);
  }

  lemma ScannedFaithfully(s: string)
    ensures Faithful((i: nat) => Scanned(s, i), s)
  {
    forall i: nat, t, text, rest | Stands(s, i, t, text, rest)
      ensures Scanned(s, i) == Before(t, i + |text|, Scanned(s, i + |text|))
    {
      TokenSeen(s, i, t, text, rest);
    }
    forall i: nat, tail | StandsLast(s, i, tail) ensures Scanned(s, i) == Seen([], StateOf(tail), tail.OpenLiteral?) {
      TailSeen(s, i, tail);
    }
  }

  /** The scanner finds the statement ends of a text and only those, ends in the state of what
      was left open, and finds code exactly if there is some. */
  lemma TextScans(p: Script, s: string)
    requires Good(p) && s == Written(p)
    ensures Ends(Normal, s, 0) == EndsOf(p, 0) && Final(Normal, s, 0) == StateOf(LeftOpen(p))
    ensures HasCode(Normal, s, 0) <==> CodeIn(p)
  {
    ScannedFaithfully(s);
    ToldFrom((i: nat) => Scanned(s, i), s, 0, p);
    assert Scanned(s, 0) == Told(p, 0);
  }

  /* ---- every text is covered ---- */

  function Closing(closed: bool, mark: string, rest: string): string {
    if closed then mark + rest else ""
  }

  lemma DoubledFirst(c: char, body: string, r: string, rest: string)
    requires r == Doubled(body) + rest
    ensures (if c == '\'' then "''" else [c]) + r == Doubled([c] + body) + rest
  {
    assert ([c] + body)[1..] == body;
  }

  lemma {:induction false} ReadLiteral(r: string) returns (body: string, closed: bool, rest: string)
    ensures r == Doubled(body) + Closing(closed, "'", rest) && !StartsWith(rest, '\'')
  {
    if r == [] {
      body, closed, rest := "", false, "";
    } else if r[0] != '\'' || (|r| > 1 && r[1] == '\'') {
      var n := if r[0] == '\'' then 2 else 1;
      var b;
      b, closed, rest := ReadLiteral(r[n..]);
      body := [r[0]] + b;
      DoubledFirst(r[0], b, r[n..], Closing(closed, "'", rest));
      assert r == r[..n] + r[n..];
    } else {
      body, closed, rest := "", true, r[1..];
      assert r == "'" + rest;
    }
  }

  lemma {:induction false} ReadLine(r: string) returns (body: string, closed: bool, rest: string)
    ensures r == body + Closing(closed, "\n", rest) && NoNewline(body)
  {
    if r == [] {
      body, closed, rest := "", false, "";
    } else if r[0] == '\n' {
      body, closed, rest := "", true, r[1..];
      assert r == "\n" + rest;
    } else {
      var b;
      b, closed, rest := ReadLine(r[1..]);
      body := [r[0]] + b;
      assert r == [r[0]] + r[1..];
    }
  }

  lemma {:induction false} ReadBlock(r: string) returns (body: string, closed: bool, rest: string)
    ensures r == body + Closing(closed, "*/", rest) && NoClose(body)
  {
    if r == [] {
      body, closed, rest := "", false, "";
    } else if PairAt(r, 0, '*', '/') {
      body, closed, rest := "", true, r[2..];
      assert r == "*/" + rest;
    } else {
      var b;
      b, closed, rest := ReadBlock(r[1..]);
      body := [r[0]] + b;
      assert r == [r[0]] + r[1..];
      if b != [] { assert b[0] == r[1..][0] == r[1]; }
    }
  }

  lemma LiteralFirst(s: string) returns (body: string, closed: bool, rest: string)
    requires s != [] && s[0] == '\''
    ensures closed ==> s == TokenText(Literal(body)) + rest && Fits(Literal(body), rest)
    ensures !closed ==> s == TailText(OpenLiteral(body))
  {
    body, closed, rest := ReadLiteral(s[1..]);
    QuoteFirst(s);
    if closed {
      Associate(Doubled(body), "'", rest);
      Associate("'", Doubled(body) + "'", rest);
    } else {
      assert Doubled(body) + "" == Doubled(body);
    }
  }

  lemma QuoteFirst(s: string)
    requires s != [] && s[0] == '\''
    ensures s == "'" + s[1..]
  {
  }

  lemma LineFirst(s: string) returns (body: string, closed: bool, rest: string)
    requires PairAt(s, 0, '-', '-')
    ensures NoNewline(body) && s == if closed then TokenText(LineNote(body)) + rest else TailText(OpenLine(body))
  {
    body, closed, rest := ReadLine(s[2..]);
    assert s == "--" + s[2..];
  }

  lemma BlockFirst(s: string) returns (body: string, closed: bool, rest: string)
    requires PairAt(s, 0, '/', '*')
    ensures NoClose(body) && s == if closed then TokenText(BlockNote(body)) + rest else TailText(OpenBlock(body))
  {
    body, closed, rest := ReadBlock(s[2..]);
    assert s == "/*" + s[2..];
  }

  lemma CharFirst(s: string) returns (t: Token)
    requires s != [] && s[0] != '\'' && !PairAt(s, 0, '-', '-') && !PairAt(s, 0, '/', '*')
    ensures s == TokenText(t) + s[1..] && Fits(t, s[1..])
  {
    t := if s[0] == ';' then End else Plain(s[0]);
    assert s == [s[0]] + s[1..];
  }

  /** The first token of a text, or the open tail it is. */
  lemma ReadToken(s: string) returns (t: Token, tail: Tail, closed: bool, rest: string)
    requires s != []
    ensures closed ==> s == TokenText(t) + rest && Fits(t, rest)
    ensures !closed ==> s == TailText(tail) && GoodTail(tail)
  {
    var body;
    if s[0] == '\'' {
      body, closed, rest := LiteralFirst(s);
      t, tail := Literal(body), OpenLiteral(body);
    } else if PairAt(s, 0, '-', '-') {
      body, closed, rest := LineFirst(s);
      t, tail := LineNote(body), OpenLine(body);
    } else if PairAt(s, 0, '/', '*') {
      body, closed, rest := BlockFirst(s);
      t, tail := BlockNote(body), OpenBlock(body);
    } else {
      t := CharFirst(s);
      tail, closed, rest := Nothing, true, s[1..];
    }
  }

  /** Every text is written by the grammar. */
  lemma {:induction false} EveryText(s: string) returns (p: Script)
    ensures Good(p) && Written(p) == s
    decreases |s|
  {
    if s == [] {
      p := Stop(Nothing);
    } else {
      var t, open, closed, rest := ReadToken(s);
      if closed {
        var more := EveryText(rest);
        p := Then(t, more);
      } else {
        p := Stop(open);
      }
    }
  }

  /* ---- the statements of a text ---- */

  predicate HasEnd(p: Script) {
    p.Then? && (p.t == End || HasEnd(p.rest))
  }

  /** What stands up to the first end, with it. */
  function UpToEnd(p: Script): string
    requires HasEnd(p)
  {
    if p.t == End then ";" else TokenText(p.t) + UpToEnd(p.rest)
  }

  function AfterEnd(p: Script): Script
    requires HasEnd(p)
  {
    if p.t == End then p.rest else AfterEnd(p.rest)
  }

  lemma Associate(a: string, b: string, c: string)
    ensures a + (b + c) == (a + b) + c
  {
  }

  lemma {:induction false} CutAtEnd(p: Script, i: nat)
    requires HasEnd(p)
    ensures Written(p) == UpToEnd(p) + Written(AfterEnd(p)) && (Good(p) ==> Good(AfterEnd(p)))
    ensures EndsOf(p, i) != [] && EndsOf(p, i)[0] == i + |UpToEnd(p)|
    decreases p
  {
    if p.t != End {
      CutAtEnd(p.rest, i + |TokenText(p.t)|);
      Associate(TokenText(p.t), UpToEnd(p.rest), Written(AfterEnd(p)));
    }
  }

  lemma {:induction false} NoEnds(p: Script, i: nat)
    requires !HasEnd(p)
    ensures EndsOf(p, i) == []
    decreases p
  {
    if p.Then? { NoEnds(p.rest, i + |TokenText(p.t)|); }
  }

  lemma CutSegments(s: string, first: string, rest: string)
    requires s == first + rest && FirstEnd(Normal, s, 0) == Some(|first|)
    ensures Segments(s, 0) == [first] + Segments(rest, 0) && Rest(s) == Rest(rest)
  {
    assert s[..|first|] == first;
    SplitAligned(s, |first|, rest, 0);
    DropAligned(s, |first|, rest, 0, LastEnd(s, |first|), LastEnd(rest, 0));
  }

  lemma CutStatements(s: string, first: string, rest: string)
    requires s == first + rest && FirstEnd(Normal, s, 0) == Some(|first|)
    ensures Statements(s) == Chain(Kept(first), Statements(rest)) && Buffered(s) == Buffered(rest)
  {
    CutSegments(s, first, rest);
    assert ([first] + Segments(rest, 0))[1..] == Segments(rest, 0);
  }

  lemma EndsFirst(s: string, n: nat)
    requires Ends(Normal, s, 0) != [] && Ends(Normal, s, 0)[0] == n
    ensures FirstEnd(Normal, s, 0) == Some(n)
  {
    EndsFrom(Normal, s, 0);
  }

  /** A text with an end: its first statement is what stands up to that end, trimmed, if that
      holds code, and the others are the statements of what follows. */
  lemma FirstStatement(p: Script, s: string)
    requires Good(p) && s == Written(p) && HasEnd(p)
    ensures var first, rest := UpToEnd(p), Written(AfterEnd(p));
            && Good(AfterEnd(p)) && s == first + rest && Buffered(s) == Buffered(rest)
            && Statements(s) == Chain(if HasCode(Normal, Trim(first), 0) then [Trim(first)] else [], Statements(rest))
  {
    CutAtEnd(p, 0);
    TextScans(p, s);
    EndsFirst(s, |UpToEnd(p)|);
    CutStatements(s, UpToEnd(p), Written(AfterEnd(p)));
  }

  lemma EndlessText(s: string)
    requires Ends(Normal, s, 0) == []
    ensures Statements(s) == [] && Rest(s) == s
  {
    EndsFrom(Normal, s, 0);
  }

  /** A text without an end holds no statement; it stays unless it is without code and nothing
      but perhaps a line comment is open. */
  lemma NoStatement(p: Script, s: string)
    requires Good(p) && s == Written(p) && !HasEnd(p)
    ensures Statements(s) == []
    ensures Buffered(s) == if !CodeIn(p) && (LeftOpen(p).Nothing? || LeftOpen(p).OpenLine?) then "" else s
  {
    TextScans(p, s);
    NoEnds(p, 0);
    EndlessText(s);
  }

  /* ---- trimming ---- */

  /** The characters with the White_Space property. */
  const WHITE_SPACE: seq<int> :=
    [0x09, 0x0A, 0x0B, 0x0C, 0x0D, 0x20, 0x85, 0xA0, 0x1680, 0x2000, 0x2001, 0x2002, 0x2003, 0x2004, 0x2005, 0x2006,
     0x2007, 0x2008, 0x2009, 0x200A, 0x2028, 0x2029, 0x202F, 0x205F, 0x3000]

  lemma SpacesAre(c: char)
    ensures White(c) <==> c as int in WHITE_SPACE
    ensures AsciiSpace(c) <==> White(c) && c as int < 0x80 && c as int != 0x0B
  {
  }

  /** Trimming takes white space off both ends, all of it and nothing else. */
  lemma {:induction false} TrimEndMeans(s: string)
    ensures TrimEnd(s) <= s && (TrimEnd(s) != [] ==> !White(TrimEnd(s)[|TrimEnd(s)| - 1]))
    ensures forall k :: |TrimEnd(s)| <= k < |s| ==> White(s[k])
  {
    if s != [] && White(s[|s| - 1]) { TrimEndMeans(s[..|s| - 1]); }
  }

  /** A part of a suffix is a part of the text. */
  lemma SuffixPart(s: string, a: nat, t: string, e: string, white: char -> bool)
    requires a <= |s| && t == Suffix(s, a) && e <= t && forall k :: |e| <= k < |t| ==> white(t[k])
    ensures s[a..a + |e|] == e && forall k :: a + |e| <= k < |s| ==> white(s[k])
  {
    assert forall k :: a <= k < |s| ==> s[k] == t[k - a];
  }

  lemma TrimMeans(s: string) returns (a: nat, b: nat)
    ensures a <= b <= |s| && Trim(s) == s[a..b]
    ensures forall k :: 0 <= k < a || b <= k < |s| ==> White(s[k])
    ensures a < b ==> !White(s[a]) && !White(s[b - 1])
  {
    var t := TrimStart(s);
    TrimEndMeans(t);
    a, b := Lead(s), Lead(s) + |Trim(s)|;
    SuffixPart(s, a, t, Trim(s), White);
    if a < b { assert s[b - 1] == s[a..b][b - 1 - a]; }
  }
}
