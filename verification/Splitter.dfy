/** The interactive shell's statement splitter: text arrives line by line, complete
    statements are taken out of a pending buffer, and a buffer without code is cleared. */
module Splitter {
  import opened Order

  datatype State = Normal | Quoted | LineComment | BlockComment

  /** One turn of the scanner: where it goes on, in which state, whether a statement ends. */
  datatype Move = Move(to: nat, next: State, ends: bool)

  /** Space as the scanner counts it: ASCII, without vertical tab. */
  predicate AsciiSpace(c: char) {
    c == '\t' || c == '\n' || c as int == 12 || c == '\r' || c == ' '
  }

  /** Space as string trimming counts it: the Unicode White_Space property. */
  predicate White(c: char) {
    var n := c as int;
    9 <= n <= 13 || n == 32 || n == 0x85 || n == 0xA0 || n == 0x1680 || 0x2000 <= n <= 0x200A
    || n == 0x2028 || n == 0x2029 || n == 0x202F || n == 0x205F || n == 0x3000
  }

  /** Trimmed away at the ends of a statement, but code to the scanner. */
  predicate OddSpace(c: char) {
    White(c) && !AsciiSpace(c)
  }

  predicate PairAt(s: string, i: nat, a: char, b: char) {
    i + 1 < |s| && s[i] == a && s[i + 1] == b
  }

  function Advance(st: State, s: string, i: nat): (m: Move)
    requires i < |s|
    ensures i < m.to <= |s| && m.to <= i + 2
    ensures m.ends ==> m.next == Normal && s[i] == ';' && m.to == i + 1
  {
    match st
    case Quoted =>
      if PairAt(s, i, '\'', '\'') then Move(i + 2, Quoted, false)
      else Move(i + 1, if s[i] == '\'' then Normal else Quoted, false)
    case LineComment => Move(i + 1, if s[i] == '\n' then Normal else LineComment, false)
    case BlockComment =>
      if PairAt(s, i, '*', '/') then Move(i + 2, Normal, false) else Move(i + 1, BlockComment, false)
    case Normal =>
      if s[i] == '\'' then Move(i + 1, Quoted, false)
      else if PairAt(s, i, '-', '-') then Move(i + 2, LineComment, false)
      else if PairAt(s, i, '/', '*') then Move(i + 2, BlockComment, false)
      else Move(i + 1, Normal, s[i] == ';')
  }

  /** The state at the end of the text, scanning from `i`. */
  function Final(st: State, s: string, i: nat): State
    requires i <= |s|
    decreases |s| - i
  {
    if i == |s| then st else var m := Advance(st, s, i); Final(m.next, s, m.to)
  }

  /** Offset just past the first statement end. */
  function FirstEnd(st: State, s: string, i: nat): (e: Option<nat>)
    requires i <= |s|
    ensures e.Some? ==> i < e.value <= |s| && s[e.value - 1] == ';'
    decreases |s| - i
  {
    if i == |s| then None
    else
      var m := Advance(st, s, i);
      if m.ends then Some(m.to) else FirstEnd(m.next, s, m.to)
  }

  /** Offsets just past every statement end. */
  function Ends(st: State, s: string, i: nat): seq<nat>
    requires i <= |s|
    decreases |s| - i
  {
    if i == |s| then []
    else
      var m := Advance(st, s, i);
      if m.ends then [m.to] + Ends(m.next, s, m.to) else Ends(m.next, s, m.to)
  }

  /** Whether anything but space, semicolons and comments occurs from `i` on. */
  predicate HasCode(st: State, s: string, i: nat)
    requires i <= |s|
    decreases |s| - i
  {
    i < |s| &&
    match st
    case Quoted => true
    case Normal =>
      if AsciiSpace(s[i]) || s[i] == ';' then HasCode(Normal, s, i + 1)
      else if PairAt(s, i, '-', '-') then HasCode(LineComment, s, i + 2)
      else if PairAt(s, i, '/', '*') then HasCode(BlockComment, s, i + 2)
      else true
    case _ => var m := Advance(st, s, i); HasCode(m.next, s, m.to)
  }

  /* ---- the scanner loops ---- */

  /** The branches of the scanner for one position. */
  method ScanStep(sql: string, i: nat, state: State) returns (m: Move)
    requires i < |sql|
    ensures m == Advance(state, sql, i)
  {
    var to, next, ends := i + 1, state, false;
    if state == Quoted && sql[i] == '\'' {
      if i + 1 < |sql| && sql[i + 1] == '\'' { to := i + 2; } else { next := Normal; }
    } else if state == LineComment && sql[i] == '\n' {
      next := Normal;
    } else if state == BlockComment && sql[i] == '*' && i + 1 < |sql| && sql[i + 1] == '/' {
      to, next := i + 2, Normal;
    } else if state == Normal && sql[i] == '\'' {
      next := Quoted;
    } else if state == Normal && sql[i] == '-' && i + 1 < |sql| && sql[i + 1] == '-' {
      to, next := i + 2, LineComment;
    } else if state == Normal && sql[i] == '/' && i + 1 < |sql| && sql[i + 1] == '*' {
      to, next := i + 2, BlockComment;
    } else if state == Normal && sql[i] == ';' {
      ends := true;
    }
    m := Move(to, next, ends);
  }

  method ScanSql(sql: string) returns (ends: seq<nat>, state: State)
    ensures ends == Ends(Normal, sql, 0) && state == Final(Normal, sql, 0)
  {
    ends, state := [], Normal;
    var i := 0;
    while i < |sql|
      invariant 0 <= i <= |sql|
      invariant Ends(Normal, sql, 0) == Chain(ends, Ends(state, sql, i))
      invariant Final(Normal, sql, 0) == Final(state, sql, i)
    {
      var m := ScanStep(sql, i, state);
      if m.ends { ends := ends + [m.to]; }
      i, state := m.to, m.next;
    }
  }

  method HasSqlCode(sql: string) returns (b: bool)
    ensures b <==> HasCode(Normal, sql, 0)
  {
    var state, i := Normal, 0;
    while i < |sql|
      invariant 0 <= i <= |sql| && state != Quoted
      invariant HasCode(Normal, sql, 0) <==> HasCode(state, sql, i)
    {
      if state == LineComment && sql[i] == '\n' {
        state := Normal;
      } else if state == LineComment {
      } else if state == BlockComment && sql[i] == '*' && i + 1 < |sql| && sql[i + 1] == '/' {
        state := Normal;
        i := i + 1;
      } else if state == BlockComment {
      } else if AsciiSpace(sql[i]) || sql[i] == ';' {
      } else if sql[i] == '-' && i + 1 < |sql| && sql[i + 1] == '-' {
        state := LineComment;
        i := i + 1;
      } else if sql[i] == '/' && i + 1 < |sql| && sql[i + 1] == '*' {
        state := BlockComment;
        i := i + 1;
      } else {
        return true;
      }
      i := i + 1;
    }
    b := false;
  }

  /* ---- what one extraction does ---- */

  /** How many leading characters are white. */
  function Lead(s: string): (n: nat)
    ensures n <= |s| && (forall i :: 0 <= i < n ==> White(s[i])) && (n < |s| ==> !White(s[n]))
  {
    if s != [] && White(s[0]) then 1 + Lead(s[1..]) else 0
  }

  /** The text from offset `n` on; the whole text needs no slice. */
  function Suffix(s: string, n: nat): (r: string)
    requires n <= |s|
    ensures |r| == |s| - n
  {
    if n == 0 then s else s[n..]
  }

  function Slice(s: string, i: nat, e: nat): (r: string)
    requires i <= e <= |s|
    ensures |r| == e - i
  {
    if i == 0 then s[..e] else s[i..e]
  }

  function TrimStart(s: string): string {
    Suffix(s, Lead(s))
  }

  function TrimEnd(s: string): string {
    if s != [] && White(s[|s| - 1]) then TrimEnd(s[..|s| - 1]) else s
  }

  function Trim(s: string): string {
    TrimEnd(TrimStart(s))
  }

  function Kept(segment: string): seq<string> {
    if HasCode(Normal, Trim(segment), 0) then [Trim(segment)] else []
  }

  /** The text between statement ends from offset `i` on. */
  function Segments(s: string, i: nat): seq<string>
    requires i <= |s|
    decreases |s| - i
  {
    var e := FirstEnd(Normal, s, i);
    if e.None? then [] else [Slice(s, i, e.value)] + Segments(s, e.value)
  }

  /** Where the last of them ends. */
  function LastEnd(s: string, i: nat): (e: nat)
    requires i <= |s|
    ensures i <= e <= |s|
    decreases |s| - i
  {
    var e := FirstEnd(Normal, s, i);
    if e.None? then i else LastEnd(s, e.value)
  }

  function KeptAll(segments: seq<string>): seq<string> {
    if segments == [] then [] else Chain(Kept(segments[0]), KeptAll(segments[1..]))
  }

  function Statements(s: string): seq<string> {
    KeptAll(Segments(s, 0))
  }

  function Rest(s: string): string {
    Suffix(s, LastEnd(s, 0))
  }

  /** A remainder is dropped when it holds neither code nor an open quote or block comment. */
  predicate Droppable(rest: string) {
    !HasCode(Normal, rest, 0) && Final(Normal, rest, 0) != Quoted && Final(Normal, rest, 0) != BlockComment
  }

  function Buffered(s: string): string {
    if Droppable(Rest(s)) then "" else Rest(s)
  }

  /** After a statement end scanning starts afresh. */
  lemma {:induction false} EndsFrom(st: State, s: string, i: nat)
    requires i <= |s|
    ensures FirstEnd(st, s, i).None? ==> Ends(st, s, i) == []
    ensures FirstEnd(st, s, i).Some? ==>
              Ends(st, s, i) == [FirstEnd(st, s, i).value] + Ends(Normal, s, FirstEnd(st, s, i).value)
    decreases |s| - i
  {
    if i < |s| {
      var m := Advance(st, s, i);
      EndsFrom(m.next, s, m.to);
    }
  }

  /** Cut a text at its statement ends. */
  method CutAtEnds(whole: string, ends: seq<nat>) returns (statements: seq<string>, start: nat)
    requires ends == Ends(Normal, whole, 0)
    ensures statements == Statements(whole) && start == LastEnd(whole, 0)
  {
    statements, start := [], 0;
    ghost var segments: seq<string> := [];
    for k := 0 to |ends|
      invariant 0 <= start <= |whole| && Ends(Normal, whole, start) == ends[k..]
      invariant Segments(whole, 0) == segments + Segments(whole, start) && LastEnd(whole, 0) == LastEnd(whole, start)
      invariant statements == KeptAll(segments)
    {
      SegmentStep(whole, start, ends[k..], segments);
      var segment := whole[start..ends[k]];
      KeptAllSnoc(segments, segment);
      segments := segments + [segment];
      var statement := Trim(segment);
      var code := HasSqlCode(statement);
      if code { statements := statements + [statement]; }
      start := ends[k];
    }
    EndsFrom(Normal, whole, start);
    assert segments + [] == segments;
  }

  lemma {:induction false} SegmentStep(whole: string, start: nat, ends: seq<nat>, segments: seq<string>)
    requires start <= |whole| && ends != [] && Ends(Normal, whole, start) == ends
    ensures start < ends[0] <= |whole| && Ends(Normal, whole, ends[0]) == ends[1..]
      && LastEnd(whole, start) == LastEnd(whole, ends[0])
    ensures segments + Segments(whole, start) == (segments + [whole[start..ends[0]]]) + Segments(whole, ends[0])
  {
    EndsFrom(Normal, whole, start);
  }

  lemma KeptAllChain(a: seq<string>, b: seq<string>)
    ensures KeptAll(Chain(a, b)) == Chain(KeptAll(a), KeptAll(b))
  {
    if a != [] { KeptAllConcat(a, b); }
  }

  lemma ChainAssociates(a: seq<string>, b: seq<string>, c: seq<string>)
    ensures Chain(Chain(a, b), c) == Chain(a, Chain(b, c))
  {
  }

  lemma {:induction false} KeptAllConcat(a: seq<string>, b: seq<string>)
    ensures a != [] ==> KeptAll(a + b) == Chain(KeptAll(a), KeptAll(b))
  {
    if |a| == 1 {
      assert (a + b)[1..] == b && a[1..] == [];
    } else if |a| > 1 {
      assert (a + b)[1..] == a[1..] + b;
      KeptAllConcat(a[1..], b);
      ChainAssociates(Kept(a[0]), KeptAll(a[1..]), KeptAll(b));
    }
  }

  lemma {:induction false} KeptAllSnoc(a: seq<string>, segment: string)
    ensures KeptAll(a + [segment]) == KeptAll(a) + Kept(segment)
  {
    assert [segment][1..] == [];
    if a == [] {
      assert a + [segment] == [segment];
    } else {
      KeptAllConcat(a, [segment]);
    }
  }

  lemma JoinIsChain(a: string, b: string)
    ensures a + b == Chain(a, b)
  {
  }

  lemma {:induction false} TrimEndKeeps(s: string)
    requires s != [] && !White(s[0])
    ensures TrimEnd(s) != []
  {
    if |s| > 1 && White(s[|s| - 1]) { TrimEndKeeps(s[..|s| - 1]); }
  }

  /** Trimming leaves nothing of white space only. */
  lemma {:induction false} TrimEmpty(s: string)
    ensures Trim(s) == "" <==> AllWhite(s)
  {
    if AllWhite(s) {
      assert Lead(s) == |s|;
    } else {
      TrimEndKeeps(Suffix(s, Lead(s)));
    }
  }

  /** The pending buffer of the shell. */
  class Pending {
    var sql: string

    constructor ()
      ensures sql == ""
    {
      sql := "";
    }

    /** One line at the prompt that is not a command of the shell itself. */
    method Enter(line: string) returns (statements: seq<string>)
      modifies this
      ensures statements == Taken(old(sql), line) && sql == NextBuffer(old(sql), line)
    {
      var trimmed := Trim(line);
      TrimEmpty(line);
      JoinIsChain(sql, line);
      if sql == "" && trimmed == "" { return []; }
      statements := Feed(line);
    }

    /** Append a line and take every complete statement out of the buffer. */
    method Feed(line: string) returns (statements: seq<string>)
      modifies this
      ensures statements == Statements(old(sql) + line) && sql == Buffered(old(sql) + line)
    {
      sql := sql + line;
      var ends, _ := ScanSql(sql);
      var start;
      statements, start := CutAtEnds(sql, ends);
      if start > 0 { sql := sql[start..]; }
      var _, state := ScanSql(sql);
      var code := HasSqlCode(sql);
      if !code && !(state == Quoted || state == BlockComment) { sql := ""; }
    }
  }

  /* ---- scanning two texts that agree from some point on ---- */

  ghost predicate Aligned(s: string, i: nat, t: string, j: nat) {
    i <= |s| && j <= |t| && |s| - i == |t| - j && forall k :: i <= k < |s| ==> s[k] == t[k - i + j]
  }

  lemma AdvanceAligned(st: State, s: string, i: nat, t: string, j: nat)
    requires Aligned(s, i, t, j) && i < |s|
    ensures var m, n := Advance(st, s, i), Advance(st, t, j);
            m.to - i == n.to - j && m.next == n.next && m.ends == n.ends && Aligned(s, m.to, t, n.to)
  {
    assert s[i] == t[j] && (i + 1 < |s| ==> s[i + 1] == t[j + 1]);
  }

  lemma {:induction false} ScanAligned(st: State, s: string, i: nat, t: string, j: nat)
    requires Aligned(s, i, t, j)
    ensures Final(st, s, i) == Final(st, t, j)
    ensures HasCode(st, s, i) <==> HasCode(st, t, j)
    ensures FirstEnd(st, s, i).Some? <==> FirstEnd(st, t, j).Some?
    ensures FirstEnd(st, s, i).Some? ==> FirstEnd(st, s, i).value - i == FirstEnd(st, t, j).value - j
    decreases |s| - i
  {
    if i < |s| {
      AdvanceAligned(st, s, i, t, j);
      ScanAligned(Advance(st, s, i).next, s, Advance(st, s, i).to, t, Advance(st, t, j).to);
      CodeAligned(st, s, i, t, j);
    }
  }

  lemma {:induction false} CodeAligned(st: State, s: string, i: nat, t: string, j: nat)
    requires Aligned(s, i, t, j)
    ensures HasCode(st, s, i) <==> HasCode(st, t, j)
    decreases |s| - i
  {
    if i < |s| {
      assert s[i] == t[j] && (i + 1 < |s| ==> s[i + 1] == t[j + 1]);
      if st == Normal && (AsciiSpace(s[i]) || s[i] == ';') {
        CodeAligned(Normal, s, i + 1, t, j + 1);
      } else {
        AdvanceAligned(st, s, i, t, j);
        CodeAligned(Advance(st, s, i).next, s, Advance(st, s, i).to, t, Advance(st, t, j).to);
      }
    }
  }

  /* ---- scanning across a line boundary ---- */

  predicate Lines(s: string) {
    s == [] || s[|s| - 1] == '\n'
  }

  /** No move reaches across the end of a newline-terminated text, so scanning `a + b` is
      scanning `a`, then `b` in the state `a` ended in. */
  lemma {:induction false} ScanConcat(st: State, a: string, b: string, i: nat)
    requires Lines(a) && i <= |a|
    ensures Final(st, a + b, i) == Final(Final(st, a, i), a + b, |a|)
    ensures FirstEnd(st, a + b, i) == if FirstEnd(st, a, i).Some? then FirstEnd(st, a, i)
      else FirstEnd(Final(st, a, i), a + b, |a|)
    ensures HasCode(st, a, i) ==> HasCode(st, a + b, i)
    ensures !HasCode(st, a, i) ==> (HasCode(st, a + b, i) <==> HasCode(Final(st, a, i), a + b, |a|))
    decreases |a| - i
  {
    if i < |a| {
      var ab := a + b;
      assert ab[i] == a[i] && (i + 1 < |a| ==> ab[i + 1] == a[i + 1]);
      assert i + 1 == |a| ==> a[i] == '\n';
      var m := Advance(st, a, i);
      assert Advance(st, ab, i) == m;
      ScanConcat(m.next, a, b, m.to);
    }
  }

  lemma {:induction false} NoOpenLineComment(st: State, a: string, i: nat)
    requires Lines(a) && i < |a|
    ensures Final(st, a, i) != LineComment
    decreases |a| - i
  {
    var m := Advance(st, a, i);
    if m.to < |a| { NoOpenLineComment(m.next, a, m.to); }
  }

  /* ---- text that was dropped from the buffer ---- */

  /** Whole lines without code, quote or open comment. */
  /** Whole lines that neither end a statement nor leave a quote or comment open. */
  ghost predicate Silent(p: string) {
    Lines(p) && Final(Normal, p, 0) == Normal && FirstEnd(Normal, p, 0).None?
  }

  /** The same without code. */
  ghost predicate Blank(p: string) {
    Silent(p) && !HasCode(Normal, p, 0)
  }

  /** Scanning behind silent text is scanning the text itself. */
  lemma {:induction false} AfterSilent(p: string, x: string)
    requires Silent(p) && p != []
    ensures Final(Normal, p + x, 0) == Final(Normal, x, 0)
    ensures HasCode(Normal, p + x, 0) <==> HasCode(Normal, p, 0) || HasCode(Normal, x, 0)
    ensures FirstEnd(Normal, p + x, 0).Some? <==> FirstEnd(Normal, x, 0).Some?
    ensures FirstEnd(Normal, x, 0).Some? ==> FirstEnd(Normal, p + x, 0).value == |p| + FirstEnd(Normal, x, 0).value
  {
    ScanConcat(Normal, p, x, 0);
    ScanAligned(Normal, p + x, |p|, x, 0);
  }

  lemma EndAfterSilent(p: string, x: string)
    requires Silent(p) && p != []
    ensures FirstEnd(Normal, p + x, 0).Some? <==> FirstEnd(Normal, x, 0).Some?
    ensures FirstEnd(Normal, x, 0).Some? ==> FirstEnd(Normal, p + x, 0).value == |p| + FirstEnd(Normal, x, 0).value
  {
    AfterSilent(p, x);
  }

  lemma CodeAfterSilent(p: string, x: string)
    requires Silent(p) && p != []
    ensures HasCode(Normal, p + x, 0) <==> HasCode(Normal, p, 0) || HasCode(Normal, x, 0)
  {
    AfterSilent(p, x);
  }

  lemma {:induction false} SplitAligned(s: string, i: nat, t: string, j: nat)
    requires Aligned(s, i, t, j)
    ensures Segments(s, i) == Segments(t, j) && LastEnd(s, i) - i == LastEnd(t, j) - j
    decreases |s| - i
  {
    ScanAligned(Normal, s, i, t, j);
    if FirstEnd(Normal, s, i).Some? {
      var e, f := FirstEnd(Normal, s, i).value, FirstEnd(Normal, t, j).value;
      assert Slice(s, i, e) == Slice(t, j, f);
      SplitAligned(s, e, t, f);
    }
  }

  /** Splitting behind blank text: only the first segment can tell the difference. */
  lemma {:induction false} SplitAfterSilent(p: string, x: string)
    requires Silent(p)
    ensures FirstEnd(Normal, x, 0).None? ==>
              Segments(Chain(p, x), 0) == Segments(x, 0) == [] && LastEnd(Chain(p, x), 0) == LastEnd(x, 0) == 0
    ensures FirstEnd(Normal, x, 0).Some? ==>
              var e := FirstEnd(Normal, x, 0).value;
              && Segments(Chain(p, x), 0) == [Chain(p, x[..e])] + Segments(x, e)
              && Segments(x, 0) == [x[..e]] + Segments(x, e)
              && LastEnd(Chain(p, x), 0) == |p| + LastEnd(x, 0)
  {
    if p != [] { EndAfterSilent(p, x); }
    if FirstEnd(Normal, x, 0).Some? {
      var e := FirstEnd(Normal, x, 0).value;
      FirstSegment(x, e);
      if p != [] { FirstBehind(p, x, e); }
    }
  }

  lemma {:induction false} FirstSegment(s: string, e: nat)
    requires FirstEnd(Normal, s, 0) == Some(e)
    ensures Segments(s, 0) == [s[..e]] + Segments(s, e) && LastEnd(s, 0) == LastEnd(s, e)
  {
  }

  lemma FirstBehind(p: string, x: string, e: nat)
    requires p != [] && e <= |x| && FirstEnd(Normal, p + x, 0) == Some(|p| + e)
    ensures Segments(p + x, 0) == [p + x[..e]] + Segments(x, e) && LastEnd(p + x, 0) == |p| + LastEnd(x, e)
  {
    FirstSegment(p + x, |p| + e);
    FrontBehind(p, x, e);
    TailBehind(p, x, e);
  }

  lemma FrontBehind(p: string, x: string, e: nat)
    requires e <= |x|
    ensures (p + x)[..|p| + e] == p + x[..e]
  {
  }

  lemma {:induction false} TailBehind(p: string, x: string, e: nat)
    requires e <= |x|
    ensures Segments(p + x, |p| + e) == Segments(x, e) && LastEnd(p + x, |p| + e) == |p| + LastEnd(x, e)
  {
    assert Aligned(p + x, |p| + e, x, e);
    SplitAligned(p + x, |p| + e, x, e);
  }

  /** A statement end already found stays the first one. */
  lemma FirstEndStays(a: string, b: string, i: nat)
    requires Lines(a) && i <= |a|
    ensures FirstEnd(Normal, a, i).Some? ==> FirstEnd(Normal, a + b, i) == FirstEnd(Normal, a, i)
  {
    ScanConcat(Normal, a, b, i);
  }

  lemma SliceStays(a: string, b: string, i: nat, e: nat)
    requires i <= e <= |a|
    ensures Slice(a + b, i, e) == Slice(a, i, e)
  {
  }

  lemma FrontChain(x: string, a: seq<string>, b: seq<string>)
    ensures [x] + Chain(a, b) == Chain([x] + a, b)
  {
  }

  /** More lines leave the segments already complete as they are. */
  lemma {:induction false} SplitExtend(a: string, b: string, i: nat)
    requires Lines(a) && i <= |a|
    ensures Segments(a + b, i) == Chain(Segments(a, i), Segments(a + b, LastEnd(a, i)))
    ensures LastEnd(a + b, i) == LastEnd(a + b, LastEnd(a, i))
    decreases |a| - i
  {
    FirstEndStays(a, b, i);
    if FirstEnd(Normal, a, i).Some? {
      var e := FirstEnd(Normal, a, i).value;
      SplitExtend(a, b, e);
      SliceStays(a, b, i, e);
      FrontChain(Slice(a, i, e), Segments(a, e), Segments(a + b, LastEnd(a, e)));
    }
  }

  /* ---- line by line ---- */

  ghost predicate AllLines(lines: seq<string>) {
    forall k :: 0 <= k < |lines| ==> lines[k] != [] && Lines(lines[k])
  }

  /** Lines as read from a terminal or a file: only the last may lack its newline. */
  ghost predicate Fed(lines: seq<string>) {
    lines != [] ==> AllLines(lines[..|lines| - 1]) && lines[|lines| - 1] != []
  }

  lemma FedFront(lines: seq<string>)
    requires AllLines(lines)
    ensures Fed(lines)
  {
  }

  function Concat(lines: seq<string>): string {
    if lines == [] then "" else Concat(lines[..|lines| - 1]) + lines[|lines| - 1]
  }

  predicate AllWhite(s: string) {
    forall k :: 0 <= k < |s| ==> White(s[k])
  }

  /** A line of white space is passed over as long as nothing is buffered. */
  predicate Skips(buffer: string, line: string) {
    buffer == "" && AllWhite(line)
  }

  function NextBuffer(buffer: string, line: string): string {
    if Skips(buffer, line) then buffer else Buffered(Chain(buffer, line))
  }

  /** The statements the shell takes when a line comes in. */
  function Taken(buffer: string, line: string): seq<string> {
    if Skips(buffer, line) then [] else Statements(Chain(buffer, line))
  }

  /** What the shell still buffers after some lines. */
  function Buffer(lines: seq<string>): string {
    if lines == [] then "" else NextBuffer(Buffer(lines[..|lines| - 1]), lines[|lines| - 1])
  }

  /** The buffer with the last line behind it. */
  function Incoming(lines: seq<string>): string
    requires lines != []
  {
    Chain(Buffer(lines[..|lines| - 1]), lines[|lines| - 1])
  }

  /** What the shell has extracted. */
  function Extracted(lines: seq<string>): seq<string> {
    if lines == [] then []
    else Chain(Extracted(lines[..|lines| - 1]), Taken(Buffer(lines[..|lines| - 1]), lines[|lines| - 1]))
  }

  /** The text passed over or dropped from the buffer since the last statement end. */
  function Dropped(lines: seq<string>): string {
    if lines == [] then ""
    else NextDropped(Dropped(lines[..|lines| - 1]), Buffer(lines[..|lines| - 1]), lines[|lines| - 1])
  }

  /** White space scans as nothing. */
  lemma {:induction false} SkipWhite(s: string, n: nat)
    requires n <= |s| && forall k :: 0 <= k < n ==> White(s[k])
    ensures Final(Normal, s, 0) == Final(Normal, s, n) && FirstEnd(Normal, s, 0) == FirstEnd(Normal, s, n)
  {
    if n > 0 {
      SkipWhite(s, n - 1);
      assert White(s[n - 1]);
    }
  }

  lemma WhiteIsSilent(line: string)
    requires AllWhite(line)
    ensures FirstEnd(Normal, line, 0).None? && (Lines(line) ==> Silent(line))
  {
    SkipWhite(line, |line|);
  }

  /** Taking a line of white space in would complete no statement either. */
  lemma TakenIs(buffer: string, line: string)
    ensures Taken(buffer, line) == Statements(Chain(buffer, line))
  {
    if Skips(buffer, line) { WhiteIsSilent(line); }
  }

  /* ---- nothing is lost ---- */

  lemma {:induction false} LastEndScans(s: string, i: nat)
    requires i <= |s|
    ensures FirstEnd(Normal, s, LastEnd(s, i)).None? && Final(Normal, s, i) == Final(Normal, s, LastEnd(s, i))
    ensures LastEnd(s, i) == i || s[LastEnd(s, i) - 1] == ';'
    decreases |s| - i
  {
    if FirstEnd(Normal, s, i).Some? {
      FinalAtEnd(Normal, s, i);
      LastEndScans(s, FirstEnd(Normal, s, i).value);
    }
  }

  lemma {:induction false} FinalAtEnd(st: State, s: string, i: nat)
    requires i <= |s| && FirstEnd(st, s, i).Some?
    ensures Final(st, s, i) == Final(Normal, s, FirstEnd(st, s, i).value)
    decreases |s| - i
  {
    var m := Advance(st, s, i);
    if !m.ends { FinalAtEnd(m.next, s, m.to); }
  }

  /** What remains of a text scans like the text. */
  lemma {:induction false} RestScans(s: string)
    ensures Aligned(Rest(s), 0, s, LastEnd(s, 0))
    ensures FirstEnd(Normal, Rest(s), 0).None? && Final(Normal, Rest(s), 0) == Final(Normal, s, 0)
    ensures Lines(s) ==> Lines(Rest(s))
  {
    LastEndScans(s, 0);
    ScanAligned(Normal, Rest(s), 0, s, LastEnd(s, 0));
  }

  lemma DropAligned(s: string, i: nat, t: string, j: nat, e: nat, f: nat)
    requires Aligned(s, i, t, j) && i <= e <= |s| && j <= f <= |t| && e - i == f - j
    ensures Suffix(s, e) == Suffix(t, f)
  {
  }

  lemma RestAligned(a: string, b: string, n: nat)
    requires n <= |a|
    ensures Aligned(a + b, n, Suffix(a, n) + b, 0)
  {
  }

  lemma {:induction false} RestExtend(a: string, b: string)
    requires Lines(a)
    ensures Rest(a + b) == Rest(Rest(a) + b) && Segments(a + b, 0) == Chain(Segments(a, 0), Segments(Rest(a) + b, 0))
  {
    var n := LastEnd(a, 0);
    SplitExtend(a, b, 0);
    RestAligned(a, b, n);
    SplitAligned(a + b, n, Rest(a) + b, 0);
    DropAligned(a + b, n, Rest(a) + b, 0, LastEnd(a + b, n), LastEnd(Rest(a) + b, 0));
  }

  /** A remainder that is dropped leaves blank text behind. */
  lemma DroppedIsBlank(x: string)
    requires x != [] && Lines(x) && Droppable(Rest(x))
    ensures Blank(Rest(x))
  {
    RestScans(x);
    if Rest(x) != [] { NoOpenLineComment(Normal, Rest(x), 0); }
  }

  lemma SilentJoin(p: string, q: string)
    requires Silent(p) && Silent(q)
    ensures Silent(Chain(p, q))
  {
    if p != [] { AfterSilent(p, q); }
  }

  lemma {:induction false} RestBehindSilent(p: string, x: string)
    requires Silent(p)
    ensures FirstEnd(Normal, x, 0).None? ==> Rest(Chain(p, x)) == Chain(p, x) && Rest(x) == x
    ensures FirstEnd(Normal, x, 0).Some? ==> Rest(Chain(p, x)) == Rest(x)
  {
    SplitAfterSilent(p, x);
    if p != [] { SuffixBehind(p, x, LastEnd(x, 0)); }
  }

  lemma SuffixBehind(p: string, x: string, n: nat)
    requires n <= |x| && p != []
    ensures Suffix(p + x, |p| + n) == Suffix(x, n)
  {
  }

  /** The dropped text after one more extraction. */
  function DroppedNext(p: string, x: string): string {
    var q := if FirstEnd(Normal, x, 0).None? then p else "";
    if Droppable(Rest(x)) then Chain(q, Rest(x)) else q
  }

  function NextDropped(p: string, buffer: string, line: string): string {
    if Skips(buffer, line) then Chain(p, line) else DroppedNext(p, Chain(buffer, line))
  }

  lemma DroppedNextSilent(p: string, x: string)
    requires Silent(p) && x != [] && Lines(x)
    ensures Silent(DroppedNext(p, x)) && Lines(Buffered(x))
  {
    RestScans(x);
    if Droppable(Rest(x)) {
      DroppedIsBlank(x);
      SilentJoin(p, Rest(x));
    }
  }

  lemma Regroup(q: string, r: string, drop: bool)
    ensures Chain(if drop then Chain(q, r) else q, if drop then "" else r) == Chain(q, r)
  {
  }

  lemma DroppedNextHolds(p: string, x: string)
    requires Silent(p)
    ensures Rest(Chain(p, x)) == Chain(DroppedNext(p, x), Buffered(x))
  {
    RestBehindSilent(p, x);
    Regroup(if FirstEnd(Normal, x, 0).None? then p else "", Rest(x), Droppable(Rest(x)));
  }

  /** After any number of lines the unfinished part of the whole text is what was passed over
      or dropped, followed by the buffer. */
  lemma {:induction false} BufferHoldsRest(lines: seq<string>)
    requires AllLines(lines)
    ensures Lines(Concat(lines)) && Lines(Buffer(lines)) && Silent(Dropped(lines))
    ensures Rest(Concat(lines)) == Chain(Dropped(lines), Buffer(lines))
  {
    if lines != [] {
      var init, line := lines[..|lines| - 1], lines[|lines| - 1];
      BufferHoldsRest(init);
      LineHoldsRest(Concat(init), Dropped(init), Buffer(init), line);
    }
  }

  lemma {:induction false} LineHoldsRest(text: string, p: string, buffer: string, line: string)
    requires Lines(text) && Silent(p) && Rest(text) == Chain(p, buffer) && line != [] && Lines(line)
    ensures Lines(text + line) && Lines(NextBuffer(buffer, line)) && Silent(NextDropped(p, buffer, line))
    ensures Rest(text + line) == Chain(NextDropped(p, buffer, line), NextBuffer(buffer, line))
  {
    var x := Chain(buffer, line);
    ChainEnd(p, buffer, line);
    LineExtends(text, line, Chain(p, x));
    if Skips(buffer, line) {
      WhiteIsSilent(line);
      SilentJoin(p, line);
      RestBehindSilent(p, x);
      Regroup(Chain(p, line), "", false);
    } else {
      DroppedNextSilent(p, x);
      DroppedNextHolds(p, x);
    }
  }

  lemma ChainEnd(p: string, buffer: string, line: string)
    ensures Chain(p, buffer) + line == Chain(p, Chain(buffer, line))
  {
  }

  lemma LineExtends(text: string, line: string, all: string)
    requires Lines(text) && line != [] && Rest(text) + line == all
    ensures (Lines(line) ==> Lines(text + line)) && Rest(text + line) == Rest(all)
    ensures Segments(text + line, 0) == Chain(Segments(text, 0), Segments(all, 0))
  {
    RestExtend(text, line);
  }

  /** Clearing the buffer and passing lines over loses neither the state of a quote or comment
      nor any code but what was passed over. */
  lemma {:induction false} FeedingKeepsState(lines: seq<string>)
    requires AllLines(lines)
    ensures Final(Normal, Buffer(lines), 0) == Final(Normal, Concat(lines), 0)
    ensures HasCode(Normal, Rest(Concat(lines)), 0) <==>
      HasCode(Normal, Dropped(lines), 0) || HasCode(Normal, Buffer(lines), 0)
  {
    BufferHoldsRest(lines);
    RestScans(Concat(lines));
    if Dropped(lines) != [] { AfterSilent(Dropped(lines), Buffer(lines)); }
  }

  /* ---- trimming ---- */

  lemma {:induction false} SkipSpace(s: string, n: nat)
    requires n <= |s| && forall k :: 0 <= k < n ==> AsciiSpace(s[k])
    ensures HasCode(Normal, s, 0) <==> HasCode(Normal, s, n)
  {
    if n > 0 { SkipSpace(s, n - 1); }
  }

  /** An odd space before anything else counts as code. */
  lemma {:induction false} OddIsCode(s: string, n: nat)
    requires n <= |s| && (forall k :: 0 <= k < n ==> White(s[k])) && exists k :: 0 <= k < n && OddSpace(s[k])
    ensures HasCode(Normal, s, 0)
  {
    var k :| 0 <= k < n && OddSpace(s[k]);
    var i := FirstOdd(s, k);
    SkipSpace(s, i);
  }

  lemma FirstOdd(s: string, k: nat) returns (i: nat)
    requires k < |s| && (forall j :: 0 <= j <= k ==> White(s[j])) && OddSpace(s[k])
    ensures i <= k && OddSpace(s[i]) && forall j :: 0 <= j < i ==> AsciiSpace(s[j])
  {
    i := 0;
    while !OddSpace(s[i])
      invariant 0 <= i <= k && forall j :: 0 <= j < i ==> AsciiSpace(s[j])
      decreases k - i
    {
      i := i + 1;
    }
  }

  /** A segment ends in a semicolon, so only its front is trimmed. */
  lemma {:induction false} TrimSegment(s: string)
    requires s != [] && s[|s| - 1] == ';'
    ensures Lead(s) < |s| && Trim(s) == Suffix(s, Lead(s))
  {
    assert !White(s[|s| - 1]);
  }

  /** Trimming a segment hides exactly the odd spaces at its front. */
  lemma {:induction false} TrimHides(s: string)
    requires s != [] && s[|s| - 1] == ';'
    ensures HasCode(Normal, s, 0) <==> HasCode(Normal, Trim(s), 0) || exists k :: 0 <= k < Lead(s) && OddSpace(s[k])
  {
    TrimSegment(s);
    if exists k :: 0 <= k < Lead(s) && OddSpace(s[k]) {
      OddIsCode(s, Lead(s));
    } else {
      SkipSpace(s, Lead(s));
      ScanAligned(Normal, s, Lead(s), Trim(s), 0);
    }
  }

  predicate HasDark(p: string) {
    exists k :: 0 <= k < |p| && !White(p[k])
  }

  /** What a whole-text split keeps in front of a segment and the shell does not. */
  function Front(p: string, segment: string): string {
    Suffix(p, Lead(p)) + segment[..Lead(segment)]
  }

  /** A comment in dropped text shielded code, which only odd spaces can be, from trimming. */
  ghost predicate Shields(p: string, segment: string) {
    HasDark(p) && HasCode(Normal, Front(p, segment), 0)
  }

  /** A statement that a whole-text split keeps only because of what was shielded. */
  ghost predicate Phantom(p: string, segment: string) {
    Shields(p, segment) && !HasCode(Normal, Trim(segment), 0)
  }

  lemma LeadBehindWhite(p: string, s: string)
    requires s != [] && s[|s| - 1] == ';' && p != [] && forall k :: 0 <= k < |p| ==> White(p[k])
    ensures Trim(p + s) == Trim(s)
  {
    TrimSegment(s);
    TrimSegment(p + s);
    LeadAfterWhite(p, s);
    SuffixBehind(p, s, Lead(s));
  }

  lemma {:induction false} LeadAfterWhite(p: string, s: string)
    requires forall k :: 0 <= k < |p| ==> White(p[k])
    ensures Lead(p + s) == |p| + Lead(s)
  {
    forall i | 0 <= i < |p| + Lead(s) ensures White((p + s)[i]) {
      assert (p + s)[i] == if i < |p| then p[i] else s[i - |p|];
    }
    assert Lead(s) < |s| ==> (p + s)[|p| + Lead(s)] == s[Lead(s)];
    LeadUnique(p + s, |p| + Lead(s));
  }

  lemma {:induction false} LeadUnique(s: string, n: nat)
    requires n <= |s| && (forall i :: 0 <= i < n ==> White(s[i])) && (n < |s| ==> !White(s[n]))
    ensures Lead(s) == n
  {
  }

  /** Silent text trimmed at the front is still silent. */
  lemma {:induction false} SilentTrimmed(p: string)
    requires Silent(p) && HasDark(p)
    ensures Lead(p) < |p| && Silent(Suffix(p, Lead(p)))
  {
    var n := Lead(p);
    SkipWhite(p, n);
    ScanAligned(Normal, p, n, Suffix(p, n), 0);
  }

  /** Behind a comment the segment keeps all its characters. */
  lemma {:induction false} LeadBehindComment(p: string, s: string)
    requires Segment(s) && Silent(p) && HasDark(p)
    ensures Lead(p) < |p| && Trim(p + s) == Suffix(p, Lead(p)) + s
    ensures HasCode(Normal, Trim(p + s), 0) <==> HasCode(Normal, Suffix(p, Lead(p)), 0) || HasCode(Normal, s, 0)
  {
    TrimSegment(p + s);
    LeadInFront(p, s);
    SilentTrimmed(p);
    CodeAfterSilent(Suffix(p, Lead(p)), s);
  }

  /** What is shielded is code of the dropped text or an odd space in front of the segment. */
  lemma {:induction false} FrontCode(p: string, s: string)
    requires Silent(p) && HasDark(p)
    ensures HasCode(Normal, Front(p, s), 0) <==>
      HasCode(Normal, Suffix(p, Lead(p)), 0) || exists k :: 0 <= k < Lead(s) && OddSpace(s[k])
  {
    SilentTrimmed(p);
    CodeAfterSilent(Suffix(p, Lead(p)), s[..Lead(s)]);
    LeadHasCode(s);
  }

  lemma {:induction false} LeadInFront(p: string, s: string)
    requires HasDark(p)
    ensures Lead(p) < |p| && Lead(p + s) == Lead(p) && Suffix(p + s, Lead(p)) == Suffix(p, Lead(p)) + s
  {
    assert forall k :: 0 <= k < |p| ==> (p + s)[k] == p[k];
    LeadUnique(p + s, Lead(p));
    SuffixOfFront(p, s, Lead(p));
  }

  lemma SuffixOfFront(p: string, s: string, n: nat)
    requires n < |p|
    ensures Suffix(p + s, n) == Suffix(p, n) + s
  {
  }

  /** Dropping text in front of a segment changes whether it is kept exactly for phantoms, which
      only the whole-text split keeps. */
  lemma KeptBehindDropped(p: string, s: string)
    requires Silent(p) && Segment(s)
    ensures |Kept(Chain(p, s))| == |Kept(s)| + if Phantom(p, s) then 1 else 0
  {
    if HasDark(p) {
      TrimHides(s);
      LeadBehindComment(p, s);
      FrontCode(p, s);
    } else if p != [] {
      LeadBehindWhite(p, s);
    }
  }

  /* ---- line by line against all at once ---- */

  /** The first statement that ends in `x` is a phantom behind the dropped text `p`. */
  ghost predicate PhantomIn(p: string, x: string) {
    var e := FirstEnd(Normal, x, 0);
    e.Some? && Phantom(p, x[..e.value])
  }

  ghost predicate PhantomAt(lines: seq<string>)
    requires lines != []
  {
    PhantomIn(Dropped(lines[..|lines| - 1]), Incoming(lines))
  }

  ghost function Phantoms(lines: seq<string>): nat {
    if lines == [] then 0 else Phantoms(lines[..|lines| - 1]) + if PhantomAt(lines) then 1 else 0
  }

  /** Behind the dropped text `p`, the text `x` with statements `xs` turns `before` into `after`. */
  ghost predicate Adds(p: string, x: string, before: seq<string>, xs: seq<string>, after: seq<string>) {
    match FirstEnd(Normal, x, 0)
    case None => after == before && xs == []
    case Some(e) => exists more :: AddsFirst(p, x[..e], more, before, xs, after)
  }

  ghost predicate AddsFirst(p: string, s: string, more: seq<string>, before: seq<string>, xs: seq<string>,
                            after: seq<string>) {
    after == Chain(before, Chain(Kept(Chain(p, s)), more)) && xs == Chain(Kept(s), more)
  }

  /** The statements one more line adds to the whole-text split and to the shell. */
  lemma LineAddsTo(text: string, p: string, buffer: string, line: string, x: string)
    requires Lines(text) && Silent(p) && Rest(text) == Chain(p, buffer) && line != []
    requires x == Chain(buffer, line)
    ensures Adds(p, x, Statements(text), Statements(x), Statements(text + line))
  {
    ChainEnd(p, buffer, line);
    LineExtends(text, line, Chain(p, x));
    KeptAllChain(Segments(text, 0), Segments(Chain(p, x), 0));
    StatementsBehind(p, x);
    var e := FirstEnd(Normal, x, 0);
    if e.Some? {
      var more := KeptAll(Segments(x, e.value));
      assert AddsFirst(p, x[..e.value], more, Statements(text), Statements(x), Statements(text + line));
    }
  }

  /** The statements of a text and of the same text behind blank text. */
  lemma StatementsBehind(p: string, x: string)
    requires Silent(p)
    ensures FirstEnd(Normal, x, 0).None? ==> KeptAll(Segments(Chain(p, x), 0)) == Statements(x) == []
    ensures FirstEnd(Normal, x, 0).Some? ==>
              var e := FirstEnd(Normal, x, 0).value;
              && KeptAll(Segments(Chain(p, x), 0)) == Chain(Kept(Chain(p, x[..e])), KeptAll(Segments(x, e)))
              && Statements(x) == Chain(Kept(x[..e]), KeptAll(Segments(x, e)))
  {
    SplitAfterSilent(p, x);
    if FirstEnd(Normal, x, 0).Some? {
      var e := FirstEnd(Normal, x, 0).value;
      KeptAllFront(Chain(p, x[..e]), Segments(x, e));
      KeptAllFront(x[..e], Segments(x, e));
    }
  }

  lemma {:induction false} KeptAllFront(segment: string, more: seq<string>)
    ensures KeptAll([segment] + more) == Chain(Kept(segment), KeptAll(more))
  {
    assert ([segment] + more)[1..] == more;
  }

  /** Feeding lines one at a time extracts as many statements as one call on the whole text,
      except that phantoms are missing: the counts agree exactly when there are none. */
  lemma {:induction false} SameCountButPhantoms(lines: seq<string>)
    requires Fed(lines)
    ensures |Statements(Concat(lines))| == |Extracted(lines)| + Phantoms(lines)
    ensures |Statements(Concat(lines))| == |Extracted(lines)| <==> Phantoms(lines) == 0
  {
    if lines != [] {
      var init, line := lines[..|lines| - 1], lines[|lines| - 1];
      FedFront(init);
      SameCountButPhantoms(init);
      BufferHoldsRest(init);
      TakenIs(Buffer(init), line);
      CountStep(Concat(init), Dropped(init), Buffer(init), line, Incoming(lines));
    }
  }

  /** How many statements one more line adds on either side. */
  lemma CountStep(text: string, p: string, buffer: string, line: string, x: string)
    requires Lines(text) && Silent(p) && Rest(text) == Chain(p, buffer) && line != []
    requires x == Chain(buffer, line)
    ensures |Statements(text + line)| == |Statements(text)| + |Statements(x)| + if PhantomIn(p, x) then 1 else 0
  {
    LineAddsTo(text, p, buffer, line, x);
    CountAdded(p, x, Statements(text), Statements(x), Statements(text + line));
  }

  lemma CountAdded(p: string, x: string, before: seq<string>, xs: seq<string>, after: seq<string>)
    requires Silent(p) && Adds(p, x, before, xs, after)
    ensures |after| == |before| + |xs| + if PhantomIn(p, x) then 1 else 0
  {
    if FirstEnd(Normal, x, 0).Some? {
      var s, more := FirstAdded(p, x, before, xs, after);
      KeptBehindDropped(p, s);
    }
  }

  /** `i` is `b` without a prefix that holds no code. */
  ghost predicate WithoutBlankPrefix(b: string, i: string) {
    |i| <= |b| && Suffix(b, |b| - |i|) == i && !HasCode(Normal, b[..|b| - |i|], 0)
  }

  lemma {:induction false} CutFront(a: string, s: string, n: nat)
    requires n <= |s|
    ensures WithoutBlankPrefix(a + s, Suffix(s, n)) <==> !HasCode(Normal, a + s[..n], 0)
  {
    var b, i := a + s, Suffix(s, n);
    assert |b| - |i| == |a| + n && b[..|a| + n] == a + s[..n];
    if |a| + n > 0 { assert b[|a| + n..] == i; }
  }

  /** White space holds code exactly when some of it is odd. */
  lemma {:induction false} WhiteHasCode(lead: string)
    requires forall k :: 0 <= k < |lead| ==> White(lead[k])
    ensures HasCode(Normal, lead, 0) <==> exists k :: 0 <= k < |lead| && OddSpace(lead[k])
  {
    if exists k :: 0 <= k < |lead| && OddSpace(lead[k]) {
      OddIsCode(lead, |lead|);
    } else {
      SkipSpace(lead, |lead|);
    }
  }

  /** Losing the text in front costs a statement only a code-free prefix, unless something was
      shielded. */
  lemma TrimBehindDropped(p: string, s: string)
    requires Silent(p) && Segment(s)
    ensures WithoutBlankPrefix(Trim(Chain(p, s)), Trim(s)) <==> !Shields(p, s)
  {
    if HasDark(p) {
      TrimSegment(s);
      LeadBehindComment(p, s);
      CutFront(Suffix(p, Lead(p)), s, Lead(s));
    } else {
      if p != [] { LeadBehindWhite(p, s); }
      SelfRelated(Trim(s));
    }
  }

  lemma LeadHasCode(s: string)
    ensures HasCode(Normal, s[..Lead(s)], 0) <==> exists k :: 0 <= k < Lead(s) && OddSpace(s[k])
  {
    var lead := s[..Lead(s)];
    WhiteHasCode(lead);
    assert forall k :: 0 <= k < Lead(s) ==> lead[k] == s[k];
  }

  lemma SelfRelated(s: string)
    ensures WithoutBlankPrefix(s, s)
  {
    assert s[..0] == "";
  }

  ghost predicate ShieldedIn(p: string, x: string) {
    var e := FirstEnd(Normal, x, 0);
    e.Some? && Shields(p, x[..e.value])
  }

  ghost predicate ShieldedAt(lines: seq<string>)
    requires lines != []
  {
    ShieldedIn(Dropped(lines[..|lines| - 1]), Incoming(lines))
  }

  /** On some line an odd space came right after dropped text with a comment in it. */
  ghost predicate Shielded(lines: seq<string>) {
    lines != [] && (Shielded(lines[..|lines| - 1]) || ShieldedAt(lines))
  }

  /** The extracted statements are the whole-text statements, each minus a code-free prefix. */
  ghost predicate Agree(whole: seq<string>, extracted: seq<string>) {
    Pairwise((b, i) => WithoutBlankPrefix(b, i), whole, extracted)
  }

  ghost predicate Pairwise(rel: (string, string) -> bool, a: seq<string>, b: seq<string>) {
    |a| == |b| && forall k :: 0 <= k < |b| ==> rel(a[k], b[k])
  }

  /** All that is needed of the relation between statements. */
  ghost predicate Tells(rel: (string, string) -> bool) {
    && (forall s :: rel(s, s))
    && (forall p, s :: Silent(p) && Segment(s) ==> (rel(Trim(Chain(p, s)), Trim(s)) <==> !Shields(p, s)))
  }

  predicate Segment(s: string) {
    s != [] && s[|s| - 1] == ';'
  }

  lemma PairwiseAppend(rel: (string, string) -> bool, bs: seq<string>, xs: seq<string>, b: seq<string>, x: seq<string>,
                       more: seq<string>)
    requires |bs| == |xs| && |b| == |x| <= 1 && forall s :: rel(s, s)
    ensures Pairwise(rel, Chain(bs, Chain(b, more)), Chain(xs, Chain(x, more))) <==>
              Pairwise(rel, bs, xs) && (|x| == 1 ==> rel(b[0], x[0]))
  {
    var u, v := Chain(bs, Chain(b, more)), Chain(xs, Chain(x, more));
    assert forall k :: 0 <= k < |bs| ==> u[k] == bs[k] && v[k] == xs[k];
    assert |x| == 1 ==> u[|bs|] == b[0] && v[|bs|] == x[0];
    assert forall k :: |bs| + |x| <= k < |v| ==> u[k] == v[k];
  }

  /** A shielded segment is kept in the whole-text split, and in the other if no phantom. */
  lemma KeptShielded(p: string, s: string)
    requires Silent(p) && Segment(s) && !Phantom(p, s)
    ensures |Kept(Chain(p, s))| == |Kept(s)|
    ensures |Kept(s)| == 1 ==> Kept(Chain(p, s))[0] == Trim(Chain(p, s)) && Kept(s)[0] == Trim(s)
    ensures Shields(p, s) ==> |Kept(s)| == 1
  {
    KeptBehindDropped(p, s);
  }

  lemma LineAgrees(rel: (string, string) -> bool, bs: seq<string>, xs: seq<string>, p: string, s: string,
                   more: seq<string>)
    requires Tells(rel) && Silent(p) && Segment(s) && !Phantom(p, s) && |bs| == |xs|
    ensures Pairwise(rel, Chain(bs, Chain(Kept(Chain(p, s)), more)), Chain(xs, Chain(Kept(s), more))) <==>
              Pairwise(rel, bs, xs) && !Shields(p, s)
  {
    KeptShielded(p, s);
    PairwiseAppend(rel, bs, xs, Kept(Chain(p, s)), Kept(s), more);
  }

  /** What one more line does to the agreement. */
  lemma AgreeStep(rel: (string, string) -> bool, text: string, p: string, buffer: string, line: string, x: string,
                  xs: seq<string>)
    requires Tells(rel) && Lines(text) && Silent(p) && Rest(text) == Chain(p, buffer) && line != []
    requires x == Chain(buffer, line) && !PhantomIn(p, x) && |Statements(text)| == |xs|
    ensures Pairwise(rel, Statements(text + line), Chain(xs, Statements(x))) <==>
              Pairwise(rel, Statements(text), xs) && !ShieldedIn(p, x)
  {
    LineAddsTo(text, p, buffer, line, x);
    AgreeAdded(rel, p, x, Statements(text), Statements(x), Statements(text + line), xs);
  }

  lemma AgreeAdded(rel: (string, string) -> bool, p: string, x: string, before: seq<string>, added: seq<string>,
                   after: seq<string>, xs: seq<string>)
    requires Tells(rel) && Silent(p) && Adds(p, x, before, added, after) && !PhantomIn(p, x) && |before| == |xs|
    ensures Pairwise(rel, after, Chain(xs, added)) <==> Pairwise(rel, before, xs) && !ShieldedIn(p, x)
  {
    if FirstEnd(Normal, x, 0).Some? {
      var s, more := FirstAdded(p, x, before, added, after);
      LineAgrees(rel, before, xs, p, s, more);
    }
  }

  lemma FirstAdded(p: string, x: string, before: seq<string>, added: seq<string>, after: seq<string>)
    returns (s: string, more: seq<string>)
    requires Adds(p, x, before, added, after) && FirstEnd(Normal, x, 0).Some?
    ensures Segment(s) && (PhantomIn(p, x) <==> Phantom(p, s)) && (ShieldedIn(p, x) <==> Shields(p, s))
    ensures after == Chain(before, Chain(Kept(Chain(p, s)), more)) && added == Chain(Kept(s), more)
  {
    var e := FirstEnd(Normal, x, 0).value;
    s := x[..e];
    more :| AddsFirst(p, s, more, before, added, after);
    FirstTells(p, x, s);
  }

  lemma FirstTells(p: string, x: string, s: string)
    requires FirstEnd(Normal, x, 0).Some? && s == x[..FirstEnd(Normal, x, 0).value]
    ensures Segment(s) && (PhantomIn(p, x) <==> Phantom(p, s)) && (ShieldedIn(p, x) <==> Shields(p, s))
  {
  }

  lemma {:induction false} AgreeBy(rel: (string, string) -> bool, lines: seq<string>)
    requires Tells(rel) && Fed(lines)
    ensures Pairwise(rel, Statements(Concat(lines)), Extracted(lines)) <==> !Shielded(lines)
    ensures Phantoms(lines) > 0 ==> Shielded(lines)
  {
    SameCountButPhantoms(lines);
    if lines != [] {
      var init := lines[..|lines| - 1];
      FedFront(init);
      AgreeBy(rel, init);
      SameCountButPhantoms(init);
      if PhantomAt(lines) {
        PhantomIsShielded(lines);
      } else if Phantoms(init) == 0 {
        BufferHoldsRest(init);
        TakenIs(Buffer(init), lines[|lines| - 1]);
        AgreeStep(rel, Concat(init), Dropped(init), Buffer(init), lines[|lines| - 1], Incoming(lines), Extracted(init));
      }
    }
  }

  /** Feeding lines one at a time extracts the statements of the whole text, each minus a
      code-free prefix, exactly when no line brings an odd space right behind dropped text
      that holds a comment. */
  lemma {:induction false} SameStatements(lines: seq<string>)
    requires Fed(lines)
    ensures Agree(Statements(Concat(lines)), Extracted(lines)) <==> !Shielded(lines)
    ensures Phantoms(lines) > 0 ==> Shielded(lines)
  {
    forall s ensures WithoutBlankPrefix(s, s) { SelfRelated(s); }
    forall p, s | Silent(p) && Segment(s) ensures WithoutBlankPrefix(Trim(Chain(p, s)), Trim(s)) <==> !Shields(p, s) {
      TrimBehindDropped(p, s);
    }
    AgreeBy((b, i) => WithoutBlankPrefix(b, i), lines);
  }

  lemma PhantomIsShielded(lines: seq<string>)
    requires lines != [] && PhantomAt(lines)
    ensures ShieldedAt(lines)
  {
  }

  ghost predicate NoOddSpace(s: string) {
    forall k :: 0 <= k < |s| ==> !OddSpace(s[k])
  }

  lemma NoOddNext(p: string, buffer: string, line: string)
    requires NoOddSpace(buffer) && NoOddSpace(line) && Silent(p) && !HasCode(Normal, p, 0) && line != [] && Lines(line)
    requires Lines(buffer)
    ensures NoOddSpace(NextBuffer(buffer, line)) && !HasCode(Normal, NextDropped(p, buffer, line), 0)
  {
    var x := Chain(buffer, line);
    if Skips(buffer, line) {
      WhiteHasCode(line);
      if p != [] { CodeAfterSilent(p, line); }
    } else if Droppable(Rest(x)) {
      if p != [] { CodeAfterSilent(p, Rest(x)); }
    }
  }

  lemma {:induction false} NoOddBuffer(lines: seq<string>)
    requires AllLines(lines) && forall k :: 0 <= k < |lines| ==> NoOddSpace(lines[k])
    ensures NoOddSpace(Buffer(lines)) && !HasCode(Normal, Dropped(lines), 0)
  {
    if lines != [] {
      var init := lines[..|lines| - 1];
      NoOddBuffer(init);
      BufferHoldsRest(init);
      NoOddNext(Dropped(init), Buffer(init), lines[|lines| - 1]);
    }
  }

  lemma NoOddShields(p: string, s: string)
    requires Silent(p) && !HasCode(Normal, p, 0) && NoOddSpace(s)
    ensures !Shields(p, s)
  {
    if HasDark(p) {
      FrontCode(p, s);
      if HasCode(Normal, Suffix(p, Lead(p)), 0) { TrimmedHasCode(p); }
    }
  }

  /** Trimming the front takes code away, it never adds any. */
  lemma {:induction false} TrimmedHasCode(p: string)
    requires HasCode(Normal, Suffix(p, Lead(p)), 0)
    ensures HasCode(Normal, p, 0)
  {
    var n := Lead(p);
    if exists k :: 0 <= k < n && OddSpace(p[k]) {
      OddIsCode(p, n);
    } else {
      SkipSpace(p, n);
      ScanAligned(Normal, p, n, Suffix(p, n), 0);
    }
  }

  lemma {:induction false} NothingShielded(lines: seq<string>)
    requires Fed(lines) && forall k :: 0 <= k < |lines| ==> NoOddSpace(lines[k])
    ensures !Shielded(lines)
  {
    if lines != [] {
      var init := lines[..|lines| - 1];
      FedFront(init);
      NothingShielded(init);
      NoOddBuffer(init);
      BufferHoldsRest(init);
      NoOddIncoming(Dropped(init), Incoming(lines));
    }
  }

  lemma NoOddIncoming(p: string, x: string)
    requires Silent(p) && !HasCode(Normal, p, 0) && NoOddSpace(x)
    ensures !ShieldedIn(p, x)
  {
    var e := FirstEnd(Normal, x, 0);
    if e.Some? { NoOddShields(p, x[..e.value]); }
  }

  /** In text with ordinary spaces only, the shell and the whole-text split always agree. */
  lemma {:induction false} OrdinarySpacesAgree(lines: seq<string>)
    requires Fed(lines) && forall k :: 0 <= k < |lines| ==> NoOddSpace(lines[k])
    ensures Agree(Statements(Concat(lines)), Extracted(lines))
  {
    SameStatements(lines);
    NothingShielded(lines);
  }

  lemma {:induction false} NextLine(lines: seq<string>, line: string)
    ensures Concat(lines + [line]) == Concat(lines) + line
    ensures Buffer(lines + [line]) == NextBuffer(Buffer(lines), line)
    ensures Extracted(lines + [line]) == Chain(Extracted(lines), Statements(Chain(Buffer(lines), line)))
  {
    assert (lines + [line])[..|lines|] == lines;
    TakenIs(Buffer(lines), line);
  }

  lemma {:induction false} TwoLines(none: seq<string>, one: seq<string>, a: string, b: string)
    requires none == [] && one == none + [a]
    ensures Concat(one + [b]) == a + b
    ensures Extracted(one + [b]) == Chain(Statements(a), Statements(Chain(NextBuffer("", a), b)))
  {
    NextLine(none, a);
    assert Concat(none) + a == a;
    NextLine(one, b);
  }

  lemma {:induction false} OneSegment(s: string, e: nat)
    requires e <= |s| && FirstEnd(Normal, s, 0) == Some(e) && FirstEnd(Normal, s, e) == None
    ensures Statements(s) == Kept(s[..e])
  {
    assert Segments(s, e) == [] && [s[..e]] + [] == [s[..e]];
    KeptAllFront(s[..e], []);
  }

  ghost predicate IsCommentLine(a: string) {
    |a| == 3 && a[0] == '-' && a[1] == '-' && a[2] == '\n'
  }

  lemma {:induction false} CommentHasNoEnd(a: string)
    requires IsCommentLine(a)
    ensures FirstEnd(Normal, a, 0) == None
  {
    assert FirstEnd(Normal, a, 0) == FirstEnd(LineComment, a, 2);
  }

  lemma {:induction false} CommentHasNoCode(a: string)
    requires IsCommentLine(a)
    ensures !HasCode(Normal, a, 0) && Final(Normal, a, 0) == Normal
  {
    assert HasCode(Normal, a, 0) == HasCode(LineComment, a, 2) == HasCode(Normal, a, 3);
    assert Final(Normal, a, 0) == Final(LineComment, a, 2) == Final(Normal, a, 3);
  }

  lemma CommentLine(a: string)
    requires IsCommentLine(a)
    ensures Statements(a) == [] && Buffered(a) == ""
  {
    CommentHasNoEnd(a);
    CommentHasNoCode(a);
  }

  /** A vertical tab and a semicolon. */
  ghost predicate IsOddLine(b: string) {
    |b| == 3 && b[0] as int == 11 && b[1] == ';' && b[2] == '\n'
  }

  lemma {:induction false} OddLineEnds(b: string)
    requires IsOddLine(b)
    ensures FirstEnd(Normal, b, 0) == Some(2) && FirstEnd(Normal, b, 2) == None
  {
    assert FirstEnd(Normal, b, 0) == FirstEnd(Normal, b, 1);
    assert FirstEnd(Normal, b, 2) == FirstEnd(Normal, b, 3);
  }

  lemma OddSpaceLine(b: string)
    requires IsOddLine(b)
    ensures Statements(b) == []
  {
    OddLineEnds(b);
    OneSegment(b, 2);
    var segment := b[..2];
    TrimSegment(segment);
    LeadUnique(segment, 1);
    assert |Trim(segment)| == 1 && Trim(segment)[0] == ';';
    assert HasCode(Normal, Trim(segment), 0) == HasCode(Normal, Trim(segment), 1);
  }

  lemma {:induction false} BothLinesEnd(a: string, b: string)
    requires IsCommentLine(a) && IsOddLine(b)
    ensures FirstEnd(Normal, a + b, 0) == Some(5) && FirstEnd(Normal, a + b, 5) == None
  {
    CommentIsBlank(a);
    EndAfterSilent(a, b);
    OddLineEnds(b);
    assert FirstEnd(Normal, a + b, 5) == FirstEnd(Normal, a + b, 6);
  }

  lemma CommentIsBlank(a: string)
    requires IsCommentLine(a)
    ensures Blank(a)
  {
    CommentHasNoEnd(a);
    CommentHasNoCode(a);
  }

  lemma CommentThenOddSpace(a: string, b: string)
    requires IsCommentLine(a) && IsOddLine(b)
    ensures |Statements(a + b)| == 1
  {
    BothLinesEnd(a, b);
    OneSegment(a + b, 5);
    assert (a + b)[..5] == a + b[..2];
    CommentIsBlank(a);
    LeadBehindComment(a, b[..2]);
    OddIsCode(b[..2], 1);
  }

  /** A comment line, then a vertical tab and a semicolon: split as a whole, this is one
      statement; fed line by line it is none. */
  lemma PhantomExample(a: string, b: string)
    requires a == "--\n" && b == [11 as char, ';', '\n']
    ensures AllLines([a, b]) && |Statements(Concat([a, b]))| == 1 && Extracted([a, b]) == []
  {
    CommentLine(a);
    OddSpaceLine(b);
    CommentThenOddSpace(a, b);
    SecondLineAlone(a, b);
  }

  lemma SecondLineAlone(a: string, b: string)
    requires Statements(a) == [] && Buffered(a) == ""
    ensures Concat([a, b]) == a + b && Extracted([a, b]) == Statements(b)
  {
    TwoLines([], [a], a, b);
    assert [a] + [b] == [a, b];
  }
}
