/** When the shell and a whole-text split agree, told from the text alone: by its statements
    and the newlines inside them. */
module SplitterText {
  import opened Order
  import opened Splitter

  /** One line as the shell reads it: a newline can only be its last character. */
  ghost predicate OneLine(s: string) {
    s != [] && forall k :: 0 <= k < |s| - 1 ==> s[k] != '\n'
  }

  ghost predicate EachOneLine(lines: seq<string>) {
    forall k :: 0 <= k < |lines| ==> OneLine(lines[k])
  }

  /* ---- text the shell lets go of ---- */

  /** Whole lines without code or, where `white` allows it, white space of any kind. */
  ghost predicate Chunk(s: string, white: bool) {
    Blank(s) || (white && AllWhite(s) && Lines(s))
  }

  /** The last chunk starts at `c`. White space counts as such only on lines of its own, so not
      on the rest of a line that ends a statement. */
  ghost predicate LastChunk(p: string, c: nat, start: bool)
    decreases |p|, 0
  {
    c < |p| && Quiet(p[..c], start) && Chunk(Suffix(p, c), c > 0 || start)
  }

  /** Text made of lines without code and of lines of white space. `start` tells that it starts
      with a line, not behind a statement. */
  ghost predicate Quiet(p: string, start: bool)
    decreases |p|, 1
  {
    p == [] || exists c: nat :: c < |p| && LastChunk(p, c, start)
  }

  lemma ChunkIsSilent(s: string, white: bool)
    requires Chunk(s, white)
    ensures Silent(s)
  {
    if !Blank(s) { WhiteIsSilent(s); }
  }

  lemma CutOf(p: string, start: bool) returns (c: nat)
    requires Quiet(p, start) && p != []
    ensures c < |p| && LastChunk(p, c, start)
  {
    c :| c < |p| && LastChunk(p, c, start);
  }

  lemma Rejoined(p: string, c: nat)
    requires c <= |p|
    ensures Chain(p[..c], Suffix(p, c)) == p
  {
  }

  lemma {:induction false} QuietIsSilent(p: string, start: bool)
    requires Quiet(p, start)
    ensures Silent(p)
    decreases |p|
  {
    if p != [] {
      var c := CutOf(p, start);
      QuietIsSilent(p[..c], start);
      ChunkIsSilent(Suffix(p, c), c > 0 || start);
      SilentJoin(p[..c], Suffix(p, c));
      Rejoined(p, c);
    }
  }

  lemma ChainParts(p: string, s: string)
    ensures Chain(p, s)[..|p|] == p && Suffix(Chain(p, s), |p|) == s && |Chain(p, s)| == |p| + |s|
  {
  }

  lemma QuietGrows(p: string, s: string, start: bool)
    requires Quiet(p, start) && s != [] && Chunk(s, |p| > 0 || start)
    ensures Quiet(Chain(p, s), start)
  {
    ChainParts(p, s);
    assert LastChunk(Chain(p, s), |p|, start);
  }

  /** No line of the buffer ends blank text: the shell would have dropped it. */
  ghost predicate NoBlankCut(buffer: string) {
    forall b :: 0 < b <= |buffer| && buffer[b - 1] == '\n' ==> !Blank(buffer[..b])
  }

  /** The first line is not only white space. */
  ghost predicate StartsDark(s: string) {
    exists k :: 0 <= k < |s| && !White(s[k]) && forall j :: 0 <= j < k ==> s[j] != '\n'
  }

  /** Nothing of the buffer could have been let go of: it starts with a line that is not white
      space, or behind a statement. */
  ghost predicate Tied(p: string, buffer: string, start: bool) {
    StartsDark(buffer) || (p == [] && !start)
  }

  lemma TiedFront(p: string, t: string, n: nat, start: bool)
    requires Tied(p, t, start) && NoBlankCut(t) && 0 < n <= |t| && t[n - 1] == '\n'
    ensures Tied(p, t[..n], start) && NoBlankCut(t[..n])
  {
    if StartsDark(t) {
      var k :| 0 <= k < |t| && !White(t[k]) && forall j :: 0 <= j < k ==> t[j] != '\n';
      assert k < n && t[..n][k] == t[k];
    }
    forall b | 0 < b <= n && t[..n][b - 1] == '\n' ensures !Blank(t[..n][..b]) {
      assert t[..n][..b] == t[..b];
    }
  }

  /** What follows silent text in silent text is silent. */
  lemma SilentBehind(p: string, q: string)
    requires Silent(p) && Silent(Chain(p, q)) && Lines(q)
    ensures Silent(q) && (Blank(Chain(p, q)) ==> Blank(q))
  {
    if p != [] { AfterSilent(p, q); }
  }

  lemma {:induction false} NotQuiet(p: string, t: string, start: bool)
    requires Quiet(p, start) && t != [] && Lines(t) && NoBlankCut(t) && Tied(p, t, start)
    ensures !Quiet(Chain(p, t), start)
    decreases |t|
  {
    var all := Chain(p, t);
    ChainParts(p, t);
    if Quiet(all, start) {
      var c := CutOf(all, start);
      if c > |p| { CutBehind(p, t, c, start); } else { CutBefore(p, t, c, start); }
    }
  }

  lemma FrontOfChain(p: string, t: string, n: nat)
    requires 0 < n <= |t|
    ensures |Chain(p, t)| == |p| + |t| && Chain(p, t)[..|p| + n] == Chain(p, t[..n])
    ensures Chain(p, t[..n])[|p| + n - 1] == t[n - 1]
  {
  }

  lemma CutBehind(p: string, t: string, c: nat, start: bool)
    requires Quiet(p, start) && Lines(t) && NoBlankCut(t) && Tied(p, t, start) && |p| < c < |p| + |t|
    ensures !LastChunk(Chain(p, t), c, start)
    decreases |t|, 0
  {
    var all, n := Chain(p, t), c - |p|;
    FrontOfChain(p, t, n);
    if Quiet(all[..c], start) {
      QuietIsSilent(all[..c], start);
      TiedFront(p, t, n, start);
      NotQuiet(p, t[..n], start);
    }
  }

  lemma CutBefore(p: string, t: string, c: nat, start: bool)
    requires Quiet(p, start) && t != [] && Lines(t) && NoBlankCut(t) && Tied(p, t, start) && c <= |p|
    ensures !LastChunk(Chain(p, t), c, start)
  {
    var all, q := Chain(p, t), Suffix(p, c);
    assert all[..c] == p[..c] && Suffix(all, c) == Chain(q, t);
    QuietIsSilent(p, start);
    if Quiet(p[..c], start) {
      QuietIsSilent(p[..c], start);
      Rejoined(p, c);
      SilentBehind(p[..c], q);
      NotBlankBehind(q, t);
      if AllWhite(Chain(q, t)) { WhiteBehind(q, t); }
    }
  }

  lemma NotBlankBehind(q: string, t: string)
    requires Silent(q) && t != [] && Lines(t) && NoBlankCut(t)
    ensures !Blank(Chain(q, t))
  {
    assert t[..|t|] == t;
    if Blank(Chain(q, t)) { SilentBehind(q, t); }
  }

  lemma WhiteBehind(q: string, t: string)
    requires AllWhite(Chain(q, t))
    ensures !StartsDark(t)
  {
    assert forall k :: 0 <= k < |t| ==> t[k] == Chain(q, t)[|q| + k];
  }

  /* ---- statements the two splits see differently ---- */

  /** The first `b` characters are lines without code or of white space, with a comment among
      them, and behind the comment or behind them all comes an odd space. */
  ghost predicate HidesAt(s: string, b: nat, start: bool) {
    0 < b <= |s| && s[b - 1] == '\n' && Quiet(s[..b], start) && Shields(s[..b], Suffix(s, b))
  }

  /** A statement with comment lines in front and an odd space between them and its first other
      character. `start` tells that it is the first of the text. */
  ghost predicate Hides(s: string, start: bool) {
    exists b: nat :: HidesAt(s, b, start)
  }

  ghost predicate AnyHides(segments: seq<string>, start: bool) {
    exists k :: 0 <= k < |segments| && Hides(segments[k], start && k == 0)
  }

  lemma HidesBehindDropped(p: string, s: string, start: bool)
    requires Quiet(p, start) && Silent(p) && Shields(p, s)
    ensures Hides(Chain(p, s), start)
  {
    ChainParts(p, s);
    assert p[|p| - 1] == '\n' && Chain(p, s)[|p| - 1] == p[|p| - 1];
    assert HidesAt(Chain(p, s), |p|, start);
  }

  /** An odd space at the front of silent text and what follows is code of one of them. */
  lemma OddInFront(q: string, s: string)
    requires exists k :: 0 <= k < Lead(q + s) && OddSpace((q + s)[k])
    ensures HasCode(Normal, q, 0) || exists k :: 0 <= k < Lead(s) && OddSpace(s[k])
  {
    var k :| 0 <= k < Lead(q + s) && OddSpace((q + s)[k]);
    if HasDark(q) {
      LeadInFront(q, s);
      assert OddSpace(q[k]);
      OddIsCode(q, Lead(q));
    } else {
      LeadAfterWhite(q, s);
      if k < |q| {
        assert OddSpace(q[k]);
        OddIsCode(q, |q|);
      } else {
        assert OddSpace(s[k - |q|]);
      }
    }
  }

  /** What a cut inside the dropped text shields, the dropped text shields. */
  lemma ShieldsFurther(front: string, q: string, s: string)
    requires Silent(front) && Silent(front + q) && Shields(front, q + s)
    ensures Shields(front + q, s)
  {
    var p := front + q;
    var k :| 0 <= k < |front| && !White(front[k]);
    assert p[k] == front[k];
    LeadInFront(front, q);
    SilentTrimmed(front);
    CodeAfterSilent(Suffix(front, Lead(front)), q);
    FrontCode(front, q + s);
    FrontCode(p, s);
    if exists k :: 0 <= k < Lead(q + s) && OddSpace((q + s)[k]) { OddInFront(q, s); }
  }

  lemma CutInDropped(p: string, s: string, b: nat, start: bool)
    requires Silent(p) && b <= |p| && HidesAt(Chain(p, s), b, start)
    ensures Shields(p, s)
  {
    var front, q := p[..b], Suffix(p, b);
    assert p == front + q && (p + s)[..b] == front;
    SuffixOfDropped(p, s, b);
    QuietIsSilent(front, start);
    ShieldsFurther(front, q, s);
  }

  lemma SuffixOfDropped(p: string, s: string, b: nat)
    requires 0 < b <= |p|
    ensures Suffix(p + s, b) == Suffix(p, b) + s
  {
  }

  /** `x` is the buffer with the line behind it. */
  ghost predicate Joined(buffer: string, line: string, x: string) {
    && |x| == |buffer| + |line|
    && (forall k :: 0 <= k < |buffer| ==> x[k] == buffer[k])
    && (forall k :: |buffer| <= k < |x| ==> x[k] == line[k - |buffer|])
  }

  lemma ChainJoins(buffer: string, line: string)
    ensures Joined(buffer, line, Chain(buffer, line))
  {
  }

  /** Up to a statement end, the last line contributes no newline. */
  lemma NoBreakInLine(buffer: string, line: string, x: string, e: nat, c: nat)
    requires OneLine(line) && Joined(buffer, line, x) && e <= |x| && Segment(x[..e]) && |buffer| < c <= e
    ensures x[c - 1] != '\n'
  {
    assert x[e - 1] == x[..e][e - 1] == ';';
  }

  /** A front that reaches into the buffer. */
  lemma FrontInBuffer(p: string, buffer: string, line: string, x: string, e: nat, b: nat)
    requires Joined(buffer, line, x) && e <= |x| && |p| < b <= |p| + e
    ensures Chain(p, x[..e])[b - 1] == x[b - |p| - 1]
    ensures b - |p| <= |buffer| ==> Chain(p, x[..e])[..b] == Chain(p, buffer[..b - |p|])
  {
    var c := b - |p|;
    FrontOfChain(p, x[..e], c);
    assert x[..e][..c] == x[..c];
    if c <= |buffer| { assert x[..c] == buffer[..c]; }
  }

  lemma NotHidesAt(s: string, b: nat, start: bool)
    requires 0 < b <= |s| && (s[b - 1] != '\n' || !Quiet(s[..b], start))
    ensures !HidesAt(s, b, start)
  {
  }

  lemma NoCutInLine(p: string, buffer: string, line: string, x: string, e: nat, b: nat, start: bool)
    requires OneLine(line) && Joined(buffer, line, x) && e <= |x| && Segment(x[..e]) && |p| + |buffer| < b <= |p| + e
    ensures !HidesAt(Chain(p, x[..e]), b, start)
  {
    FrontInBuffer(p, buffer, line, x, e, b);
    NoBreakInLine(buffer, line, x, e, b - |p|);
    NotHidesAt(Chain(p, x[..e]), b, start);
  }

  lemma NoCutInBuffer(p: string, buffer: string, line: string, x: string, e: nat, b: nat, start: bool)
    requires Joined(buffer, line, x) && e <= |x| && |p| < b <= |p| + e && b <= |p| + |buffer|
    requires buffer[b - |p| - 1] == '\n' ==> !Quiet(Chain(p, buffer[..b - |p|]), start)
    ensures !HidesAt(Chain(p, x[..e]), b, start)
  {
    FrontInBuffer(p, buffer, line, x, e, b);
    NotHidesAt(Chain(p, x[..e]), b, start);
  }

  lemma NoCutInside(p: string, buffer: string, c: nat, start: bool)
    requires Quiet(p, start) && NoBlankCut(buffer) && Tied(p, buffer, start)
    requires 0 < c <= |buffer| && buffer[c - 1] == '\n'
    ensures !Quiet(Chain(p, buffer[..c]), start)
  {
    TiedFront(p, buffer, c, start);
    NotQuiet(p, buffer[..c], start);
  }

  /** No line of the buffer ends what the shell could have let go of. */
  ghost predicate Sealed(p: string, buffer: string, start: bool) {
    forall c {:trigger buffer[..c]} ::
      0 < c <= |buffer| && buffer[c - 1] == '\n' ==> !Quiet(Chain(p, buffer[..c]), start)
  }

  lemma BufferSealed(p: string, buffer: string, start: bool)
    requires Quiet(p, start) && NoBlankCut(buffer) && (buffer == [] || Tied(p, buffer, start))
    ensures Sealed(p, buffer, start)
  {
    forall c | 0 < c <= |buffer| && buffer[c - 1] == '\n' ensures !Quiet(Chain(p, buffer[..c]), start) {
      NoCutInside(p, buffer, c, start);
    }
  }

  lemma NoCutBehind(p: string, buffer: string, line: string, x: string, e: nat, b: nat, start: bool)
    requires Sealed(p, buffer, start) && OneLine(line) && Joined(buffer, line, x)
    requires e <= |x| && Segment(x[..e]) && |p| < b <= |p| + e
    ensures !HidesAt(Chain(p, x[..e]), b, start)
  {
    if b > |p| + |buffer| {
      NoCutInLine(p, buffer, line, x, e, b, start);
    } else {
      assert buffer[..b - |p|] == buffer[..b - |p|];
      NoCutInBuffer(p, buffer, line, x, e, b, start);
    }
  }

  lemma HidesOnlyDropped(p: string, buffer: string, line: string, x: string, e: nat, start: bool)
    requires Silent(p) && Sealed(p, buffer, start) && OneLine(line) && Joined(buffer, line, x)
    requires e <= |x| && Segment(x[..e]) && Hides(Chain(p, x[..e]), start)
    ensures Shields(p, x[..e])
  {
    var b: nat :| HidesAt(Chain(p, x[..e]), b, start);
    ChainParts(p, x[..e]);
    if b <= |p| { CutInDropped(p, x[..e], b, start); } else { NoCutBehind(p, buffer, line, x, e, b, start); }
  }

  /** The first statement completed by a line hides an odd space exactly when the shell let go
      of a comment in front of one. */
  lemma FirstHides(p: string, buffer: string, line: string, x: string, e: nat, start: bool)
    requires Quiet(p, start) && Silent(p) && NoBlankCut(buffer) && (buffer == [] || Tied(p, buffer, start))
    requires OneLine(line) && Joined(buffer, line, x) && e <= |x| && Segment(x[..e])
    ensures Hides(Chain(p, x[..e]), start) <==> Shields(p, x[..e])
  {
    BufferSealed(p, buffer, start);
    if Shields(p, x[..e]) { HidesBehindDropped(p, x[..e], start); }
    if Hides(Chain(p, x[..e]), start) { HidesOnlyDropped(p, buffer, line, x, e, start); }
  }

  /** The statements after it lie within the line. */
  lemma {:induction false} LaterHideNothing(x: string, i: nat, start: bool)
    requires i <= |x| && forall k :: i <= k < |x| - 1 ==> x[k] != '\n'
    ensures !AnyHides(Segments(x, i), start)
    decreases |x| - i
  {
    var e := FirstEnd(Normal, x, i);
    if e.Some? {
      var s := Slice(x, i, e.value);
      LaterHideNothing(x, e.value, false);
      NoNewlineHidesNothing(x, i, e.value, s);
      AnyHidesChain([s], Segments(x, e.value), start);
      OnlyOne(s, start);
    }
  }

  lemma NoNewlineHidesNothing(x: string, i: nat, e: nat, s: string)
    requires i < e <= |x| && x[e - 1] == ';' && s == Slice(x, i, e)
    requires forall k :: i <= k < |x| - 1 ==> x[k] != '\n'
    ensures !Hides(s, true) && !Hides(s, false)
  {
    forall k | 0 <= k < |s| ensures s[k] != '\n' {
      assert s[k] == x[i + k];
    }
    OneLineHidesNothing(s, true);
    OneLineHidesNothing(s, false);
  }

  lemma OneLineHidesNothing(s: string, start: bool)
    requires forall k :: 0 <= k < |s| ==> s[k] != '\n'
    ensures !Hides(s, start)
  {
  }

  /* ---- the buffer ---- */

  /** What the shell let go of and what it holds, between two lines. */
  ghost predicate Held(p: string, buffer: string, start: bool) {
    && Quiet(p, start) && NoBlankCut(buffer) && FirstEnd(Normal, buffer, 0).None? && Lines(buffer)
    && (buffer == [] || Tied(p, buffer, start))
    && (start || p != [] || buffer != [])
  }

  lemma EndsInLine(buffer: string, line: string)
    requires FirstEnd(Normal, buffer, 0).None? && Lines(buffer)
    ensures var e := FirstEnd(Normal, Chain(buffer, line), 0); e.Some? ==> e.value > |buffer|
  {
    if buffer != [] { ScanConcat(Normal, buffer, line, 0); }
  }

  /** What remains starts at the front or within the line, and is not nothing. */
  lemma RestFrom(buffer: string, line: string, x: string) returns (n: nat)
    requires FirstEnd(Normal, buffer, 0).None? && Lines(buffer) && OneLine(line) && Lines(line)
    requires x == Chain(buffer, line)
    ensures n < |x| && (n == 0 || n > |buffer|) && Rest(x) == Suffix(x, n)
    ensures n == 0 <==> FirstEnd(Normal, x, 0).None?
    ensures FirstEnd(Normal, Suffix(x, n), 0).None? && Lines(Suffix(x, n))
  {
    n := LastEnd(x, 0);
    EndsInLine(buffer, line);
    ChainLast(buffer, line);
    SomethingRests(x);
    RestScans(x);
  }

  lemma ChainLast(buffer: string, line: string)
    requires line != []
    ensures Chain(buffer, line) != [] && Chain(buffer, line)[|Chain(buffer, line)| - 1] == line[|line| - 1]
  {
  }

  lemma SomethingRests(x: string)
    requires x != [] && Lines(x)
    ensures LastEnd(x, 0) < |x| && (LastEnd(x, 0) == 0 <==> FirstEnd(Normal, x, 0).None?)
  {
    LastEndScans(x, 0);
  }

  lemma RestHasNoCut(buffer: string, line: string, x: string, n: nat)
    requires NoBlankCut(buffer) && OneLine(line) && Joined(buffer, line, x) && n <= |x| && (n == 0 || n > |buffer|)
    requires !Droppable(Suffix(x, n))
    ensures NoBlankCut(Suffix(x, n))
  {
    var rest := Suffix(x, n);
    forall b | 0 < b <= |rest| && rest[b - 1] == '\n' ensures !Blank(rest[..b]) {
      assert rest[b - 1] == x[n + b - 1];
      if n + b <= |buffer| {
        assert rest[..b] == buffer[..b] && buffer[b - 1] == '\n';
      } else {
        assert rest[..b] == rest;
      }
    }
  }

  /** A buffer that is carried on with another line. */
  lemma StillTied(p: string, buffer: string, line: string, x: string, start: bool)
    requires (buffer == [] || Tied(p, buffer, start)) && !Skips(buffer, line)
    requires OneLine(line) && Joined(buffer, line, x)
    ensures Tied(p, x, start)
  {
    if buffer == [] {
      var k :| 0 <= k < |line| && !White(line[k]);
      assert x[k] == line[k];
      assert forall j :: 0 <= j < k ==> x[j] == line[j];
    } else if StartsDark(buffer) {
      var k :| 0 <= k < |buffer| && !White(buffer[k]) && forall j :: 0 <= j < k ==> buffer[j] != '\n';
      assert x[k] == buffer[k];
      assert forall j :: 0 <= j < k ==> x[j] == buffer[j];
    }
  }

  lemma {:induction false} SkipHeld(p: string, line: string, start: bool)
    requires Held(p, "", start) && AllWhite(line) && OneLine(line) && Lines(line)
    ensures Held(Chain(p, line), "", start)
  {
    QuietGrows(p, line, start);
    ChainParts(p, line);
  }

  lemma {:induction false} NextHeld(p: string, buffer: string, line: string, start: bool)
    requires Held(p, buffer, start) && OneLine(line) && Lines(line)
    ensures Held(NextDropped(p, buffer, line), NextBuffer(buffer, line),
                 start && FirstEnd(Normal, Chain(buffer, line), 0).None?)
  {
    var x := Chain(buffer, line);
    if Skips(buffer, line) {
      WhiteIsSilent(line);
      SkipHeld(p, line, start);
    } else {
      ChainJoins(buffer, line);
      var n := RestFrom(buffer, line, x);
      if Droppable(Rest(x)) {
        DroppedIsBlank(x);
        DropHeld(p, Rest(x), n == 0, start);
      } else {
        RestHasNoCut(buffer, line, x, n);
        StillTied(p, buffer, line, x, start);
        KeepHeld(p, Suffix(x, n), n == 0, start);
      }
    }
  }

  /** The remainder is dropped: behind what was dropped before, or behind a statement. */
  lemma DropHeld(p: string, rest: string, same: bool, start: bool)
    requires Quiet(p, start) && Blank(rest) && rest != []
    ensures Held(Chain(if same then p else "", rest), "", start && same)
  {
    assert FirstEnd(Normal, "", 0).None?;
    QuietGrows(if same then p else "", rest, start && same);
    ChainParts(if same then p else "", rest);
  }

  lemma KeepHeld(p: string, rest: string, same: bool, start: bool)
    requires Quiet(p, start) && NoBlankCut(rest) && FirstEnd(Normal, rest, 0).None? && Lines(rest) && rest != []
    requires same ==> Tied(p, rest, start)
    ensures Held(if same then p else "", rest, start && same)
  {
  }

  lemma FreshText(text: string, line: string, p: string, x: string)
    requires Silent(p) && Segments(text + line, 0) == Chain(Segments(text, 0), Segments(Chain(p, x), 0))
    ensures Segments(text + line, 0) == [] <==> Segments(text, 0) == [] && FirstEnd(Normal, x, 0).None?
  {
    NoSegments(p, x);
    BothEmpty(Segments(text, 0), Segments(Chain(p, x), 0));
  }

  lemma NoSegments(p: string, x: string)
    requires Silent(p)
    ensures Segments(Chain(p, x), 0) == [] <==> FirstEnd(Normal, x, 0).None?
  {
    SplitAfterSilent(p, x);
  }

  lemma BothEmpty(a: seq<string>, b: seq<string>)
    ensures Chain(a, b) == [] <==> a == [] && b == []
  {
  }

  lemma {:induction false} LinesHeld(lines: seq<string>)
    requires EachOneLine(lines) && AllLines(lines)
    ensures Held(Dropped(lines), Buffer(lines), Segments(Concat(lines), 0) == [])
  {
    if lines != [] {
      var init, line := lines[..|lines| - 1], lines[|lines| - 1];
      LinesHeld(init);
      BufferHoldsRest(init);
      LineSegments(Concat(init), Dropped(init), Buffer(init), line);
      FreshText(Concat(init), line, Dropped(init), Incoming(lines));
      NextHeld(Dropped(init), Buffer(init), line, Segments(Concat(init), 0) == []);
    } else {
      assert FirstEnd(Normal, "", 0).None?;
    }
  }

  /* ---- all lines ---- */

  lemma AnyHidesChain(a: seq<string>, b: seq<string>, start: bool)
    ensures AnyHides(Chain(a, b), start) <==> AnyHides(a, start) || AnyHides(b, start && a == [])
  {
    assert forall k :: 0 <= k < |a| ==> Chain(a, b)[k] == a[k];
    assert forall k :: 0 <= k < |b| ==> Chain(a, b)[|a| + k] == b[k];
  }

  lemma OnlyOne(s: string, start: bool)
    ensures AnyHides([s], start) <==> Hides(s, start)
  {
    assert [s][0] == s;
  }

  /** What one more line adds to the statements that hide an odd space. */
  lemma LineHides(p: string, buffer: string, line: string, x: string, start: bool)
    requires Held(p, buffer, start) && Silent(p) && OneLine(line) && x == Chain(buffer, line)
    ensures AnyHides(Segments(Chain(p, x), 0), start) <==> ShieldedIn(p, x)
  {
    SplitAfterSilent(p, x);
    if FirstEnd(Normal, x, 0).Some? {
      var e := FirstEnd(Normal, x, 0).value;
      EndsInLine(buffer, line);
      ChainJoins(buffer, line);
      FirstHides(p, buffer, line, x, e, start);
      LaterHideNothing(x, e, false);
      AnyHidesChain([Chain(p, x[..e])], Segments(x, e), start);
      OnlyOne(Chain(p, x[..e]), start);
    }
  }

  lemma LineSegments(text: string, p: string, buffer: string, line: string)
    requires Lines(text) && Rest(text) == Chain(p, buffer) && line != []
    ensures Segments(text + line, 0) == Chain(Segments(text, 0), Segments(Chain(p, Chain(buffer, line)), 0))
  {
    ChainEnd(p, buffer, line);
    LineExtends(text, line, Chain(p, Chain(buffer, line)));
  }

  lemma {:induction false} ShieldedIsHidden(lines: seq<string>)
    requires EachOneLine(lines) && Fed(lines)
    ensures Shielded(lines) <==> AnyHides(Segments(Concat(lines), 0), true)
  {
    if lines != [] {
      var init, line := lines[..|lines| - 1], lines[|lines| - 1];
      FedFront(init);
      ShieldedIsHidden(init);
      BufferHoldsRest(init);
      LinesHeld(init);
      LineSegments(Concat(init), Dropped(init), Buffer(init), line);
      LineHides(Dropped(init), Buffer(init), line, Incoming(lines), Segments(Concat(init), 0) == []);
      AnyHidesChain(Segments(Concat(init), 0), Segments(Chain(Dropped(init), Incoming(lines)), 0), true);
    }
  }

  /** Entering lines one at a time extracts the statements of the whole text, each minus a
      code-free prefix, exactly when no statement of the text has comment lines in front and an
      odd space between them and its first other character. */
  lemma {:induction false} AgreesExactly(lines: seq<string>)
    requires EachOneLine(lines) && Fed(lines)
    ensures Agree(Statements(Concat(lines)), Extracted(lines)) <==>
              forall k :: 0 <= k < |Segments(Concat(lines), 0)| ==> !Hides(Segments(Concat(lines), 0)[k], k == 0)
  {
    SameStatements(lines);
    ShieldedIsHidden(lines);
  }
}
