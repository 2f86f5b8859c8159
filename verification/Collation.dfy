/** The three-level comparison of text: base letters, then diacritics, then case. */
module Collation {
  import opened Order

  /** What the character tables of the platform say: the first character of the lower-case
      form, and whether a character is upper case. */
  datatype Casing = Casing(lower: char -> char, upper: char -> bool)

  datatype Weight = Weight(primary: nat, secondary: nat)

  const NONE: nat := 0
  const ACUTE: nat := 1
  const GRAVE: nat := 2
  const CIRCUMFLEX: nat := 3
  const TILDE: nat := 4
  const DIAERESIS: nat := 5
  const RING: nat := 6
  const CEDILLA: nat := 7
  const STROKE: nat := 8
  const CARON: nat := 9
  const BREVE: nat := 10
  const MACRON: nat := 11
  const OGONEK: nat := 12
  const DOT: nat := 13
  const LIGATURE: nat := 20

  /** Weights leave gaps between letters. */
  function Letter(c: char): nat {
    4 * (c as int)
  }

  /** A letter of its own, right after another. */
  function After(c: char): nat {
    Letter(c) + 1
  }

  predicate IsAscii(c: char) {
    c as int < 128
  }

  function AsciiLower(c: char): char
    requires IsAscii(c)
  {
    if 'A' <= c <= 'Z' then c - 'A' + 'a' else c
  }

  function Base(c: char, k: Casing): (w: Weight)
    ensures !IsEnye(c) ==> w.primary % 4 == 0
  {
    if IsAscii(c) then Weight(Letter(AsciiLower(c)), NONE) else Table(c, k)
  }

  predicate IsEnye(c: char) {
    c == '\U{00D1}' || c == '\U{00F1}'
  }

  /** The table; only the enye uses a gap between letters. */
  function Table(c: char, k: Casing): (w: Weight)
    ensures !IsEnye(c) ==> w.primary % 4 == 0
  {
    if c as int < 0x100 then Latin1(c, k) else ExtendedA(c, k)
  }

  function Latin1(c: char, k: Casing): (w: Weight)
    ensures !IsEnye(c) ==> w.primary % 4 == 0
  {
    match c as int
    case 0xC0 | 0xE0 => Weight(Letter('a'), GRAVE)
    case 0xC1 | 0xE1 => Weight(Letter('a'), ACUTE)
    case 0xC2 | 0xE2 => Weight(Letter('a'), CIRCUMFLEX)
    case 0xC3 | 0xE3 => Weight(Letter('a'), TILDE)
    case 0xC4 | 0xE4 => Weight(Letter('a'), DIAERESIS)
    case 0xC5 | 0xE5 => Weight(Letter('a'), RING)
    case 0xC6 | 0xE6 => Weight(Letter('a'), LIGATURE)
    case 0xC7 | 0xE7 => Weight(Letter('c'), CEDILLA)
    case 0xC8 | 0xE8 => Weight(Letter('e'), GRAVE)
    case 0xC9 | 0xE9 => Weight(Letter('e'), ACUTE)
    case 0xCA | 0xEA => Weight(Letter('e'), CIRCUMFLEX)
    case 0xCB | 0xEB => Weight(Letter('e'), DIAERESIS)
    case 0xCC | 0xEC => Weight(Letter('i'), GRAVE)
    case 0xCD | 0xED => Weight(Letter('i'), ACUTE)
    case 0xCE | 0xEE => Weight(Letter('i'), CIRCUMFLEX)
    case 0xCF | 0xEF => Weight(Letter('i'), DIAERESIS)
    case 0xD1 | 0xF1 => Weight(After('n'), NONE)
    case 0xD2 | 0xF2 => Weight(Letter('o'), GRAVE)
    case 0xD3 | 0xF3 => Weight(Letter('o'), ACUTE)
    case 0xD4 | 0xF4 => Weight(Letter('o'), CIRCUMFLEX)
    case 0xD5 | 0xF5 => Weight(Letter('o'), TILDE)
    case 0xD6 | 0xF6 => Weight(Letter('o'), DIAERESIS)
    case 0xD8 | 0xF8 => Weight(Letter('o'), STROKE)
    case 0xD9 | 0xF9 => Weight(Letter('u'), GRAVE)
    case 0xDA | 0xFA => Weight(Letter('u'), ACUTE)
    case 0xDB | 0xFB => Weight(Letter('u'), CIRCUMFLEX)
    case 0xDC | 0xFC => Weight(Letter('u'), DIAERESIS)
    case 0xDD | 0xFD | 0xFF => Weight(Letter('y'), ACUTE)
    case 0xDF => Weight(Letter('s'), LIGATURE)
    case 0xD0 | 0xF0 => Weight(Letter('d'), STROKE)
    case _ => Weight(Letter(k.lower(c)), NONE)
  }

  function ExtendedA(c: char, k: Casing): (w: Weight)
    ensures w.primary % 4 == 0
  {
    if c as int < 0x14C then ExtendedUpToN(c, k) else ExtendedFromO(c, k)
  }

  function ExtendedUpToN(c: char, k: Casing): (w: Weight)
    ensures w.primary % 4 == 0
  {
    match c as int
    case 0x100 | 0x101 => Weight(Letter('a'), MACRON)
    case 0x102 | 0x103 => Weight(Letter('a'), BREVE)
    case 0x104 | 0x105 => Weight(Letter('a'), OGONEK)
    case 0x106 | 0x107 => Weight(Letter('c'), ACUTE)
    case 0x108 | 0x109 => Weight(Letter('c'), CIRCUMFLEX)
    case 0x10A | 0x10B => Weight(Letter('c'), DOT)
    case 0x10C | 0x10D => Weight(Letter('c'), CARON)
    case 0x10E | 0x10F => Weight(Letter('d'), CARON)
    case 0x110 | 0x111 => Weight(Letter('d'), STROKE)
    case 0x112 | 0x113 => Weight(Letter('e'), MACRON)
    case 0x114 | 0x115 => Weight(Letter('e'), BREVE)
    case 0x116 | 0x117 => Weight(Letter('e'), DOT)
    case 0x118 | 0x119 => Weight(Letter('e'), OGONEK)
    case 0x11A | 0x11B => Weight(Letter('e'), CARON)
    case 0x11C | 0x11D => Weight(Letter('g'), CIRCUMFLEX)
    case 0x11E | 0x11F => Weight(Letter('g'), BREVE)
    case 0x120 | 0x121 => Weight(Letter('g'), DOT)
    case 0x122 | 0x123 => Weight(Letter('g'), CEDILLA)
    case 0x124 | 0x125 => Weight(Letter('h'), CIRCUMFLEX)
    case 0x128 | 0x129 => Weight(Letter('i'), TILDE)
    case 0x12A | 0x12B => Weight(Letter('i'), MACRON)
    case 0x12C | 0x12D => Weight(Letter('i'), BREVE)
    case 0x12E | 0x12F => Weight(Letter('i'), OGONEK)
    case 0x130 => Weight(Letter('i'), DOT)
    case 0x131 => Weight(Letter('i'), NONE)
    case 0x134 | 0x135 => Weight(Letter('j'), CIRCUMFLEX)
    case 0x136 | 0x137 => Weight(Letter('k'), CEDILLA)
    case 0x139 | 0x13A => Weight(Letter('l'), ACUTE)
    case 0x13B | 0x13C => Weight(Letter('l'), CEDILLA)
    case 0x13D | 0x13E => Weight(Letter('l'), CARON)
    case 0x141 | 0x142 => Weight(Letter('l'), STROKE)
    case 0x143 | 0x144 => Weight(Letter('n'), ACUTE)
    case 0x145 | 0x146 => Weight(Letter('n'), CEDILLA)
    case 0x147 | 0x148 => Weight(Letter('n'), CARON)
    case _ => Weight(Letter(k.lower(c)), NONE)
  }

  function ExtendedFromO(c: char, k: Casing): (w: Weight)
    ensures w.primary % 4 == 0
  {
    match c as int
    case 0x14C | 0x14D => Weight(Letter('o'), MACRON)
    case 0x14E | 0x14F => Weight(Letter('o'), BREVE)
    case 0x150 | 0x151 => Weight(Letter('o'), DIAERESIS)
    case 0x152 | 0x153 => Weight(Letter('o'), LIGATURE)
    case 0x154 | 0x155 => Weight(Letter('r'), ACUTE)
    case 0x156 | 0x157 => Weight(Letter('r'), CEDILLA)
    case 0x158 | 0x159 => Weight(Letter('r'), CARON)
    case 0x15A | 0x15B => Weight(Letter('s'), ACUTE)
    case 0x15C | 0x15D => Weight(Letter('s'), CIRCUMFLEX)
    case 0x15E | 0x15F => Weight(Letter('s'), CEDILLA)
    case 0x160 | 0x161 => Weight(Letter('s'), CARON)
    case 0x162 | 0x163 => Weight(Letter('t'), CEDILLA)
    case 0x164 | 0x165 => Weight(Letter('t'), CARON)
    case 0x166 | 0x167 => Weight(Letter('t'), STROKE)
    case 0x168 | 0x169 => Weight(Letter('u'), TILDE)
    case 0x16A | 0x16B => Weight(Letter('u'), MACRON)
    case 0x16C | 0x16D => Weight(Letter('u'), BREVE)
    case 0x16E | 0x16F => Weight(Letter('u'), RING)
    case 0x170 | 0x171 => Weight(Letter('u'), DIAERESIS)
    case 0x172 | 0x173 => Weight(Letter('u'), OGONEK)
    case 0x174 | 0x175 => Weight(Letter('w'), CIRCUMFLEX)
    case 0x176 | 0x177 => Weight(Letter('y'), CIRCUMFLEX)
    case 0x178 => Weight(Letter('y'), DIAERESIS)
    case 0x179 | 0x17A => Weight(Letter('z'), ACUTE)
    case 0x17B | 0x17C => Weight(Letter('z'), DOT)
    case 0x17D | 0x17E => Weight(Letter('z'), CARON)
    case _ => Weight(Letter(k.lower(c)), NONE)
  }

  function Primary(c: char, k: Casing): nat {
    Base(c, k).primary
  }

  function Secondary(c: char, k: Casing): nat {
    Base(c, k).secondary
  }

  function Tertiary(c: char, k: Casing): nat {
    if k.upper(c) then 1 else 0
  }

  /* ---- the comparison ---- */

  datatype Ordering = Less | Equal | Greater

  function Then(a: Ordering, b: Ordering): Ordering {
    if a == Equal then b else a
  }

  function Reversed(a: Ordering): Ordering {
    match a
    case Less => Greater
    case Equal => Equal
    case Greater => Less
  }

  datatype Level = Letters | Accents | Cases

  function At(level: Level, c: char, k: Casing): int {
    match level
    case Letters => Primary(c, k)
    case Accents => Secondary(c, k)
    case Cases => Tertiary(c, k)
  }

  /** Two strings walked side by side on one level. */
  function CompareLevel(level: Level, a: string, b: string, k: Casing): Ordering {
    if a == [] || b == [] then (if a == b then Equal else if a == [] then Less else Greater)
    else if At(level, a[0], k) < At(level, b[0], k) then Less
    else if At(level, a[0], k) > At(level, b[0], k) then Greater
    else CompareLevel(level, a[1..], b[1..], k)
  }

  function Compare(a: string, b: string, k: Casing): Ordering {
    Then(CompareLevel(Letters, a, b, k), Then(CompareLevel(Accents, a, b, k), CompareLevel(Cases, a, b, k)))
  }

  /* ---- weights as sequences ---- */

  function Weights(level: Level, s: string, k: Casing): (w: seq<int>)
    ensures |w| == |s| && forall i :: 0 <= i < |s| ==> w[i] == At(level, s[i], k)
  {
    if s == [] then [] else [At(level, s[0], k)] + Weights(level, s[1..], k)
  }

  /** The order of two sequences as an outcome. */
  function Outcome(a: seq<int>, b: seq<int>): Ordering {
    if a == b then Equal else if Lt(a, b) then Less else Greater
  }

  lemma {:induction false} LevelIsLexicographic(level: Level, a: string, b: string, k: Casing)
    ensures CompareLevel(level, a, b, k) == Outcome(Weights(level, a, k), Weights(level, b, k))
  {
    var u, v := Weights(level, a, k), Weights(level, b, k);
    if a != [] && b != [] {
      LevelIsLexicographic(level, a[1..], b[1..], k);
      assert u == [u[0]] + u[1..] && v == [v[0]] + v[1..];
      assert u[1..] == Weights(level, a[1..], k) && v[1..] == Weights(level, b[1..], k);
    }
  }

  const SEPARATOR: int := -1

  /** One key holding all three levels, with something below every weight between them. */
  function SortKey(s: string, k: Casing): seq<int> {
    Weights(Letters, s, k) + ([SEPARATOR] + (Weights(Accents, s, k) + ([SEPARATOR] + Weights(Cases, s, k))))
  }

  predicate AreWeights(s: seq<int>) {
    forall i :: 0 <= i < |s| ==> s[i] > SEPARATOR
  }

  /** A separator lets the next level speak exactly when the level before ties. */
  lemma {:induction false} SeparatedOutcome(p: seq<int>, q: seq<int>, u: seq<int>, v: seq<int>)
    requires AreWeights(p) && AreWeights(q)
    ensures Outcome(p + ([SEPARATOR] + u), q + ([SEPARATOR] + v)) == Then(Outcome(p, q), Outcome(u, v))
  {
    var x, y := p + ([SEPARATOR] + u), q + ([SEPARATOR] + v);
    if p == [] || q == [] {
      assert p == [] ==> x[0] == SEPARATOR && x[1..] == u;
      assert q == [] ==> y[0] == SEPARATOR && y[1..] == v;
      assert p != [] ==> x[0] == p[0];
      assert q != [] ==> y[0] == q[0];
    } else {
      assert x[1..] == p[1..] + ([SEPARATOR] + u) && y[1..] == q[1..] + ([SEPARATOR] + v);
      assert x == [p[0]] + x[1..] && y == [q[0]] + y[1..] && p == [p[0]] + p[1..] && q == [q[0]] + q[1..];
      SeparatedOutcome(p[1..], q[1..], u, v);
    }
  }

  /** The comparison is the lexicographic order of one concatenated key, so the three walks
      and a stored sort key agree on every pair of strings. */
  lemma CompareIsKeyOrder(a: string, b: string, k: Casing)
    ensures Compare(a, b, k) == Outcome(SortKey(a, k), SortKey(b, k))
  {
    LevelIsLexicographic(Letters, a, b, k);
    LevelIsLexicographic(Accents, a, b, k);
    LevelIsLexicographic(Cases, a, b, k);
    var a1, a2, a3 := Weights(Letters, a, k), Weights(Accents, a, k), Weights(Cases, a, k);
    var b1, b2, b3 := Weights(Letters, b, k), Weights(Accents, b, k), Weights(Cases, b, k);
    SeparatedOutcome(a2, b2, a3, b3);
    SeparatedOutcome(a1, b1, a2 + ([SEPARATOR] + a3), b2 + ([SEPARATOR] + b3));
  }

  /* ---- a total preorder ---- */

  /** Equal exactly when all three weight sequences agree. */
  lemma {:induction false} EqualMeans(a: string, b: string, k: Casing)
    ensures Compare(a, b, k) == Equal <==>
              && Weights(Letters, a, k) == Weights(Letters, b, k)
              && Weights(Accents, a, k) == Weights(Accents, b, k)
              && Weights(Cases, a, k) == Weights(Cases, b, k)
  {
    LevelIsLexicographic(Letters, a, b, k);
    LevelIsLexicographic(Accents, a, b, k);
    LevelIsLexicographic(Cases, a, b, k);
  }

  lemma CompareReverses(a: string, b: string, k: Casing)
    ensures Compare(b, a, k) == Reversed(Compare(a, b, k))
  {
    CompareIsKeyOrder(a, b, k);
    CompareIsKeyOrder(b, a, k);
    var x, y := SortKey(a, k), SortKey(b, k);
    LtTotal(x, y);
    if Lt(x, y) {
      LtAsymmetric(x, y);
    } else if Lt(y, x) {
      LtAsymmetric(y, x);
    }
  }

  /** Chains of comparisons compose, strictly as soon as one link is strict. */
  lemma CompareComposes(a: string, b: string, c: string, k: Casing)
    requires Compare(a, b, k) != Greater && Compare(b, c, k) != Greater
    ensures Compare(a, c, k) == if Compare(a, b, k) == Equal then Compare(b, c, k) else Less
  {
    CompareIsKeyOrder(a, b, k);
    CompareIsKeyOrder(b, c, k);
    CompareIsKeyOrder(a, c, k);
    var x, y, z := SortKey(a, k), SortKey(b, k), SortKey(c, k);
    if Lt(x, y) {
      if y != z { LtTransitive(x, y, z); }
      LtIrreflexive(x);
    }
  }

  /** Distinct strings can tie: both of these are y with an acute accent. */
  lemma TieExample(k: Casing)
    requires !k.upper('\U{00FD}') && !k.upper('\U{00FF}')
    ensures Compare("\U{00FD}", "\U{00FF}", k) == Equal
  {
    var a, b := "\U{00FD}", "\U{00FF}";
    assert a[1..] == b[1..] == [];
    assert a[0] == '\U{00FD}' && b[0] == '\U{00FF}' && Base(a[0], k) == Base(b[0], k);
    assert CompareLevel(Letters, a, b, k) == CompareLevel(Letters, a[1..], b[1..], k);
    assert CompareLevel(Accents, a, b, k) == CompareLevel(Accents, a[1..], b[1..], k);
    assert CompareLevel(Cases, a, b, k) == CompareLevel(Cases, a[1..], b[1..], k);
  }

  /* ---- accents and case ---- */

  lemma {:induction false} SharedPrefix(level: Level, p: string, a: string, b: string, k: Casing)
    ensures CompareLevel(level, p + a, p + b, k) == CompareLevel(level, a, b, k)
  {
    if p == [] {
      assert p + a == a && p + b == b;
    } else {
      assert (p + a)[1..] == p[1..] + a && (p + b)[1..] == p[1..] + b;
      SharedPrefix(level, p[1..], a, b, k);
    }
  }

  lemma {:induction false} SameLevel(level: Level, s: string, k: Casing)
    ensures CompareLevel(level, s, s, k) == Equal
  {
    LevelIsLexicographic(level, s, s, k);
  }

  lemma {:induction false} OneLetterLevel(level: Level, p: string, c: char, d: char, s: string, k: Casing)
    ensures CompareLevel(level, p + ([c] + s), p + ([d] + s), k) ==
            if At(level, c, k) < At(level, d, k) then Less
            else if At(level, c, k) > At(level, d, k) then Greater
            else Equal
  {
    SharedPrefix(level, p, [c] + s, [d] + s, k);
    assert ([c] + s)[1..] == s && ([d] + s)[1..] == s;
    SameLevel(level, s, k);
  }

  /** Two spellings of a word that differ in one letter compare by that letter: its base
      first, then its accent, then its case. */
  lemma OneLetterDecides(p: string, c: char, d: char, s: string, k: Casing)
    requires (Primary(c, k) < Primary(d, k))
          || (Primary(c, k) == Primary(d, k) && Secondary(c, k) < Secondary(d, k))
          || (Primary(c, k) == Primary(d, k) && Secondary(c, k) == Secondary(d, k) && Tertiary(c, k) < Tertiary(d, k))
    ensures Compare(p + ([c] + s), p + ([d] + s), k) == Less
  {
    OneLetterLevel(Letters, p, c, d, s, k);
    OneLetterLevel(Accents, p, c, d, s, k);
    OneLetterLevel(Cases, p, c, d, s, k);
  }

  /** The accents of a letter rank as documented: plain, acute, grave, circumflex, tilde,
      diaeresis, ring. */
  lemma AccentsRank(p: string, s: string, i: nat, j: nat, k: Casing)
    requires i < j < 7
    ensures
      var forms := ['a', '\U{00E1}', '\U{00E0}', '\U{00E2}', '\U{00E3}', '\U{00E4}', '\U{00E5}'];
      Compare(p + ([forms[i]] + s), p + ([forms[j]] + s), k) == Less
  {
    var forms := ['a', '\U{00E1}', '\U{00E0}', '\U{00E2}', '\U{00E3}', '\U{00E4}', '\U{00E5}'];
    assert forall n :: 0 <= n < 7 ==> Base(forms[n], k) == Weight(Letter('a'), n);
    OneLetterDecides(p, forms[i], forms[j], s, k);
  }

  /* ---- first letters ---- */

  lemma FirstLetterDecides(a: string, b: string, k: Casing)
    requires a != [] && b != [] && Primary(a[0], k) < Primary(b[0], k)
    ensures Compare(a, b, k) == Less
  {
  }

  predicate StartsWithEnye(s: string) {
    s != [] && IsEnye(s[0])
  }

  /** Whatever follows, and whatever accent the n carries, n comes before the enye. */
  lemma LettersBeforeEnye(a: string, b: string, k: Casing)
    requires a != [] && Primary(a[0], k) <= Letter('n') && StartsWithEnye(b)
    ensures Compare(a, b, k) == Less
  {
    FirstLetterDecides(a, b, k);
  }

  lemma LettersAfterEnye(b: string, c: string, k: Casing)
    requires c != [] && Primary(c[0], k) >= Letter('o') && StartsWithEnye(b)
    ensures Compare(b, c, k) == Less
  {
    FirstLetterDecides(b, c, k);
  }

  lemma NoGap(p: nat)
    requires p % 4 == 0
    ensures p <= Letter('n') || Letter('o') <= p
  {
  }

  /** Nothing but the enye lies between n and o. */
  lemma OnlyEnyeBetween(c: char, k: Casing)
    ensures IsEnye(c) || Primary(c, k) <= Letter('n') || Letter('o') <= Primary(c, k)
  {
    if !IsEnye(c) { NoGap(Primary(c, k)); }
  }

  /** Every word is on one side of every word that starts with the enye, by its first
      letter alone, or starts with the enye too. */
  lemma EnyeIsItsOwnLetter(a: string, b: string, k: Casing)
    requires a != [] && StartsWithEnye(b) && !StartsWithEnye(a)
    ensures Compare(a, b, k) == if Primary(a[0], k) <= Letter('n') then Less else Greater
  {
    if Primary(a[0], k) <= Letter('n') {
      LettersBeforeEnye(a, b, k);
    } else {
      OnlyEnyeBetween(a[0], k);
      LettersAfterEnye(b, a, k);
      CompareReverses(b, a, k);
    }
  }

  /* ---- case ---- */

  /** The two cases of one letter: ASCII and the accented letters of Latin-1, 32 apart. */
  predicate Cased(lower: char, upper: char) {
    && upper as int + 32 == lower as int
    && ('A' <= upper <= 'Z' || (0xC0 <= upper as int <= 0xDE && upper as int != 0xD7))
  }

  /** What the platform's tables say of these letters. */
  ghost predicate Platform(k: Casing) {
    && (forall c, d :: Cased(c, d) ==> !k.upper(c) && k.upper(d))
    && k.lower('\U{00DE}') == k.lower('\U{00FE}')
  }

  lemma CasedLow(lower: char, upper: char, k: Casing)
    requires Cased(lower, upper) && 0xC0 <= upper as int < 0xD0
    ensures Latin1(lower, k) == Latin1(upper, k)
  {
  }

  lemma CasedMiddle(lower: char, upper: char, k: Casing)
    requires Cased(lower, upper) && 0xD0 <= upper as int < 0xD7
    ensures Latin1(lower, k) == Latin1(upper, k)
  {
  }

  lemma CasedHigh(lower: char, upper: char, k: Casing)
    requires Cased(lower, upper) && 0xD8 <= upper as int < 0xDE
    ensures Latin1(lower, k) == Latin1(upper, k)
  {
  }

  lemma CasedBase(lower: char, upper: char, k: Casing)
    requires Cased(lower, upper) && k.lower('\U{00DE}') == k.lower('\U{00FE}')
    ensures Base(lower, k) == Base(upper, k)
  {
    if 0xC0 <= upper as int < 0xD0 {
      CasedLow(lower, upper, k);
    } else if 0xD0 <= upper as int < 0xD7 {
      CasedMiddle(lower, upper, k);
    } else if 0xD8 <= upper as int < 0xDE {
      CasedHigh(lower, upper, k);
    } else if !IsAscii(upper) {
      assert upper == '\U{00DE}' && lower == '\U{00FE}';
    }
  }

  lemma CasedWeights(lower: char, upper: char, k: Casing)
    requires Cased(lower, upper) && Platform(k)
    ensures Base(lower, k) == Base(upper, k) && Tertiary(lower, k) < Tertiary(upper, k)
  {
    CasedBase(lower, upper, k);
  }

  /** The same word with other capitals. */
  ghost predicate Recased(a: string, b: string) {
    |a| == |b| && forall i :: 0 <= i < |a| ==> a[i] == b[i] || Cased(a[i], b[i]) || Cased(b[i], a[i])
  }

  /** Capitals count neither among letters nor among accents. */
  lemma RecasedWeights(a: string, b: string, k: Casing)
    requires Recased(a, b) && Platform(k)
    ensures Weights(Letters, a, k) == Weights(Letters, b, k) && Weights(Accents, a, k) == Weights(Accents, b, k)
  {
    forall i | 0 <= i < |a| ensures Base(a[i], k) == Base(b[i], k) {
      if Cased(a[i], b[i]) {
        CasedWeights(a[i], b[i], k);
      } else if Cased(b[i], a[i]) {
        CasedWeights(b[i], a[i], k);
      }
    }
  }

  /** Words that differ in a letter or an accent compare as they would with other capitals. */
  lemma CaseComesLast(a: string, b: string, x: string, k: Casing)
    requires Recased(a, b) && Platform(k)
    requires Weights(Letters, a, k) != Weights(Letters, x, k) || Weights(Accents, a, k) != Weights(Accents, x, k)
    ensures Compare(a, x, k) == Compare(b, x, k)
  {
    RecasedWeights(a, b, k);
    LevelIsLexicographic(Letters, a, x, k);
    LevelIsLexicographic(Letters, b, x, k);
    LevelIsLexicographic(Accents, a, x, k);
    LevelIsLexicographic(Accents, b, x, k);
  }

  /** Among spellings with other capitals the first difference decides: lower case first. */
  lemma LowerBeforeUpper(p: string, lower: char, upper: char, s: string, t: string, k: Casing)
    requires Cased(lower, upper) && Recased(s, t) && Platform(k)
    ensures Compare(p + ([lower] + s), p + ([upper] + t), k) == Less
  {
    var a, b := p + ([lower] + s), p + ([upper] + t);
    assert Recased(a, b);
    RecasedWeights(a, b, k);
    LevelIsLexicographic(Letters, a, b, k);
    LevelIsLexicographic(Accents, a, b, k);
    SharedPrefix(Cases, p, [lower] + s, [upper] + t, k);
    CasedWeights(lower, upper, k);
  }

  /* ---- the alphabet ---- */

  /** The forms of a letter in Latin-1, in lower case. */
  function Forms(letter: char): string {
    match letter
    case 'a' => "\U{00E0}\U{00E1}\U{00E2}\U{00E3}\U{00E4}\U{00E5}\U{00E6}"
    case 'c' => "\U{00E7}"
    case 'd' => "\U{00F0}"
    case 'e' => "\U{00E8}\U{00E9}\U{00EA}\U{00EB}"
    case 'i' => "\U{00EC}\U{00ED}\U{00EE}\U{00EF}"
    case 'o' => "\U{00F2}\U{00F3}\U{00F4}\U{00F5}\U{00F6}\U{00F8}"
    case 's' => "\U{00DF}"
    case 'u' => "\U{00F9}\U{00FA}\U{00FB}\U{00FC}"
    case 'y' => "\U{00FD}\U{00FF}"
    case _ => ""
  }

  predicate IsForm(letter: char, form: char, k: Casing) {
    0xDF <= form as int < 0x100 && Latin1(form, k).primary == Letter(letter) && NONE < Latin1(form, k).secondary
  }

  lemma FirstForms(letter: char, form: char, k: Casing)
    requires letter in "acei" && form in Forms(letter)
    ensures IsForm(letter, form, k)
  {
  }

  lemma MiddleForms(letter: char, form: char, k: Casing)
    requires letter in "do" && form in Forms(letter)
    ensures IsForm(letter, form, k)
  {
  }

  lemma LastForms(letter: char, form: char, k: Casing)
    requires letter in "suy" && form in Forms(letter)
    ensures IsForm(letter, form, k)
  {
  }

  /** Latin Extended-A runs through the alphabet, each letter with its forms in both cases. */
  function ExtendedLetter(n: int): char
    requires 0x100 <= n < 0x17F
  {
    if n < 0x106 then 'a' else if n < 0x10E then 'c' else if n < 0x112 then 'd' else if n < 0x11C then 'e'
    else if n < 0x124 then 'g' else if n < 0x128 then 'h' else if n < 0x134 then 'i' else if n < 0x136 then 'j'
    else if n < 0x139 then 'k' else if n < 0x143 then 'l' else if n < 0x14C then 'n' else if n < 0x154 then 'o'
    else if n < 0x15A then 'r' else if n < 0x162 then 's' else if n < 0x168 then 't' else if n < 0x174 then 'u'
    else if n < 0x176 then 'w' else if n < 0x179 then 'y' else 'z'
  }

  /** Letters of the block that the table leaves to their own code points. */
  predicate OnItsOwn(n: int) {
    n in [0x126, 0x127, 0x132, 0x133, 0x138, 0x13F, 0x140, 0x149, 0x14A, 0x14B]
  }

  /** The dotless i carries no accent. */
  const DOTLESS: int := 0x131

  predicate ExtendedForm(letter: char, form: char) {
    0x100 <= form as int < 0x17F && !OnItsOwn(form as int) && ExtendedLetter(form as int) == letter
  }

  predicate ByAlphabet(c: char, k: Casing)
    requires 0x100 <= c as int < 0x17F
  {
    var w := ExtendedA(c, k);
    w.primary == Letter(ExtendedLetter(c as int)) && (c as int != DOTLESS ==> NONE < w.secondary)
  }

  lemma ExtendedToH(c: char, k: Casing)
    requires 0x100 <= c as int < 0x128 && !OnItsOwn(c as int)
    ensures ByAlphabet(c, k)
  {
  }

  lemma ExtendedToN(c: char, k: Casing)
    requires 0x128 <= c as int < 0x14C && !OnItsOwn(c as int)
    ensures ByAlphabet(c, k)
  {
  }

  lemma ExtendedToT(c: char, k: Casing)
    requires 0x14C <= c as int < 0x168
    ensures ByAlphabet(c, k)
  {
  }

  lemma ExtendedToZ(c: char, k: Casing)
    requires 0x168 <= c as int < 0x17F
    ensures ByAlphabet(c, k)
  {
  }

  lemma ExtendedWeights(letter: char, form: char, k: Casing)
    requires 'a' <= letter <= 'z' && ExtendedForm(letter, form)
    ensures Primary(form, k) == Primary(letter, k)
    ensures form as int != DOTLESS ==> Secondary(letter, k) < Secondary(form, k)
  {
    var n := form as int;
    if n < 0x128 {
      ExtendedToH(form, k);
    } else if n < 0x14C {
      ExtendedToN(form, k);
    } else if n < 0x168 {
      ExtendedToT(form, k);
    } else {
      ExtendedToZ(form, k);
    }
  }

  predicate IsFormOf(letter: char, form: char) {
    form in Forms(letter) || ExtendedForm(letter, form)
  }

  lemma FormWeights(letter: char, form: char, k: Casing)
    requires 'a' <= letter <= 'z' && IsFormOf(letter, form)
    ensures Primary(form, k) == Primary(letter, k)
    ensures form as int != DOTLESS ==> Secondary(letter, k) < Secondary(form, k)
  {
    if ExtendedForm(letter, form) {
      ExtendedWeights(letter, form, k);
    } else if letter in "acei" {
      FirstForms(letter, form, k);
    } else if letter in "do" {
      MiddleForms(letter, form, k);
    } else {
      LastForms(letter, form, k);
    }
  }

  /** Words order by the alphabet whatever follows the first difference, and whatever capitals
      or accents the letters carry. */
  lemma AlphabetDecides(p: string, c: char, d: char, s: string, t: string, k: Casing)
    requires 'a' <= c < d <= 'z'
    ensures Compare(p + ([c] + s), p + ([d] + t), k) == Less
    ensures forall f :: IsFormOf(c, f) ==> Compare(p + ([f] + s), p + ([d] + t), k) == Less
    ensures forall g :: IsFormOf(d, g) ==> Compare(p + ([c] + s), p + ([g] + t), k) == Less
  {
    LetterDecides(p, c, d, s, t, k);
    forall f | IsFormOf(c, f) ensures Compare(p + ([f] + s), p + ([d] + t), k) == Less {
      FormWeights(c, f, k);
      LetterDecides(p, f, d, s, t, k);
    }
    forall g | IsFormOf(d, g) ensures Compare(p + ([c] + s), p + ([g] + t), k) == Less {
      FormWeights(d, g, k);
      LetterDecides(p, c, g, s, t, k);
    }
  }

  lemma LetterDecides(p: string, c: char, d: char, s: string, t: string, k: Casing)
    requires Primary(c, k) < Primary(d, k)
    ensures Compare(p + ([c] + s), p + ([d] + t), k) == Less
  {
    SharedPrefix(Letters, p, [c] + s, [d] + t, k);
  }

  /** A letter comes before its accented forms when the rest of the word is the same. */
  lemma PlainBeforeForms(p: string, letter: char, form: char, s: string, k: Casing)
    requires 'a' <= letter <= 'z' && IsFormOf(letter, form) && form as int != DOTLESS
    ensures Compare(p + ([letter] + s), p + ([form] + s), k) == Less
  {
    FormWeights(letter, form, k);
    OneLetterDecides(p, letter, form, s, k);
  }
}
