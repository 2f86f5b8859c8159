/** The JSON parser that keeps every integer exact. */
module ExactJson {
  import opened Order
  import opened JsonText

  /* ---- integers as JavaScript numbers ---- */

  function Power2(k: nat): (p: nat)
    ensures p > 0
  {
    if k == 0 then 1 else 2 * Power2(k - 1)
  }

  /** The double nearest to a natural number, ties to the even neighbour: halve until 53
      bits are left, round, scale back. */
  function Nearest(n: nat): int {
    RoundAt(n, Excess(n))
  }

  /** How many low bits do not fit in a 53-bit significand. */
  function Excess(n: nat): nat {
    if n <= MAX_SAFE then 0 else 1 + Excess(n / 2)
  }

  function RoundAt(n: nat, k: nat): int {
    var unit := Power2(k);
    unit * Rounded(n / unit, n % unit, unit)
  }

  /** A quotient, one more if the remainder is over half a unit, or just half and it is odd. */
  function Rounded(q: int, r: int, unit: int): int {
    if 2 * r > unit || (2 * r == unit && q % 2 == 1) then q + 1 else q
  }

  function ToDouble(n: int): int {
    if n < 0 then 0 - Nearest(-n) else Nearest(n)
  }

  predicate IsSafe(n: int) {
    -MAX_SAFE <= n <= MAX_SAFE
  }

  /** The source's choice between an ordinary number and a big integer. */
  function FromBig(big: int): Json {
    if IsSafe(ToDouble(big)) then JNumber(ToDouble(big)) else JBig(big)
  }

  lemma {:induction false} ExcessKeepsHalf(n: nat)
    ensures n > MAX_SAFE ==> n / Power2(Excess(n)) * Power2(Excess(n)) > MAX_SAFE
  {
    if n > MAX_SAFE {
      var m := n / 2;
      var p := Power2(Excess(m));
      ExcessKeepsHalf(m);
      assert Power2(Excess(n)) == 2 * p;
      HalfThenDivide(n, p);
      if m > MAX_SAFE {
        assert n / (2 * p) * (2 * p) == 2 * (m / p * p);
      }
    }
  }

  /** What is left are 53 bits, all of them in use unless nothing was cut off. */
  lemma {:induction false} ExcessLeaves53(n: nat)
    ensures n / Power2(Excess(n)) <= MAX_SAFE
    ensures Excess(n) > 0 ==> n / Power2(Excess(n)) > MAX_SAFE / 2
  {
    if n > MAX_SAFE {
      ExcessLeaves53(n / 2);
      HalfThenDivide(n, Power2(Excess(n / 2)));
    }
  }

  function Distance(a: int, b: int): int {
    if a < b then b - a else a - b
  }

  lemma Division(n: int, unit: int)
    requires unit > 0
    ensures 0 <= n % unit < unit && n == unit * (n / unit) + n % unit
    ensures unit * (n / unit + 1) == unit * (n / unit) + unit
  {
  }

  lemma RoundedIsNear(q: int, r: int, unit: int, n: int)
    requires n == unit * q + r && 0 <= r < unit && unit * (q + 1) == unit * q + unit
    ensures var m := Rounded(q, r, unit);
            && 2 * Distance(unit * m, n) <= unit && (2 * Distance(unit * m, n) == unit ==> m % 2 == 0)
  {
    var low := unit * q;
    if Rounded(q, r, unit) == q + 1 {
      assert Distance(low + unit, n) == unit - r;
    } else {
      assert Distance(low, n) == r;
    }
  }

  lemma RoundsToNearest(n: nat, k: nat) returns (m: int)
    ensures RoundAt(n, k) == Power2(k) * m && n / Power2(k) <= m <= n / Power2(k) + 1
    ensures 2 * Distance(RoundAt(n, k), n) <= Power2(k)
    ensures 2 * Distance(RoundAt(n, k), n) == Power2(k) ==> m % 2 == 0
  {
    var unit := Power2(k);
    m := Rounded(n / unit, n % unit, unit);
    Division(n, unit);
    RoundedIsNear(n / unit, n % unit, unit, n);
  }

  /** The result is a significand of at most 53 bits times a power of two, normalized where bits
      were cut off, no farther than half a unit away, and even on a tie: the nearest double. */
  lemma NearestIsNearest(n: nat) returns (m: int)
    ensures Nearest(n) == Power2(Excess(n)) * m && m <= MAX_SAFE + 1 && (Excess(n) > 0 ==> m > MAX_SAFE / 2)
    ensures 2 * Distance(Nearest(n), n) <= Power2(Excess(n))
    ensures 2 * Distance(Nearest(n), n) == Power2(Excess(n)) ==> m % 2 == 0
  {
    ExcessLeaves53(n);
    m := RoundsToNearest(n, Excess(n));
  }

  lemma HalfThenDivide(n: nat, p: nat)
    requires p > 0
    ensures n / (2 * p) == n / 2 / p
  {
    var q, r := n / 2 / p, n / 2 % p;
    assert n / 2 == q * p + r;
    assert n == q * (2 * p) + (2 * r + n % 2);
    assert 0 <= 2 * r + n % 2 < 2 * p;
    DivideUnique(n, 2 * p, q, 2 * r + n % 2);
  }

  lemma DivideUnique(n: nat, d: nat, q: nat, r: nat)
    requires d > 0 && n == q * d + r && r < d
    ensures n / d == q
  {
    var a := n / d;
    assert a < q ==> (a + 1) * d <= q * d;
    assert a > q ==> (q + 1) * d <= a * d;
  }

  /** Rounding never turns an unsafe integer into a safe one, so no integer is changed. */
  lemma FromBigIsExact(big: int)
    ensures FromBig(big) == Exact(big)
  {
    var n := if big < 0 then 0 - big else big;
    if n > MAX_SAFE {
      ExcessKeepsHalf(n);
      RoundAtLeast(n, Excess(n));
    }
  }

  lemma {:induction false} RoundAtLeast(n: nat, k: nat)
    ensures RoundAt(n, k) >= n / Power2(k) * Power2(k)
  {
  }

  /* ---- scanning ---- */

  /** The code at `i`, or none past the end. */
  function At(text: Text, i: nat): int {
    if i < |text| then text[i] else -1
  }

  function SkipSpaces(text: Text, i: nat): (k: nat)
    requires i <= |text|
    ensures i <= k <= |text|
    decreases |text| - i
  {
    if i < |text| && IsSpace(text[i]) then SkipSpaces(text, i + 1) else i
  }

  function DigitsEnd(text: Text, i: nat): (k: nat)
    requires i <= |text|
    ensures i <= k <= |text|
    decreases |text| - i
  {
    if i < |text| && IsDigit(text[i]) then DigitsEnd(text, i + 1) else i
  }

  /** The end of a string: an unescaped quote at or after `j`, or past the text. */
  function ScanEnd(text: Text, j: nat): (k: nat)
    requires j <= |text| + 1
    ensures j <= k <= |text| + 1 && (k < |text| ==> text[k] == QUOTE)
    decreases |text| + 1 - j
  {
    if j < |text| && text[j] != QUOTE then ScanEnd(text, if text[j] == BACKSLASH then j + 2 else j + 1) else j
  }

  predicate StartsWith(text: Text, i: nat, s: Text)
    requires i <= |text|
  {
    i + |s| <= |text| && text[i..i + |s|] == s
  }

  /** The standard decoding of the inside of a string token from position `k`. */
  function Unescape(body: Text, k: nat): Option<Text>
    requires k <= |body|
    decreases |body| - k
  {
    if k == |body| then Some([])
    else if body[k] < 0x20 || body[k] == QUOTE then None
    else if body[k] != BACKSLASH then Prepend(body[k], Unescape(body, k + 1))
    else if k + 1 < |body| && ShortValue(body[k + 1]).Some? then
      Prepend(ShortValue(body[k + 1]).value, Unescape(body, k + 2))
    else if k + 5 < |body| && body[k + 1] == 0x75
            && IsHex(body[k + 2]) && IsHex(body[k + 3]) && IsHex(body[k + 4]) && IsHex(body[k + 5]) then
      Prepend(HexCode(body[k + 2], body[k + 3], body[k + 4], body[k + 5]), Unescape(body, k + 6))
    else None
  }

  function Prepend(c: Code, rest: Option<Text>): Option<Text> {
    if rest == None then None else Some([c] + rest.value)
  }

  /** The number at a position: where its parts end. */
  datatype Match = NoMatch | Match(start: nat, whole: nat, fraction: nat, end: nat)

  function MatchNumber(text: Text, i: nat): (m: Match)
    requires i <= |text|
    ensures m.Match? ==> i <= m.start < m.whole <= m.fraction <= m.end <= |text|
  {
    var start := if At(text, i) == MINUS then i + 1 else i;
    var whole := DigitsEnd(text, start);
    if whole == start then NoMatch
    else
      var fraction :=
        if At(text, whole) == DOT && DigitsEnd(text, whole + 1) > whole + 1 then DigitsEnd(text, whole + 1) else whole;
      Match(start, whole, fraction, ExponentEnd(text, fraction))
  }

  function ExponentEnd(text: Text, i: nat): (k: nat)
    requires i <= |text|
    ensures i <= k <= |text|
  {
    if At(text, i) == 0x65 || At(text, i) == 0x45 then
      var s := if At(text, i + 1) == PLUS || At(text, i + 1) == MINUS then i + 2 else i + 1;
      var end := DigitsEnd(text, s);
      if end > s then end else i
    else i
  }

  /* ---- tokens ---- */

  datatype Out<T> = Ok(value: T, next: nat) | Fail

  function ParseString(text: Text, i: nat): (r: Out<Text>)
    requires i < |text|
    ensures r.Ok? ==> i < r.next <= |text|
  {
    var j := ScanEnd(text, i + 1);
    if j >= |text| then Fail
    else
      var s := Unescape(text[i + 1..j], 0);
      if s == None then Fail else Ok(s.value, j + 1)
  }

  function ParseNumber(text: Text, i: nat): (r: Out<Json>)
    requires i <= |text|
    ensures r.Ok? ==> i < r.next <= |text|
  {
    var m := MatchNumber(text, i);
    if m == NoMatch then Fail
    else if m.end == m.whole then
      var n := DigitsValue(text[m.start..m.whole]);
      Ok(FromBig(if m.start > i then 0 - n else n), m.end)
    else Ok(JFloat(text[i..m.end]), m.end)
  }

  /** The literal names. */
  function ParseWord(text: Text, i: nat): (r: Out<Json>)
    requires i <= |text|
    ensures r.Ok? ==> i < r.next <= |text|
  {
    if StartsWith(text, i, TRUE) then Ok(JBool(true), i + 4)
    else if StartsWith(text, i, FALSE) then Ok(JBool(false), i + 5)
    else if StartsWith(text, i, NULL) then Ok(JNull, i + 4)
    else Fail
  }
}
