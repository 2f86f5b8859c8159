/** The text of a row id, and why grouping ids by their text recovers worker and sequence. */
module RowIds {
  import opened Order
  import opened CrashRecovery

  predicate IsDigit(c: char) {
    '0' <= c <= '9'
  }

  function Digit(d: nat): char
    requires d < 10
  {
    '0' + d as char
  }

  function Decimal(n: nat): (s: string)
    ensures s != [] && forall i :: 0 <= i < |s| ==> IsDigit(s[i])
  {
    (if n < 10 then [] else Decimal(n / 10)) + [Digit(n % 10)]
  }

  /** Left-padded with zeros to at least `width` characters. */
  function Padded(n: nat, width: nat): (s: string)
    ensures s != [] && forall i :: 0 <= i < |s| ==> IsDigit(s[i])
  {
    var d := Decimal(n);
    if |d| >= width then d else seq(width - |d|, _ => '0') + d
  }

  function Prefix(worker: nat): string {
    "w" + Padded(worker, 4) + "-row-"
  }

  function IdText(id: Id): string {
    Prefix(id.worker) + Padded(id.sequence, 12)
  }

  function Value(s: string): nat
    requires forall i :: 0 <= i < |s| ==> IsDigit(s[i])
  {
    if s == [] then 0
    else
      assert IsDigit(s[|s| - 1]);
      10 * Value(s[..|s| - 1]) + (s[|s| - 1] as int - '0' as int)
  }

  function ParseNat(s: string): Option<nat> {
    if s != [] && forall i :: 0 <= i < |s| ==> IsDigit(s[i]) then Some(Value(s)) else None
  }

  lemma {:induction false} DecimalValue(n: nat)
    ensures Value(Decimal(n)) == n
  {
    var s := Decimal(n);
    if n < 10 {
      assert s == [Digit(n)] && s[..0] == [];
    } else {
      assert s[..|s| - 1] == Decimal(n / 10);
      DecimalValue(n / 10);
    }
  }

  lemma DigitText(d: nat)
    requires d < 10
    ensures Digit(d) == "0123456789"[d]
  {
  }

  lemma {:induction false} ShiftedOut(n: nat, i: nat)
    requires n < 10 && i > 0
    ensures Shift(n, 10, i) == 0
    decreases i
  {
    if i > 1 { ShiftedOut(n / 10, i - 1); }
  }

  /** The character at each place, counted from the right, is the digit of that place. */
  lemma {:induction false} DecimalPlaces(n: nat, i: nat)
    ensures |Decimal(n)| > 1 ==> Decimal(n)[0] != '0'
    ensures i < |Decimal(n)| ==> Decimal(n)[|Decimal(n)| - 1 - i] == Digit(Shift(n, 10, i) % 10)
    ensures i >= |Decimal(n)| ==> Shift(n, 10, i) == 0
    decreases n
  {
    if n >= 10 {
      DecimalPlaces(n / 10, if i == 0 then 0 else i - 1);
      if n < 100 { assert Decimal(n / 10) == [Digit(n / 10)]; }
    } else if i > 0 {
      ShiftedOut(n, i);
    }
  }

  /** Padding writes every place too, to the width and no farther than needed. */
  lemma PaddedPlaces(n: nat, width: nat, i: nat)
    ensures |Padded(n, width)| >= width
    ensures |Padded(n, width)| > width && |Padded(n, width)| > 1 ==> Padded(n, width)[0] != '0'
    ensures i < |Padded(n, width)| ==> Padded(n, width)[|Padded(n, width)| - 1 - i] == Digit(Shift(n, 10, i) % 10)
  {
    DecimalPlaces(n, i);
  }

  lemma {:induction false} ZerosValue(k: nat, d: string)
    requires forall i :: 0 <= i < |d| ==> IsDigit(d[i])
    ensures Value(seq(k, _ => '0') + d) == Value(d)
    decreases |d|, k
  {
    var s := seq(k, _ => '0') + d;
    if d != [] {
      assert s[..|s| - 1] == seq(k, _ => '0') + d[..|d| - 1];
      ZerosValue(k, d[..|d| - 1]);
    } else if k > 0 {
      assert s[..|s| - 1] == seq(k - 1, _ => '0') + d;
      ZerosValue(k - 1, d);
    }
  }

  lemma PaddedValue(n: nat, width: nat)
    ensures ParseNat(Padded(n, width)) == Some(n)
  {
    var d := Decimal(n);
    DecimalValue(n);
    if |d| < width { ZerosValue(width - |d|, d); }
  }

  /** Digits up to a dash are determined by the text they start. */
  lemma DigitsUntilDash(a: string, b: string, x: string, y: string)
    requires forall i :: 0 <= i < |a| ==> IsDigit(a[i])
    requires forall i :: 0 <= i < |b| ==> IsDigit(b[i])
    requires x != [] && x[0] == '-' && y != [] && y[0] == '-' && b + y <= a + x
    ensures a == b
  {
    var t := a + x;
    assert t[|a|] == '-' && t[|b|] == (b + y)[|b|] == '-';
    assert forall i :: 0 <= i < |a| ==> t[i] == a[i];
    assert forall i :: 0 <= i < |b| ==> t[i] == (b + y)[i] == b[i];
  }

  /** An id starts with a worker's prefix exactly when that worker owns it. */
  lemma PrefixIdentifiesWorker(id: Id, worker: nat)
    ensures Prefix(worker) <= IdText(id) <==> id.worker == worker
  {
    var a, b := Padded(id.worker, 4), Padded(worker, 4);
    PaddedValue(id.worker, 4);
    PaddedValue(worker, 4);
    if Prefix(worker) <= IdText(id) { SameDigits(a, b, Padded(id.sequence, 12)); }
  }

  lemma SameDigits(a: string, b: string, sequence: string)
    requires forall i :: 0 <= i < |a| ==> IsDigit(a[i])
    requires forall i :: 0 <= i < |b| ==> IsDigit(b[i])
    requires "w" + b + "-row-" <= "w" + a + "-row-" + sequence
    ensures a == b
  {
    var x := "-row-" + sequence;
    assert "w" + a + "-row-" + sequence == "w" + (a + x) && "w" + b + "-row-" == "w" + (b + "-row-");
    assert ("w" + (a + x))[1..] == a + x && ("w" + (b + "-row-"))[1..] == b + "-row-";
    DigitsUntilDash(a, b, x, "-row-");
  }

  /** What follows the prefix parses back to the sequence number. */
  lemma SequenceParses(id: Id)
    ensures Prefix(id.worker) <= IdText(id)
    ensures ParseNat(IdText(id)[|Prefix(id.worker)|..]) == Some(id.sequence)
  {
    PaddedValue(id.sequence, 12);
    assert IdText(id)[|Prefix(id.worker)|..] == Padded(id.sequence, 12);
  }

  lemma IdTextInjective(a: Id, b: Id)
    requires IdText(a) == IdText(b)
    ensures a == b
  {
    PrefixIdentifiesWorker(a, b.worker);
    SequenceParses(a);
    SequenceParses(b);
  }
}
