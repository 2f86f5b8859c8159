/** UTF-8 by its definition, as numbers written in groups of six bits (section 3 of RFC 3629):
    the byte patterns that the model accepts are exactly the texts so written. */
module Utf8 {
  import opened Order
  import opened PairCodec

  predicate IsScalar(n: int) {
    0 <= n < 0xD800 || 0xE000 <= n < 0x110000
  }

  function ScalarBytes(n: int): Bytes
    requires IsScalar(n)
  {
    if n < 0x80 then [n]
    else if n < 0x800 then [0xC0 + n / 64, 0x80 + n % 64]
    else if n < 0x10000 then [0xE0 + n / 4096, 0x80 + n / 64 % 64, 0x80 + n % 64]
    else [0xF0 + n / 262144, 0x80 + n / 4096 % 64, 0x80 + n / 64 % 64, 0x80 + n % 64]
  }

  predicate AreScalars(ns: seq<int>) {
    forall i :: 0 <= i < |ns| ==> IsScalar(ns[i])
  }

  function Encoded(ns: seq<int>): Bytes
    requires AreScalars(ns)
  {
    if ns == [] then [] else ScalarBytes(ns[0]) + Encoded(ns[1..])
  }

  /* ---- what is written is accepted ---- */

  lemma Groups2(n: nat)
    requires 0x80 <= n < 0x800
    ensures 0xC2 <= 0xC0 + n / 64 <= 0xDF && Tail(0x80 + n % 64)
  {
  }

  lemma Groups3(n: nat)
    requires 0x800 <= n < 0x10000 && IsScalar(n)
    ensures n / 4096 < 16 && Lead3(0xE0 + n / 4096, 0x80 + n / 64 % 64) && Tail(0x80 + n % 64)
  {
    var a, b := n / 4096, n / 64;
    assert b == 64 * a + b % 64;
    assert n == 64 * b + n % 64;
  }

  lemma Groups4(n: nat)
    requires 0x10000 <= n < 0x110000
    ensures n / 262144 < 8 && Lead4(0xF0 + n / 262144, 0x80 + n / 4096 % 64)
    ensures Tail(0x80 + n / 64 % 64) && Tail(0x80 + n % 64)
  {
    var a, b := n / 262144, n / 4096;
    assert b == 64 * a + b % 64;
  }

  lemma ScalarIsValid(n: int, rest: Bytes)
    requires IsScalar(n) && ValidUtf8(rest)
    ensures ValidUtf8(ScalarBytes(n) + rest)
  {
    var s := ScalarBytes(n) + rest;
    assert s[|ScalarBytes(n)|..] == rest;
    if 0x80 <= n < 0x800 {
      Groups2(n);
    } else if 0x800 <= n < 0x10000 {
      Groups3(n);
    } else if n >= 0x10000 {
      Groups4(n);
    }
  }

  lemma {:induction false} EncodedIsValid(ns: seq<int>)
    requires AreScalars(ns)
    ensures ValidUtf8(Encoded(ns))
  {
    if ns != [] {
      EncodedIsValid(ns[1..]);
      ScalarIsValid(ns[0], Encoded(ns[1..]));
    }
  }

  /* ---- what is accepted was written ---- */

  lemma Joined2(a: Byte, b: Byte) returns (n: int)
    requires 0xC2 <= a <= 0xDF && Tail(b)
    ensures IsScalar(n) && ScalarBytes(n) == [a, b]
  {
    n := 64 * (a - 0xC0) + (b - 0x80);
  }

  lemma Joined3(a: Byte, b: Byte, c: Byte) returns (n: int)
    requires Lead3(a, b) && Tail(c)
    ensures IsScalar(n) && ScalarBytes(n) == [a, b, c]
  {
    var high := 64 * (a - 0xE0) + (b - 0x80);
    n := 64 * high + (c - 0x80);
    assert n / 64 == high && n / 4096 == a - 0xE0;
  }

  lemma Joined4(a: Byte, b: Byte, c: Byte, d: Byte) returns (n: int)
    requires Lead4(a, b) && Tail(c) && Tail(d)
    ensures IsScalar(n) && ScalarBytes(n) == [a, b, c, d]
  {
    var high := 64 * (a - 0xF0) + (b - 0x80);
    var more := 64 * high + (c - 0x80);
    n := 64 * more + (d - 0x80);
    assert n / 64 == more && n / 4096 == high && n / 262144 == a - 0xF0;
  }

  lemma FirstScalar(s: Bytes) returns (n: int)
    requires s != [] && ValidUtf8(s)
    ensures IsScalar(n) && ScalarBytes(n) <= s && ValidUtf8(s[|ScalarBytes(n)|..])
  {
    if s[0] <= 0x7F {
      n := s[0];
    } else if 0xC2 <= s[0] <= 0xDF {
      n := Joined2(s[0], s[1]);
    } else if |s| >= 3 && Lead3(s[0], s[1]) {
      n := Joined3(s[0], s[1], s[2]);
    } else {
      n := Joined4(s[0], s[1], s[2], s[3]);
    }
  }

  /** Every accepted byte string is the encoding of some scalar values. */
  lemma {:induction false} ValidIsEncoded(s: Bytes) returns (ns: seq<int>)
    requires ValidUtf8(s)
    ensures AreScalars(ns) && Encoded(ns) == s
    decreases |s|
  {
    if s == [] {
      ns := [];
    } else {
      var n, tail := FirstPart(s);
      var rest := ValidIsEncoded(tail);
      ns := [n] + rest;
      EncodedFirst(n, rest);
    }
  }

  lemma FirstPart(s: Bytes) returns (n: int, tail: Bytes)
    requires s != [] && ValidUtf8(s)
    ensures IsScalar(n) && ValidUtf8(tail) && |tail| < |s| && s == ScalarBytes(n) + tail
  {
    n := FirstScalar(s);
    tail := s[|ScalarBytes(n)|..];
    Rejoined(s, |ScalarBytes(n)|);
  }

  lemma EncodedFirst(n: int, rest: seq<int>)
    requires IsScalar(n) && AreScalars(rest)
    ensures AreScalars([n] + rest) && Encoded([n] + rest) == ScalarBytes(n) + Encoded(rest)
  {
    assert ([n] + rest)[1..] == rest;
  }

  lemma Rejoined(s: Bytes, n: nat)
    requires n <= |s|
    ensures s[..n] + s[n..] == s
  {
  }
}
