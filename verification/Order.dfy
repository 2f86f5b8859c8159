/** Orders shared by the model: the lexicographic order of byte strings, and the
    notion of a strict total order over which the index merge is written. */
module Order {

  datatype Option<+T> = None | Some(value: T)

  type Byte = b: int | 0 <= b < 256

  type Bytes = seq<Byte>

  /** One sequence after the other; an empty first one leaves the second as it is. */
  function Chain<T>(a: seq<T>, b: seq<T>): seq<T> {
    if |a| == 0 then b else a + b
  }

  /** A number without its last `i` digits. */
  function Shift(n: int, base: int, i: nat): int
    requires base > 1
    decreases i
  {
    if i == 0 then n else Shift(n / base, base, i - 1)
  }

  /** Lexicographic `<` on integer sequences; a proper prefix comes first. */
  predicate Lt(a: seq<int>, b: seq<int>) {
    b != [] && (a == [] || a[0] < b[0] || (a[0] == b[0] && Lt(a[1..], b[1..])))
  }

  ghost predicate StrictTotal<K(!new)>(lt: (K, K) -> bool) {
    && (forall x :: !lt(x, x))
    && (forall x, y, z :: lt(x, y) && lt(y, z) ==> lt(x, z))
    && (forall x, y :: x != y ==> lt(x, y) || lt(y, x))
  }

  predicate BytesLt(a: Bytes, b: Bytes) {
    Lt(a, b)
  }

  lemma {:induction false} LtIrreflexive(a: seq<int>)
    ensures !Lt(a, a)
  {
    if a != [] { LtIrreflexive(a[1..]); }
  }

  lemma {:induction false} LtTransitive(a: seq<int>, b: seq<int>, c: seq<int>)
    requires Lt(a, b) && Lt(b, c)
    ensures Lt(a, c)
  {
    if a != [] && a[0] == b[0] == c[0] { LtTransitive(a[1..], b[1..], c[1..]); }
  }

  lemma {:induction false} LtTotal(a: seq<int>, b: seq<int>)
    ensures Lt(a, b) || a == b || Lt(b, a)
  {
    if a != [] && b != [] && a[0] == b[0] {
      LtTotal(a[1..], b[1..]);
      if a[1..] == b[1..] { assert a == [a[0]] + a[1..] == b; }
    }
  }

  lemma {:induction false} LtAsymmetric(a: seq<int>, b: seq<int>)
    requires Lt(a, b)
    ensures !Lt(b, a)
  {
    LtIrreflexive(a);
    if Lt(b, a) { LtTransitive(a, b, a); }
  }

  /** a < b and b <= c give a < c. */
  lemma {:induction false} LtThenLe(a: seq<int>, b: seq<int>, c: seq<int>)
    requires Lt(a, b) && !Lt(c, b)
    ensures Lt(a, c)
  {
    LtTotal(b, c);
    if b != c { LtTransitive(a, b, c); }
  }

  /** a <= b and b < c give a < c. */
  lemma {:induction false} LeThenLt(a: seq<int>, b: seq<int>, c: seq<int>)
    requires !Lt(b, a) && Lt(b, c)
    ensures Lt(a, c)
  {
    LtTotal(a, b);
    if a != b { LtTransitive(a, b, c); }
  }

  lemma BytesOrder()
    ensures StrictTotal(BytesLt)
  {
    forall x: Bytes ensures !BytesLt(x, x) { LtIrreflexive(x); }
    forall x: Bytes, y: Bytes, z: Bytes | BytesLt(x, y) && BytesLt(y, z) ensures BytesLt(x, z) {
      LtTransitive(x, y, z);
    }
    forall x: Bytes, y: Bytes | x != y ensures BytesLt(x, y) || BytesLt(y, x) { LtTotal(x, y); }
  }

  /** A shared head does not take part in the comparison. */
  lemma {:induction false} LtSharedHead(p: seq<int>, a: seq<int>, b: seq<int>)
    ensures Lt(p + a, p + b) <==> Lt(a, b)
  {
    if p == [] {
      assert p + a == a && p + b == b;
    } else {
      assert (p + a)[1..] == p[1..] + a && (p + b)[1..] == p[1..] + b;
      LtSharedHead(p[1..], a, b);
    }
  }

  /** Once neither string is a prefix of the other, what follows them is irrelevant. */
  lemma {:induction false} LtDecided(a: seq<int>, b: seq<int>, u: seq<int>, v: seq<int>)
    requires !(a <= b) && !(b <= a)
    ensures Lt(a + u, b + v) <==> Lt(a, b)
  {
    if a[0] == b[0] {
      assert (a + u)[1..] == a[1..] + u && (b + v)[1..] == b[1..] + v;
      LtDecided(a[1..], b[1..], u, v);
    }
  }

  lemma {:induction false} PrefixNotGreater(p: seq<int>, a: seq<int>)
    requires p <= a
    ensures !Lt(a, p)
  {
    if p != [] { PrefixNotGreater(p[1..], a[1..]); }
  }
}
