/** The key of an index entry: the ordered encoding of the indexed column values. */
module KeyEncoding {
  import opened Order
  import opened PairCodec

  const I63: nat := 0x8000_0000_0000_0000
  const U64: nat := 0x1_0000_0000_0000_0000
  const U32: nat := 0x1_0000_0000

  type Int64 = n: int | -0x8000_0000_0000_0000 <= n < 0x8000_0000_0000_0000
  type Int32 = n: int | -0x8000_0000 <= n < 0x8000_0000
  type Bits64 = n: int | 0 <= n < 0x1_0000_0000_0000_0000

  /** A column value. Floats are their IEEE bits, JSON its compact text, a vector the
      little-endian bytes of its components. */
  datatype Value =
    | Null
    | Bool(b: bool)
    | Int64(n: Int64)
    | Float64(bits: Bits64)
    | Text(text: Bytes)
    | Blob(blob: Bytes)
    | Timestamp(t: Int64)
    | Json(json: Bytes)
    | Vector(components: seq<(Byte, Byte, Byte, Byte)>)
    | Date(d: Int32)
    | Time(us: Int64)

  function Tag(v: Value): Byte {
    match v
    case Null => 0 case Bool(_) => 1 case Int64(_) => 2 case Float64(_) => 3 case Text(_) => 4
    case Blob(_) => 5 case Timestamp(_) => 6 case Json(_) => 7 case Vector(_) => 8
    case Date(_) => 9 case Time(_) => 10
  }

  /** Big-endian with the sign bit flipped. */
  function OrderedInt(n: Int64): Bytes {
    BigEndian(n + I63, 8)
  }

  /** Both zeros share one key; a negative number has every bit flipped, any other its
      sign bit set. */
  function OrderedFloatBits(bits: Bits64): (o: Bits64) {
    var x := if bits == I63 then 0 else bits;
    if x >= I63 then U64 - 1 - x else x + I63
  }

  /** `00` escaped as `00 FF`, closed by `00 00`. */
  function OrderedBytes(s: Bytes): Bytes {
    if s == [] then [0, 0]
    else (if s[0] == 0 then [0, 0xff] else [s[0]]) + OrderedBytes(s[1..])
  }

  function LittleEndian(n: nat, width: nat): (s: Bytes)
    ensures |s| == width
    decreases width, n
  {
    if width == 0 then [] else [n % 256] + LittleEndian(n / 256, width - 1)
  }

  /** Least significant byte first. */
  lemma {:induction false} LittleEndianPlaces(n: nat, width: nat, i: nat)
    requires i < width
    ensures LittleEndian(n, width)[i] == Shift(n, 256, i) % 256
    decreases width
  {
    if i > 0 { LittleEndianPlaces(n / 256, width - 1, i - 1); }
  }

  function ComponentBytes(c: seq<(Byte, Byte, Byte, Byte)>): (s: Bytes)
    ensures |s| == 4 * |c|
  {
    if c == [] then [] else [c[0].0, c[0].1, c[0].2, c[0].3] + ComponentBytes(c[1..])
  }

  function Payload(v: Value): Bytes {
    match v
    case Null => []
    case Bool(b) => [if b then 1 else 0]
    case Int64(n) => OrderedInt(n)
    case Timestamp(n) => OrderedInt(n)
    case Time(n) => OrderedInt(n)
    case Date(n) => OrderedInt(n)
    case Float64(bits) => BigEndian(OrderedFloatBits(bits), 8)
    case Text(s) => OrderedBytes(s)
    case Blob(s) => OrderedBytes(s)
    case Json(s) => LittleEndian(|s|, 4) + s
    case Vector(c) => LittleEndian(|c|, 4) + ComponentBytes(c)
  }

  function EncodeIndexValue(v: Value): Bytes {
    [Tag(v)] + Payload(v)
  }

  function TupleKey(vs: seq<Value>): Bytes {
    if vs == [] then [] else EncodeIndexValue(vs[0]) + TupleKey(vs[1..])
  }

  /** The length field of JSON and vectors is 32 bits wide. */
  predicate Sized(v: Value) {
    (v.Json? ==> |v.json| < U32) && (v.Vector? ==> |v.components| < U32)
  }

  predicate SizedTuple(vs: seq<Value>) {
    forall i :: 0 <= i < |vs| ==> Sized(vs[i])
  }

  /* ---- self-delimiting ---- */

  lemma {:induction false} OrderedBytesHead(a: Bytes, s: Bytes)
    ensures var x := OrderedBytes(a) + s;
            |x| >= 2 && (a == [] <==> x[0] == 0 && x[1] != 0xff) && (a != [] ==> x[0] == a[0])
            && (a == [] ==> x[2..] == s)
  {
  }

  lemma {:induction false} OrderedBytesDelimited(a: Bytes, b: Bytes, s: Bytes, t: Bytes)
    requires OrderedBytes(a) + s == OrderedBytes(b) + t
    ensures a == b && s == t
  {
    var x, y := OrderedBytes(a) + s, OrderedBytes(b) + t;
    OrderedBytesHead(a, s);
    OrderedBytesHead(b, t);
    if a != [] {
      var h := if a[0] == 0 then 2 else 1;
      assert x[h..] == OrderedBytes(a[1..]) + s && y[h..] == OrderedBytes(b[1..]) + t;
      OrderedBytesDelimited(a[1..], b[1..], s, t);
      assert a == [a[0]] + a[1..] == [b[0]] + b[1..] == b;
    }
  }

  lemma {:induction false} LittleEndianInjective(n: nat, m: nat, width: nat)
    requires n < Pow256(width) && m < Pow256(width) && LittleEndian(n, width) == LittleEndian(m, width)
    ensures n == m
    decreases width
  {
    if width > 0 {
      var a, b := LittleEndian(n, width), LittleEndian(m, width);
      assert a[0] == b[0] && a[1..] == LittleEndian(n / 256, width - 1) && b[1..] == LittleEndian(m / 256, width - 1);
      LittleEndianInjective(n / 256, m / 256, width - 1);
    }
  }

  lemma SameLengthHead(a: Bytes, b: Bytes, s: Bytes, t: Bytes)
    requires a + s == b + t && |a| == |b|
    ensures a == b && s == t
  {
    assert a == (a + s)[..|a|] && b == (b + t)[..|b|];
    assert s == (a + s)[|a|..] && t == (b + t)[|b|..];
  }

  lemma HeadedDelimited(x: Bytes, a: Bytes, y: Bytes, b: Bytes, s: Bytes, t: Bytes)
    requires |x| == |y| && (x == y ==> |a| == |b|)
    requires x + a + s == y + b + t
    ensures x == y && a == b && s == t
  {
    assert x + a + s == x + (a + s) && y + b + t == y + (b + t);
    SameLengthHead(x, y, a + s, b + t);
    SameLengthHead(a, b, s, t);
  }

  lemma {:induction false} CountedDelimited(n: nat, a: Bytes, m: nat, b: Bytes, s: Bytes, t: Bytes)
    requires n < U32 && m < U32 && (n == m ==> |a| == |b|)
    requires LittleEndian(n, 4) + a + s == LittleEndian(m, 4) + b + t
    ensures n == m && a == b && s == t
  {
    if LittleEndian(n, 4) == LittleEndian(m, 4) {
      assert Pow256(4) == U32;
      LittleEndianInjective(n, m, 4);
    }
    HeadedDelimited(LittleEndian(n, 4), a, LittleEndian(m, 4), b, s, t);
  }

  lemma PayloadDelimited(v: Value, w: Value, s: Bytes, t: Bytes)
    requires Sized(v) && Sized(w) && Tag(v) == Tag(w)
    requires Payload(v) + s == Payload(w) + t
    ensures Payload(v) == Payload(w) && s == t
  {
    match v {
      case Text(a) => OrderedBytesDelimited(a, w.text, s, t);
      case Blob(a) => OrderedBytesDelimited(a, w.blob, s, t);
      case Json(a) => CountedDelimited(|a|, a, |w.json|, w.json, s, t);
      case Vector(a) => CountedDelimited(|a|, ComponentBytes(a), |w.components|, ComponentBytes(w.components), s, t);
      case _ =>
        assert |Payload(v)| == |Payload(w)|;
        SameLengthHead(Payload(v), Payload(w), s, t);
    }
  }

  /** Where one value's encoding ends is decided by its own bytes. */
  lemma ValueDelimited(v: Value, w: Value, s: Bytes, t: Bytes)
    requires Sized(v) && Sized(w)
    requires EncodeIndexValue(v) + s == EncodeIndexValue(w) + t
    ensures EncodeIndexValue(v) == EncodeIndexValue(w) && s == t
  {
    var p, q := Payload(v), Payload(w);
    assert [Tag(v)] + p + s == [Tag(v)] + (p + s) && [Tag(w)] + q + t == [Tag(w)] + (q + t);
    SameLengthHead([Tag(v)], [Tag(w)], p + s, q + t);
    assert Tag(v) == [Tag(v)][0] == [Tag(w)][0] == Tag(w);
    PayloadDelimited(v, w, s, t);
  }

  lemma {:induction false} TupleKeyHead(vs: seq<Value>, s: Bytes)
    requires vs != []
    ensures TupleKey(vs) + s == EncodeIndexValue(vs[0]) + (TupleKey(vs[1..]) + s)
  {
  }

  lemma {:induction false} TupleDelimited(vs: seq<Value>, ws: seq<Value>, s: Bytes, t: Bytes)
    requires |vs| == |ws| && SizedTuple(vs) && SizedTuple(ws)
    requires TupleKey(vs) + s == TupleKey(ws) + t
    ensures TupleKey(vs) == TupleKey(ws) && s == t
  {
    if vs != [] {
      var v, w := EncodeIndexValue(vs[0]), EncodeIndexValue(ws[0]);
      TupleKeyHead(vs, s);
      TupleKeyHead(ws, t);
      ValueDelimited(vs[0], ws[0], TupleKey(vs[1..]) + s, TupleKey(ws[1..]) + t);
      TupleDelimited(vs[1..], ws[1..], s, t);
    } else {
      assert s == TupleKey(vs) + s == TupleKey(ws) + t == t;
    }
  }

  /** The keys an index over `n` columns can hold. */
  ghost function TupleKeys(n: nat): iset<Bytes> {
    iset vs: seq<Value> | |vs| == n && SizedTuple(vs) :: TupleKey(vs)
  }

  lemma {:induction false} TupleKeyConcat(vs: seq<Value>, ws: seq<Value>)
    ensures TupleKey(vs + ws) == TupleKey(vs) + TupleKey(ws)
  {
    if vs == [] {
      assert vs + ws == ws;
    } else {
      assert (vs + ws)[1..] == vs[1..] + ws;
      TupleKeyConcat(vs[1..], ws);
    }
  }

  /** A tuple's key never ends strictly inside the key of one that is not longer. */
  lemma {:induction false} TupleNotInside(vs: seq<Value>, ps: seq<Value>)
    requires |ps| <= |vs| && SizedTuple(vs) && SizedTuple(ps) && TupleKey(vs) <= TupleKey(ps)
    ensures TupleKey(vs) == TupleKey(ps)
  {
    var head, tail := vs[..|ps|], vs[|ps|..];
    assert vs == head + tail && SizedTuple(head);
    TupleKeyConcat(head, tail);
    var h, t, p := TupleKey(head), TupleKey(tail), TupleKey(ps);
    var rest := p[|h + t|..];
    Regroup(h, t, rest, p);
    TupleDelimited(head, ps, t + rest, []);
  }

  lemma Regroup(h: Bytes, t: Bytes, rest: Bytes, p: Bytes)
    requires h + t <= p && rest == p[|h + t|..]
    ensures h + (t + rest) == p + []
  {
  }

  /** The keys of one index are prefix-free. */
  lemma TupleKeysPrefixFree(n: nat)
    ensures PrefixFree(TupleKeys(n))
  {
    forall a, b | a in TupleKeys(n) && b in TupleKeys(n) && a <= b ensures a == b {
      var vs: seq<Value> :| |vs| == n && SizedTuple(vs) && TupleKey(vs) == a;
      var ws: seq<Value> :| |ws| == n && SizedTuple(ws) && TupleKey(ws) == b;
      TupleNotInside(vs, ws);
    }
  }

  /** A byte prefix made of complete components selects exactly the tuples whose leading
      components encode alike. */
  lemma {:induction false} TuplePrefixScan(ps: seq<Value>, vs: seq<Value>)
    requires |ps| <= |vs| && SizedTuple(ps) && SizedTuple(vs)
    ensures TupleKey(ps) <= TupleKey(vs) <==> TupleKey(ps) == TupleKey(vs[..|ps|])
  {
    if ps != [] {
      var head, tail := vs[..|ps|], vs[|ps|..];
      assert vs == head + tail && SizedTuple(head);
      TupleKeyConcat(head, tail);
      PrefixOfJoin(ps, head, TupleKey(ps), TupleKey(head), TupleKey(tail));
    }
  }

  /** A key that is a prefix of a longer one ends where the longer one's component ends. */
  lemma PrefixOfJoin(ps: seq<Value>, head: seq<Value>, p: Bytes, h: Bytes, t: Bytes)
    requires |ps| == |head| && SizedTuple(ps) && SizedTuple(head) && p == TupleKey(ps) && h == TupleKey(head)
    ensures p <= h + t <==> p == h
  {
    if p <= h + t {
      var rest := (h + t)[|p|..];
      assert p + rest == h + t;
      TupleDelimited(ps, head, rest, t);
    }
  }

  /* ---- order ---- */

  lemma {:induction false} OrderedBytesOrder(a: Bytes, b: Bytes)
    ensures Lt(OrderedBytes(a), OrderedBytes(b)) <==> Lt(a, b)
  {
    var x, y := OrderedBytes(a), OrderedBytes(b);
    if a == [] || b == [] {
      assert a == [] ==> x == [0, 0];
      assert b == [] ==> y == [0, 0];
      assert a != [] ==> x[0] != 0 || x[1] == 0xff;
      assert b != [] ==> y[0] != 0 || y[1] == 0xff;
    } else if a[0] == b[0] {
      var h := if a[0] == 0 then [0, 0xff] else [a[0]];
      LtSharedHead(h, OrderedBytes(a[1..]), OrderedBytes(b[1..]));
      OrderedBytesOrder(a[1..], b[1..]);
    } else {
      assert x[0] == a[0] && y[0] == b[0];
    }
  }

  /** The order of two values of one ordered column type. Floats are compared through the
      sign-magnitude reading of their bits, with both zeros equal. */
  ghost predicate ValueLt(v: Value, w: Value) {
    match (v, w)
    case (Bool(a), Bool(b)) => !a && b
    case (Int64(a), Int64(b)) => a < b
    case (Timestamp(a), Timestamp(b)) => a < b
    case (Time(a), Time(b)) => a < b
    case (Date(a), Date(b)) => a < b
    case (Float64(a), Float64(b)) => SignedMagnitude(a) < SignedMagnitude(b)
    case (Text(a), Text(b)) => Lt(a, b)
    case (Blob(a), Blob(b)) => Lt(a, b)
    case _ => Tag(v) < Tag(w)
  }

  function SignedMagnitude(bits: Bits64): int {
    if bits >= I63 then I63 - bits else bits
  }

  ghost predicate Ordered(v: Value) {
    !v.Json? && !v.Vector?
  }

  /** Comparing two keys byte by byte gives the order of the values. */
  lemma ValueOrder(v: Value, w: Value)
    requires Ordered(v) && Ordered(w)
    ensures Lt(EncodeIndexValue(v), EncodeIndexValue(w)) <==> ValueLt(v, w)
  {
    if Tag(v) == Tag(w) {
      LtSharedHead([Tag(v)], Payload(v), Payload(w));
      PayloadOrder(v, w);
    } else {
      LtFirstByte(Tag(v), Tag(w), Payload(v), Payload(w));
    }
  }

  lemma {:induction false} LtFirstByte(a: Byte, b: Byte, s: Bytes, t: Bytes)
    requires a != b
    ensures Lt([a] + s, [b] + t) <==> a < b
  {
  }

  lemma PayloadOrder(v: Value, w: Value)
    requires Ordered(v) && Ordered(w) && Tag(v) == Tag(w)
    ensures Lt(Payload(v), Payload(w)) <==> ValueLt(v, w)
  {
    Pow256Eight();
    match v {
      case Null => LtIrreflexive(Payload(v));
      case Bool(a) =>
      case Text(a) => OrderedBytesOrder(a, w.text);
      case Blob(a) => OrderedBytesOrder(a, w.blob);
      case Int64(a) => BigEndianOrder(a + I63, w.n + I63, 8);
      case Timestamp(a) => BigEndianOrder(a + I63, w.t + I63, 8);
      case Time(a) => BigEndianOrder(a + I63, w.us + I63, 8);
      case Date(a) => BigEndianOrder(a + I63, w.d + I63, 8);
      case Float64(a) => BigEndianOrder(OrderedFloatBits(a), OrderedFloatBits(w.bits), 8);
    }
  }

  lemma Pow256Eight()
    ensures Pow256(8) == U64
  {
    assert Pow256(4) == U32;
    assert Pow256(6) == 65536 * Pow256(4);
    assert Pow256(8) == 65536 * Pow256(6);
  }

  lemma ScalarInjective(v: Value, w: Value)
    requires Ordered(v) && Ordered(w)
    requires EncodeIndexValue(v) == EncodeIndexValue(w)
    ensures v == w || (v.Float64? && w.Float64? && SignedMagnitude(v.bits) == SignedMagnitude(w.bits) == 0)
  {
    LtIrreflexive(EncodeIndexValue(v));
    ValueOrder(v, w);
    ValueOrder(w, v);
    assert EncodeIndexValue(v)[0] == EncodeIndexValue(w)[0];
    match v {
      case Text(a) => LtTotal(a, w.text);
      case Blob(a) => LtTotal(a, w.blob);
      case _ =>
    }
  }

  lemma {:induction false} ComponentsInjective(a: seq<(Byte, Byte, Byte, Byte)>, b: seq<(Byte, Byte, Byte, Byte)>)
    requires ComponentBytes(a) == ComponentBytes(b)
    ensures a == b
  {
    if a != [] {
      var s, t := ComponentBytes(a), ComponentBytes(b);
      assert s[0] == t[0] && s[1] == t[1] && s[2] == t[2] && s[3] == t[3];
      assert s[4..] == ComponentBytes(a[1..]) && t[4..] == ComponentBytes(b[1..]);
      ComponentsInjective(a[1..], b[1..]);
      assert a == [a[0]] + a[1..] && b == [b[0]] + b[1..];
    }
  }

  /** Behind a length field of its own width lies what was written there. */
  lemma SizedInjective(m: nat, s: Bytes, n: nat, t: Bytes)
    requires LittleEndian(m, 4) + s == LittleEndian(n, 4) + t
    ensures s == t
  {
    assert (LittleEndian(m, 4) + s)[4..] == s && (LittleEndian(n, 4) + t)[4..] == t;
  }

  lemma PayloadsEqual(v: Value, w: Value)
    requires EncodeIndexValue(v) == EncodeIndexValue(w)
    ensures Tag(v) == Tag(w) && Payload(v) == Payload(w)
  {
    assert EncodeIndexValue(v)[0] == Tag(v) && EncodeIndexValue(w)[0] == Tag(w);
    assert EncodeIndexValue(v)[1..] == Payload(v) && EncodeIndexValue(w)[1..] == Payload(w);
  }

  /** Equal keys hold equal values: the encoding identifies exactly `-0.0` and `0.0`. */
  lemma ValueInjective(v: Value, w: Value)
    requires EncodeIndexValue(v) == EncodeIndexValue(w)
    ensures v == w || (v.Float64? && w.Float64? && SignedMagnitude(v.bits) == SignedMagnitude(w.bits) == 0)
  {
    PayloadsEqual(v, w);
    match v {
      case Json(a) => SizedInjective(|a|, a, |w.json|, w.json);
      case Vector(a) =>
        SizedInjective(|a|, ComponentBytes(a), |w.components|, ComponentBytes(w.components));
        ComponentsInjective(a, w.components);
      case _ => ScalarInjective(v, w);
    }
  }

  /** Lexicographic order of tuples, component by component. */
  ghost predicate TupleLt(vs: seq<Value>, ws: seq<Value>)
    requires |vs| == |ws|
  {
    vs != [] && (ValueLt(vs[0], ws[0])
                 || (EncodeIndexValue(vs[0]) == EncodeIndexValue(ws[0]) && TupleLt(vs[1..], ws[1..])))
  }

  /** A composite key sorts like its tuple. */
  lemma {:induction false} TupleOrder(vs: seq<Value>, ws: seq<Value>)
    requires |vs| == |ws|
    requires forall v :: v in vs || v in ws ==> Ordered(v)
    ensures Lt(TupleKey(vs), TupleKey(ws)) <==> TupleLt(vs, ws)
  {
    if vs != [] {
      var v, w := EncodeIndexValue(vs[0]), EncodeIndexValue(ws[0]);
      ValueOrder(vs[0], ws[0]);
      TupleOrder(vs[1..], ws[1..]);
      if v == w {
        LtSharedHead(v, TupleKey(vs[1..]), TupleKey(ws[1..]));
        LtIrreflexive(v);
      } else {
        ValueNotPrefix(vs[0], ws[0]);
        ValueNotPrefix(ws[0], vs[0]);
        LtDecided(v, w, TupleKey(vs[1..]), TupleKey(ws[1..]));
      }
    }
  }

  lemma ValueNotPrefix(v: Value, w: Value)
    requires Sized(v) && Sized(w) && EncodeIndexValue(v) != EncodeIndexValue(w)
    ensures !(EncodeIndexValue(v) <= EncodeIndexValue(w))
  {
    var x, y := EncodeIndexValue(v), EncodeIndexValue(w);
    if x <= y {
      assert x + y[|x|..] == y + [];
      ValueDelimited(v, w, y[|x|..], []);
    }
  }
}
