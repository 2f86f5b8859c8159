/** Physical entries of a secondary index: `tag key 0xff id` pairs and the nine-byte
    versioned operation stored with them. */
module PairCodec {
  import opened Order
  import opened OverlayMerge

  const ENTRY_TAG: Byte := 1
  const SEPARATOR: Byte := 0xff

  datatype Result<+T> = Ok(value: T) | Corrupt(message: string)

  /* ---- UTF-8 (section 4 of RFC 3629) ---- */

  predicate Tail(b: Byte) {
    0x80 <= b <= 0xBF
  }

  predicate ValidUtf8(s: Bytes) {
    s == []
    || (s[0] <= 0x7F && ValidUtf8(s[1..]))
    || (|s| >= 2 && 0xC2 <= s[0] <= 0xDF && Tail(s[1]) && ValidUtf8(s[2..]))
    || (|s| >= 3 && Lead3(s[0], s[1]) && Tail(s[2]) && ValidUtf8(s[3..]))
    || (|s| >= 4 && Lead4(s[0], s[1]) && Tail(s[2]) && Tail(s[3]) && ValidUtf8(s[4..]))
  }

  predicate Lead3(a: Byte, b: Byte) {
    || (a == 0xE0 && 0xA0 <= b <= 0xBF)
    || ((0xE1 <= a <= 0xEC || 0xEE <= a <= 0xEF) && Tail(b))
    || (a == 0xED && 0x80 <= b <= 0x9F)
  }

  predicate Lead4(a: Byte, b: Byte) {
    || (a == 0xF0 && 0x90 <= b <= 0xBF)
    || (0xF1 <= a <= 0xF3 && Tail(b))
    || (a == 0xF4 && 0x80 <= b <= 0x8F)
  }

  /** A row identity: the bytes of a Rust `str`. */
  type Id = s: Bytes | ValidUtf8(s) witness []

  /** `0xff` cannot occur in UTF-8, which is what lets it end the key. */
  lemma {:induction false} Utf8HasNoSeparator(s: Bytes)
    requires ValidUtf8(s)
    ensures SEPARATOR !in s
  {
    if s == [] {
    } else if s[0] <= 0x7F && ValidUtf8(s[1..]) {
      Utf8HasNoSeparator(s[1..]);
      assert s == [s[0]] + s[1..];
    } else if |s| >= 2 && 0xC2 <= s[0] <= 0xDF && Tail(s[1]) && ValidUtf8(s[2..]) {
      Utf8HasNoSeparator(s[2..]);
      assert s == [s[0], s[1]] + s[2..];
    } else if |s| >= 3 && Lead3(s[0], s[1]) && Tail(s[2]) && ValidUtf8(s[3..]) {
      Utf8HasNoSeparator(s[3..]);
      assert s == [s[0], s[1], s[2]] + s[3..];
    } else {
      Utf8HasNoSeparator(s[4..]);
      assert s == [s[0], s[1], s[2], s[3]] + s[4..];
    }
  }

  /* ---- pairs ---- */

  function PairPrefix(key: Bytes): Bytes {
    [ENTRY_TAG] + key + [SEPARATOR]
  }

  function PairKey(key: Bytes, id: Id): Bytes {
    PairPrefix(key) + id
  }

  /** Offset of the last occurrence of `b`. */
  function LastIndex(s: Bytes, b: Byte): (r: Option<nat>)
    ensures r.None? ==> b !in s
    ensures r.Some? ==> r.value < |s| && s[r.value] == b && b !in s[r.value + 1..]
  {
    if s == [] then None
    else if s[|s| - 1] == b then Some(|s| - 1)
    else
      var r := LastIndex(s[..|s| - 1], b);
      assert s == s[..|s| - 1] + [s[|s| - 1]];
      assert r.Some? ==> s[r.value + 1..] == s[..|s| - 1][r.value + 1..] + [s[|s| - 1]];
      r
  }

  function PairParts(pair: Bytes): Result<(Bytes, Id)> {
    if pair == [] || pair[0] != ENTRY_TAG then Corrupt("secondary index: invalid pair key")
    else match LastIndex(pair[1..], SEPARATOR)
      case None => Corrupt("secondary index: missing pair terminator")
      case Some(offset) =>
        var separator := offset + 1;
        var id := pair[separator + 1..];
        if ValidUtf8(id) then Ok((pair[1..separator], id)) else Corrupt("secondary index: invalid id utf8")
  }

  /** Decoding inverts encoding for every key, even one that contains `0xff`. */
  lemma PairRoundTrip(key: Bytes, id: Id)
    ensures PairParts(PairKey(key, id)) == Ok((key, id))
  {
    var pair := PairKey(key, id);
    Utf8HasNoSeparator(id);
    var tail := pair[1..];
    assert tail[|key|] == SEPARATOR && tail[|key| + 1..] == id;
    LastIndexUnique(tail, SEPARATOR, |key|);
    assert pair[1..|key| + 1] == key && pair[|key| + 2..] == id;
  }

  lemma {:induction false} LastIndexUnique(s: Bytes, b: Byte, i: nat)
    requires i < |s| && s[i] == b && b !in s[i + 1..]
    ensures LastIndex(s, b) == Some(i)
  {
    var r := LastIndex(s, b);
    assert r.Some?;
    assert forall j :: i < j < |s| ==> s[j] == s[i + 1..][j - i - 1];
    assert forall j :: r.value < j < |s| ==> s[j] == s[r.value + 1..][j - r.value - 1];
  }

  /** What decodes is what was encoded: no two pairs decode alike, and every accepted
      byte string is the encoding of its parts. */
  lemma PairPartsInverse(pair: Bytes)
    ensures PairParts(pair).Ok? ==> PairKey(PairParts(pair).value.0, PairParts(pair).value.1) == pair
  {
    if PairParts(pair).Ok? {
      var separator := LastIndex(pair[1..], SEPARATOR).value + 1;
      assert pair == [pair[0]] + pair[1..separator] + [pair[separator]] + pair[separator + 1..];
    }
  }

  ghost predicate PrefixFree(keys: iset<Bytes>) {
    forall a, b :: a in keys && b in keys && a <= b ==> a == b
  }

  /** On prefix-free keys the pair order is the (key, id) tuple order. */
  lemma {:induction false} PairOrder(keys: iset<Bytes>, k: Bytes, i: Id, l: Bytes, j: Id)
    requires PrefixFree(keys) && k in keys && l in keys
    ensures Lt(PairKey(k, i), PairKey(l, j)) <==> Lt(k, l) || (k == l && Lt(i, j))
  {
    if k == l {
      LtSharedHead(PairPrefix(k), i, j);
      LtIrreflexive(k);
    } else {
      assert PairKey(k, i) == [ENTRY_TAG] + (k + ([SEPARATOR] + i));
      assert PairKey(l, j) == [ENTRY_TAG] + (l + ([SEPARATOR] + j));
      LtSharedHead([ENTRY_TAG], k + ([SEPARATOR] + i), l + ([SEPARATOR] + j));
      LtDecided(k, l, [SEPARATOR] + i, [SEPARATOR] + j);
    }
  }

  /** On prefix-free keys the prefix of one key selects the pairs of that key only. */
  lemma PairIsolation(keys: iset<Bytes>, k: Bytes, l: Bytes, j: Id)
    requires PrefixFree(keys) && k in keys && l in keys
    ensures PairPrefix(k) <= PairKey(l, j) <==> k == l
  {
    var pair := PairKey(l, j);
    if PairPrefix(k) <= pair {
      assert PairPrefix(k)[1..|k| + 1] == k;
      assert pair[1..|k| + 1] == k;
      assert pair[1..|l| + 1] == l;
      assert k <= l || l <= k;
    }
  }

  /** Without it the scan of one key runs into the pairs of another. */
  lemma PairIsolationNeedsPrefixFree()
    ensures exists k: Bytes, l: Bytes, j: Id :: k != l && PairPrefix(k) <= PairKey(l, j)
  {
    var k: Bytes, l: Bytes, j: Id := [5], [5, 0xff], [];
    assert PairPrefix(k) == [1, 5, 0xff] && PairKey(l, j) == [1, 5, 0xff, 0xff];
    assert k != l && PairPrefix(k) <= PairKey(l, j);
  }

  /* ---- operations ---- */

  function Pow256(n: nat): (p: nat)
    ensures p > 0
  {
    if n == 0 then 1 else 256 * Pow256(n - 1)
  }

  /** The low `n` bytes of `v`, most significant first. */
  function BigEndian(v: nat, n: nat): (s: Bytes)
    ensures |s| == n
    decreases n, v
  {
    if n == 0 then [] else BigEndian(v / 256, n - 1) + [v % 256]
  }

  function FromBigEndian(s: Bytes): nat {
    if s == [] then 0 else 256 * FromBigEndian(s[..|s| - 1]) + s[|s| - 1]
  }

  lemma {:induction false} BigEndianRoundTrip(v: nat, n: nat)
    requires v < Pow256(n)
    ensures FromBigEndian(BigEndian(v, n)) == v
    decreases n
  {
    if n > 0 {
      BigEndianRoundTrip(v / 256, n - 1);
      assert BigEndian(v, n)[..n - 1] == BigEndian(v / 256, n - 1);
    }
  }

  lemma {:induction false} FromBigEndianRoundTrip(s: Bytes)
    ensures FromBigEndian(s) < Pow256(|s|)
    ensures BigEndian(FromBigEndian(s), |s|) == s
  {
    if s != [] {
      var h := s[..|s| - 1];
      FromBigEndianRoundTrip(h);
      assert FromBigEndian(s) / 256 == FromBigEndian(h) && FromBigEndian(s) % 256 == s[|s| - 1];
      assert s == h + [s[|s| - 1]];
    }
  }

  /** Big-endian bytes compare like the numbers. */
  lemma {:induction false} BigEndianOrder(a: nat, b: nat, n: nat)
    requires a < Pow256(n) && b < Pow256(n)
    ensures Lt(BigEndian(a, n), BigEndian(b, n)) <==> a < b
    decreases n
  {
    if n > 0 {
      BigEndianOrder(a / 256, b / 256, n - 1);
      LtLastByte(BigEndian(a / 256, n - 1), BigEndian(b / 256, n - 1), a % 256, b % 256);
      if BigEndian(a / 256, n - 1) == BigEndian(b / 256, n - 1) {
        BigEndianRoundTrip(a / 256, n - 1);
        BigEndianRoundTrip(b / 256, n - 1);
      }
      LtIrreflexive(BigEndian(a / 256, n - 1));
    }
  }

  lemma {:induction false} LtLastByte(a: seq<int>, b: seq<int>, x: int, y: int)
    requires |a| == |b|
    ensures Lt(a + [x], b + [y]) <==> Lt(a, b) || (a == b && x < y)
  {
    if a != [] {
      assert (a + [x])[1..] == a[1..] + [x] && (b + [y])[1..] == b[1..] + [y];
      LtLastByte(a[1..], b[1..], x, y);
      LtIrreflexive(a);
      if a[0] == b[0] && a[1..] == b[1..] { assert a == [a[0]] + a[1..] == b; }
    }
  }

  function EncodeOperation(o: VOp): (s: Bytes)
    requires o.version < Pow256(8)
    ensures |s| == 9
  {
    BigEndian(o.version, 8) + [if o.op == Add then 1 else 0]
  }

  function DecodeOperation(s: Bytes): Result<VOp> {
    if |s| != 9 || s[8] > 1 then Corrupt("secondary index: invalid operation")
    else Ok(VOp(FromBigEndian(s[..8]), if s[8] == 1 then Add else Delete))
  }

  lemma OperationRoundTrip(o: VOp)
    requires o.version < Pow256(8)
    ensures DecodeOperation(EncodeOperation(o)) == Ok(o)
  {
    assert EncodeOperation(o)[..8] == BigEndian(o.version, 8);
    BigEndianRoundTrip(o.version, 8);
  }

  lemma OperationInverse(s: Bytes)
    requires DecodeOperation(s).Ok?
    ensures DecodeOperation(s).value.version < Pow256(8)
    ensures EncodeOperation(DecodeOperation(s).value) == s
  {
    FromBigEndianRoundTrip(s[..8]);
    assert s == s[..8] + [s[8]];
  }

  /** The lexicographically greatest stored value is the newest operation, which is what
      promotion keeps when it compares raw values. */
  lemma OperationOrder(a: VOp, b: VOp)
    requires a.version < Pow256(8) && b.version < Pow256(8)
    ensures Lt(EncodeOperation(a), EncodeOperation(b)) <==> Newer(b, a)
  {
    BigEndianOrder(a.version, b.version, 8);
    LtLastByte(BigEndian(a.version, 8), BigEndian(b.version, 8),
               if a.op == Add then 1 else 0, if b.op == Add then 1 else 0);
    BigEndianRoundTrip(a.version, 8);
    BigEndianRoundTrip(b.version, 8);
  }
}
