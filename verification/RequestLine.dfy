/** Line framing of the sidecar protocol: whatever way the bytes of a connection arrive in
    chunks, the same requests are read. */
module RequestLine {
  import opened Order
  import PairCodec

  const MAX_REQUEST_BYTES: nat := 8 * 1024 * 1024
  const NEWLINE: Byte := 0x0a

  /* ---- the frame a stream starts with ---- */

  predicate NoNewline(s: Bytes, n: int)
    requires n <= |s|
  {
    forall i :: 0 <= i < n ==> s[i] != NEWLINE
  }

  /** Bytes from `i` up to and including the next newline, or to the end. */
  function NewlineFrom(s: Bytes, i: nat): (n: nat)
    requires i <= |s|
    ensures i <= n <= |s| && (i < |s| ==> i < n)
    decreases |s| - i
  {
    if i == |s| then i else if s[i] == NEWLINE then i + 1 else NewlineFrom(s, i + 1)
  }

  /** Bytes up to and including the first newline, or all of them. */
  function ThroughNewline(s: Bytes): nat {
    NewlineFrom(s, 0)
  }

  lemma {:induction false} NewlineFromUnique(s: Bytes, i: nat, n: nat)
    requires i <= n <= |s| && (i == n ==> i == |s|) && NoNewline(s, n - 1)
    requires n == |s| || s[n - 1] == NEWLINE
    ensures NewlineFrom(s, i) == n
    decreases |s| - i
  {
    if i < |s| && s[i] != NEWLINE {
      NewlineFromUnique(s, i + 1, n);
    }
  }

  lemma {:induction false} NewlineFromMeans(s: Bytes, i: nat)
    requires i <= |s| && NoNewline(s, i)
    ensures NoNewline(s, NewlineFrom(s, i) - 1)
    ensures NewlineFrom(s, i) < |s| ==> s[NewlineFrom(s, i) - 1] == NEWLINE
    decreases |s| - i
  {
    if i < |s| && s[i] != NEWLINE {
      NewlineFromMeans(s, i + 1);
    }
  }

  function Min(a: nat, b: nat): nat {
    if a <= b then a else b
  }

  /** Through the first newline, one byte beyond the limit, or the end of the stream,
      whichever comes first. */
  function FrameLength(s: Bytes): nat {
    Min(ThroughNewline(s), MAX_REQUEST_BYTES + 1)
  }

  lemma NoNewlineShift(s: Bytes, n: nat, chunk: Bytes, k: int)
    requires n + |chunk| <= |s| && chunk == s[n..n + |chunk|] && k <= |chunk| && n + k >= 0
    requires NoNewline(s, n) && NoNewline(chunk, k)
    ensures NoNewline(s, n + k)
  {
    assert forall i :: n <= i < n + k ==> s[i] == chunk[i - n];
  }

  /** A newline found in the next chunk is the first one of the stream; without one the
      frame reaches at least to the end of the chunk. */
  lemma ChunkFrame(s: Bytes, n: nat, chunk: Bytes)
    requires n + |chunk| <= |s| && chunk != [] && chunk == s[n..n + |chunk|] && NoNewline(s, n)
    ensures
      var w := ThroughNewline(chunk);
      if chunk[w - 1] == NEWLINE then ThroughNewline(s) == n + w
      else w == |chunk| && NoNewline(s, n + w) && ThroughNewline(s) >= n + w
  {
    var w := ThroughNewline(chunk);
    NewlineFromMeans(chunk, 0);
    NoNewlineShift(s, n, chunk, w - 1);
    if chunk[w - 1] == NEWLINE {
      NewlineFromUnique(s, 0, n + w);
    } else {
      NoNewlineShift(s, n, chunk, w);
      NewlineFromMeans(s, 0);
    }
  }

  /** Taking `k` bytes of a chunk that starts what is left to read. */
  lemma TakeChunk(bytes: Bytes, rest: Bytes, chunk: Bytes, k: nat)
    requires chunk != [] && chunk <= rest && k <= |chunk| && NoNewline(bytes, |bytes|)
    ensures bytes + chunk[..k] + rest[k..] == bytes + rest
    ensures
      var w := ThroughNewline(chunk);
      if chunk[w - 1] == NEWLINE then ThroughNewline(bytes + rest) == |bytes| + w
      else w == |chunk| && NoNewline(bytes + chunk[..k], |bytes| + k) && ThroughNewline(bytes + rest) >= |bytes| + w
  {
    var s := bytes + rest;
    assert chunk == s[|bytes|..|bytes| + |chunk|];
    assert NoNewline(s, |bytes|);
    ChunkFrame(s, |bytes|, chunk);
    assert bytes + chunk[..k] == s[..|bytes| + k];
  }

  /* ---- reading ---- */

  /** A buffered reader: the bytes still to come, of which some are already buffered. */
  class Reader {
    var rest: Bytes
    var buffered: nat

    ghost predicate Valid()
      reads this
    {
      buffered <= |rest|
    }

    constructor (stream: Bytes)
      ensures Valid() && rest == stream
    {
      rest, buffered := stream, 0;
    }

    /** What is buffered, after waiting for some bytes if nothing was. */
    method FillBuf() returns (available: Bytes)
      requires Valid()
      modifies this`buffered
      ensures Valid() && buffered == |available| && available <= rest
      ensures available == [] <==> rest == []
    {
      if buffered == 0 && rest != [] {
        var chunk: nat := *;
        buffered := if chunk == 0 then 1 else Min(chunk, |rest|);
      }
      available := rest[..buffered];
    }

    method Consume(n: nat)
      requires Valid() && n <= buffered
      modifies this
      ensures Valid() && rest == old(rest[n..])
    {
      rest, buffered := rest[n..], buffered - n;
    }
  }

  datatype Read = Line(bytes: Bytes) | NotUtf8 | TimedOut

  /** Collect the bytes of one frame, chunk by chunk. */
  method ReadFrame(reader: Reader, hasDeadline: bool) returns (expired: bool, bytes: Bytes)
    requires reader.Valid()
    modifies reader
    ensures reader.Valid() && (expired ==> hasDeadline) && bytes + reader.rest == old(reader.rest)
    ensures !expired ==> |bytes| == FrameLength(old(reader.rest))
  {
    bytes := [];
    ghost var s := reader.rest;
    while true
      invariant reader.Valid() && bytes + reader.rest == s
      invariant |bytes| <= MAX_REQUEST_BYTES && NoNewline(bytes, |bytes|)
      decreases |reader.rest|
    {
      if hasDeadline {
        expired := *;
        if expired { return; }
      }
      var available := reader.FillBuf();
      if available == [] {
        assert bytes == s;
        NewlineFromUnique(s, 0, |s|);
        return false, bytes;
      }
      var wanted := ThroughNewline(available);
      var consumed := Min(wanted, MAX_REQUEST_BYTES + 1 - |bytes|);
      TakeChunk(bytes, reader.rest, available, consumed);
      var found := available[wanted - 1] == NEWLINE;
      bytes := bytes + available[..consumed];
      reader.Consume(consumed);
      if (found && consumed == wanted) || |bytes| > MAX_REQUEST_BYTES {
        return false, bytes;
      }
    }
  }

  /** One protocol line. Without a deadline the outcome is a function of the byte stream
      alone, and exactly the frame is consumed. */
  method ReadRequestLine(reader: Reader, hasDeadline: bool) returns (r: Read)
    requires reader.Valid()
    modifies reader
    ensures reader.Valid() && (r.TimedOut? ==> hasDeadline)
    ensures !r.TimedOut? ==>
              var n := FrameLength(old(reader.rest));
              && reader.rest == old(reader.rest)[n..]
              && r == if PairCodec.ValidUtf8(old(reader.rest)[..n]) then Line(old(reader.rest)[..n]) else NotUtf8
  {
    ghost var s := reader.rest;
    var expired, bytes := ReadFrame(reader, hasDeadline);
    if expired { return TimedOut; }
    assert bytes == s[..|bytes|] && reader.rest == s[|bytes|..];
    r := if PairCodec.ValidUtf8(bytes) then Line(bytes) else NotUtf8;
  }

  /* ---- a whole connection ---- */

  function Concat(lines: seq<Bytes>): Bytes {
    if lines == [] then [] else lines[0] + Concat(lines[1..])
  }

  /** Every frame the reader would produce. */
  function Frames(s: Bytes): seq<Bytes>
    decreases |s|
  {
    if s == [] then [] else [s[..FrameLength(s)]] + Frames(s[FrameLength(s)..])
  }

  /** Successive frames lose, add and reorder nothing. */
  lemma {:induction false} FramesPartition(s: Bytes)
    ensures Concat(Frames(s)) == s
    decreases |s|
  {
    if s != [] {
      var n := FrameLength(s);
      FramesPartition(s[n..]);
      assert ([s[..n]] + Frames(s[n..]))[1..] == Frames(s[n..]);
      assert s[..n] + s[n..] == s;
    }
  }

  /** A request as a client sends it: one newline, at the end, within the limit. */
  predicate IsRequest(line: Bytes) {
    && 0 < |line| <= MAX_REQUEST_BYTES && line[|line| - 1] == NEWLINE
    && NoNewline(line, |line| - 1)
  }

  predicate AreRequests(lines: seq<Bytes>) {
    forall i :: 0 <= i < |lines| ==> IsRequest(lines[i])
  }

  lemma FrameOfRequest(line: Bytes, tail: Bytes)
    requires IsRequest(line)
    ensures FrameLength(line + tail) == |line|
    ensures (line + tail)[..|line|] == line && (line + tail)[|line|..] == tail
  {
    assert NoNewline(line + tail, |line| - 1);
    NewlineFromUnique(line + tail, 0, |line|);
  }

  /** Requests written back to back are read back one by one, whatever follows them. */
  lemma {:induction false} FramesRoundTrip(lines: seq<Bytes>, tail: Bytes)
    requires AreRequests(lines)
    ensures Frames(Chain(Concat(lines), tail)) == Chain(lines, Frames(tail))
  {
    if lines != [] {
      var rest := Chain(Concat(lines[1..]), tail);
      ConcatChain(lines, tail);
      FramesFront(lines[0], rest);
      FramesRoundTrip(lines[1..], tail);
      assert lines == [lines[0]] + lines[1..];
    }
  }

  lemma ConcatChain(lines: seq<Bytes>, tail: Bytes)
    requires lines != [] && IsRequest(lines[0])
    ensures Chain(Concat(lines), tail) == lines[0] + Chain(Concat(lines[1..]), tail)
  {
  }

  lemma {:induction false} FramesFront(line: Bytes, rest: Bytes)
    requires IsRequest(line)
    ensures Frames(line + rest) == [line] + Frames(rest)
  {
    FrameOfRequest(line, rest);
  }

  predicate Acceptable(frame: Bytes) {
    IsRequest(frame) && PairCodec.ValidUtf8(frame)
  }

  /** How many of the first frames are handled before one ends the connection. */
  function Handled(frames: seq<Bytes>): (n: nat)
    ensures n <= |frames|
  {
    if frames == [] || !Acceptable(frames[0]) then 0 else 1 + Handled(frames[1..])
  }

  lemma {:induction false} HandledMeans(frames: seq<Bytes>, n: nat)
    requires n <= |frames| && (forall i :: 0 <= i < n ==> Acceptable(frames[i]))
    requires n == |frames| || !Acceptable(frames[n])
    ensures Handled(frames) == n
  {
    if n > 0 {
      HandledMeans(frames[1..], n - 1);
    }
  }

  lemma FrameShape(s: Bytes)
    requires s != []
    ensures var f := s[..FrameLength(s)];
            IsRequest(f) <==> |f| <= MAX_REQUEST_BYTES && f[|f| - 1] == NEWLINE
  {
    NewlineFromMeans(s, 0);
  }

  /** Where the receive loop stands after handling `lines`, with `rest` still unread. */
  lemma {:induction false} Stops(frames: seq<Bytes>, lines: seq<Bytes>, rest: Bytes)
    requires frames == Chain(lines, Frames(rest)) && forall i :: 0 <= i < |lines| ==> Acceptable(lines[i])
    requires rest == [] || !Acceptable(rest[..FrameLength(rest)])
    ensures lines == frames[..Handled(frames)] && (rest == [] <==> Handled(frames) == |frames|)
  {
    assert frames[..|lines|] == lines;
    if rest != [] { assert frames[|lines|] == rest[..FrameLength(rest)]; }
    HandledMeans(frames, |lines|);
  }

  lemma OneMore(lines: seq<Bytes>, frame: Bytes, rest: seq<Bytes>)
    ensures Chain(lines, [frame] + rest) == Chain(lines + [frame], rest)
  {
  }

  datatype Ending = Disconnected | Refused | Garbled

  /** Read one frame and decide whether it is handled. */
  method Receive(reader: Reader) returns (line: Option<Bytes>, ending: Ending)
    requires reader.Valid()
    modifies reader
    ensures reader.Valid()
    ensures var rest := old(reader.rest);
            var frame := rest[..FrameLength(rest)];
            && reader.rest == rest[FrameLength(rest)..]
            && (line == None <==> rest == [] || !Acceptable(frame))
            && (line.Some? ==> line.value == frame)
            && (line == None ==> (ending == Disconnected <==> rest == []))
  {
    ending := Disconnected;
    if reader.rest != [] { FrameShape(reader.rest); }
    var r := ReadRequestLine(reader, false);
    if r.NotUtf8? { return None, Garbled; }
    if r.bytes == [] { return None, Disconnected; }
    if |r.bytes| > MAX_REQUEST_BYTES || r.bytes[|r.bytes| - 1] != NEWLINE { return None, Refused; }
    line := Some(r.bytes);
  }

  /** The receive loop of a connection: the requests handled are the leading acceptable
      frames of the byte stream, however it was chunked. */
  method ReadConnection(reader: Reader) returns (lines: seq<Bytes>, ending: Ending)
    requires reader.Valid()
    modifies reader
    ensures var frames := Frames(old(reader.rest));
            && lines == frames[..Handled(frames)]
            && (ending == Disconnected <==> Handled(frames) == |frames|)
  {
    lines := [];
    ghost var frames := Frames(reader.rest);
    while true
      invariant reader.Valid() && frames == Chain(lines, Frames(reader.rest))
      invariant forall i :: 0 <= i < |lines| ==> Acceptable(lines[i])
      decreases |reader.rest|
    {
      ghost var rest := reader.rest;
      var line;
      line, ending := Receive(reader);
      if line == None {
        Stops(frames, lines, rest);
        return;
      }
      OneMore(lines, line.value, Frames(reader.rest));
      lines := lines + [line.value];
    }
  }
}
