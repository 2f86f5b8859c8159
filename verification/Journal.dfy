/** The oracle journal: one checksummed line per event, read back after a kill that may
    have torn the last line. */
module Journal {
  import opened Order
  import opened CrashRecovery

  const NEWLINE: Byte := 10
  const TAB: Byte := 9
  const PLUS: Byte := 43

  /** JSON and CRC-32, which the journal only relies on through `WellBehaved`. */
  datatype Codec = Codec(encode: Event -> Bytes, decode: Bytes -> Option<Event>, crc: Bytes -> nat)

  ghost predicate WellBehaved(c: Codec) {
    && (forall e :: NEWLINE !in c.encode(e) && c.decode(c.encode(e)) == Some(e))
    && (forall b :: c.crc(b) < 0x1_0000_0000)
  }

  datatype ReadError = NoChecksum | InvalidChecksum | ChecksumMismatch | InvalidEvent

  datatype Read<+T> = Good(value: T) | Bad(error: ReadError)

  /* ---- the checksum text ---- */

  function HexDigit(d: nat): Byte
    requires d < 16
  {
    if d < 10 then 48 + d else 87 + d
  }

  function HexValue(b: Byte): Option<nat> {
    if 48 <= b <= 57 then Some(b - 48)
    else if 97 <= b <= 102 then Some(b - 87)
    else if 65 <= b <= 70 then Some(b - 55)
    else None
  }

  /** `width` lower-case digits, most significant first. */
  function Hex(n: nat, width: nat): (s: Bytes)
    ensures |s| == width
    decreases width, n
  {
    if width == 0 then [] else Hex(n / 16, width - 1) + [HexDigit(n % 16)]
  }

  function Pow16(n: nat): nat {
    if n == 0 then 1 else 16 * Pow16(n - 1)
  }

  function HexDigits(s: Bytes): Option<nat> {
    if s == [] then Some(0)
    else
      var h, d := HexDigits(s[..|s| - 1]), HexValue(s[|s| - 1]);
      if h.None? || d.None? then None else Some(16 * h.value + d.value)
  }

  /** Radix-16 parsing of a 32-bit number: an optional sign, then at least one digit. */
  function ParseChecksum(s: Bytes): Option<nat> {
    var body := if s != [] && s[0] == PLUS then s[1..] else s;
    if body == [] then None
    else
      var v := HexDigits(body);
      if v.Some? && v.value < 0x1_0000_0000 then v else None
  }

  lemma {:induction false} HexRoundTrip(n: nat, width: nat)
    requires n < Pow16(width)
    ensures HexDigits(Hex(n, width)) == Some(n)
    ensures forall i :: 0 <= i < width ==> Hex(n, width)[i] >= 48
    decreases width
  {
    if width > 0 {
      HexRoundTrip(n / 16, width - 1);
      assert Hex(n, width)[..width - 1] == Hex(n / 16, width - 1);
    }
  }

  lemma HexDigitText(d: nat)
    requires d < 16
    ensures HexDigit(d) == "0123456789abcdef"[d] as int && HexValue("0123456789ABCDEF"[d] as int) == Some(d)
  {
  }

  /** Most significant digit first. */
  lemma {:induction false} HexPlaces(n: nat, width: nat, i: nat)
    requires i < width
    ensures Hex(n, width)[width - 1 - i] == HexDigit(Shift(n, 16, i) % 16)
    decreases width
  {
    if i > 0 { HexPlaces(n / 16, width - 1, i - 1); }
  }

  lemma {:induction false} ChecksumRoundTrip(n: nat)
    requires n < 0x1_0000_0000
    ensures ParseChecksum(Hex(n, 8)) == Some(n)
    ensures TAB !in Hex(n, 8) && NEWLINE !in Hex(n, 8)
  {
    assert Pow16(8) == 0x1_0000_0000;
    HexRoundTrip(n, 8);
  }

  /* ---- lines ---- */

  function EncodeEvent(c: Codec, e: Event): Bytes {
    var json := c.encode(e);
    Hex(c.crc(json), 8) + ([TAB] + json) + [NEWLINE]
  }

  /** Offset of the first occurrence of `b`, or the length. */
  function Find(s: Bytes, b: Byte): (i: nat)
    ensures i <= |s| && (forall j :: 0 <= j < i ==> s[j] != b) && (i < |s| ==> s[i] == b)
  {
    if s == [] || s[0] == b then 0 else Find(s[1..], b) + 1
  }

  function DecodeLine(c: Codec, line: Bytes): Read<Event> {
    var tab := Find(line, TAB);
    if tab == |line| then Bad(NoChecksum)
    else
      var expected := ParseChecksum(line[..tab]);
      var json := line[tab + 1..];
      if expected.None? then Bad(InvalidChecksum)
      else if c.crc(json) != expected.value then Bad(ChecksumMismatch)
      else match c.decode(json) case None => Bad(InvalidEvent) case Some(e) => Good(e)
  }

  lemma {:induction false} FindFirst(s: Bytes, b: Byte, rest: Bytes)
    requires b !in s
    ensures Find(s + ([b] + rest), b) == |s|
  {
    var t := s + ([b] + rest);
    assert t[|s|] == b && forall j :: 0 <= j < |s| ==> t[j] == s[j];
  }

  lemma Halves(a: Bytes, b: Byte, rest: Bytes)
    ensures var s := a + ([b] + rest); s[..|a|] == a && s[|a|] == b && s[|a| + 1..] == rest
  {
  }

  lemma LineRoundTrip(c: Codec, e: Event)
    requires WellBehaved(c)
    ensures var text := EncodeEvent(c, e);
            && |text| > 1 && NEWLINE !in text[..|text| - 1] && text[|text| - 1] == NEWLINE
            && DecodeLine(c, text[..|text| - 1]) == Good(e)
  {
    var json := c.encode(e);
    var sum := Hex(c.crc(json), 8);
    var text := EncodeEvent(c, e);
    var line := text[..|text| - 1];
    assert line == sum + ([TAB] + json);
    ChecksumRoundTrip(c.crc(json));
    FindFirst(sum, TAB, json);
    Halves(sum, TAB, json);
    assert |sum| == 8;
  }

  /** The events of complete lines; empty lines are skipped. */
  function Lines(c: Codec, data: Bytes): Read<seq<Event>>
    decreases |data|
  {
    if data == [] then Good([])
    else
      var nl := Find(data, NEWLINE);
      var rest := if nl < |data| then data[nl + 1..] else [];
      if nl == 0 then Lines(c, rest)
      else match DecodeLine(c, data[..nl])
        case Bad(e) => Bad(e)
        case Good(event) =>
          match Lines(c, rest)
          case Bad(e) => Bad(e)
          case Good(events) => Good([event] + events)
  }

  /** Length of the part that ends in a newline. */
  function ValidLength(data: Bytes): (n: nat)
    ensures n <= |data| && (forall i :: n <= i < |data| ==> data[i] != NEWLINE) && (n > 0 ==> data[n - 1] == NEWLINE)
  {
    if data == [] then 0 else if data[|data| - 1] == NEWLINE then |data| else ValidLength(data[..|data| - 1])
  }

  function EncodeAll(c: Codec, events: seq<Event>): Bytes {
    if events == [] then [] else EncodeEvent(c, events[0]) + EncodeAll(c, events[1..])
  }

  /** One encoded event in front of other lines is read first. */
  lemma {:induction false} FrontLine(c: Codec, e: Event, tail: Bytes)
    requires WellBehaved(c)
    ensures Lines(c, EncodeEvent(c, e) + tail) == Prepend([e], Lines(c, tail))
  {
    var text := EncodeEvent(c, e);
    LineRoundTrip(c, e);
    var line := text[..|text| - 1];
    var data := text + tail;
    assert data == line + ([NEWLINE] + tail);
    FindFirst(line, NEWLINE, tail);
    Halves(line, NEWLINE, tail);
    LinesStep(c, data);
  }

  lemma {:induction false} LinesRoundTrip(c: Codec, events: seq<Event>)
    requires WellBehaved(c)
    ensures Lines(c, EncodeAll(c, events)) == Good(events)
  {
    if events != [] {
      FrontLine(c, events[0], EncodeAll(c, events[1..]));
      LinesRoundTrip(c, events[1..]);
      assert events == [events[0]] + events[1..];
    }
  }

  /** The text of events ends in a newline. */
  lemma {:induction false} EncodedEnds(c: Codec, events: seq<Event>)
    requires WellBehaved(c) && events != []
    ensures EncodeAll(c, events) != [] && EncodeAll(c, events)[|EncodeAll(c, events)| - 1] == NEWLINE
  {
    LineRoundTrip(c, events[0]);
    var text, tail := EncodeEvent(c, events[0]), EncodeAll(c, events[1..]);
    if |events| > 1 {
      EncodedEnds(c, events[1..]);
      assert (text + tail)[|text + tail| - 1] == tail[|tail| - 1];
    } else {
      assert events[1..] == [] && text + tail == text;
    }
  }

  lemma {:induction false} ValidLengthUnique(data: Bytes, n: nat)
    requires n <= |data| && (forall i :: n <= i < |data| ==> data[i] != NEWLINE) && (n > 0 ==> data[n - 1] == NEWLINE)
    ensures ValidLength(data) == n
  {
  }

  /** What a reader of the file returns: events, torn bytes, highest transaction. */
  function Reading(c: Codec, data: Bytes): Read<(seq<Event>, nat, nat)> {
    var n := ValidLength(data);
    match Lines(c, data[..n])
    case Bad(e) => Bad(e)
    case Good(events) => Good((events, |data| - n, MaxTx(events)))
  }

  /** Any list of events followed by any proper prefix of one more reads back as exactly
      that list, with the exact number of torn bytes. */
  lemma TornJournalReadsBack(c: Codec, events: seq<Event>, last: Event, torn: nat)
    requires WellBehaved(c) && torn < |EncodeEvent(c, last)|
    ensures Reading(c, EncodeAll(c, events) + EncodeEvent(c, last)[..torn]) == Good((events, torn, MaxTx(events)))
  {
    var tail := EncodeEvent(c, last)[..torn];
    TornTail(c, last, torn);
    AppendIsChain(EncodeAll(c, events), tail);
    TailReadsBack(c, events, tail, Chain(EncodeAll(c, events), tail));
  }

  lemma AppendIsChain(a: Bytes, b: Bytes)
    ensures a + b == Chain(a, b)
  {
  }

  /** Only the last byte of an encoded event is a newline. */
  lemma TornTail(c: Codec, last: Event, torn: nat)
    requires WellBehaved(c) && torn < |EncodeEvent(c, last)|
    ensures NEWLINE !in EncodeEvent(c, last)[..torn]
  {
    LineRoundTrip(c, last);
    var text := EncodeEvent(c, last);
    assert forall i :: 0 <= i < torn ==> text[..torn][i] == text[..|text| - 1][i];
  }

  lemma {:induction false} ValidBehind(whole: Bytes, tail: Bytes)
    requires whole != [] && whole[|whole| - 1] == NEWLINE && NEWLINE !in tail
    ensures ValidLength(whole + tail) == |whole| && (whole + tail)[..|whole|] == whole
  {
    var data := whole + tail;
    assert forall i :: |whole| <= i < |data| ==> data[i] == tail[i - |whole|];
    ValidLengthUnique(data, |whole|);
  }

  lemma TailReadsBack(c: Codec, events: seq<Event>, tail: Bytes, data: Bytes)
    requires WellBehaved(c) && NEWLINE !in tail && data == Chain(EncodeAll(c, events), tail)
    ensures Reading(c, data) == Good((events, |tail|, MaxTx(events)))
  {
    LinesRoundTrip(c, events);
    if events == [] {
      ReadingIs(c, data, 0, events);
    } else {
      EncodedEnds(c, events);
      ValidBehind(EncodeAll(c, events), tail);
      ReadingIs(c, data, |EncodeAll(c, events)|, events);
    }
  }

  lemma {:induction false} ReadingIs(c: Codec, data: Bytes, n: nat, events: seq<Event>)
    requires n <= |data| && (forall i :: n <= i < |data| ==> data[i] != NEWLINE) && (n > 0 ==> data[n - 1] == NEWLINE)
    requires Lines(c, data[..n]) == Good(events)
    ensures Reading(c, data) == Good((events, |data| - n, MaxTx(events)))
  {
    ValidLengthUnique(data, n);
  }

  method LastNewline(data: Bytes) returns (n: nat)
    ensures n == ValidLength(data)
  {
    n := |data|;
    assert data[..n] == data;
    while n > 0 && data[n - 1] != NEWLINE
      invariant 0 <= n <= |data| && ValidLength(data) == ValidLength(data[..n])
    {
      assert data[..n][..n - 1] == data[..n - 1];
      n := n - 1;
    }
  }

  function Prepend(events: seq<Event>, r: Read<seq<Event>>): Read<seq<Event>> {
    match r case Bad(e) => Bad(e) case Good(rest) => Good(Chain(events, rest))
  }

  lemma PrependOne(events: seq<Event>, event: Event, r: Read<seq<Event>>)
    ensures Prepend(events, Prepend([event], r)) == Prepend(events + [event], r)
  {
    if r.Good? { assert Chain(events, Chain([event], r.value)) == Chain(events + [event], r.value); }
  }

  lemma LinesStep(c: Codec, data: Bytes)
    requires data != []
    ensures var nl := Find(data, NEWLINE);
            var rest := Lines(c, if nl < |data| then data[nl + 1..] else []);
            Lines(c, data) ==
              if nl == 0 then rest
              else match DecodeLine(c, data[..nl]) case Bad(e) => Bad(e) case Good(event) => Prepend([event], rest)
  {
  }

  lemma {:induction false} MaxTxSnoc(events: seq<Event>, e: Event)
    ensures MaxTx(events + [e]) == Max(MaxTx(events), e.tx)
  {
    assert (events + [e])[..|events|] == events;
  }

  method ReadLines(c: Codec, valid: Bytes) returns (r: Read<seq<Event>>, maxTx: nat)
    ensures r == Lines(c, valid)
    ensures r.Good? ==> maxTx == MaxTx(r.value)
  {
    var rest, events := valid, [];
    maxTx := 0;
    while rest != []
      invariant Lines(c, valid) == Prepend(events, Lines(c, rest)) && maxTx == MaxTx(events)
      decreases |rest|
    {
      LinesStep(c, rest);
      var nl := Find(rest, NEWLINE);
      var line := rest[..nl];
      rest := if nl < |rest| then rest[nl + 1..] else [];
      if nl == 0 { continue; }
      match DecodeLine(c, line) {
        case Bad(e) => return Bad(e), maxTx;
        case Good(event) =>
          PrependOne(events, event, Lines(c, rest));
          MaxTxSnoc(events, event);
          events, maxTx := events + [event], Max(maxTx, event.tx);
      }
    }
    assert events + [] == events;
    r := Good(events);
  }

  /** The reader itself: find the last newline, then take the lines before it one by one. */
  method ReadJournal(c: Codec, data: Bytes) returns (r: Read<(seq<Event>, nat, nat)>)
    ensures r == Reading(c, data)
  {
    var validLen := LastNewline(data);
    var lines, maxTx := ReadLines(c, data[..validLen]);
    match lines {
      case Bad(e) => r := Bad(e);
      case Good(events) => r := Good((events, |data| - validLen, maxTx));
    }
  }

  /* ---- what is not an event is reported ---- */

  /** A line made of a checksum and a text. */
  ghost predicate Summed(line: Bytes, sum: Bytes, json: Bytes) {
    line == sum + ([TAB] + json) && TAB !in sum
  }

  lemma SummedSplits(line: Bytes, sum: Bytes, json: Bytes)
    requires Summed(line, sum, json)
    ensures Find(line, TAB) == |sum| < |line| && line[..|sum|] == sum && line[|sum| + 1..] == json
  {
    FindFirst(sum, TAB, json);
    Halves(sum, TAB, json);
  }

  /** A line is an event exactly when its checksum is that of the text and the text decodes;
      everything else is reported by what is wrong with it. */
  lemma SummedLine(c: Codec, line: Bytes, sum: Bytes, json: Bytes)
    requires Summed(line, sum, json)
    ensures DecodeLine(c, line) ==
      if ParseChecksum(sum) == None then Bad(InvalidChecksum)
      else if ParseChecksum(sum) != Some(c.crc(json)) then Bad(ChecksumMismatch)
      else if c.decode(json) == None then Bad(InvalidEvent)
      else Good(c.decode(json).value)
  {
    SummedSplits(line, sum, json);
  }

  lemma UnsummedLine(c: Codec, line: Bytes)
    requires TAB !in line
    ensures DecodeLine(c, line) == Bad(NoChecksum)
  {
  }

  /** A bad line behind good ones makes the journal unreadable, whatever follows it. */
  lemma {:induction false} BadLineReported(c: Codec, events: seq<Event>, line: Bytes, rest: Bytes)
    requires WellBehaved(c) && line != [] && NEWLINE !in line && DecodeLine(c, line).Bad?
    ensures Lines(c, EncodeAll(c, events) + (line + ([NEWLINE] + rest))) == Bad(DecodeLine(c, line).error)
  {
    var bad := line + ([NEWLINE] + rest);
    if events == [] {
      assert EncodeAll(c, events) + bad == bad;
      FindFirst(line, NEWLINE, rest);
      Halves(line, NEWLINE, rest);
      LinesStep(c, bad);
    } else {
      var first, more := EncodeEvent(c, events[0]), EncodeAll(c, events[1..]);
      assert (first + more) + bad == first + (more + bad);
      FrontLine(c, events[0], more + bad);
      BadLineReported(c, events[1..], line, rest);
    }
  }

  lemma EndsInNewline(before: Bytes, rest: Bytes)
    requires rest != [] ==> rest[|rest| - 1] == NEWLINE
    ensures var data := before + ([NEWLINE] + rest); data != [] && data[|data| - 1] == NEWLINE
  {
  }

  /** So is the whole file as long as it ends in a newline. */
  lemma {:induction false} BadReading(c: Codec, events: seq<Event>, line: Bytes, rest: Bytes)
    requires WellBehaved(c) && line != [] && NEWLINE !in line && DecodeLine(c, line).Bad?
    requires rest != [] ==> rest[|rest| - 1] == NEWLINE
    ensures Reading(c, EncodeAll(c, events) + (line + ([NEWLINE] + rest))) == Bad(DecodeLine(c, line).error)
  {
    var front := EncodeAll(c, events);
    var data := front + (line + ([NEWLINE] + rest));
    BadLineReported(c, events, line, rest);
    EndsInNewline(front + line, rest);
    assert data == (front + line) + ([NEWLINE] + rest);
    ValidLengthUnique(data, |data|);
    assert data[..|data|] == data;
  }

  /** The line of an event with another text under its checksum. */
  function Altered(c: Codec, e: Event, json: Bytes): Bytes {
    Hex(c.crc(c.encode(e)), 8) + ([TAB] + json)
  }

  lemma AlteredLine(c: Codec, e: Event, json: Bytes)
    requires WellBehaved(c) && NEWLINE !in json && c.crc(json) != c.crc(c.encode(e))
    ensures var line := Altered(c, e, json);
            line != [] && NEWLINE !in line && DecodeLine(c, line) == Bad(ChecksumMismatch)
  {
    ChecksumRoundTrip(c.crc(c.encode(e)));
    SummedLine(c, Altered(c, e, json), Hex(c.crc(c.encode(e)), 8), json);
  }

  /** An event whose text was altered under its checksum is reported, wherever it stands. */
  lemma {:induction false} AlterationReported(c: Codec, events: seq<Event>, e: Event, json: Bytes, later: seq<Event>)
    requires WellBehaved(c) && NEWLINE !in json && c.crc(json) != c.crc(c.encode(e))
    ensures Reading(c, EncodeAll(c, events) + (Altered(c, e, json) + ([NEWLINE] + EncodeAll(c, later))))
      == Bad(ChecksumMismatch)
  {
    AlteredLine(c, e, json);
    if later != [] { EncodedEnds(c, later); }
    BadReading(c, events, Altered(c, e, json), EncodeAll(c, later));
  }
}
