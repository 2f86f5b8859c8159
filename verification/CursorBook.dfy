/** What a streaming cursor of the client knows and what happened to it, as values: the rows it
    received and delivered, request by request, and how each answer came in. */
module CursorBook {
  import opened Order
  import opened SidecarCursor

  /** The bytes of the echoed id: `"id":`, its digits and a comma. */
  function IdBytes(n: nat): nat {
    6 + Digits(n)
  }

  /** How many digits the JSON text of a request id has. */
  function Digits(n: nat): nat {
    if n < 10 then 1 else 1 + Digits(n / 10)
  }

  lemma {:induction false} DigitsGrow(m: nat, n: nat)
    requires m <= n
    ensures Digits(m) <= Digits(n)
  {
    if m >= 10 { DigitsGrow(m / 10, n / 10); }
  }

  /** How an answer comes in: as sent, as a line that cannot be decoded, or not at all. */
  datatype Reception = Clear | Garbled | Cut

  /** How the answer to each request comes in. */
  type Line = nat -> Reception

  /** One request: the rows the server handed out for it, of this query or, after a failed close,
      of a cursor somebody else has open. */
  datatype Piece = Own(id: nat, rows: seq<Row>) | Foreign(id: nat, rows: seq<Row>)

  /** The rows in answers the client could decode, in order. */
  function Received(line: Line, ps: seq<Piece>): seq<Row> {
    if ps == [] then []
    else Chain(Received(line, ps[..|ps| - 1]), if line(ps[|ps| - 1].id) == Clear then ps[|ps| - 1].rows else [])
  }

  /** The rows of this query the server handed out, in order. */
  function HandedOut(ps: seq<Piece>): seq<Row> {
    if ps == [] then []
    else Chain(HandedOut(ps[..|ps| - 1]), if ps[|ps| - 1].Own? then ps[|ps| - 1].rows else [])
  }

  /** How many of them were in answers the client could not decode or did not get. */
  function MissingRows(line: Line, ps: seq<Piece>): nat {
    if ps == [] then 0
    else
      var p := ps[|ps| - 1];
      MissingRows(line, ps[..|ps| - 1]) + if p.Own? && line(p.id) != Clear then |p.rows| else 0
  }

  predicate NoForeign(ps: seq<Piece>) {
    ps == [] || (NoForeign(ps[..|ps| - 1]) && ps[|ps| - 1].Own?)
  }

  /** Requests are numbered one by one from `first` on. */
  predicate Numbered(ps: seq<Piece>, first: nat) {
    ps == [] || (Numbered(ps[..|ps| - 1], first) && ps[|ps| - 1].id == first + |ps|)
  }

  /** Some answer was undecodable and had no rows in it. */
  predicate IdleGarble(line: Line, ps: seq<Piece>) {
    && ps != []
    && var p := ps[|ps| - 1];
       IdleGarble(line, ps[..|ps| - 1]) || (p.Own? && p.rows == [] && line(p.id) == Garbled)
  }

  lemma {:induction false} OneMorePiece(line: Line, ps: seq<Piece>, p: Piece, first: nat)
    ensures Received(line, ps + [p]) == Chain(Received(line, ps), if line(p.id) == Clear then p.rows else [])
    ensures HandedOut(ps + [p]) == Chain(HandedOut(ps), if p.Own? then p.rows else [])
    ensures MissingRows(line, ps + [p]) == MissingRows(line, ps) + if p.Own? && line(p.id) != Clear then |p.rows| else 0
    ensures NoForeign(ps + [p]) <==> NoForeign(ps) && p.Own?
    ensures Numbered(ps + [p], first) <==> Numbered(ps, first) && p.id == first + |ps| + 1
    ensures IdleGarble(line, ps + [p]) <==> IdleGarble(line, ps) || (p.Own? && p.rows == [] && line(p.id) == Garbled)
  {
    assert (ps + [p])[..|ps|] == ps;
  }

  /** What was received is what was handed out, exactly when no row is missing. */
  lemma {:induction false} ReceivedUnlessMissing(line: Line, ps: seq<Piece>)
    requires NoForeign(ps)
    ensures |Received(line, ps)| + MissingRows(line, ps) == |HandedOut(ps)|
    ensures Received(line, ps) == HandedOut(ps) <==> MissingRows(line, ps) == 0
  {
    if ps != [] {
      ReceivedUnlessMissing(line, ps[..|ps| - 1]);
    }
  }

  /** Every answer to the requests after `first` up to `last` came in clear. */
  ghost predicate AllClear(line: Line, first: nat, last: nat) {
    forall n: nat :: first < n <= last ==> line(n) == Clear
  }

  /** Some of them came in like that. */
  ghost predicate Heard(line: Line, first: nat, last: nat, how: Reception) {
    exists n: nat :: first < n <= last && line(n) == how
  }

  lemma HeardOneMore(line: Line, first: nat, last: nat, how: Reception)
    requires first <= last
    ensures Heard(line, first, last + 1, how) <==> Heard(line, first, last, how) || line(last + 1) == how
  {
    if line(last + 1) == how { assert first < last + 1 <= last + 1; }
    if Heard(line, first, last, how) {
      var n: nat :| first < n <= last && line(n) == how;
      assert first < n <= last + 1 && line(n) == how;
    }
  }

  lemma {:induction false} ClearMissesNothing(line: Line, ps: seq<Piece>, first: nat)
    requires Numbered(ps, first) && AllClear(line, first, first + |ps|)
    ensures MissingRows(line, ps) == 0
  {
    if ps != [] {
      assert line(first + |ps|) == Clear;
      ClearMissesNothing(line, ps[..|ps| - 1], first);
    }
  }

  /** An undecodable answer cost rows or had none. */
  lemma {:induction false} GarbleCosts(line: Line, ps: seq<Piece>, first: nat)
    requires Numbered(ps, first) && NoForeign(ps) && Heard(line, first, first + |ps|, Garbled)
    ensures MissingRows(line, ps) > 0 || IdleGarble(line, ps)
  {
    var n: nat :| first < n <= first + |ps| && line(n) == Garbled;
    if n < first + |ps| {
      assert Heard(line, first, first + |ps[..|ps| - 1]|, Garbled);
      GarbleCosts(line, ps[..|ps| - 1], first);
    }
  }

  /* ---- sequences ---- */

  lemma FrontOfChain(a: seq<Row>, b: seq<Row>)
    ensures a <= Chain(a, b) && (b == [] ==> Chain(a, b) == a)
  {
  }

  lemma AppendIsChain(a: seq<Row>, b: seq<Row>)
    ensures a + b == Chain(a, b)
  {
  }

  lemma ChainTwice(a: seq<Row>, b: seq<Row>, c: seq<Row>)
    ensures Chain(Chain(a, b), c) == Chain(a, Chain(b, c))
  {
  }

  /** The rows from `position` on. */
  function Tail(rows: seq<Row>, position: nat): (r: seq<Row>)
    requires position <= |rows|
    ensures |r| == |rows| - position
  {
    if position == 0 then rows else rows[position..]
  }

  lemma TailTwice(rows: seq<Row>, position: nat, n: nat)
    requires position + n <= |rows|
    ensures Tail(Tail(rows, position), n) == Tail(rows, position + n)
    ensures Tail(rows, position)[..n] == rows[position..position + n]
  {
  }

  lemma TailGrows(rows: seq<Row>, position: nat, more: seq<Row>)
    requires position <= |rows|
    ensures Tail(Chain(rows, more), position) == Chain(Tail(rows, position), more)
  {
  }

  lemma Halves(rows: seq<Row>, n: nat)
    requires n <= |rows|
    ensures rows == Chain(rows[..n], Tail(rows, n))
  {
  }

  /* ---- cursors ---- */

  /** What lies outside the client: whether the server still has the cursor, and what cursors of
      others would answer to fetches that are not under the lock. */
  datatype Outside = Outside(open: bool, strangers: seq<(seq<Row>, bool)>)

  /** History: what was delivered, one piece for every request, how often the lock was released,
      whether `close` succeeded, whether it failed on a connection still in use, and whether the
      last answer could not be decoded. */
  datatype Book = Book(delivered: seq<Row>, pieces: seq<Piece>, releases: nat, closed: bool, leftover: bool,
                       puzzled: bool)

  const BLANK: Book := Book([], [], 0, false, false, false)

  /** A cursor and its surroundings; `first` is the number of the request that opened it. */
  datatype View = View(buffered: seq<Row>, done: bool, active: bool, broken: bool, nextId: nat, out: Outside,
                       book: Book, held: bool, remaining: seq<Row>, all: seq<Row>, line: Line, first: nat)

  function Opened(rows: seq<Row>, line: Line, first: nat, strangers: seq<(seq<Row>, bool)>): View {
    View([], false, true, false, first, Outside(true, strangers), BLANK, true, rows, rows, line, first)
  }

  /** The lock is held exactly while active and released once. */
  ghost predicate LockOk(v: View) {
    && (v.active ==> v.held && !v.done && !v.book.closed && !v.book.leftover && v.book.releases == 0)
    && (!v.active ==> (v.done || v.broken || v.book.leftover) && v.book.releases == 1)
    && (v.out.open ==> v.active || v.broken)
  }

  /** Rows handed out and rows still at the server are together the rows of the query; once the
      server is lost, what was handed out is still a prefix. */
  ghost predicate Accounts(all: seq<Row>, ps: seq<Piece>, remaining: seq<Row>, ended: bool, lost: bool) {
    && HandedOut(ps) <= all
    && (!lost ==> Chain(HandedOut(ps), remaining) == all)
    && (ended && NoForeign(ps) ==> HandedOut(ps) == all)
  }

  /** Received rows are delivered or buffered; rows of others come only after a failed close. */
  ghost predicate RowsOk(v: View) {
    && (if v.book.closed then v.done && v.buffered == [] && v.book.delivered <= Received(v.line, v.book.pieces)
        else Chain(v.book.delivered, v.buffered) == Received(v.line, v.book.pieces))
    && (v.book.leftover || NoForeign(v.book.pieces))
    && (v.book.leftover && v.done && !v.book.closed ==> !NoForeign(v.book.pieces))
    && Accounts(v.all, v.book.pieces, v.remaining, v.done && !v.book.closed,
                v.broken || v.book.closed || v.book.leftover)
  }

  /** Whatever went wrong was in an answer: the connection is given up exactly after an answer
      that did not come, and nothing else goes wrong without one that could not be decoded. */
  ghost predicate BlameOk(v: View) {
    && (v.broken <==> Heard(v.line, v.first, v.nextId, Cut))
    && (v.broken && v.done ==> v.book.closed)
    && (v.book.leftover || v.book.puzzled || (!v.out.open && !v.done) ==> Heard(v.line, v.first, v.nextId, Garbled))
  }

  /** No row is too large for an answer to a request with this number. */
  ghost predicate Fits(rows: seq<Row>, id: nat) {
    forall i :: 0 <= i < |rows| ==> !Oversized(rows[i], IdBytes(id))
  }

  /** An undecodable answer without rows: the query was over with it, was being closed or had been,
      or a row did not fit. */
  ghost predicate ExcuseOk(v: View) {
    IdleGarble(v.line, v.book.pieces) ==>
      v.book.closed || v.book.leftover || (!v.out.open && !v.done) || !Fits(v.all, v.nextId)
  }

  ghost predicate Sane(v: View) {
    && LockOk(v) && RowsOk(v) && BlameOk(v) && ExcuseOk(v)
    && Numbered(v.book.pieces, v.first) && v.nextId == v.first + |v.book.pieces|
  }

  lemma FitsBefore(rows: seq<Row>, m: nat, n: nat)
    requires m <= n && Fits(rows, n)
    ensures Fits(rows, m)
  {
    DigitsGrow(m, n);
  }

  /* ---- what the operations do ---- */

  function Finished(v: View): View {
    if v.active then v.(active := false, held := false, book := v.book.(releases := v.book.releases + 1)) else v
  }

  /** How the answer to the next request comes in. */
  function Hearing(v: View): Reception {
    v.line(v.nextId + 1)
  }

  /** The next request was made and this is what the server handed out for it. */
  function Logged(v: View, p: Piece, puzzled: bool): View {
    v.(nextId := v.nextId + 1, book := v.book.(pieces := v.book.pieces + [p], puzzled := puzzled))
  }

  /** Buffer a batch; the last one frees the connection. */
  function Accepted(v: View, batch: seq<Row>, last: bool, rest: seq<Row>): View {
    var w := Logged(v, Own(v.nextId + 1, batch), false).(
      buffered := Chain(v.buffered, batch), done := last, out := v.out.(open := !last), remaining := rest);
    if last then Finished(w) else w
  }

  /** The batch is gone: the server handed it out and nobody has it. */
  function Missed(v: View, batch: seq<Row>, last: bool, rest: seq<Row>): View {
    Logged(v, Own(v.nextId + 1, batch), true).(out := v.out.(open := !last), remaining := rest)
  }

  /** The server has no such cursor, or the next row is too large. */
  function Refused(v: View): View {
    Logged(v, Own(v.nextId + 1, []), Hearing(v) == Garbled)
  }

  /** No answer: the connection is given up. */
  function Severed(v: View): View {
    Logged(v, Own(v.nextId + 1, []), false).(broken := true)
  }

  /** Rows of somebody else, taken after a failed close, or lost to them. */
  function FromStranger(v: View, batch: seq<Row>, last: bool, rest: seq<(seq<Row>, bool)>): View {
    if Hearing(v) == Clear then
      Logged(v, Foreign(v.nextId + 1, batch), false).(
        out := v.out.(strangers := rest), buffered := Chain(v.buffered, batch), done := last)
    else Logged(v, Own(v.nextId + 1, []), true).(out := v.out.(strangers := rest))
  }

  function Strayed(v: View): View
    requires v.out.strangers != []
  {
    FromStranger(v, v.out.strangers[0].0, v.out.strangers[0].1, v.out.strangers[1..])
  }

  /** Move `n` buffered rows to the caller. */
  function Handed(v: View, n: nat): View
    requires n <= |v.buffered|
  {
    v.(buffered := Tail(v.buffered, n), book := v.book.(delivered := Chain(v.book.delivered, v.buffered[..n])))
  }

  /** The server dropped the cursor. */
  function Dropped(v: View, puzzled: bool): View {
    Logged(v, Own(v.nextId + 1, []), puzzled).(remaining := [], out := v.out.(open := false))
  }

  /** It did, and the client does not know. */
  function LeftOver(v: View): View {
    Finished(Dropped(v, true).(book := Dropped(v, true).book.(leftover := true)))
  }

  function Shut(v: View): View {
    v.(done := true, buffered := [], book := v.book.(closed := true))
  }

  /** Why a fetch can fail: the connection is gone, the answer made no sense, the server has no
      such cursor, or the next row alone exceeds the response limit of the last request. */
  predicate Hopeless(v: View) {
    v.broken || v.book.puzzled || !v.out.open || TooLarge(v)
  }

  predicate TooLarge(v: View) {
    v.remaining != [] && Oversized(v.remaining[0], IdBytes(v.nextId))
  }

  /** The server would answer the next request with at least one row. */
  predicate Servable(v: View) {
    && v.active && !v.broken && v.out.open && v.remaining != []
    && !Oversized(v.remaining[0], IdBytes(v.nextId + 1))
  }

  /** What can still come in. */
  function Supply(v: View): nat {
    |v.remaining| + |v.out.strangers|
  }

  /** Everything a fetch leaves as it is. */
  ghost predicate Continues(v: View, w: View) {
    && w.all == v.all && w.line == v.line && w.first == v.first
    && w.book.closed == v.book.closed && w.book.leftover == v.book.leftover
    && (v.done ==> w.done && w.book.pieces == v.book.pieces)
    && v.book.pieces <= w.book.pieces
  }

  /** What asking and filling do: rows come in behind the others. */
  ghost predicate Fills(v: View, w: View) {
    Continues(v, w) && w.book.delivered == v.book.delivered && v.buffered <= w.buffered
  }

  /** One request under the lock: one more piece, numbered in turn, with rows in it exactly when
      the server could serve the request and did. */
  ghost predicate Answered(v: View, w: View) {
    && w.line == v.line && w.first == v.first && w.nextId == v.nextId + 1
    && |w.book.pieces| == |v.book.pieces| + 1 && w.book.pieces[..|v.book.pieces|] == v.book.pieces
    && var p := w.book.pieces[|v.book.pieces|];
       p.Own? && p.id == w.nextId && (p.rows != [] <==> Servable(v) && Hearing(v) != Cut)
  }

  /** So a request that could be served costs rows exactly when its answer was undecodable. */
  lemma AnsweredRows(v: View, w: View)
    requires Answered(v, w)
    ensures MissingRows(w.line, w.book.pieces) > MissingRows(v.line, v.book.pieces) <==>
      Servable(v) && Hearing(v) == Garbled
  {
    var p := w.book.pieces[|v.book.pieces|];
    assert w.book.pieces == v.book.pieces + [p];
    OneMorePiece(v.line, v.book.pieces, p, v.first);
  }

  /* ---- what they keep ---- */

  lemma LoggedBlame(v: View)
    requires Sane(v)
    ensures Heard(v.line, v.first, v.nextId + 1, Cut) <==> v.broken || Hearing(v) == Cut
    ensures Heard(v.line, v.first, v.nextId + 1, Garbled) <==>
      Heard(v.line, v.first, v.nextId, Garbled) || Hearing(v) == Garbled
  {
    HeardOneMore(v.line, v.first, v.nextId, Cut);
    HeardOneMore(v.line, v.first, v.nextId, Garbled);
  }

  lemma StillExcused(v: View)
    ensures !Fits(v.all, v.nextId) ==> !Fits(v.all, v.nextId + 1)
  {
    if Fits(v.all, v.nextId + 1) { FitsBefore(v.all, v.nextId, v.nextId + 1); }
  }

  lemma AccountsBatch(line: Line, all: seq<Row>, ps: seq<Piece>, p: Piece, rest: seq<Row>)
    requires Accounts(all, ps, Chain(p.rows, rest), false, false) && p.Own?
    ensures Accounts(all, ps + [p], rest, rest == [], false)
  {
    OneMorePiece(line, ps, p, 0);
    ChainTwice(HandedOut(ps), p.rows, rest);
    FrontOfChain(HandedOut(ps + [p]), rest);
  }

  /** Buffering what came in keeps delivered and buffered rows together the received ones. */
  lemma StillReceived(line: Line, delivered: seq<Row>, buffered: seq<Row>, ps: seq<Piece>, p: Piece)
    requires Chain(delivered, buffered) == Received(line, ps) && line(p.id) == Clear
    ensures Chain(delivered, Chain(buffered, p.rows)) == Received(line, ps + [p])
  {
    OneMorePiece(line, ps, p, 0);
    ChainTwice(delivered, buffered, p.rows);
  }

  lemma AcceptedRows(v: View, batch: seq<Row>, last: bool, rest: seq<Row>)
    requires RowsOk(v) && !v.book.closed && !v.book.leftover && !v.done && !v.broken && Hearing(v) == Clear
    requires v.remaining == Chain(batch, rest) && (last <==> rest == [])
    ensures RowsOk(Accepted(v, batch, last, rest)) && v.buffered <= Accepted(v, batch, last, rest).buffered
  {
    var p := Own(v.nextId + 1, batch);
    var w := Accepted(v, batch, last, rest);
    assert w.book.pieces == v.book.pieces + [p];
    OneMorePiece(v.line, v.book.pieces, p, v.first);
    AccountsBatch(v.line, v.all, v.book.pieces, p, rest);
    StillReceived(v.line, v.book.delivered, v.buffered, v.book.pieces, p);
    FrontOfChain(v.buffered, batch);
    RowsFrom(w);
  }

  lemma RowsFrom(w: View)
    requires !w.book.closed && !w.book.leftover && !w.broken && NoForeign(w.book.pieces)
    requires Chain(w.book.delivered, w.buffered) == Received(w.line, w.book.pieces)
    requires Accounts(w.all, w.book.pieces, w.remaining, w.done, false)
    ensures RowsOk(w)
  {
  }

  lemma AcceptedSane(v: View, batch: seq<Row>, last: bool, rest: seq<Row>)
    requires Sane(v) && v.active && !v.broken && v.out.open && Hearing(v) == Clear
    requires v.remaining == Chain(batch, rest) && (last <==> rest == []) && (!last ==> batch != [])
    ensures var w := Accepted(v, batch, last, rest); Sane(w) && Fills(v, w) && (last || Supply(w) < Supply(v))
  {
    AcceptedRows(v, batch, last, rest);
    OneMorePiece(v.line, v.book.pieces, Own(v.nextId + 1, batch), v.first);
    LoggedBlame(v);
    StillExcused(v);
  }

  lemma MissedSane(v: View, batch: seq<Row>, last: bool, rest: seq<Row>)
    requires Sane(v) && v.active && !v.broken && v.out.open && Hearing(v) == Garbled
    requires v.remaining == Chain(batch, rest) && (last <==> rest == []) && (!last ==> batch != [])
    ensures var w := Missed(v, batch, last, rest); Sane(w) && Fills(v, w) && Hopeless(w)
  {
    var p := Own(v.nextId + 1, batch);
    OneMorePiece(v.line, v.book.pieces, p, v.first);
    AccountsBatch(v.line, v.all, v.book.pieces, p, rest);
    FrontOfChain(Received(v.line, v.book.pieces), []);
    LoggedBlame(v);
    StillExcused(v);
  }

  /** A request for which the server handed out nothing. */
  lemma EmptyPiece(v: View)
    requires Sane(v)
    ensures var ps := v.book.pieces + [Own(v.nextId + 1, [])];
            && Received(v.line, ps) == Received(v.line, v.book.pieces) && HandedOut(ps) == HandedOut(v.book.pieces)
            && (NoForeign(ps) <==> NoForeign(v.book.pieces)) && Numbered(ps, v.first)
            && (IdleGarble(v.line, ps) <==> IdleGarble(v.line, v.book.pieces) || Hearing(v) == Garbled)
            && MissingRows(v.line, ps) == MissingRows(v.line, v.book.pieces)
  {
    OneMorePiece(v.line, v.book.pieces, Own(v.nextId + 1, []), v.first);
    FrontOfChain(Received(v.line, v.book.pieces), []);
    FrontOfChain(HandedOut(v.book.pieces), []);
  }

  /** The first row still at the server is one of the query. */
  lemma FirstIsOne(v: View)
    requires RowsOk(v) && v.remaining != [] && !(v.broken || v.book.closed || v.book.leftover)
    ensures exists i :: 0 <= i < |v.all| && v.all[i] == v.remaining[0]
  {
    var i := |HandedOut(v.book.pieces)|;
    assert Chain(HandedOut(v.book.pieces), v.remaining)[i] == v.remaining[0];
  }

  lemma RefusedSane(v: View)
    requires Sane(v) && !v.done && !v.broken && Hearing(v) != Cut
    requires v.out.open ==> v.active && v.remaining != [] && Oversized(v.remaining[0], IdBytes(v.nextId + 1))
    ensures Sane(Refused(v)) && Fills(v, Refused(v)) && Hopeless(Refused(v))
  {
    EmptyPiece(v);
    LoggedBlame(v);
    StillExcused(v);
    if v.out.open { FirstIsOne(v); }
  }

  lemma SeveredSane(v: View)
    requires Sane(v) && !v.done && Hearing(v) == Cut
    ensures Sane(Severed(v)) && Fills(v, Severed(v)) && (v.active ==> Sane(Finished(Severed(v))))
  {
    EmptyPiece(v);
    LoggedBlame(v);
    StillExcused(v);
  }

  lemma StrangersRows(v: View, batch: seq<Row>, last: bool, rest: seq<(seq<Row>, bool)>)
    requires RowsOk(v) && v.book.leftover && !v.book.closed && Hearing(v) == Clear
    ensures var w := FromStranger(v, batch, last, rest);
            RowsOk(w) && v.buffered <= w.buffered && v.book.pieces <= w.book.pieces
  {
    var p := Foreign(v.nextId + 1, batch);
    OneMorePiece(v.line, v.book.pieces, p, v.first);
    FrontOfChain(HandedOut(v.book.pieces), []);
    StillReceived(v.line, v.book.delivered, v.buffered, v.book.pieces, p);
    FrontOfChain(v.buffered, batch);
  }

  lemma StrangersTaken(v: View, batch: seq<Row>, last: bool, rest: seq<(seq<Row>, bool)>)
    requires Sane(v) && v.book.leftover && !v.done && !v.broken && Hearing(v) == Clear
    ensures Sane(FromStranger(v, batch, last, rest)) && Fills(v, FromStranger(v, batch, last, rest))
  {
    StrangersRows(v, batch, last, rest);
    OneMorePiece(v.line, v.book.pieces, Foreign(v.nextId + 1, batch), v.first);
    LoggedBlame(v);
  }

  lemma StrangersLost(v: View, batch: seq<Row>, last: bool, rest: seq<(seq<Row>, bool)>)
    requires Sane(v) && v.book.leftover && !v.done && !v.broken && Hearing(v) == Garbled
    ensures Sane(FromStranger(v, batch, last, rest)) && Fills(v, FromStranger(v, batch, last, rest))
  {
    EmptyPiece(v);
    LoggedBlame(v);
  }

  lemma StrayedSane(v: View)
    requires Sane(v) && v.book.leftover && !v.done && !v.broken && Hearing(v) != Cut && v.out.strangers != []
    ensures var w := Strayed(v);
            Sane(w) && Fills(v, w) && (if Hearing(v) == Clear then Supply(w) < Supply(v) else Hopeless(w))
  {
    var (batch, last) := v.out.strangers[0];
    var rest := v.out.strangers[1..];
    if Hearing(v) == Clear { StrangersTaken(v, batch, last, rest); } else { StrangersLost(v, batch, last, rest); }
  }

  lemma HandedSane(v: View, n: nat)
    requires Sane(v) && n <= |v.buffered|
    ensures Sane(Handed(v, n))
  {
    Halves(v.buffered, n);
    ChainTwice(v.book.delivered, v.buffered[..n], Tail(v.buffered, n));
    if v.book.closed { FrontOfChain(v.book.delivered, v.buffered[..n]); }
  }

  /** A cursor that is not active is closed without asking anybody. */
  lemma ShutSane(v: View)
    requires Sane(v) && !v.active
    ensures Sane(Shut(v))
  {
    FrontOfChain(v.book.delivered, v.buffered);
  }

  lemma DroppedSane(v: View)
    requires Sane(v) && v.active && !v.broken && Hearing(v) != Cut
    ensures Hearing(v) == Clear ==> Sane(Shut(Finished(Dropped(v, false))))
    ensures Hearing(v) == Garbled ==> Sane(LeftOver(v))
  {
    EmptyPiece(v);
    LoggedBlame(v);
    FrontOfChain(v.book.delivered, v.buffered);
  }

  /* ---- what follows ---- */

  /** Nothing more will come: everything received was delivered, unless the cursor was closed. */
  ghost predicate Ended(v: View) {
    v.done && (v.book.closed || v.book.delivered == Received(v.line, v.book.pieces))
  }

  lemma DrainedEnds(v: View)
    requires Sane(v) && v.done && v.buffered == []
    ensures Ended(v)
  {
    FrontOfChain(v.book.delivered, v.buffered);
  }

  /** On a clear connection delivered rows, buffered rows and rows at the server are the rows of
      the query, in order and once each. */
  ghost predicate InOrder(v: View) {
    AllClear(v.line, v.first, v.nextId) ==>
      && v.book.delivered <= v.all && !v.broken && !v.book.leftover
      && (!v.book.closed && v.done ==> Chain(v.book.delivered, v.buffered) == v.all)
      && (!v.book.closed && !v.done ==> Chain(v.book.delivered, Chain(v.buffered, v.remaining)) == v.all)
  }

  lemma SaneInOrder(v: View)
    requires Sane(v)
    ensures InOrder(v)
  {
    if AllClear(v.line, v.first, v.nextId) {
      assert !Heard(v.line, v.first, v.nextId, Cut) && !Heard(v.line, v.first, v.nextId, Garbled);
      ClearMissesNothing(v.line, v.book.pieces, v.first);
      ReceivedUnlessMissing(v.line, v.book.pieces);
      FrontOfChain(v.book.delivered, v.buffered);
      ChainTwice(v.book.delivered, v.buffered, v.remaining);
    }
  }

  /** On a clear connection only a row that is too large stops a fetch. */
  ghost predicate OnlyTooLarge(v: View) {
    AllClear(v.line, v.first, v.nextId) ==> TooLarge(v)
  }

  lemma HopelessIsTooLarge(v: View)
    requires Sane(v) && !v.done && Hopeless(v)
    ensures OnlyTooLarge(v)
  {
    if AllClear(v.line, v.first, v.nextId) {
      assert !Heard(v.line, v.first, v.nextId, Cut) && !Heard(v.line, v.first, v.nextId, Garbled);
    }
  }

  /** The end of a query that was not closed: how much was delivered tells how much went missing,
      and if no row was too large, all was delivered exactly when every answer came in clear. */
  ghost predicate Finale(v: View) {
    && v.done && !v.active && v.book.releases == 1 && v.book.delivered == Received(v.line, v.book.pieces)
    && (AllClear(v.line, v.first, v.nextId) ==> v.book.delivered == v.all)
    && (NoForeign(v.book.pieces) ==>
          && |v.book.delivered| + MissingRows(v.line, v.book.pieces) == |v.all|
          && (v.book.delivered == v.all <==> MissingRows(v.line, v.book.pieces) == 0)
          && (Fits(v.all, v.nextId) ==> (v.book.delivered == v.all <==> AllClear(v.line, v.first, v.nextId))))
  }

  /** What a fetch that reports the end promises. */
  ghost predicate Over(v: View) {
    v.done && (v.book.closed || Finale(v))
  }

  lemma EndIsFinale(v: View)
    requires Sane(v) && Ended(v) && !v.book.closed
    ensures Finale(v)
  {
    SaneInOrder(v);
    if NoForeign(v.book.pieces) {
      ReceivedUnlessMissing(v.line, v.book.pieces);
      if AllClear(v.line, v.first, v.nextId) {
        ClearMissesNothing(v.line, v.book.pieces, v.first);
      } else {
        var n: nat :| v.first < n <= v.nextId && v.line(n) != Clear;
        assert Heard(v.line, v.first, v.nextId, v.line(n));
        if v.line(n) == Garbled { GarbleCosts(v.line, v.book.pieces, v.first); }
      }
    }
  }

  /* ---- the same for a judge ---- */

  /** A judgement that is `Sane`, for contracts that need not look inside. */
  ghost predicate Judges(ok: View -> bool) {
    forall v {:trigger Sane(v)} :: ok(v) <==> Sane(v)
  }

  lemma Accepting(ok: View -> bool, v: View, batch: seq<Row>, last: bool, rest: seq<Row>)
    requires Judges(ok) && ok(v) && v.active && !v.broken && v.out.open && Hearing(v) == Clear
    requires v.remaining == Chain(batch, rest) && (last <==> rest == []) && (v.remaining != [] ==> batch != [])
    requires batch != [] ==> !Oversized(v.remaining[0], IdBytes(v.nextId + 1))
    ensures var w := Accepted(v, batch, last, rest);
            ok(w) && LockOk(w) && Fills(v, w) && (last || Supply(w) < Supply(v)) && Answered(v, w)
  {
    assert Sane(v);
    AcceptedSane(v, batch, last, rest);
    assert Sane(Accepted(v, batch, last, rest));
  }

  lemma Missing(ok: View -> bool, v: View, batch: seq<Row>, last: bool, rest: seq<Row>)
    requires Judges(ok) && ok(v) && v.active && !v.broken && v.out.open && Hearing(v) == Garbled
    requires v.remaining == Chain(batch, rest) && (last <==> rest == []) && (v.remaining != [] ==> batch != [])
    requires batch != [] ==> !Oversized(v.remaining[0], IdBytes(v.nextId + 1))
    ensures var w := Missed(v, batch, last, rest); ok(w) && LockOk(w) && Fills(v, w) && Hopeless(w) && Answered(v, w)
  {
    assert Sane(v);
    MissedSane(v, batch, last, rest);
    assert Sane(Missed(v, batch, last, rest));
  }

  lemma Refusing(ok: View -> bool, v: View)
    requires Judges(ok) && ok(v) && !v.done && !v.broken && Hearing(v) != Cut
    requires v.out.open ==> v.active && v.remaining != [] && Oversized(v.remaining[0], IdBytes(v.nextId + 1))
    ensures var w := Refused(v); ok(w) && LockOk(w) && Fills(v, w) && Hopeless(w) && Answered(v, w)
  {
    assert Sane(v);
    RefusedSane(v);
    assert Sane(Refused(v));
  }

  lemma Severing(ok: View -> bool, v: View)
    requires Judges(ok) && ok(v) && !v.done && Hearing(v) == Cut
    ensures var w := Severed(v);
            && ok(w) && LockOk(w) && Fills(v, w) && Answered(v, w)
            && (v.active ==> ok(Finished(w)) && LockOk(Finished(w)))
  {
    assert Sane(v);
    SeveredSane(v);
    assert Sane(Severed(v)) && (v.active ==> Sane(Finished(Severed(v))));
  }

  lemma Straying(ok: View -> bool, v: View)
    requires Judges(ok) && ok(v) && v.book.leftover && !v.done && !v.broken && Hearing(v) != Cut
    requires v.out.strangers != []
    ensures var w := Strayed(v);
            && ok(w) && LockOk(w) && Fills(v, w)
            && (if Hearing(v) == Clear then Supply(w) < Supply(v) else Hopeless(w))
  {
    assert Sane(v);
    StrayedSane(v);
    assert Sane(Strayed(v));
  }

  lemma Handing(ok: View -> bool, v: View, n: nat)
    requires Judges(ok) && ok(v) && n <= |v.buffered|
    ensures ok(Handed(v, n)) && LockOk(Handed(v, n)) && InOrder(Handed(v, n))
  {
    assert Sane(v);
    HandedSane(v, n);
    assert Sane(Handed(v, n));
    SaneInOrder(Handed(v, n));
  }

  /** A cursor is closed: at once if it is not active, else after telling the server. */
  function Closed(v: View): View {
    if !v.active then Shut(v)
    else if v.broken then Finished(v)
    else if Hearing(v) == Clear then Shut(Finished(Dropped(v, false)))
    else if Hearing(v) == Garbled then LeftOver(v)
    else Finished(Severed(v))
  }

  lemma Closing(ok: View -> bool, v: View)
    requires Judges(ok) && ok(v)
    ensures var w := Closed(v);
            && ok(w) && LockOk(w) && InOrder(w) && (w.done || w.broken || w.book.leftover)
            && HandedOut(w.book.pieces) == HandedOut(v.book.pieces)
            && (v.active && !(Hearing(v) == Clear && !v.broken) ==> !w.done)
  {
    assert Sane(v);
    var w := Closed(v);
    if !v.active {
      ShutSane(v);
    } else if !v.broken {
      EmptyPiece(v);
      if Hearing(v) == Cut { SeveredSane(v); } else { DroppedSane(v); }
    }
    assert Sane(w);
    SaneInOrder(w);
  }

  /** What a judged cursor promises. */
  lemma Judged(ok: View -> bool, v: View)
    requires Judges(ok) && ok(v)
    ensures LockOk(v) && InOrder(v) && v.book.delivered <= Received(v.line, v.book.pieces)
    ensures HandedOut(v.book.pieces) <= v.all && (v.book.leftover || NoForeign(v.book.pieces))
    ensures v.done && v.buffered == [] ==> Over(v)
    ensures !v.done && Hopeless(v) ==> OnlyTooLarge(v)
  {
    assert Sane(v);
    SaneInOrder(v);
    if !v.book.closed { FrontOfChain(v.book.delivered, v.buffered); }
    if v.done && v.buffered == [] {
      DrainedEnds(v);
      if !v.book.closed { EndIsFinale(v); }
    }
    if !v.done && Hopeless(v) { HopelessIsTooLarge(v); }
  }

  /** After the end nothing changes. */
  lemma StillFinale(ok: View -> bool, v: View, w: View, more: seq<Row>)
    requires Judges(ok) && ok(v) && ok(w) && Finale(v) && w.done && w.book.pieces == v.book.pieces
    requires w.all == v.all && w.line == v.line && w.first == v.first
    requires w.book.delivered == Chain(v.book.delivered, more)
    ensures Finale(w) && more == []
  {
    assert Sane(v) && Sane(w);
    Judged(ok, w);
    FrontOfChain(v.book.delivered, more);
  }
}
