/** The client side of a streaming query: batches from the server are buffered and handed
    out row by row while the cursor holds the connection's request lock. */
module ClientCursor {
  import opened Order
  import opened SidecarCursor
  import opened CursorBook

  class RequestLock {
    var held: bool

    constructor ()
      ensures !held
    {
      held := false;
    }

    method Acquire()
      requires !held
      modifies this
      ensures held
    {
      held := true;
    }

    /** Releasing a lock nobody holds is an error in the source. */
    method Release()
      requires held
      modifies this
      ensures !held
    {
      held := false;
    }
  }

  class QueryCursor {
    const lock: RequestLock
    const server: ServerCursor
    const batchRows: nat
    /** How the answers come in. */
    const line: Line
    var rows: seq<Row>
    var position: nat
    var done: bool
    var active: bool
    /** The connection was given up after a failed exchange. */
    var broken: bool
    var nextId: nat
    var out: Outside
    ghost const all: seq<Row>
    ghost const first: nat
    /** `Sane`, which contracts need not look into. */
    ghost const ok: View -> bool
    ghost var book: Book

    ghost function Seen(): View
      requires position <= |rows|
      reads this, lock, server
    {
      View(Tail(rows, position), done, active, broken, nextId, out, book, lock.held, server.Remaining(), all, line,
           first)
    }

    ghost predicate Valid()
      reads this, lock, server
    {
      && 1 <= batchRows <= MAX_CURSOR_ROWS && position <= |rows| && server.Healthy()
      && Judges(ok) && ok(Seen()) && LockOk(Seen())
    }

    constructor (lock: RequestLock, server: ServerCursor, batchRows: nat, nextId: nat, line: Line,
                 strangers: seq<(seq<Row>, bool)>)
      requires lock.held && 1 <= batchRows <= MAX_CURSOR_ROWS && server.Healthy()
      ensures Valid() && this.lock == lock && this.server == server && this.batchRows == batchRows
      ensures Seen() == Opened(server.Remaining(), line, nextId, strangers)
    {
      this.lock, this.server, this.batchRows, this.line := lock, server, batchRows, line;
      rows, position, done, active, broken, this.nextId := [], 0, false, true, false, nextId;
      out := Outside(true, strangers);
      all, first, book := server.Remaining(), nextId, BLANK;
      ok := v => Sane(v);
      new;
      assert Sane(Seen());
    }

    method Finish()
      requires (active ==> lock.held) && position <= |rows|
      modifies this`active, this`book, lock
      ensures Seen() == Finished(old(Seen()))
    {
      if active {
        active := false;
        lock.Release();
        book := book.(releases := book.releases + 1);
      }
    }

    method Accept(batch: seq<Row>, last: bool, ghost before: View)
      requires position <= |rows| && lock.held && before == Seen().(remaining := before.remaining) && active
      modifies this`rows, this`done, this`out, this`book, this`active, this`nextId, lock
      ensures position <= |rows| && Seen() == Accepted(before, batch, last, server.Remaining())
    {
      TailGrows(rows, position, batch);
      Buffer(batch, last);
      if done { Finish(); }
    }

    method Buffer(batch: seq<Row>, last: bool)
      modifies this`rows, this`done, this`out, this`book, this`nextId
      ensures nextId == old(nextId) + 1 && rows == Chain(old(rows), batch) && done == last
      ensures out == old(out).(open := !last)
      ensures book == old(book).(pieces := old(book.pieces) + [Own(nextId, batch)], puzzled := false)
    {
      nextId, rows, done, out := nextId + 1, Chain(rows, batch), last, out.(open := !last);
      book := book.(pieces := book.pieces + [Own(nextId, batch)], puzzled := false);
    }

    /** The server's side of one `query_next`. */
    method ServeNext() returns (r: Option<(seq<Row>, bool)>)
      requires Valid() && active && out.open && !broken
      modifies server
      ensures server.Healthy() && Seen().(remaining := old(server.Remaining())) == old(Seen())
      ensures r == None ==> server.Remaining() == old(server.Remaining()) != []
      ensures r == None ==> Oversized(server.Remaining()[0], IdBytes(nextId + 1))
      ensures r.Some? ==> Chain(r.value.0, server.Remaining()) == old(server.Remaining())
      ensures r.Some? ==> (r.value.1 <==> server.Remaining() == []) && (!r.value.1 ==> r.value.0 != [])
      ensures r.Some? && old(server.Remaining()) != [] ==>
                r.value.0 != [] && !Oversized(old(server.Remaining())[0], IdBytes(nextId + 1))
    {
      var next := NextBatch(server, IdBytes(nextId + 1), batchRows);
      if !next.Served? || !next.batch.Rows? { return None; }
      AppendIsChain(next.batch.rows, server.Remaining());
      r := Some((next.batch.rows, next.batch.done));
      if next.batch.rows != [] { FirstFits(next.batch.rows, server.Remaining(), IdBytes(nextId + 1)); }
    }

    /** One `query_next` under the lock: the rows handed out come in or, if the answer cannot be
        decoded, are missing from then on. */
    method AskOwn() returns (ok: bool)
      requires Valid() && active && out.open && !broken && Hearing(Seen()) != Cut
      modifies this`rows, this`done, this`out, this`book, this`active, this`nextId, lock, server
      ensures Valid() && Fills(old(Seen()), Seen()) && Answered(old(Seen()), Seen())
      ensures if ok then done || Supply(Seen()) < old(Supply(Seen())) else !done && Hopeless(Seen())
    {
      ghost var before := Seen();
      var r := ServeNext();
      if r == None {
        Refusing(this.ok, before);
        Refuse();
        return false;
      }
      ok := TakeIn(r.value.0, r.value.1, before);
    }

    /** The server handed out a batch; the answer can be decoded or not. */
    method TakeIn(batch: seq<Row>, last: bool, ghost before: View) returns (ok: bool)
      requires 1 <= batchRows <= MAX_CURSOR_ROWS && position <= |rows| && server.Healthy() && Judges(this.ok)
      requires this.ok(before) && before == Seen().(remaining := before.remaining)
      requires active && lock.held && out.open && !broken && Hearing(before) != Cut
      requires before.remaining == Chain(batch, server.Remaining()) && (last <==> server.Remaining() == [])
      requires before.remaining != [] ==> batch != []
      requires batch != [] ==> !Oversized(before.remaining[0], IdBytes(nextId + 1))
      modifies this`rows, this`done, this`out, this`book, this`active, this`nextId, lock
      ensures Valid() && Fills(before, Seen()) && Answered(before, Seen())
      ensures if ok then done || Supply(Seen()) < Supply(before) else !done && Hopeless(Seen())
    {
      ok := line(nextId + 1) == Clear;
      if ok {
        Accepting(this.ok, before, batch, last, server.Remaining());
        Accept(batch, last, before);
      } else {
        Missing(this.ok, before, batch, last, server.Remaining());
        nextId, out := nextId + 1, out.(open := !last);
        book := book.(pieces := book.pieces + [Own(nextId, batch)], puzzled := true);
      }
    }

    /** The server answered with an error. */
    method Refuse()
      requires position <= |rows|
      modifies this`nextId, this`book
      ensures Seen() == Refused(old(Seen()))
    {
      nextId := nextId + 1;
      book := book.(pieces := book.pieces + [Own(nextId, [])], puzzled := line(nextId) == Garbled);
    }

    /** The same after a failed close, without the lock: whatever cursor the connection has by
        now answers, or none. */
    method AskBeside() returns (ok: bool)
      requires Valid() && !active && !done && !broken && Hearing(Seen()) != Cut
      modifies this`rows, this`done, this`out, this`book, this`nextId
      ensures Valid() && Fills(old(Seen()), Seen())
      ensures if ok then done || Supply(Seen()) < old(Supply(Seen())) else !done && Hopeless(Seen())
    {
      if out.strangers == [] {
        Refusing(this.ok, Seen());
        Refuse();
        return false;
      }
      Straying(this.ok, Seen());
      ok := line(nextId + 1) == Clear;
      Stray();
    }

    method Stray()
      requires position <= |rows| && out.strangers != []
      modifies this`rows, this`done, this`out, this`book, this`nextId
      ensures position <= |rows| && Seen() == Strayed(old(Seen()))
    {
      TailGrows(rows, position, out.strangers[0].0);
      StrayWith(out.strangers[0].0, out.strangers[0].1, out.strangers[1..]);
    }

    method StrayWith(batch: seq<Row>, last: bool, rest: seq<(seq<Row>, bool)>)
      modifies this`rows, this`done, this`out, this`book, this`nextId
      ensures nextId == old(nextId) + 1 && out == old(out).(strangers := rest)
      ensures line(nextId) == Clear ==> rows == Chain(old(rows), batch) && done == last
      ensures line(nextId) != Clear ==> rows == old(rows) && done == old(done)
      ensures
        var p := if line(nextId) == Clear then Foreign(nextId, batch) else Own(nextId, []);
        book == old(book).(pieces := old(book.pieces) + [p], puzzled := line(nextId) != Clear)
    {
      nextId, out := nextId + 1, out.(strangers := rest);
      if line(nextId) == Clear {
        rows, done := Chain(rows, batch), last;
        book := book.(pieces := book.pieces + [Foreign(nextId, batch)], puzzled := false);
      } else {
        book := book.(pieces := book.pieces + [Own(nextId, [])], puzzled := true);
      }
    }

    /** One `query_next` exchange. Under the lock it is one more piece of the query, with rows in
        it exactly when the server could serve it; the client has them exactly when the answer
        came in clear. */
    method Ask() returns (ok: bool)
      requires Valid() && !done
      modifies this, lock, server
      ensures Valid() && Fills(old(Seen()), Seen())
      ensures old(active && !broken) ==> Answered(old(Seen()), Seen())
      ensures if ok then done || Supply(Seen()) < old(Supply(Seen()))
              else !done && Hopeless(Seen()) && OnlyTooLarge(Seen())
    {
      if broken {
        ok := false;
      } else if line(nextId + 1) == Cut {
        Severing(this.ok, Seen());
        nextId, broken, ok := nextId + 1, true, false;
        book := book.(pieces := book.pieces + [Own(nextId, [])], puzzled := false);
      } else if !active {
        ok := AskBeside();
      } else if out.open {
        ok := AskOwn();
      } else {
        Refusing(this.ok, Seen());
        Refuse();
        ok := false;
      }
      Judged(this.ok, Seen());
    }

    /** Ask for batches until `wanted` rows are buffered or the query is exhausted. */
    method Fill(wanted: int) returns (ok: bool)
      requires Valid()
      modifies this, lock, server
      ensures Valid() && Fills(old(Seen()), Seen()) && InOrder(Seen())
      ensures if ok then done || |rows| - position >= wanted else !done && Hopeless(Seen()) && OnlyTooLarge(Seen())
      ensures ok && old(|rows| - position) < wanted ==> done || Supply(Seen()) < old(Supply(Seen()))
    {
      while !done && |rows| - position < wanted
        invariant Valid() && Fills(old(Seen()), Seen())
        invariant done || Supply(Seen()) < old(Supply(Seen())) || Seen().buffered == old(Seen().buffered)
        invariant done || Supply(Seen()) <= old(Supply(Seen()))
        decreases !done, Supply(Seen())
      {
        ok := Ask();
        if !ok {
          Judged(this.ok, Seen());
          return;
        }
      }
      Judged(this.ok, Seen());
      ok := true;
    }

    /** Advance in the buffer; an empty one starts over. */
    method Advance(n: nat) returns (taken: seq<Row>)
      requires position + n <= |rows|
      modifies this`rows, this`position
      ensures position <= |rows|
      ensures Tail(rows, position) == Tail(old(Tail(rows, position)), n) && taken == old(Tail(rows, position))[..n]
    {
      TailTwice(rows, position, n);
      taken := rows[position..position + n];
      position := position + n;
      if position == |rows| {
        rows, position := [], 0;
      }
    }

    method Take(n: nat) returns (taken: seq<Row>)
      requires Valid() && position + n <= |rows|
      modifies this`rows, this`position, this`book
      ensures Valid() && Seen() == Handed(old(Seen()), n) && taken == old(Seen()).buffered[..n] && InOrder(Seen())
    {
      Handing(this.ok, Seen(), n);
      taken := Advance(n);
      book := book.(delivered := Chain(book.delivered, taken));
      Judged(this.ok, Seen());
    }

    method FetchOne() returns (ok: bool, row: Option<Row>)
      requires Valid()
      modifies this, lock, server
      ensures Valid() && Continues(old(Seen()), Seen()) && InOrder(Seen())
      ensures book.delivered == Chain(old(book.delivered), if row.Some? then [row.value] else [])
      ensures ok && row == None ==> Over(Seen())
      ensures !ok ==> row == None && !done && Hopeless(Seen()) && OnlyTooLarge(Seen())
    {
      if position >= |rows| {
        ok := Fill(1);
        if !ok {
          FrontOfChain(book.delivered, []);
          return false, None;
        }
      }
      if position >= |rows| {
        Judged(this.ok, Seen());
        FrontOfChain(book.delivered, []);
        return true, None;
      }
      var taken := Take(1);
      row := Some(taken[0]);
      assert [taken[0]] == taken;
      return true, row;
    }

    method FetchMany(size: int) returns (ok: bool, got: seq<Row>)
      requires Valid()
      modifies this, lock, server
      ensures Valid() && Continues(old(Seen()), Seen()) && InOrder(Seen())
      ensures book.delivered == Chain(old(book.delivered), got)
      ensures |got| <= if size < 0 then 0 else size
      ensures ok && |got| < size ==> Over(Seen())
      ensures !ok ==> got == [] && !done && Hopeless(Seen()) && OnlyTooLarge(Seen())
    {
      var count: nat := if size < 0 then 0 else size;
      ok := Fill(count);
      if !ok {
        FrontOfChain(book.delivered, []);
        return false, [];
      }
      var end := if |rows| < position + count then |rows| else position + count;
      got := Take(end - position);
      if |got| < size { Judged(this.ok, Seen()); }
    }

    /** Buffer everything that is left. */
    method FillAll() returns (ok: bool)
      requires Valid()
      modifies this, lock, server
      ensures Valid() && Fills(old(Seen()), Seen()) && InOrder(Seen())
      ensures if ok then done else !done && Hopeless(Seen()) && OnlyTooLarge(Seen())
    {
      Judged(this.ok, Seen());
      while !done
        invariant Valid() && Fills(old(Seen()), Seen()) && InOrder(Seen())
        decreases !done, Supply(Seen())
      {
        var wanted := |rows| - position + 1;
        ok := Fill(if batchRows < wanted then wanted else batchRows);
        if !ok { return; }
      }
      ok := true;
    }

    method FetchAll() returns (ok: bool, got: seq<Row>)
      requires Valid()
      modifies this, lock, server
      ensures Valid() && Continues(old(Seen()), Seen()) && InOrder(Seen())
      ensures book.delivered == Chain(old(book.delivered), got)
      ensures ok ==> Over(Seen())
      ensures !ok ==> got == [] && !done && Hopeless(Seen()) && OnlyTooLarge(Seen())
    {
      ok := FillAll();
      if !ok {
        FrontOfChain(book.delivered, []);
        return false, [];
      }
      got := Take(|rows| - position);
      Judged(this.ok, Seen());
    }

    /** The `query_close` exchange; the lock is freed however it goes. */
    method TellServer() returns (ok: bool)
      requires Valid() && active
      modifies this`nextId, this`broken, this`out, this`book, this`active, lock, server
      ensures server.Healthy() && !active && !lock.held
      ensures ok <==> old(!broken && Hearing(Seen()) == Clear)
      ensures Seen() == if ok then Finished(Dropped(old(Seen()), false))
                        else if old(broken) then Finished(old(Seen()))
                        else if old(Hearing(Seen())) == Cut then Finished(Severed(old(Seen())))
                        else LeftOver(old(Seen()))
    {
      ok := false;
      if !broken {
        nextId := nextId + 1;
        ok := line(nextId) == Clear;
        book := book.(pieces := book.pieces + [Own(nextId, [])], puzzled := line(nextId) == Garbled);
        if line(nextId) == Cut {
          broken := true;
        } else {
          server.feed, server.pending, out := [], None, out.(open := false);
          if line(nextId) == Garbled { book := book.(leftover := true); }
        }
      }
      Finish();
    }

    /** Failing to tell the server still frees the lock but leaves the buffered rows, and unless
        the connection is gone the cursor is left over: not finished, yet without the lock. */
    method Close() returns (ok: bool)
      requires Valid()
      modifies this, lock, server
      ensures Valid() && !active && book.delivered == old(book.delivered) && InOrder(Seen())
      ensures ok <==> old(!active || (!broken && Hearing(Seen()) == Clear))
      ensures old(!active) ==> book.pieces == old(book.pieces)
      ensures old(active) ==> !lock.held && HandedOut(book.pieces) == old(HandedOut(book.pieces))
      ensures ok ==> book.closed && done && rows == [] && book.leftover == old(book.leftover)
      ensures !ok ==> !done && (broken || book.leftover) && book.closed == old(book.closed)
      ensures !ok ==> rows == old(rows) && position == old(position)
    {
      Closing(this.ok, Seen());
      ok := Shutting();
    }

    method Shutting() returns (ok: bool)
      requires Valid()
      modifies this, lock, server
      ensures position <= |rows| && server.Healthy() && Seen() == Closed(old(Seen()))
      ensures ok <==> old(!active || (!broken && Hearing(Seen()) == Clear))
      ensures if ok then rows == [] else rows == old(rows) && position == old(position)
      ensures old(active) ==> !lock.held
    {
      ok := true;
      if active { ok := TellServer(); }
      if ok { done, rows, position, book := true, [], 0, book.(closed := true); }
    }
  }

  lemma FirstFits(batch: seq<Row>, rest: seq<Row>, idBytes: nat)
    requires batch != [] && |Serialized(batch)| <= Budget(idBytes)
    ensures !Oversized(Chain(batch, rest)[0], idBytes)
  {
    SerializedGrows(batch);
    assert Chain(batch, rest)[0] == batch[0];
  }

  lemma {:induction false} SerializedGrows(rows: seq<Row>)
    requires rows != []
    ensures |Serialized([rows[0]])| <= |Serialized(rows)|
  {
    if |rows| > 1 {
      var init := rows[..|rows| - 1];
      SerializedGrows(init);
      SerializedSnoc(init, rows[|rows| - 1]);
      assert init + [rows[|rows| - 1]] == rows && init[0] == rows[0];
    } else {
      assert rows == [rows[0]];
    }
  }

  /** Opening holds the lock only when the server opened the query. */
  method Open(lock: RequestLock, server: ServerCursor, batchRows: int, nextId: nat, refused: bool, line: Line,
              strangers: seq<(seq<Row>, bool)>)
    returns (c: QueryCursor?)
    requires !lock.held && server.Healthy()
    modifies lock
    ensures (c == null) <==> (refused || batchRows < 1 || batchRows > MAX_CURSOR_ROWS)
    ensures c == null ==> !lock.held
    ensures c != null ==>
              && fresh(c) && c.Valid() && c.lock == lock && c.server == server
              && c.Seen() == Opened(server.Remaining(), line, nextId, strangers)
  {
    if batchRows < 1 || batchRows > MAX_CURSOR_ROWS { return null; }
    lock.Acquire();
    if refused {
      lock.Release();
      return null;
    }
    c := new QueryCursor(lock, server, batchRows, nextId, line, strangers);
  }

  datatype Call = One | Many(size: int) | All | Close

  /** The call got fewer rows than it asked for. */
  predicate Short(call: Call, got: seq<Row>) {
    match call
    case One => got == []
    case Many(size) => |got| < size
    case All => true
    case Close => false
  }

  method Perform(c: QueryCursor, call: Call) returns (ok: bool, got: seq<Row>)
    requires c.Valid()
    modifies c, c.lock, c.server
    ensures c.Valid() && c.book.delivered == Chain(old(c.book.delivered), got) && InOrder(c.Seen())
    ensures old(c.done) ==> c.done && c.book.pieces == old(c.book.pieces)
    ensures if call == Close && ok then c.book.closed else c.book.closed == old(c.book.closed)
    ensures call != Close ==> c.book.leftover == old(c.book.leftover)
    ensures ok && Short(call, got) ==> Over(c.Seen())
    ensures call != Close && !ok ==> !c.done && Hopeless(c.Seen()) && OnlyTooLarge(c.Seen())
  {
    got := [];
    match call {
      case One =>
        var row;
        ok, row := c.FetchOne();
        if row.Some? { got := [row.value]; }
      case Many(size) => ok, got := c.FetchMany(size);
      case All => ok, got := c.FetchAll();
      case Close =>
        ok := c.Close();
        FrontOfChain(c.book.delivered, []);
    }
  }

  /** Any sequence of fetches and closes on one cursor, however the answers come in: what is
      handed out is what was in the answers the client could decode, in order and once each, and
      all of it as soon as a fetch reports the end. If no row is too large and the cursor is not
      used after a failed close, that is the whole query exactly when every answer came in clear,
      and on a clear connection only a row that is too large keeps it from being delivered. */
  method Fetches(c: QueryCursor, calls: seq<Call>) returns (got: seq<Row>, exhausted: bool)
    requires c.Valid() && c.active && c.book == BLANK
    modifies c, c.lock, c.server
    ensures c.Valid() && got == c.book.delivered && got <= Received(c.line, c.book.pieces)
    ensures HandedOut(c.book.pieces) <= c.all && InOrder(c.Seen()) && (exhausted ==> Finale(c.Seen()))
    ensures Close !in calls ==> NoForeign(c.book.pieces)
    ensures AllClear(c.line, c.first, c.nextId) ==> got <= c.all && (exhausted ==> got == c.all)
    ensures !exhausted && calls != [] && calls[|calls| - 1] == All ==> c.book.closed || OnlyTooLarge(c.Seen())
  {
    got, exhausted := [], false;
    var shut := false;
    for i := 0 to |calls|
      invariant c.Valid() && got == c.book.delivered && shut == c.book.closed
      invariant exhausted ==> Finale(c.Seen())
      invariant c.book.leftover || shut ==> exists k :: 0 <= k < i && calls[k] == Close
      invariant !exhausted && i > 0 && calls[i - 1] == All ==> shut || OnlyTooLarge(c.Seen())
    {
      var more;
      more, exhausted := Turn(c, calls[i], exhausted, shut);
      got := Chain(got, more.1);
      shut := shut || (more.0 && calls[i] == Close);
    }
    Judged(c.ok, c.Seen());
  }

  /** One call; the end of the query is noted when a fetch reports it. */
  method Turn(c: QueryCursor, call: Call, exhausted: bool, shut: bool) returns (r: (bool, seq<Row>), over: bool)
    requires c.Valid() && shut == c.book.closed && (exhausted ==> Finale(c.Seen()))
    modifies c, c.lock, c.server
    ensures c.Valid() && c.book.delivered == Chain(old(c.book.delivered), r.1)
    ensures c.book.closed == (shut || (r.0 && call == Close))
    ensures call != Close ==> c.book.leftover == old(c.book.leftover)
    ensures over ==> Finale(c.Seen())
    ensures !over && call == All ==> c.book.closed || OnlyTooLarge(c.Seen())
  {
    ghost var before := c.Seen();
    var ok, got := Perform(c, call);
    if exhausted { StillFinale(c.ok, before, c.Seen(), got); }
    r, over := (ok, got), exhausted || (ok && !shut && Short(call, got));
  }

  /** A query with one row whose only answer cannot be decoded: the row is gone for good. */
  method LostRow(row: Row) returns (c: QueryCursor)
    requires |row| <= 1000
    ensures fresh(c) && c.Valid() && c.all == [row] && HandedOut(c.book.pieces) <= [row]
    ensures MissingRows(c.line, c.book.pieces) > 0
  {
    var lock := new RequestLock();
    lock.Acquire();
    var server := new ServerCursor([Good(row)]);
    OneRow(row);
    var line: Line := n => Garbled;
    c := new QueryCursor(lock, server, 1, 0, line, []);
    ghost var before := c.Seen();
    OnlyRow(row, line);
    var _ := c.Ask();
    AnsweredRows(before, c.Seen());
    Judged(c.ok, c.Seen());
  }

  lemma OnlyRow(row: Row, line: Line)
    requires |row| <= 1000
    ensures Servable(Opened([row], line, 0, []))
  {
    OneRow(row);
  }

  lemma OneRow(row: Row)
    requires |row| <= 1000
    ensures GoodRows([Good(row)]) == [row] && [] + GoodRows([Good(row)]) == [row] && !Oversized(row, IdBytes(1))
  {
    assert [Good(row)][1..] == [] && Joined([row]) == row;
  }
}
