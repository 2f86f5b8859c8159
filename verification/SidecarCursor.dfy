/** The streaming cursor of the sidecar: the server side hands out batches bounded in rows
    and bytes with one row of look-ahead, the client side buffers them. */
module SidecarCursor {
  import opened Order

  /** A row, identified with its compact JSON text. */
  type Row = Bytes

  const MAX_RESPONSE_BYTES: nat := 8 * 1024 * 1024
  const MAX_CURSOR_ROWS: nat := 4096

  /** What the engine cursor yields next. */
  datatype Fetch = Good(row: Row) | Fault

  datatype Batch = Rows(rows: seq<Row>, done: bool) | TooLarge | Broken

  /* ---- serialization ---- */

  /** Rows separated by commas. */
  function Joined(rows: seq<Row>): Bytes {
    if rows == [] then []
    else if |rows| == 1 then rows[0]
    else Joined(rows[..|rows| - 1]) + [0x2c] + rows[|rows| - 1]
  }

  /** The JSON array of rows. */
  function Serialized(rows: seq<Row>): Bytes {
    [0x5b] + Joined(rows) + [0x5d]
  }

  lemma SerializedSnoc(rows: seq<Row>, row: Row)
    ensures |Serialized(rows + [row])| == |Serialized(rows)| + |row| + if rows == [] then 0 else 1
  {
    assert (rows + [row])[..|rows|] == rows;
  }

  lemma Regroup(a: seq<Row>, b: seq<Row>, c: seq<Row>)
    ensures a + b + c == a + (b + c)
  {
  }

  /** Good rows up to the first fault. */
  function GoodRows(feed: seq<Fetch>): seq<Row> {
    if feed == [] || feed[0].Fault? then [] else [feed[0].row] + GoodRows(feed[1..])
  }

  predicate Faultless(feed: seq<Fetch>) {
    forall i :: 0 <= i < |feed| ==> feed[i].Good?
  }

  /* ---- server ---- */

  class ServerCursor {
    var feed: seq<Fetch>
    var pending: Option<Row>

    constructor (feed: seq<Fetch>)
      ensures this.feed == feed && pending == None
    {
      this.feed, pending := feed, None;
    }

    /** Rows not yet handed out. */
    ghost function Remaining(): seq<Row>
      reads this
    {
      (if pending.Some? then [pending.value] else []) + GoodRows(feed)
    }

    ghost predicate Healthy()
      reads this
    {
      Faultless(feed)
    }

    /** The retained row first, then the engine cursor. */
    method Pull() returns (next: Option<Fetch>)
      modifies this
      ensures old(Healthy()) ==> Healthy() && next != Some(Fault)
      ensures next == None ==> Remaining() == old(Remaining()) == []
      ensures next.Some? && next.value.Good? ==> [next.value.row] + Remaining() == old(Remaining())
      ensures pending == None
      ensures next.Some? ==> Size() < old(Size())
    {
      if pending.Some? {
        next, pending := Some(Good(pending.value)), None;
      } else if feed == [] {
        next := None;
      } else {
        next, feed := Some(feed[0]), feed[1..];
      }
    }

    ghost function Size(): nat
      reads this
    {
      |feed| + if pending.Some? then 1 else 0
    }

    /** Keep a row that does not fit for the next call. */
    method Retain(row: Row)
      requires pending == None
      modifies this`pending
      ensures Remaining() == [row] + old(Remaining()) && Healthy() == old(Healthy())
    {
      pending := Some(row);
    }

    /** The next batch: as many rows as fit in `maxRows` and `byteBudget`. */
    method Next(maxRows: nat, byteBudget: nat) returns (r: Batch)
      modifies this
      ensures old(Healthy()) ==> Healthy() && !r.Broken?
      ensures r.Rows? ==> r.rows + Remaining() == old(Remaining()) && |r.rows| <= maxRows
      ensures r.Rows? && r.rows != [] ==> |Serialized(r.rows)| <= byteBudget
      ensures r.Rows? && r.done ==> Remaining() == []
      ensures r.Rows? && !r.done ==>
                && r.rows != [] && Remaining() != []
                && (|r.rows| == maxRows || |Serialized(r.rows + [Remaining()[0]])| > byteBudget)
      ensures r.TooLarge? ==>
                && Remaining() == old(Remaining()) != []
                && (maxRows == 0 || |Serialized([Remaining()[0]])| > byteBudget)
    {
      var rows: seq<Row> := [];
      var bytes := 2;
      ghost var all := Remaining();
      while true
        invariant bytes == |Serialized(rows)| && |rows| <= maxRows && (rows != [] ==> bytes <= byteBudget)
        invariant rows + Remaining() == all
        invariant old(Healthy()) ==> Healthy()
        decreases Size()
      {
        var next := Pull();
        if next == None { return Rows(rows, true); }
        if next.value.Fault? { return Broken; }
        var row := next.value.row;
        var nextBytes := bytes + |row| + if rows != [] then 1 else 0;
        SerializedSnoc(rows, row);
        if |rows| == maxRows || nextBytes > byteBudget {
          Retain(row);
          if rows == [] {
            assert rows + [row] == [row];
            return TooLarge;
          }
          return Rows(rows, false);
        }
        Regroup(rows, [row], Remaining());
        bytes, rows := nextBytes, rows + [row];
      }
    }
  }

  /* ---- the reply ---- */

  function Text(b: bool): Bytes {
    if b then [0x74, 0x72, 0x75, 0x65] else [0x66, 0x61, 0x6c, 0x73, 0x65]
  }

  /** `{"id":I,"ok":true,"result":{"done":D,"rows":R}}`; a request without an id is answered
      without one. */
  function Reply(id: Option<Bytes>, rows: seq<Row>, done: bool): Bytes {
    Head(id) + Text(done) + Middle() + Serialized(rows) + [0x7d, 0x7d]
  }

  /** The echoed id, `"id":I,`. */
  function IdMember(id: Option<Bytes>): Bytes {
    match id
    case None => []
    case Some(text) => [0x22, 0x69, 0x64, 0x22, 0x3a] + text + [0x2c]
  }

  function Head(id: Option<Bytes>): Bytes {
    [0x7b] + IdMember(id)
    + [0x22, 0x6f, 0x6b, 0x22, 0x3a, 0x74, 0x72, 0x75, 0x65, 0x2c]
    + [0x22, 0x72, 0x65, 0x73, 0x75, 0x6c, 0x74, 0x22, 0x3a, 0x7b, 0x22, 0x64, 0x6f, 0x6e, 0x65, 0x22, 0x3a]
  }

  function Middle(): Bytes {
    [0x2c, 0x22, 0x72, 0x6f, 0x77, 0x73, 0x22, 0x3a]
  }

  function SubSaturating(a: nat, b: nat): nat {
    if b <= a then a - b else 0
  }

  /** Bytes of a reply besides its id and rows, with `false` for done. */
  const ENVELOPE_BYTES: nat := 43

  /** The row budget left by the envelope of a request whose echoed id takes `idBytes`. */
  function Budget(idBytes: nat): nat {
    SubSaturating(MAX_RESPONSE_BYTES, ENVELOPE_BYTES + idBytes)
  }

  lemma BudgetIsWhatTheEnvelopeLeaves(id: Option<Bytes>)
    ensures var envelope := |Reply(id, [], false)| - 2;
            if envelope <= MAX_RESPONSE_BYTES then Budget(|IdMember(id)|) + envelope == MAX_RESPONSE_BYTES
            else Budget(|IdMember(id)|) == 0
  {
    assert |Serialized([])| == 2;
  }

  /** A reply whose rows respect the budget fits the response limit whenever its envelope
      does; the count kept while batching is what the reply really occupies. */
  lemma ReplyFits(id: Option<Bytes>, rows: seq<Row>, done: bool)
    requires |Reply(id, [], false)| <= MAX_RESPONSE_BYTES
    requires rows == [] || |Serialized(rows)| <= Budget(|IdMember(id)|)
    ensures |Reply(id, rows, done)| <= MAX_RESPONSE_BYTES
    ensures |Reply(id, rows, done)| == |Reply(id, [], done)| - 2 + |Serialized(rows)|
  {
    assert |Serialized([])| == 2;
  }

  datatype NextReply = Served(batch: Batch) | BadMaxRows

  /** No reply with an echoed id of this length can carry the row. */
  predicate Oversized(row: Row, idBytes: nat) {
    |Serialized([row])| > Budget(idBytes)
  }

  /** The batch answering one `query_next` request against an open cursor. */
  method NextBatch(server: ServerCursor, idBytes: nat, maxRows: nat) returns (r: NextReply)
    modifies server
    ensures r.BadMaxRows? <==> maxRows == 0 || maxRows > MAX_CURSOR_ROWS
    ensures r.BadMaxRows? ==> server.Remaining() == old(server.Remaining())
    ensures old(server.Healthy()) ==> server.Healthy() && (r.Served? ==> !r.batch.Broken?)
    ensures r.Served? && r.batch.Rows? ==>
              && r.batch.rows + server.Remaining() == old(server.Remaining())
              && (r.batch.done <==> server.Remaining() == [])
              && (!r.batch.done ==> r.batch.rows != [])
              && (r.batch.rows == [] || |Serialized(r.batch.rows)| <= Budget(idBytes))
    ensures r.Served? && r.batch.TooLarge? ==>
              && server.Remaining() == old(server.Remaining()) != []
              && Oversized(server.Remaining()[0], idBytes)
  {
    if maxRows == 0 || maxRows > MAX_CURSOR_ROWS { return BadMaxRows; }
    var batch := server.Next(maxRows, Budget(idBytes));
    r := Served(batch);
  }

  /** The whole exchange: every successful reply is within the limit if its envelope is. */
  method QueryNext(server: ServerCursor, id: Option<Bytes>, maxRows: nat) returns (r: NextReply, reply: Bytes)
    modifies server
    ensures r.Served? && r.batch.Rows? ==>
              && reply == Reply(id, r.batch.rows, r.batch.done)
              && r.batch.rows + server.Remaining() == old(server.Remaining())
              && (r.batch.done <==> server.Remaining() == [])
              && (|Reply(id, [], false)| <= MAX_RESPONSE_BYTES ==> |reply| <= MAX_RESPONSE_BYTES)
  {
    r := NextBatch(server, |IdMember(id)|, maxRows);
    reply := [];
    if r.Served? && r.batch.Rows? {
      reply := Reply(id, r.batch.rows, r.batch.done);
      if |Reply(id, [], false)| <= MAX_RESPONSE_BYTES { ReplyFits(id, r.batch.rows, r.batch.done); }
    }
  }
}
