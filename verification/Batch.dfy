/** The ClickHouse batch inserter: rows are buffered and sent in batches. What the connection does
    during a flush is a parameter; sending a batch is atomic. */
module Batch {
  import opened Common

  type Row(==, !new)

  const DEFAULT_SIZE: nat := 1000

  /** One flush against the connection: whether preparing works, how many rows are appended before a
      transient append failure (None for no such failure), and whether sending works. */
  datatype Trial = Trial(prepareOk: bool, appendLimit: Option<nat>, sendOk: bool)

  datatype Result = Ok | Cancelled | PrepareFailed | AppendFailed | SendFailed

  /** `appendable` says whether a row's fields match the columns; it never changes for a row. */
  datatype Config = Config(batchSize: nat, appendable: Row -> bool)

  /** The buffer, whether the context is cancelled, and the batches the server has received. */
  datatype State = State(rows: seq<Row>, cancelled: bool, sent: seq<seq<Row>>)

  predicate AllAppend(c: Config, rows: seq<Row>, t: Trial)
  {
    && (forall i :: 0 <= i < |rows| ==> c.appendable(rows[i]))
    && (t.appendLimit.None? || t.appendLimit.value >= |rows|)
  }

  function FlushSpec(c: Config, s: State, t: Trial): (State, Result)
  {
    if s.rows == [] then (s, Ok)
    else if !t.prepareOk then (s, PrepareFailed)
    else if !AllAppend(c, s.rows, t) then (s, AppendFailed)
    else if !t.sendOk then (s, SendFailed)
    else (s.(rows := [], sent := s.sent + [s.rows]), Ok)
  }

  function AddSpec(c: Config, s: State, row: Row, t: Trial): (State, Result)
  {
    if s.cancelled then (s, Cancelled)
    else
      var s' := s.(rows := s.rows + [row]);
      if |s'.rows| >= c.batchSize then FlushSpec(c, s', t) else (s', Ok)
  }

  class BatchInserter {
    const cfg: Config
    var rows: seq<Row>
    var cancelled: bool
    var sent: seq<seq<Row>>

    ghost function Fields(): State
      reads this
    {
      State(rows, cancelled, sent)
    }

    constructor (batchSize: int, appendable: Row -> bool)
      ensures cfg == Config(if batchSize <= 0 then DEFAULT_SIZE else batchSize, appendable)
      ensures Fields() == State([], false, [])
    {
      cfg := Config(if batchSize <= 0 then DEFAULT_SIZE else batchSize, appendable);
      rows, cancelled, sent := [], false, [];
    }

    method Flush(t: Trial) returns (r: Result)
      modifies this
      ensures (Fields(), r) == FlushSpec(cfg, old(Fields()), t)
    {
      if |rows| == 0 {
        return Ok;
      }
      if !t.prepareOk {
        return PrepareFailed;
      }
      var batch: seq<Row> := [];
      for i := 0 to |rows|
        invariant rows == old(rows) && cancelled == old(cancelled) && sent == old(sent)
        invariant batch == rows[..i] && AllAppend(cfg, batch, t)
      {
        if !cfg.appendable(rows[i]) || (t.appendLimit.Some? && t.appendLimit.value <= i) {
          return AppendFailed;
        }
        batch := batch + [rows[i]];
      }
      assert rows[..|rows|] == rows;
      if !t.sendOk {
        return SendFailed;
      }
      sent := sent + [batch];
      rows := [];
      return Ok;
    }

    method Add(row: Row, t: Trial) returns (r: Result)
      modifies this
      ensures (Fields(), r) == AddSpec(cfg, old(Fields()), row, t)
    {
      if cancelled {
        return Cancelled;
      }
      rows := rows + [row];
      if |rows| >= cfg.batchSize {
        r := Flush(t);
        return;
      }
      return Ok;
    }

    method Close(t: Trial) returns (r: Result)
      modifies this
      ensures var (s, r') := FlushSpec(cfg, old(Fields()), t);
              Fields() == s.(cancelled := true) && r == r'
    {
      r := Flush(t);
      cancelled := true;
    }
  }

  /** An inserter needs at least one column. */
  method NewBatchInserter(batchSize: int, columns: seq<string>, appendable: Row -> bool) returns (r: Option<BatchInserter>)
    ensures r.None? <==> columns == []
    ensures r.Some? ==>
              && fresh(r.value) && r.value.Fields() == FRESH
              && r.value.cfg == Config(if batchSize <= 0 then DEFAULT_SIZE else batchSize, appendable)
  {
    if |columns| == 0 {
      return None;
    }
    var bi := new BatchInserter(batchSize, appendable);
    return Some(bi);
  }

  // ------------------------------------------------------------------------
  // Runs
  // ------------------------------------------------------------------------

  datatype Event = Add(row: Row, t: Trial) | Flush(t: Trial) | Close(t: Trial) | Cancel

  function Step(c: Config, s: State, e: Event): State
  {
    match e
    case Add(row, t) => AddSpec(c, s, row, t).0
    case Flush(t) => FlushSpec(c, s, t).0
    case Close(t) => FlushSpec(c, s, t).0.(cancelled := true)
    case Cancel => s.(cancelled := true)
  }

  function Run(c: Config, s: State, es: seq<Event>): State
  {
    if |es| == 0 then s else Step(c, Run(c, s, es[..|es| - 1]), es[|es| - 1])
  }

  const FRESH := State([], false, [])

  /** The rows whose `Add` was not refused by a cancelled context, whatever it then returned. */
  function Accepted(c: Config, es: seq<Event>): seq<Row>
  {
    if |es| == 0 then []
    else
      var pre, e := es[..|es| - 1], es[|es| - 1];
      if e.Add? && !Run(c, FRESH, pre).cancelled then Accepted(c, pre) + [e.row] else Accepted(c, pre)
  }

  function Flat(batches: seq<seq<Row>>): seq<Row>
  {
    if |batches| == 0 then [] else Flat(batches[..|batches| - 1]) + batches[|batches| - 1]
  }

  lemma {:induction false} FlushConserves(c: Config, s: State, t: Trial)
    ensures var s' := FlushSpec(c, s, t).0; Flat(s'.sent) + s'.rows == Flat(s.sent) + s.rows
  {
    var s' := FlushSpec(c, s, t).0;
    if s'.sent != s.sent {
      assert s'.sent[..|s'.sent| - 1] == s.sent;
    }
  }

  /** A flush succeeds if and only if there is nothing to send or preparing, appending every row and
      sending all work; it then has emptied the buffer into one more batch, and otherwise everything
      is as before, under the error of the first step that failed. */
  lemma {:induction false} FlushMeans(c: Config, s: State, t: Trial)
    ensures var (s', r) := FlushSpec(c, s, t);
            var appends := forall i :: 0 <= i < |s.rows| ==> c.appendable(s.rows[i]) && (t.appendLimit == None || i < t.appendLimit.value);
            && (r == Ok <==> s.rows == [] || (t.prepareOk && appends && t.sendOk))
            && (r == Ok && s.rows != [] ==> s'.rows == [] && s'.sent == s.sent + [s.rows])
            && (r != Ok || s.rows == [] ==> s' == s)
            && s'.cancelled == s.cancelled
            && (s.rows != [] ==>
                  && (r == PrepareFailed <==> !t.prepareOk)
                  && (r == AppendFailed <==> t.prepareOk && !appends)
                  && (r == SendFailed <==> t.prepareOk && appends && !t.sendOk))
  {
    if s.rows != [] && t.appendLimit.Some? && t.appendLimit.value < |s.rows| {
      assert s.rows[t.appendLimit.value] in s.rows;
    }
  }

  /** An add is refused only after cancellation; below the batch size it just buffers the row, and at
      the batch size it flushes the buffer with the row in it, which stays there if that fails. */
  lemma {:induction false} AddMeans(c: Config, s: State, row: Row, t: Trial)
    ensures var (s', r) := AddSpec(c, s, row, t);
            && (r == Cancelled <==> s.cancelled) && (s.cancelled ==> s' == s)
            && (!s.cancelled && |s.rows| + 1 < c.batchSize ==> r == Ok && s' == s.(rows := s.rows + [row]))
            && (!s.cancelled && |s.rows| + 1 >= c.batchSize ==>
                  && (r == Ok ==> s'.rows == [] && s'.sent == s.sent + [s.rows + [row]])
                  && (r != Ok ==> s' == s.(rows := s.rows + [row]))
                  && (t.prepareOk && t.sendOk && t.appendLimit == None && (forall x :: x in s.rows + [row] ==> c.appendable(x)) ==> r == Ok))
  {
    if !s.cancelled && |s.rows| + 1 >= c.batchSize {
      FlushMeans(c, s.(rows := s.rows + [row]), t);
    }
  }

  /** Over every run of Add, Flush, Close and cancellation with arbitrary failures, the rows sent
      followed by the rows buffered are the rows accepted: in order, none lost, none duplicated. */
  lemma {:induction false} RowsConserved(c: Config, es: seq<Event>)
    ensures var s := Run(c, FRESH, es); Flat(s.sent) + s.rows == Accepted(c, es)
  {
    if |es| > 0 {
      var pre, e := es[..|es| - 1], es[|es| - 1];
      RowsConserved(c, pre);
      var s := Run(c, FRESH, pre);
      match e
      case Add(row, t) =>
        if !s.cancelled {
          var s1 := s.(rows := s.rows + [row]);
          assert Flat(s1.sent) + s1.rows == Flat(s.sent) + s.rows + [row];
          FlushConserves(c, s1, t);
        }
      case Flush(t) => FlushConserves(c, s, t);
      case Close(t) => FlushConserves(c, s, t);
      case Cancel =>
    }
  }

  lemma CancelledStays(c: Config, s: State, e: Event)
    ensures s.cancelled || e.Close? || e.Cancel? ==> Step(c, s, e).cancelled
  {
  }

  lemma {:induction false} ClosedForGood(c: Config, es: seq<Event>, e: Event, rest: seq<Event>)
    requires e.Close? || e.Cancel?
    ensures Run(c, FRESH, es + [e] + rest).cancelled
  {
    var all := es + [e] + rest;
    if |rest| == 0 {
      assert all[..|all| - 1] == es;
      CancelledStays(c, Run(c, FRESH, es), e);
    } else {
      assert all[..|all| - 1] == es + [e] + rest[..|rest| - 1];
      ClosedForGood(c, es, e, rest[..|rest| - 1]);
      CancelledStays(c, Run(c, FRESH, all[..|all| - 1]), all[|all| - 1]);
    }
  }

  /** Once the inserter is closed or its context cancelled, no row is accepted any more. */
  lemma {:induction false} NothingAfterClose(c: Config, es: seq<Event>, e: Event, rest: seq<Event>)
    requires e.Close? || e.Cancel?
    ensures Accepted(c, es + [e] + rest) == Accepted(c, es)
  {
    var all := es + [e] + rest;
    if |rest| == 0 {
      assert all[..|all| - 1] == es;
    } else {
      var less := rest[..|rest| - 1];
      assert all[..|all| - 1] == es + [e] + less;
      NothingAfterClose(c, es, e, less);
      ClosedForGood(c, es, e, less);
    }
  }

  /** After a successful Add the buffer is below the batch size, and every batch the server has is
      non-empty. */
  lemma {:induction false} BatchesWellSized(c: Config, es: seq<Event>, row: Row, t: Trial)
    requires c.batchSize > 0
    ensures AddSpec(c, Run(c, FRESH, es), row, t).1 == Ok ==>
              |AddSpec(c, Run(c, FRESH, es), row, t).0.rows| < c.batchSize
    ensures forall i :: 0 <= i < |Run(c, FRESH, es).sent| ==> Run(c, FRESH, es).sent[i] != []
  {
    if |es| > 0 {
      BatchesWellSized(c, es[..|es| - 1], row, t);
    }
  }

  /** Once a row that cannot be appended is buffered, nothing is ever sent again and every Flush,
      Close or batch-completing Add fails. */
  lemma {:induction false} PoisonedForever(c: Config, s: State, es: seq<Event>, i: nat)
    requires i < |s.rows| && !c.appendable(s.rows[i])
    ensures var s' := Run(c, s, es);
            && s'.sent == s.sent && s.rows <= s'.rows
            && forall t :: FlushSpec(c, s', t).1 != Ok
  {
    if |es| > 0 {
      PoisonedForever(c, s, es[..|es| - 1], i);
      var p := Run(c, s, es[..|es| - 1]);
      assert !c.appendable(p.rows[i]);
      if es[|es| - 1].Add? {
        assert !c.appendable((p.rows + [es[|es| - 1].row])[i]);
      }
    }
  }
}
