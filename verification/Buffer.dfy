/** The station's buffer: the table that holds events between ingest and a gateway's answer. */
module Buffer {
  import opened Wire

  datatype Row = Row(id: int, ts: Instant, raw: string)

  datatype Stats = Stats(depth: nat, oldestTs: Option<Instant>, lastId: int)

  /** The rows in id order, and the last id ever assigned, which survives deletes. */
  datatype Table = Table(rows: seq<Row>, lastId: int)

  type Entry = (Instant, string)

  /** The entries that make a row: a blank line is rejected. */
  function NonBlank(entries: seq<Entry>): seq<Entry> {
    if entries == [] then []
    else
      var front := NonBlank(entries[..|entries| - 1]);
      if entries[|entries| - 1].1 == "" then front else front + [entries[|entries| - 1]]
  }

  /** Of each line as many as there were, but of a blank one none. */
  lemma {:induction false} BlankIsRejected(entries: seq<Entry>)
    ensures forall e :: multiset(NonBlank(entries))[e] == if e.1 == "" then 0 else multiset(entries)[e]
  {
    if entries != [] {
      var front, last := entries[..|entries| - 1], entries[|entries| - 1];
      BlankIsRejected(front);
      assert entries == front + [last];
    }
  }

  lemma NoEntries()
    ensures NonBlank([]) == []
  {
  }

  /** The rest keep their order. */
  lemma {:induction false} NonBlankConcat(a: seq<Entry>, b: seq<Entry>)
    ensures NonBlank(a + b) == NonBlank(a) + NonBlank(b)
  {
    if b == [] {
      assert a + b == a;
    } else {
      NonBlankConcat(a, b[..|b| - 1]);
      assert (a + b)[..|a + b| - 1] == a + b[..|b| - 1];
    }
  }

  function Numbered(entries: seq<Entry>, after: int): seq<Row> {
    seq(|entries|, i requires 0 <= i < |entries| => Row(after + 1 + i, entries[i].0, entries[i].1))
  }

  function Appended(t: Table, entries: seq<Entry>): Table {
    var rows := Numbered(NonBlank(entries), t.lastId);
    Table(t.rows + rows, t.lastId + |rows|)
  }

  /** `LIMIT limit`, which SQLite reads as no limit when it is negative. */
  function Batch(t: Table, limit: int): seq<Row> {
    if 0 <= limit < |t.rows| then t.rows[..limit] else t.rows
  }

  function Without(rows: seq<Row>, ids: set<int>): seq<Row> {
    if rows == [] then []
    else
      var front := Without(rows[..|rows| - 1], ids);
      if rows[|rows| - 1].id in ids then front else front + [rows[|rows| - 1]]
  }

  function Ids(batch: seq<Row>): set<int> { set r | r in batch :: r.id }

  function Acked(t: Table, batch: seq<Row>): Table { t.(rows := Without(t.rows, Ids(batch))) }

  function Sampled(t: Table): Stats {
    Stats(|t.rows|, if t.rows == [] then None else Some(t.rows[0].ts), t.lastId)
  }

  class Db {
    var rows: seq<Row>
    var lastId: int

    constructor ()
      ensures View() == Table([], 0)
    {
      rows, lastId := [], 0;
    }

    ghost function View(): Table
      reads this
    {
      Table(rows, lastId)
    }

    method Append(entries: seq<Entry>) returns (n: nat)
      modifies this
      ensures View() == Appended(old(View()), entries) && n == |NonBlank(entries)|
    {
      var kept: seq<Entry> := [];
      for i := 0 to |entries|
        invariant kept == NonBlank(entries[..i])
      {
        assert entries[..i + 1][..i] == entries[..i];
        if entries[i].1 != "" {
          kept := kept + [entries[i]];
        }
      }
      assert entries[..|entries|] == entries;
      for i := 0 to |kept|
        invariant View() == Table(old(rows) + Numbered(kept[..i], old(lastId)), old(lastId) + i)
      {
        lastId := lastId + 1;
        rows := rows + [Row(lastId, kept[i].0, kept[i].1)];
        assert Numbered(kept[..i + 1], old(lastId))
            == Numbered(kept[..i], old(lastId)) + [Row(lastId, kept[i].0, kept[i].1)];
      }
      assert kept[..|kept|] == kept;
      n := |kept|;
    }

    method NextBatch(limit: int) returns (batch: seq<Row>)
      ensures batch == Batch(View(), limit)
      ensures batch <= rows && (batch == [] <==> rows == [] || limit == 0)
      ensures |batch| == |rows| || |batch| == limit < |rows|
      ensures 0 <= limit ==> |batch| <= limit
    {
      batch := if 0 <= limit < |rows| then rows[..limit] else rows;
    }

    method Ack(batch: seq<Row>)
      modifies this`rows
      ensures View() == Acked(old(View()), batch)
    {
      WithoutNone(rows);
      assert Ids(batch[..0]) == {};
      for i := 0 to |batch|
        invariant rows == Without(old(rows), Ids(batch[..i]))
      {
        WithoutTwice(old(rows), Ids(batch[..i]), {batch[i].id});
        assert Ids(batch[..i + 1]) == Ids(batch[..i]) + {batch[i].id};
        rows := Without(rows, {batch[i].id});
      }
      assert batch[..|batch|] == batch;
    }

    method Sample() returns (s: Stats)
      ensures s == Sampled(View())
    {
      s := Stats(|rows|, if rows == [] then None else Some(rows[0].ts), lastId);
    }
  }

  lemma {:induction false} WithoutNone(rows: seq<Row>)
    ensures Without(rows, {}) == rows
  {
    if rows != [] {
      WithoutNone(rows[..|rows| - 1]);
      assert rows == rows[..|rows| - 1] + [rows[|rows| - 1]];
    }
  }

  lemma {:induction false} WithoutTwice(rows: seq<Row>, a: set<int>, b: set<int>)
    ensures Without(Without(rows, a), b) == Without(rows, a + b)
  {
    if rows != [] {
      var front, last := rows[..|rows| - 1], rows[|rows| - 1];
      WithoutTwice(front, a, b);
      assert (Without(front, a) + [last])[..|Without(front, a)|] == Without(front, a);
    }
  }

  /** Rows are numbered consecutively, the last one `lastId`. */
  ghost predicate Contiguous(t: Table) {
    |t.rows| <= t.lastId && forall i :: 0 <= i < |t.rows| ==> t.rows[i].id == t.lastId - |t.rows| + 1 + i
  }

  lemma {:induction false} WithoutPrefix(rows: seq<Row>, batch: seq<Row>)
    requires batch <= rows && forall i, j :: 0 <= i < j < |rows| ==> rows[i].id < rows[j].id
    ensures Without(rows, Ids(batch)) == rows[|batch|..]
  {
    if rows != [] {
      var n := |rows| - 1;
      if |batch| <= n {
        assert forall r :: r in batch ==> r.id < rows[n].id;
        WithoutPrefix(rows[..n], batch);
        assert rows[..n][|batch|..] + [rows[n]] == rows[|batch|..];
      } else {
        assert batch == rows;
        AllGone(rows, Ids(rows));
      }
    }
  }

  lemma {:induction false} AllGone(rows: seq<Row>, ids: set<int>)
    requires forall r :: r in rows ==> r.id in ids
    ensures Without(rows, ids) == []
  {
    if rows != [] {
      assert rows[|rows| - 1] in rows;
      AllGone(rows[..|rows| - 1], ids);
    }
  }

  /** Acknowledging a batch taken from the head removes it and nothing else. */
  lemma AckTakesTheHead(t: Table, batch: seq<Row>)
    requires Contiguous(t) && batch <= t.rows
    ensures Acked(t, batch) == Table(t.rows[|batch|..], t.lastId) && Contiguous(Acked(t, batch))
  {
    WithoutPrefix(t.rows, batch);
  }
}
