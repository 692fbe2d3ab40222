/** The trace table: rows inserted under a natural key, a conflict doing nothing, by a consumer that may crash
    between any two statements and re-reads what it had not committed. */
module History {
  import opened Order
  import opened StateFunction
  import opened Lifecycle

  type Table = map<TraceKey, Trace>

  /** `INSERT ... ON CONFLICT DO NOTHING`. */
  function InsertOne(t: Table, r: Trace): Table {
    if KeyOf(r) in t then t else t[KeyOf(r) := r]
  }

  function InsertAll(t: Table, rows: seq<Trace>): Table {
    if rows == [] then t else InsertOne(InsertAll(t, rows[..|rows| - 1]), rows[|rows| - 1])
  }

  class Store {
    var table: Table

    constructor ()
      ensures table == map[]
    {
      table := map[];
    }

    /** Each statement commits on its own; `reached` is how many run before an error or a crash. */
    method Insert(rows: seq<Trace>, reached: nat) returns (ok: bool)
      modifies this
      ensures ok <==> |rows| <= reached
      ensures table == InsertAll(old(table), if ok then rows else rows[..reached])
    {
      var batch: seq<Trace> := [];
      for i := 0 to |rows|
        invariant batch == rows[..i]
      {
        batch := batch + [rows[i]];
      }
      assert batch == rows;
      for i := 0 to |batch|
        invariant i <= reached && table == InsertAll(old(table), batch[..i])
      {
        if i == reached {
          return false;
        }
        assert batch[..i + 1][..i] == batch[..i];
        table := InsertOne(table, batch[i]);
      }
      assert batch[..|batch|] == batch;
      ok := true;
    }
  }

  // --- The table as a function of what was written ---

  ghost predicate FirstAt(rows: seq<Trace>, k: TraceKey, i: int) {
    0 <= i < |rows| && KeyOf(rows[i]) == k && forall j :: 0 <= j < i ==> KeyOf(rows[j]) != k
  }

  /** Under each key the table holds the first row written with it. */
  lemma {:induction false} TableHoldsFirst(rows: seq<Trace>)
    ensures forall r :: r in rows ==> KeyOf(r) in InsertAll(map[], rows)
    ensures forall k :: k in InsertAll(map[], rows) ==>
        exists i :: FirstAt(rows, k, i) && InsertAll(map[], rows)[k] == rows[i]
  {
    if rows != [] {
      var n := |rows| - 1;
      var front := rows[..n];
      TableHoldsFirst(front);
      assert rows == front + [rows[n]];
      var before, after := InsertAll(map[], front), InsertAll(map[], rows);
      forall k | k in after ensures exists i :: FirstAt(rows, k, i) && after[k] == rows[i] {
        if k in before {
          var i :| FirstAt(front, k, i) && before[k] == front[i];
          assert FirstAt(rows, k, i);
        } else {
          forall j | 0 <= j < n ensures KeyOf(rows[j]) != k { assert front[j] in front; }
          assert FirstAt(rows, k, n);
        }
      }
    }
  }

  lemma {:induction false} Inserted(t: Table, rows: seq<Trace>)
    ensures forall k :: k in InsertAll(t, rows) <==> k in t || exists r :: r in rows && KeyOf(r) == k
    ensures forall k :: k in t ==> InsertAll(t, rows)[k] == t[k]
  {
    if rows != [] {
      var front, last := rows[..|rows| - 1], rows[|rows| - 1];
      Inserted(t, front);
      assert forall r :: r in rows <==> r in front || r == last;
    }
  }

  /** Writing rows leaves the table as it is exactly when all their keys are in it: a re-read is a no-op. */
  lemma ReinsertIsNoOpIff(t: Table, rows: seq<Trace>)
    ensures InsertAll(t, rows) == t <==> forall r :: r in rows ==> KeyOf(r) in t
  {
    Inserted(t, rows);
  }

  /** A key names one trace. */
  ghost predicate KeysIdentify(rows: seq<Trace>) {
    forall r, s :: r in rows && s in rows && KeyOf(r) == KeyOf(s) ==> r == s
  }

  /** Written in any order and as often as crashes like, the rows make one table. */
  ghost predicate AnyOrderAgrees(rows: seq<Trace>) {
    forall other :: SameElements(rows, other) ==> InsertAll(map[], other) == InsertAll(map[], rows)
  }

  lemma SameTable(a: seq<Trace>, b: seq<Trace>)
    requires SameElements(a, b) && KeysIdentify(a)
    ensures InsertAll(map[], a) == InsertAll(map[], b)
  {
    TableHoldsFirst(a);
    TableHoldsFirst(b);
    var s, t := InsertAll(map[], a), InsertAll(map[], b);
    forall k ensures k in s <==> k in t {
      if k in s {
        var i :| FirstAt(a, k, i);
        assert a[i] in b;
      }
      if k in t {
        var i :| FirstAt(b, k, i);
        assert b[i] in a;
      }
    }
    forall k | k in s ensures s[k] == t[k] {
      var i :| FirstAt(a, k, i) && s[k] == a[i];
      var j :| FirstAt(b, k, j) && t[k] == b[j];
      assert a[i] in a && b[j] in a;
    }
  }

  lemma FirstWins(r: Trace, rows: seq<Trace>)
    ensures KeyOf(r) in InsertAll(map[], [r] + rows) && InsertAll(map[], [r] + rows)[KeyOf(r)] == r
  {
    TableHoldsFirst([r] + rows);
    assert r in [r] + rows;
    assert ([r] + rows)[0] == r;
  }

  /** The table does not depend on the order or the repetition of writes exactly when a key names one trace. */
  lemma AnyOrderAgreesIff(rows: seq<Trace>)
    ensures AnyOrderAgrees(rows) <==> KeysIdentify(rows)
  {
    if KeysIdentify(rows) {
      forall other | SameElements(rows, other) ensures InsertAll(map[], other) == InsertAll(map[], rows) {
        SameTable(rows, other);
      }
    }
    if AnyOrderAgrees(rows) {
      forall r, s | r in rows && s in rows && KeyOf(r) == KeyOf(s) ensures r == s {
        FirstWins(r, rows);
        FirstWins(s, rows);
        assert SameElements(rows, [r] + rows) && SameElements(rows, [s] + rows);
      }
    }
  }

  lemma DistinctKeysIdentify(traces: seq<Trace>)
    requires DistinctKeys(traces)
    ensures KeysIdentify(traces)
  {
    forall r, s | r in traces && s in traces && KeyOf(r) == KeyOf(s) ensures r == s {
      var i :| 0 <= i < |traces| && traces[i] == r;
      var j :| 0 <= j < |traces| && traces[j] == s;
      assert !(i < j) && !(j < i);
    }
  }

  /** A fold over messages in which no station reports an aircraft twice at one instant loses no trace to the key,
      however its traces are re-read and rewritten. */
  lemma EveryTraceKeepsItsRow(expireMs: int, steps: seq<Step>, written: seq<Trace>, t: Trace)
    requires DistinctReports(Messages(steps))
    requires SameElements(written, After(expireMs, steps).traces) && t in written
    ensures KeyOf(t) in InsertAll(map[], written) && InsertAll(map[], written)[KeyOf(t)] == t
  {
    TraceKeysAreDistinct(expireMs, steps);
    DistinctKeysIdentify(After(expireMs, steps).traces);
    TableHoldsFirst(written);
    var i :| FirstAt(written, KeyOf(t), i) && InsertAll(map[], written)[KeyOf(t)] == written[i];
    assert written[i] in written;
  }
}
