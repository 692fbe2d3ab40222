/** When at-least-once delivery and the filter together give exactly once: for which stations, over every run. */
module ExactlyOnce {
  import opened Wire
  import opened Buffer
  import opened StationDedup
  import opened Delivery

  lemma {:induction false} KeptIsChain(ds: seq<Decoded>)
    ensures Chain(Kept(ds))
  {
    hide Fingerprint;
    if ds != [] { KeptIsChain(ds[..|ds| - 1]); }
  }

  /** A chain woven from strictly rising messages has no repeats in it. */
  lemma {:induction false} WovenExact(kept: seq<Decoded>, source: seq<Decoded>)
    requires Woven(kept, source) && Chain(kept) && Increasing(source)
    ensures kept == source
    decreases |kept|
  {
    hide Follows;
    if kept != [] {
      var n, m := |kept| - 1, |source| - 1;
      var front, last := kept[..n], kept[n];
      assert kept == front + [last] && source == source[..m] + [source[m]];
      ChainPrefix(front, kept);
      IncreasingPrefix(source, m);
      hide Chain;
      if last == source[m] && Woven(front, source[..m]) {
        WovenExact(front, source[..m]);
      } else {
        WovenExact(front, source);
        NewestOnce(kept, source);
        assert false;
      }
    }
  }

  /** What came last out of a strictly rising source cannot come out again. */
  lemma NewestOnce(kept: seq<Decoded>, source: seq<Decoded>)
    requires Increasing(source) && source != [] && |kept| == |source| + 1 && kept[..|source|] == source
    requires kept[|source|] in source && kept[|source|].ts == source[|source| - 1].ts
    ensures !Chain(kept)
  {
    var m := |source| - 1;
    var i :| 0 <= i <= m && source[i] == kept[m + 1];
    if i < m { IncreasingRises(source, i, m); }
    assert kept[m] == source[m] && !Follows(kept[m], kept[m + 1]);
  }

  /** Over every run of a station whose parsed events strictly rise, the filter's output is exactly the events that
      have reached the topic, each once and in order. */
  lemma RunIsExact(parse: Parser, station: string, steps: seq<Step>)
    requires Increasing(Parsed(parse, station, Run(steps).accepted))
    ensures Conserved(Run(steps))
    ensures Kept(Parsed(parse, station, Run(steps).topic)) == Published(parse, station, Run(steps))
  {
    var s := Run(steps);
    var all := Parsed(parse, station, s.accepted);
    forall n | 0 < n < |all| ensures Follows(all[n - 1], all[n]) { assert all[n - 1].ts < all[n].ts; }
    RunIsReady(parse, station, steps);
    PrefixParsed(parse, station, s.accepted, High(s.topic), |s.accepted|);
    assert s.accepted[..|s.accepted|] == s.accepted;
    var source := Published(parse, station, s);
    forall n | 0 < n < |source| ensures source[n - 1].ts < source[n].ts { assert all[n - 1].ts < all[n].ts; }
    KeptIsChain(Parsed(parse, station, s.topic));
    WovenExact(Kept(Parsed(parse, station, s.topic)), source);
  }

  /** With ties of time but no two parsed events in a row alike, nothing is lost over any run: the output is the
      published events in order, repeats woven in only at the newest time. */
  lemma NothingLost(parse: Parser, station: string, steps: seq<Step>)
    requires Chain(Parsed(parse, station, Run(steps).accepted))
    ensures Conserved(Run(steps))
    ensures Woven(Kept(Parsed(parse, station, Run(steps).topic)), Published(parse, station, Run(steps)))
  {
    RunIsReady(parse, station, steps);
  }

  // --- The conditions are exact ---

  function RowsOf(entries: seq<Entry>): seq<Row> { Numbered(NonBlank(entries), 0) }

  ghost predicate AlwaysExact(parse: Parser, station: string, rows: seq<Row>) {
    forall steps :: Run(steps).accepted == rows ==>
      Kept(Parsed(parse, station, Run(steps).topic)) == Published(parse, station, Run(steps))
  }

  ghost predicate NeverLossy(parse: Parser, station: string, rows: seq<Row>) {
    forall steps :: Run(steps).accepted == rows ==>
      Woven(Kept(Parsed(parse, station, Run(steps).topic)), Published(parse, station, Run(steps)))
  }

  /** All lines are buffered, then posted from the head: `n` reach the topic, and, after a lost reply, `again`. */
  function Retry(entries: seq<Entry>, n: nat, again: nat): seq<Step> {
    [Append(entries), Read(-1)] + Produces(n) + [Fail, Read(-1)] + Produces(again)
  }

  lemma RetryRuns(entries: seq<Entry>, n: nat, again: nat)
    requires again <= n <= |RowsOf(entries)| && RowsOf(entries) != []
    ensures var s := Run(Retry(entries, n, again));
            var rows := RowsOf(entries);
            Conserved(s) && s.accepted == rows && s.topic == rows[..n] + rows[..again] && High(s.topic) == n
  {
    var rows := RowsOf(entries);
    var s0, s1 := Do(FRESH, Append(entries)), Do(Do(FRESH, Append(entries)), Read(-1));
    assert [] + rows == rows && rows[|FRESH.table.rows|..] == rows;
    assert s1 == Station(Table(rows, |rows|), rows, Posting(rows, 0), []);
    DoProduces(s1, n);
    assert [] + rows[..n] == rows[..n];
    var s2 := DoAll(s1, Produces(n));
    var s3 := Do(Do(s2, Fail), Read(-1));
    DoProduces(s3, again);
    RetryIs(entries, n, again);
    var s := Run(Retry(entries, n, again));
    BufferIsConserved(Retry(entries, n, again));
    TopicHigh(s, n);
  }

  lemma RetryIs(entries: seq<Entry>, n: nat, again: nat)
    ensures var s2 := DoAll(Do(Do(FRESH, Append(entries)), Read(-1)), Produces(n));
            Run(Retry(entries, n, again)) == DoAll(Do(Do(s2, Fail), Read(-1)), Produces(again))
  {
    hide Do;
    var a, b := [Append(entries), Read(-1)], [Fail, Read(-1)];
    assert a == [] + [Append(entries)] + [Read(-1)] && b == [] + [Fail] + [Read(-1)];
    DoAllSnoc(FRESH, [], Append(entries));
    DoAllSnoc(FRESH, [Append(entries)], Read(-1));
    DoAllConcat(FRESH, a, Produces(n));
    var s2 := DoAll(FRESH, a + Produces(n));
    DoAllSnoc(s2, [], Fail);
    DoAllSnoc(s2, [Fail], Read(-1));
    DoAllConcat(FRESH, a + Produces(n), b);
    DoAllConcat(FRESH, a + Produces(n) + b, Produces(again));
  }

  lemma TopicHigh(s: Station, n: nat)
    requires Conserved(s) && n <= |s.accepted| && forall r :: r in s.topic <==> r in s.accepted[..n]
    ensures High(s.topic) == n
  {
    var h := High(s.topic);
    assert n > 0 ==> s.accepted[n - 1] in s.accepted[..n];
    assert h > 0 ==> s.accepted[h - 1] in s.accepted[..h];
  }

  /** The row that parses to the message at index `p`. */
  lemma {:induction false} RowOfMessage(parse: Parser, station: string, rows: seq<Row>, p: int) returns (r: int)
    requires 0 <= p < |Parsed(parse, station, rows)|
    ensures 0 <= r < |rows| && Parsed(parse, station, rows[..r + 1]) == Parsed(parse, station, rows)[..p + 1]
  {
    assert Parsed(parse, station, []) == [] by { assert Events(station, []) == []; }
    hide Parsed, Decode;
    if rows == [] {
      r := 0;
    } else {
      var n := |rows| - 1;
      var front := rows[..n];
      assert rows == front + [rows[n]];
      ParsedConcat(parse, station, front, [rows[n]]);
      ParsedOne(parse, station, rows[n]);
      if p < |Parsed(parse, station, front)| {
        r := RowOfMessage(parse, station, front, p);
        assert front[..r + 1] == rows[..r + 1];
      } else {
        r := n;
        assert rows[..n + 1] == rows;
      }
    }
  }

  lemma {:induction false} FirstBreak(ds: seq<Decoded>) returns (n: int)
    requires !Increasing(ds)
    ensures 0 < n < |ds| && ds[n].ts <= ds[n - 1].ts && Increasing(ds[..n])
  {
    var front := ds[..|ds| - 1];
    if Increasing(front) {
      n := |ds| - 1;
      forall k | 0 < k < n ensures ds[k - 1].ts < ds[k].ts { assert front[k - 1].ts < front[k].ts; }
    } else {
      n := FirstBreak(front);
      assert front[..n] == ds[..n];
    }
  }

  /** Messages older than the newest let through change nothing. */
  lemma {:induction false} OldIsDropped(seen: seq<Decoded>, stale: seq<Decoded>)
    requires Kept(seen) != [] && forall d :: d in stale ==> d.ts < Kept(seen)[|Kept(seen)| - 1].ts
    ensures Kept(seen + stale) == Kept(seen)
  {
    hide Fingerprint, Kept;
    if stale == [] {
      assert seen + stale == seen;
    } else {
      var n := |stale| - 1;
      OldIsDropped(seen, stale[..n]);
      assert seen + stale == seen + stale[..n] + [stale[n]];
      KeptSnoc(seen + stale[..n], stale[n]);
    }
  }

  /** After a tie, a retry lets the earlier of the two through a second time. */
  lemma TieRepeats(ds: seq<Decoded>, n: int)
    requires 0 < n < |ds| && Increasing(ds[..n]) && ds[n].ts == ds[n - 1].ts && Chain(ds[..n + 1])
    ensures Kept(ds[..n + 1] + ds[..n]) == ds[..n + 1] + [ds[n - 1]]
  {
    hide Fingerprint, Kept;
    var seen := ds[..n + 1];
    KeptWholeIff(seen);
    var stale := ds[..n - 1];
    forall d | d in stale ensures d.ts < ds[n].ts {
      var i :| 0 <= i < n - 1 && ds[i] == d;
      IncreasingRises(ds[..n], i, n - 1);
    }
    OldIsDropped(seen, stale);
    KeptSnoc(seen + stale, ds[n - 1]);
    assert Follows(seen[n - 1], seen[n]);
    assert seen + ds[..n] == seen + stale + [ds[n - 1]];
  }

  /** A parser that reads a line as an aircraft's name. */
  function Named(raw: string): Option<Line> {
    Some(Line(Some(raw), None, None, seq(POSITION_TS, _ => None)))
  }

  function Heard(station: string, ts: Instant, raw: string): Decoded { Decoded(station, ts, Named(raw).value) }

  lemma TwoRows(ts: Instant)
    ensures RowsOf([(ts, "A"), (ts, "B")]) == [Row(1, ts, "A"), Row(2, ts, "B")]
  {
    var entries: seq<Entry> := [(ts, "A"), (ts, "B")];
    assert entries[..1] == [(ts, "A")] && entries[..1][..0] == [];
    assert NonBlank(entries[..1]) == entries[..1] && NonBlank(entries) == entries;
  }

  lemma TwoHeard(station: string, ts: Instant)
    ensures var x, y := Row(1, ts, "A"), Row(2, ts, "B");
            var a, b := Heard(station, ts, "A"), Heard(station, ts, "B");
            Parsed(Named, station, [x, y]) == [a, b] && Parsed(Named, station, [x, y] + [x]) == [a, b] + [a]
  {
    var x, y := Row(1, ts, "A"), Row(2, ts, "B");
    ParsedOne(Named, station, x);
    ParsedOne(Named, station, y);
    ParsedConcat(Named, station, [x], [y]);
    ParsedConcat(Named, station, [x, y], [x]);
    hide Parsed;
    assert [x, y] == [x] + [y];
  }

  /** Two aircraft heard at one instant and, a reply lost, posted again: the first passes the filter twice. */
  lemma TieIsNotExactlyOnce(station: string, ts: Instant)
    ensures var s := Run(Retry([(ts, "A"), (ts, "B")], 2, 1));
            var a, b := Heard(station, ts, "A"), Heard(station, ts, "B");
            && Published(Named, station, s) == [a, b]
            && Kept(Parsed(Named, station, s.topic)) == [a, b, a]
  {
    var x, y := Row(1, ts, "A"), Row(2, ts, "B");
    var a, b := Heard(station, ts, "A"), Heard(station, ts, "B");
    TwoRows(ts);
    TwoHeard(station, ts);
    assert Fingerprint(a) != Fingerprint(b) by {
      assert Fingerprint(a)[|Fingerprint(a)| - 1] == 'A' && Fingerprint(b)[|Fingerprint(b)| - 1] == 'B';
    }
    hide Run, Retry, Parsed, Kept, Conserved, High, RowsOf, Heard, Fingerprint;
    RetryRuns([(ts, "A"), (ts, "B")], 2, 1);
    assert [x, y][..2] == [x, y] && [x, y][..1] == [x] && [a, b][..1] == [a] && [a, b][..2] == [a, b];
    assert Heard(station, ts, "A").ts == ts == b.ts;
    TieRepeats([a, b], 1);
  }

  /** Every run is exact for exactly the stations whose parsed events strictly rise in time. */
  lemma ExactlyOnceIff(parse: Parser, station: string, entries: seq<Entry>)
    ensures AlwaysExact(parse, station, RowsOf(entries)) <==> Increasing(Parsed(parse, station, RowsOf(entries)))
  {
    var rows := RowsOf(entries);
    var all := Parsed(parse, station, rows);
    if Increasing(all) {
      forall steps | Run(steps).accepted == rows
        ensures Kept(Parsed(parse, station, Run(steps).topic)) == Published(parse, station, Run(steps))
      {
        RunIsExact(parse, station, steps);
      }
    } else if AlwaysExact(parse, station, rows) {
      var n := FirstBreak(all);
      AlwaysExactChains(parse, station, entries, n);
      assert Follows(all[..n + 1][n - 1], all[..n + 1][n]);
      TieRepeats(all, n);
      AlwaysExactRetries(parse, station, entries, n);
      assert false;
    }
  }

  /** What exactness says of a retry. */
  lemma RetryIsExact(parse: Parser, station: string, entries: seq<Entry>, n: nat, again: nat)
    requires AlwaysExact(parse, station, RowsOf(entries)) && again <= n <= |RowsOf(entries)| && RowsOf(entries) != []
    ensures var rows := RowsOf(entries);
            Kept(Parsed(parse, station, rows[..n] + rows[..again])) == Parsed(parse, station, rows[..n])
  {
    hide Parsed, Kept, Retry, Run, Conserved, High, RowsOf;
    RetryRuns(entries, n, again);
  }

  /** One clean pass up to message `n` shows that the messages so far form a chain. */
  lemma AlwaysExactChains(parse: Parser, station: string, entries: seq<Entry>, n: int)
    requires AlwaysExact(parse, station, RowsOf(entries)) && 0 <= n < |Parsed(parse, station, RowsOf(entries))|
    ensures Chain(Parsed(parse, station, RowsOf(entries))[..n + 1])
  {
    hide Parsed, Kept, AlwaysExact, RowsOf;
    var rows := RowsOf(entries);
    var r := RowOfMessage(parse, station, rows, n);
    RetryIsExact(parse, station, entries, r + 1, 0);
    assert rows[..r + 1] + rows[..0] == rows[..r + 1];
    KeptWholeIff(Parsed(parse, station, rows)[..n + 1]);
  }

  /** Messages up to `n`, then, a reply lost, those up to `n - 1` again: the second pass adds nothing. */
  lemma AlwaysExactRetries(parse: Parser, station: string, entries: seq<Entry>, n: int)
    requires AlwaysExact(parse, station, RowsOf(entries)) && 0 < n < |Parsed(parse, station, RowsOf(entries))|
    ensures var all := Parsed(parse, station, RowsOf(entries)); Kept(all[..n + 1] + all[..n]) == all[..n + 1]
  {
    hide Parsed, Kept, AlwaysExact, RowsOf;
    var rows := RowsOf(entries);
    var r := RowOfMessage(parse, station, rows, n);
    var q := RowOfMessage(parse, station, rows, n - 1);
    if r < q { PrefixParsed(parse, station, rows, r + 1, q + 1); }
    RetryIsExact(parse, station, entries, r + 1, q + 1);
    ParsedConcat(parse, station, rows[..r + 1], rows[..q + 1]);
  }

  /** A parser that reads a line as a call of one aircraft, without SBS-1's own times. */
  function Called(raw: string): Option<Line> {
    Some(Line(Some("A"), None, None, seq(POSITION_TS, i => if i == CALLSIGN then Some(Text(raw)) else None)))
  }

  function HeardCall(station: string, ts: Instant, raw: string): Decoded { Decoded(station, ts, Called(raw).value) }

  lemma TwoCalls(station: string, ts: Instant)
    ensures var x, y := Row(1, ts, "A"), Row(2, ts, "B");
            var a, b := HeardCall(station, ts, "A"), HeardCall(station, ts, "B");
            Parsed(Called, station, [x, y]) == [a, b] && a != b && Fingerprint(a) == Fingerprint(b)
  {
    var x, y := Row(1, ts, "A"), Row(2, ts, "B");
    var a, b := HeardCall(station, ts, "A"), HeardCall(station, ts, "B");
    ParsedOne(Called, station, x);
    ParsedOne(Called, station, y);
    ParsedConcat(Called, station, [x], [y]);
    assert [x, y] == [x] + [y];
    assert a.line.payload[CALLSIGN] == Some(Text("A")) && b.line.payload[CALLSIGN] == Some(Text("B"));
    assert "A" != "B" by { assert "A"[0] != "B"[0]; }
  }

  /** Two different lines about one aircraft at one instant, delivered once: the second is lost. */
  lemma AlikeIsLost(station: string, ts: Instant)
    ensures var s := Run(Retry([(ts, "A"), (ts, "B")], 2, 0));
            var a, b := HeardCall(station, ts, "A"), HeardCall(station, ts, "B");
            && Published(Called, station, s) == [a, b]
            && Kept(Parsed(Called, station, s.topic)) == [a] && a != b
  {
    hide Run, Retry, Parsed, Conserved, High, RowsOf, Called, Fingerprint;
    var x, y := Row(1, ts, "A"), Row(2, ts, "B");
    var a, b := HeardCall(station, ts, "A"), HeardCall(station, ts, "B");
    TwoRows(ts);
    TwoCalls(station, ts);
    RetryRuns([(ts, "A"), (ts, "B")], 2, 0);
    assert [x, y][..2] + [x, y][..0] == [x, y] == [x, y][..2];
    KeptSnoc([], a);
    KeptSnoc([a], b);
    assert [] + [a] == [a] && [a] + [b] == [a, b] && Kept([]) == [];
  }

  lemma {:induction false} WovenTight(kept: seq<Decoded>, source: seq<Decoded>)
    requires Woven(kept, source) && |kept| <= |source|
    ensures kept == source
    decreases |kept|
  {
    if kept != [] {
      var n, m := |kept| - 1, |source| - 1;
      assert kept == kept[..n] + [kept[n]] && source == source[..m] + [source[m]];
      if Woven(kept[..n], source) { WovenLosesNothing(kept[..n], source); }
      WovenTight(kept[..n], source[..m]);
    }
  }

  /** No run loses an event for exactly the stations whose times never fall and whose parsed events never agree, two
      in a row, on time and fingerprint. */
  lemma NothingLostIff(parse: Parser, station: string, entries: seq<Entry>)
    ensures NeverLossy(parse, station, RowsOf(entries)) <==> Chain(Parsed(parse, station, RowsOf(entries)))
  {
    var rows := RowsOf(entries);
    var all := Parsed(parse, station, rows);
    if Chain(all) {
      forall steps | Run(steps).accepted == rows
        ensures Woven(Kept(Parsed(parse, station, Run(steps).topic)), Published(parse, station, Run(steps)))
      {
        NothingLost(parse, station, steps);
      }
    } else if NeverLossy(parse, station, rows) {
      assert Events(station, []) == [];
      RetryRuns(entries, |rows|, 0);
      assert rows[..|rows|] + rows[..0] == rows && rows[..|rows|] == rows;
      KeptWholeIff(all);
      WovenTight(Kept(all), all);
      assert false;
    }
  }

  /** In the messages' own attributes: no run loses an event for exactly the stations whose times never fall and no two
      of whose parsed events in a row, at one instant, carry the same SBS-1 times about the same aircraft. */
  lemma NoLossIff(parse: Parser, station: string, entries: seq<Entry>)
    requires forall d :: d in Parsed(parse, station, RowsOf(entries)) ==> PlainLine(d)
    ensures NeverLossy(parse, station, RowsOf(entries)) <==> IdentityChain(Parsed(parse, station, RowsOf(entries)))
  {
    NothingLostIff(parse, station, entries);
    IdentityChainIff(Parsed(parse, station, RowsOf(entries)));
  }
}
