/** End to end: several stations' deliveries, however they interleave, fail and retry, and a replay of the archive,
    however its stations interleave, put the same messages through the fold and leave the same picture. */
module Pipeline {
  import opened Wire
  import opened Order
  import opened AircraftState
  import opened Convergence
  import opened StationDedup
  import opened ExactlyOnce
  import Buffer
  import Delivery
  import Archive
  import Consume
  import Replay
  import Lifecycle
  import Refold
  import StateFunction
  import History

  type Deliveries = map<string, seq<Delivery.Step>>

  function EventsOf(topic: seq<Event>, station: string): seq<Event> {
    if topic == [] then []
    else
      var front := EventsOf(topic[..|topic| - 1], station);
      if topic[|topic| - 1].stationId == station then front + [topic[|topic| - 1]] else front
  }

  /** events.raw carries every station's produced events, each station's in order, in any interleaving. */
  ghost predicate Interleaves(topic: seq<Event>, runs: Deliveries) {
    && (forall e :: e in topic ==> e.stationId in runs)
    && (forall s :: s in runs ==> EventsOf(topic, s) == Delivery.Events(s, Delivery.Run(runs[s]).topic))
  }

  /** Every accepted row has been produced at least once. */
  ghost predicate Drained(runs: Deliveries) {
    forall s :: s in runs ==> Delivery.High(Delivery.Run(runs[s]).topic) == |Delivery.Run(runs[s]).accepted|
  }

  function Source(parse: Parser, runs: Deliveries, s: string): seq<Decoded>
    requires s in runs
  {
    Delivery.Parsed(parse, s, Delivery.Run(runs[s]).accepted)
  }

  ghost predicate AllIncreasing(parse: Parser, runs: Deliveries) {
    forall s :: s in runs ==> Increasing(Source(parse, runs, s))
  }

  /** What strictly rising stations have delivered, all of it. */
  ghost predicate Delivered(parse: Parser, runs: Deliveries, topic: seq<Event>) {
    Interleaves(topic, runs) && Drained(runs) && AllIncreasing(parse, runs)
  }

  /** What the processor folds: decoded and filtered. */
  function Folded(parse: Parser, topic: seq<Event>): seq<Decoded> { Filtered(DecodeAll(parse, topic)).out }

  lemma {:induction false} DecodeByStation(parse: Parser, topic: seq<Event>, station: string)
    ensures OfStation(DecodeAll(parse, topic), station) == DecodeAll(parse, EventsOf(topic, station))
  {
    if topic != [] {
      var front, e := topic[..|topic| - 1], topic[|topic| - 1];
      DecodeByStation(parse, front, station);
      if e.stationId == station {
        assert (EventsOf(front, station) + [e])[..|EventsOf(front, station)|] == EventsOf(front, station);
      }
      if Decode(parse, e).Some? { OfStationSnoc(DecodeAll(parse, front), Decode(parse, e).value, station); }
    }
  }

  /** Each station's part of what is folded is its own part of the topic, filtered as if alone. */
  lemma StationPart(parse: Parser, topic: seq<Event>, s: string)
    ensures OfStation(Folded(parse, topic), s) == Kept(DecodeAll(parse, EventsOf(topic, s)))
  {
    DecodeByStation(parse, topic, s);
    StationsAreIndependent(DecodeAll(parse, topic), s);
  }

  /** Each station's part of what is folded is exactly what it accepted and could be parsed, in order. */
  lemma LivePart(parse: Parser, runs: Deliveries, topic: seq<Event>, s: string)
    requires Delivered(parse, runs, topic) && s in runs
    ensures OfStation(Folded(parse, topic), s) == Source(parse, runs, s)
  {
    StationPart(parse, topic, s);
    RunIsExact(parse, s, runs[s]);
    var st := Delivery.Run(runs[s]);
    assert st.accepted[..|st.accepted|] == st.accepted;
  }

  // --- The replay ---

  function RowOf(e: Event): Archive.Row { Archive.Row(e.stationId, e.ts, e.raw) }

  function Replayed(rows: seq<Archive.Row>): seq<Event> {
    seq(|rows|, i requires 0 <= i < |rows| => Event(rows[i].stationId, rows[i].ts, rows[i].raw))
  }

  /** The replay is the topic's events, each once, in the archive's order. */
  ghost predicate IsReplay(rows: seq<Archive.Row>, topic: seq<Event>) {
    && Ascending(Archive.Less, rows)
    && (forall e :: e in topic ==> RowOf(e) in rows)
    && (forall r :: r in rows ==> exists e :: e in topic && RowOf(e) == r)
  }

  /** What the replay topic delivers: each station's events in the order sent, the stations, which may lie in different
      partitions, in any interleaving. */
  ghost predicate OnReplayTopic(again: seq<Event>, rows: seq<Archive.Row>) {
    forall s :: EventsOf(again, s) == EventsOf(Replayed(rows), s)
  }

  /** The record is a gateway event, however it is encoded, with its station, its time and its line. */
  predicate Records(r: Archive.Record, e: Event) {
    && r.Event? && r.stationId == e.stationId && r.ts == e.ts && r.raw == e.raw
    && !Archive.Undated(r)
  }

  /** Where the topic's events lie. */
  ghost predicate Lies(topic: seq<Event>, places: seq<Consume.Place>, log: Replay.Log) {
    |places| == |topic| && forall i :: 0 <= i < |topic| ==> Records(log(places[i]), topic[i])
  }

  /** Each makes its own dated row. */
  lemma EventsMakeRows(topic: seq<Event>, places: seq<Consume.Place>, log: Replay.Log, i: int)
    requires Lies(topic, places, log) && 0 <= i < |topic|
    ensures Replay.RowAt(log, places[i]) == RowOf(topic[i]) && Archive.Partition(RowOf(topic[i])).Some?
  {
    var r := log(places[i]);
    Archive.EventIsFiled(r.bytes, r.stationId, r.ts, r.raw);
  }

  /** The archiver has, through any crashes, committed the topic, stored nothing else, and never overwrote what it
      should have spared. */
  ghost predicate Archived(log: Replay.Log, flushRecords: int, steps: seq<Consume.Step>, topic: seq<Event>,
                           places: seq<Consume.Place>)
  {
    var c := Replay.RunOf(flushRecords, steps);
    && Replay.ArchiverRun(log, flushRecords, steps)
    && Replay.SparesCommitted(log, flushRecords, steps)
    && Lies(topic, places, log)
    && (forall x :: x in places ==> 0 <= x.offset < Consume.At(c.committed, x.partition))
    && (forall w, x :: w in c.writes && x in w ==> x in places)
  }

  /** What the backfill reads back of the files: `Replay.Backfill`. */
  ghost predicate ReadBack(rows: seq<Archive.Row>, files: Archive.Files) {
    Ascending(Archive.Less, rows) && forall r :: r in rows <==> Archive.Holds(files, r)
  }

  /** What the backfill reads back of a topic so archived is a replay of it. */
  lemma BackfillIsReplay(log: Replay.Log, flushRecords: int, steps: seq<Consume.Step>, topic: seq<Event>,
                         places: seq<Consume.Place>, rows: seq<Archive.Row>)
    requires Archived(log, flushRecords, steps, topic, places)
    requires ReadBack(rows, Replay.ArchiveOf(log, flushRecords, steps))
    ensures IsReplay(rows, topic)
  {
    hide Replay.ArchiveOf, Replay.FilesAfter, Archive.Less, Archive.Holds, Consume.Run, Replay.ArchiverRun,
        Replay.SparesCommitted;
    var writes := Replay.RunOf(flushRecords, steps).writes;
    var batches := Replay.Batches(log, writes);
    Replay.CommittedIsArchivedIff(log, flushRecords, steps);
    forall e | e in topic ensures RowOf(e) in rows {
      var i :| 0 <= i < |topic| && topic[i] == e;
      EventsMakeRows(topic, places, log, i);
      assert places[i] in places;
    }
    Replay.ArchiveIsItsFlushes(log, flushRecords, steps);
    Replay.OnlyFlushed(batches);
    forall r | r in rows ensures exists e :: e in topic && RowOf(e) == r {
      assert Replay.Flushed(batches, r);
      var i :| 0 <= i < |batches| && r in batches[i];
      var k :| 0 <= k < |batches[i]| && batches[i][k] == r;
      var x := writes[i][k];
      assert writes[i] in writes && x in places;
      var j :| 0 <= j < |places| && places[j] == x;
      EventsMakeRows(topic, places, log, j);
      assert topic[j] in topic && RowOf(topic[j]) == r;
    }
  }

  /** Among the events that parse, time strictly rises. */
  ghost predicate ParsedRise(parse: Parser, es: seq<Event>) {
    forall i, j :: 0 <= i < j < |es| && Decode(parse, es[i]).Some? && Decode(parse, es[j]).Some? ==> es[i].ts < es[j].ts
  }

  lemma {:induction false} RiseThenIncreasing(parse: Parser, es: seq<Event>)
    requires ParsedRise(parse, es)
    ensures Increasing(DecodeAll(parse, es))
  {
    if es != [] {
      var n := |es| - 1;
      var front, ds := es[..n], DecodeAll(parse, es[..n]);
      assert ParsedRise(parse, front);
      RiseThenIncreasing(parse, front);
      if Decode(parse, es[n]).Some? && ds != [] {
        var d := ds[|ds| - 1];
        DecodeAllMembers(parse, front);
        assert d in ds;
        var e :| e in front && Decode(parse, e) == Some(d);
        var i :| 0 <= i < n && es[i] == e;
        assert es[i].ts < es[n].ts;
      }
    }
  }

  lemma {:induction false} IncreasingThenRise(parse: Parser, es: seq<Event>)
    requires Increasing(DecodeAll(parse, es))
    ensures ParsedRise(parse, es)
  {
    if es != [] {
      var n := |es| - 1;
      var front, ds, all := es[..n], DecodeAll(parse, es[..n]), DecodeAll(parse, es);
      IncreasingPrefix(all, |ds|);
      assert all[..|ds|] == ds;
      IncreasingThenRise(parse, front);
      forall i | 0 <= i < n && Decode(parse, es[i]).Some? && Decode(parse, es[n]).Some? ensures es[i].ts < es[n].ts {
        LastRises(parse, es, i);
      }
      hide Decode, Increasing, DecodeAll;
      assert forall i :: 0 <= i < n ==> es[i] == front[i];
    }
  }

  lemma LastRises(parse: Parser, es: seq<Event>, i: int)
    requires 0 <= i < |es| - 1 && Increasing(DecodeAll(parse, es))
    requires Decode(parse, es[i]).Some? && Decode(parse, es[|es| - 1]).Some?
    ensures es[i].ts < es[|es| - 1].ts
  {
    var front := es[..|es| - 1];
    var ds, all := DecodeAll(parse, front), DecodeAll(parse, es);
    DecodeAllMembers(parse, front);
    assert front[i] == es[i] && Decode(parse, es[i]).value in ds;
    var k :| 0 <= k < |ds| && ds[k] == Decode(parse, es[i]).value;
    IncreasingRises(all, k, |ds|);
  }

  /** Messages in strictly rising order are determined by which they are. */
  lemma {:induction false} IncreasingUnique(a: seq<Decoded>, b: seq<Decoded>)
    requires Increasing(a) && Increasing(b) && SameElements(a, b)
    ensures a == b
  {
    assert b != [] ==> b[|b| - 1] in a;
    if a != [] {
      var m, n := |a| - 1, |b| - 1;
      assert a[m] in b;
      SameLast(a, b);
      IncreasingPrefix(a, m);
      IncreasingPrefix(b, n);
      FrontElements(a, b);
      FrontElements(b, a);
      IncreasingUnique(a[..m], b[..n]);
      assert a == a[..m] + [a[m]] && b == b[..n] + [b[n]];
    }
  }

  lemma SameLast(a: seq<Decoded>, b: seq<Decoded>)
    requires Increasing(a) && Increasing(b) && a != [] && b != [] && a[|a| - 1] in b && b[|b| - 1] in a
    ensures a[|a| - 1] == b[|b| - 1]
  {
    var m, n := |a| - 1, |b| - 1;
    var i :| 0 <= i < |a| && a[i] == b[n];
    var j :| 0 <= j < |b| && b[j] == a[m];
    if i < m { IncreasingRises(a, i, m); }
    if j < n { IncreasingRises(b, j, n); }
  }

  lemma FrontElements(a: seq<Decoded>, b: seq<Decoded>)
    requires Increasing(a) && SameElements(a, b) && a != [] && b != [] && a[|a| - 1] == b[|b| - 1]
    ensures var x, y := a[..|a| - 1], b[..|b| - 1]; forall d :: d in x ==> d in y
  {
    var x, y := a[..|a| - 1], b[..|b| - 1];
    forall d | d in x ensures d in y {
      var i :| 0 <= i < |x| && x[i] == d;
      IncreasingRises(a, i, |a| - 1);
      assert a[i] in b;
      var k :| 0 <= k < |b| && b[k] == d;
      assert y[k] == d;
    }
  }

  lemma {:induction false} EventsOfHolds(topic: seq<Event>, station: string)
    ensures forall e :: e in EventsOf(topic, station) <==> e in topic && e.stationId == station
  {
    if topic != [] {
      var front, last := topic[..|topic| - 1], topic[|topic| - 1];
      EventsOfHolds(front, station);
      assert forall e :: e in topic <==> e in front || e == last;
    }
  }

  ghost predicate EventsInOrder(es: seq<Event>) {
    forall i, j :: 0 <= i < j < |es| ==> es[i].ts <= es[j].ts && es[i] != es[j]
  }

  lemma OneLater(es: seq<Event>, e: Event)
    requires EventsInOrder(es) && forall x :: x in es ==> x.ts <= e.ts && x != e
    ensures EventsInOrder(es + [e])
  {
    forall i | 0 <= i < |es| ensures es[i].ts <= e.ts && es[i] != e { assert es[i] in es; }
  }

  /** A station's part of the replay, before parsing: its own events in order of time. */
  lemma {:induction false} ReplayPartOrder(rows: seq<Archive.Row>, station: string)
    requires Ascending(Archive.Less, rows)
    ensures EventsInOrder(EventsOf(Replayed(rows), station))
  {
    if rows != [] {
      var front, last := rows[..|rows| - 1], rows[|rows| - 1];
      var e := Event(last.stationId, last.ts, last.raw);
      ReplayPartOrder(front, station);
      assert Replayed(rows)[..|rows| - 1] == Replayed(front) && Replayed(rows)[|rows| - 1] == e;
      EventsOfHolds(Replayed(front), station);
      forall x | x in Replayed(front) ensures x.ts <= e.ts && x != e {
        var k :| 0 <= k < |front| && Replayed(front)[k] == x;
        LessIsLater(rows[k], last);
      }
      if last.stationId == station { OneLater(EventsOf(Replayed(front), station), e); }
    }
  }

  lemma LessIsLater(a: Archive.Row, b: Archive.Row)
    requires Archive.Less(a, b)
    ensures a.ts <= b.ts && a != b
  {
    Archive.LessIsStrictTotal();
  }

  /** Each station's part of the replay folds to the same messages as its live part. */
  lemma ReplayPart(parse: Parser, runs: Deliveries, topic: seq<Event>, rows: seq<Archive.Row>,
                   again: seq<Event>, s: string)
    requires Delivered(parse, runs, topic) && IsReplay(rows, topic) && OnReplayTopic(again, rows) && s in runs
    ensures OfStation(Folded(parse, again), s) == Source(parse, runs, s)
  {
    hide EventsOf, Interleaves, IsReplay, Drained;
    var accepted := Delivery.Events(s, Delivery.Run(runs[s]).accepted);
    var part := EventsOf(Replayed(rows), s);
    SamePart(runs, topic, rows, s);
    StationPart(parse, again, s);
    assert IsReplay(rows, topic) ==> Ascending(Archive.Less, rows) by { ReplayAscends(rows, topic); }
    ReplayPartOrder(rows, s);
    SameEventsRise(parse, accepted, part);
    WholeAgain(parse, accepted, part);
  }

  lemma ReplayAscends(rows: seq<Archive.Row>, topic: seq<Event>)
    ensures IsReplay(rows, topic) ==> Ascending(Archive.Less, rows)
  {
  }

  lemma SameEventsRise(parse: Parser, accepted: seq<Event>, part: seq<Event>)
    requires Increasing(DecodeAll(parse, accepted)) && SameElements(part, accepted)
    requires EventsInOrder(part)
    ensures ParsedRise(parse, part)
  {
    IncreasingThenRise(parse, accepted);
    forall i, j | 0 <= i < j < |part| && Decode(parse, part[i]).Some? && Decode(parse, part[j]).Some?
      ensures part[i].ts < part[j].ts
    {
      assert part[i] in accepted && part[j] in accepted;
      var a :| 0 <= a < |accepted| && accepted[a] == part[i];
      var b :| 0 <= b < |accepted| && accepted[b] == part[j];
      assert a < b ==> accepted[a].ts < accepted[b].ts;
      assert b < a ==> accepted[b].ts < accepted[a].ts;
    }
  }

  lemma WholeAgain(parse: Parser, accepted: seq<Event>, part: seq<Event>)
    requires Increasing(DecodeAll(parse, accepted)) && SameElements(part, accepted) && ParsedRise(parse, part)
    ensures Kept(DecodeAll(parse, part)) == DecodeAll(parse, accepted)
  {
    RiseThenIncreasing(parse, part);
    var ds := DecodeAll(parse, part);
    forall n | 0 < n < |ds| ensures Follows(ds[n - 1], ds[n]) { assert ds[n - 1].ts < ds[n].ts; }
    KeptWholeIff(ds);
    DecodeAllMembers(parse, part);
    DecodeAllMembers(parse, accepted);
    hide DecodeAll, Kept;
    IncreasingUnique(ds, DecodeAll(parse, accepted));
  }

  lemma SamePart(runs: Deliveries, topic: seq<Event>, rows: seq<Archive.Row>, s: string)
    requires Interleaves(topic, runs) && Drained(runs) && IsReplay(rows, topic) && s in runs
    ensures SameElements(EventsOf(Replayed(rows), s), Delivery.Events(s, Delivery.Run(runs[s]).accepted))
  {
    var st := Delivery.Run(runs[s]);
    var part, accepted := EventsOf(Replayed(rows), s), Delivery.Events(s, st.accepted);
    var produced := Delivery.Events(s, st.topic);
    Delivery.BufferIsConserved(runs[s]);
    assert st.accepted[..|st.accepted|] == st.accepted;
    SameRowsSameEvents(s, st.topic, st.accepted);
    EventsOfHolds(topic, s);
    EventsOfHolds(Replayed(rows), s);
    forall e ensures e in part <==> e in produced {
      if e in part {
        var k :| 0 <= k < |rows| && Replayed(rows)[k] == e;
        assert rows[k] in rows;
        var e' :| e' in topic && RowOf(e') == rows[k];
        assert e' == e;
      }
      if e in produced {
        assert e in topic && RowOf(e) in rows;
        var k :| 0 <= k < |rows| && rows[k] == RowOf(e);
        assert Replayed(rows)[k] == e;
      }
    }
  }

  lemma SameRowsSameEvents(s: string, a: seq<Buffer.Row>, b: seq<Buffer.Row>)
    requires forall r :: r in a <==> r in b
    ensures forall e :: e in Delivery.Events(s, a) <==> e in Delivery.Events(s, b)
  {
    forall e ensures e in Delivery.Events(s, a) <==> e in Delivery.Events(s, b) {
      if e in Delivery.Events(s, a) {
        var i :| 0 <= i < |a| && Delivery.Events(s, a)[i] == e;
        assert a[i] in b;
        var j :| 0 <= j < |b| && b[j] == a[i];
        assert Delivery.Events(s, b)[j] == e;
      }
      if e in Delivery.Events(s, b) {
        var i :| 0 <= i < |b| && Delivery.Events(s, b)[i] == e;
        assert b[i] in a;
        var j :| 0 <= j < |a| && a[j] == b[i];
        assert Delivery.Events(s, a)[j] == e;
      }
    }
  }

  // --- The same messages, the same picture ---

  lemma {:induction false} CountByStation(ds: seq<Decoded>, d: Decoded)
    ensures multiset(ds)[d] == multiset(OfStation(ds, d.stationId))[d]
  {
    if ds != [] {
      var front, last := ds[..|ds| - 1], ds[|ds| - 1];
      CountByStation(front, d);
      assert ds == front + [last];
      OfStationSnoc(front, last, d.stationId);
    }
  }

  function OfAircraft(ds: seq<Decoded>, key: string): seq<Decoded> {
    if ds == [] then []
    else
      var front := OfAircraft(ds[..|ds| - 1], key);
      if ds[|ds| - 1].line.icao == Some(key) then front + [ds[|ds| - 1]] else front
  }

  lemma {:induction false} CountByAircraft(ds: seq<Decoded>, key: string, d: Decoded)
    ensures multiset(OfAircraft(ds, key))[d] == if d.line.icao == Some(key) then multiset(ds)[d] else 0
  {
    if ds != [] {
      CountByAircraft(ds[..|ds| - 1], key, d);
      assert ds == ds[..|ds| - 1] + [ds[|ds| - 1]];
    }
  }

  /** A station unknown to the deliveries has no part in either topic. */
  lemma UnknownStation(parse: Parser, runs: Deliveries, topic: seq<Event>, rows: seq<Archive.Row>,
                       again: seq<Event>, s: string)
    requires Delivered(parse, runs, topic) && IsReplay(rows, topic) && OnReplayTopic(again, rows) && s !in runs
    ensures OfStation(Folded(parse, topic), s) == [] == OfStation(Folded(parse, again), s)
  {
    forall e | e in Replayed(rows) ensures e.stationId in runs {
      var k :| 0 <= k < |rows| && Replayed(rows)[k] == e;
      assert rows[k] in rows;
    }
    NoneOfStation(topic, s);
    NoneOfStation(Replayed(rows), s);
    StationPart(parse, topic, s);
    StationPart(parse, again, s);
  }

  lemma {:induction false} NoneOfStation(topic: seq<Event>, s: string)
    requires forall e :: e in topic ==> e.stationId != s
    ensures EventsOf(topic, s) == []
  {
    if topic != [] {
      assert topic[|topic| - 1] in topic;
      NoneOfStation(topic[..|topic| - 1], s);
    }
  }

  lemma SameParts(parse: Parser, runs: Deliveries, topic: seq<Event>, rows: seq<Archive.Row>,
                  again: seq<Event>, s: string)
    requires Delivered(parse, runs, topic) && IsReplay(rows, topic) && OnReplayTopic(again, rows)
    ensures OfStation(Folded(parse, topic), s) == OfStation(Folded(parse, again), s)
    ensures Increasing(OfStation(Folded(parse, topic), s))
  {
    hide Interleaves, Drained, IsReplay, OnReplayTopic, Folded;
    if s in runs {
      LivePart(parse, runs, topic, s);
      ReplayPart(parse, runs, topic, rows, again, s);
    } else {
      UnknownStation(parse, runs, topic, rows, again, s);
    }
  }

  lemma SameByStation(a: seq<Decoded>, b: seq<Decoded>)
    requires forall s :: OfStation(a, s) == OfStation(b, s)
    ensures Reordering(a, b)
  {
    hide OfStation;
    forall d: Decoded ensures multiset(a)[d] == multiset(b)[d] {
      CountByStation(a, d);
      CountByStation(b, d);
    }
  }

  /** Live and replayed, the fold hears the same messages, each exactly once, however the replay's stations
      interleave. */
  lemma SameMessages(parse: Parser, runs: Deliveries, topic: seq<Event>, rows: seq<Archive.Row>, again: seq<Event>)
    requires Delivered(parse, runs, topic) && IsReplay(rows, topic) && OnReplayTopic(again, rows)
    ensures Reordering(Folded(parse, topic), Folded(parse, again))
  {
    hide Delivered, IsReplay, OnReplayTopic, Folded, OfStation;
    forall s ensures OfStation(Folded(parse, topic), s) == OfStation(Folded(parse, again), s) {
      SameParts(parse, runs, topic, rows, again, s);
    }
    SameByStation(Folded(parse, topic), Folded(parse, again));
  }

  // --- What one aircraft's fold hears ---

  lemma {:induction false} OfBoth(ds: seq<Decoded>, key: string, s: string)
    ensures OfStation(OfAircraft(ds, key), s) == OfAircraft(OfStation(ds, s), key)
  {
    if ds != [] {
      var front, d := ds[..|ds| - 1], ds[|ds| - 1];
      OfBoth(front, key, s);
      OfStationSnoc(OfAircraft(front, key), d, s);
      var part := OfStation(front, s);
      assert (part + [d])[..|part|] == part;
    }
  }

  /** The fold hears about an aircraft, from each station, what the filter lets through of it, in order; the stations in
      any interleaving, as partitions and subtasks bring them, with any clocks, sweeps and expiries. */
  ghost predicate Hears(parse: Parser, topic: seq<Event>, steps: seq<Lifecycle.Step>, key: string) {
    forall s ::
      OfStation(OfAircraft(Lifecycle.Messages(steps), key), s) == OfAircraft(OfStation(Folded(parse, topic), s), key)
  }

  /** The messages that name an aircraft. */
  function WithAircraft(ds: seq<Decoded>): seq<Decoded> {
    if ds == [] then []
    else
      var front := WithAircraft(ds[..|ds| - 1]);
      if ds[|ds| - 1].line.icao.Some? then front + [ds[|ds| - 1]] else front
  }

  lemma {:induction false} OfAircraftOnly(ds: seq<Decoded>, key: string)
    ensures OfAircraft(WithAircraft(ds), key) == OfAircraft(ds, key)
  {
    if ds != [] {
      var front, d := ds[..|ds| - 1], ds[|ds| - 1];
      OfAircraftOnly(front, key);
      if d.line.icao.Some? { assert (WithAircraft(front) + [d])[..|WithAircraft(front)|] == WithAircraft(front); }
    }
  }

  /** So it does when one subtask folds any interleaving of the replay's stations. */
  lemma InterleavingIsHeard(parse: Parser, rows: seq<Archive.Row>, again: seq<Event>,
                            steps: seq<Lifecycle.Step>, key: string)
    requires OnReplayTopic(again, rows) && Lifecycle.Messages(steps) == WithAircraft(Folded(parse, again))
    ensures Hears(parse, Replayed(rows), steps, key)
  {
    OfAircraftOnly(Folded(parse, again), key);
    forall s
      ensures OfStation(OfAircraft(Lifecycle.Messages(steps), key), s)
           == OfAircraft(OfStation(Folded(parse, Replayed(rows)), s), key)
    {
      OfBoth(Folded(parse, again), key, s);
      StationPart(parse, again, s);
      StationPart(parse, Replayed(rows), s);
    }
  }

  /** What is heard is a reordering of what is folded. */
  lemma HeardIsFolded(parse: Parser, topic: seq<Event>, steps: seq<Lifecycle.Step>, key: string)
    requires Hears(parse, topic, steps, key)
    ensures Reordering(OfAircraft(Folded(parse, topic), key), OfAircraft(Lifecycle.Messages(steps), key))
  {
    hide Folded;
    forall s
      ensures OfStation(OfAircraft(Folded(parse, topic), key), s)
           == OfStation(OfAircraft(Lifecycle.Messages(steps), key), s)
    {
      OfBoth(Folded(parse, topic), key, s);
    }
    SameByStation(OfAircraft(Folded(parse, topic), key), OfAircraft(Lifecycle.Messages(steps), key));
  }

  lemma {:induction false} AircraftRises(ds: seq<Decoded>, key: string)
    requires Increasing(ds)
    ensures Increasing(OfAircraft(ds, key)) && forall d :: d in OfAircraft(ds, key) ==> d in ds
  {
    if ds != [] {
      var n := |ds| - 1;
      var front, part := ds[..n], OfAircraft(ds[..n], key);
      IncreasingPrefix(ds, n);
      AircraftRises(front, key);
      if part != [] {
        assert part[|part| - 1] in part;
        var k :| 0 <= k < n && ds[k] == part[|part| - 1];
        IncreasingRises(ds, k, n);
      }
    }
  }

  /** Of rising stations, each report of an aircraft is heard once. */
  lemma HeardRises(parse: Parser, topic: seq<Event>, steps: seq<Lifecycle.Step>, key: string)
    requires Hears(parse, topic, steps, key) && forall s :: Increasing(OfStation(Folded(parse, topic), s))
    ensures Lifecycle.DistinctReports(OfAircraft(Lifecycle.Messages(steps), key))
  {
    hide Folded;
    forall s ensures Increasing(OfStation(OfAircraft(Lifecycle.Messages(steps), key), s)) {
      AircraftRises(OfStation(Folded(parse, topic), s), key);
    }
    ProjectionsDistinct(OfAircraft(Lifecycle.Messages(steps), key));
  }

  lemma {:induction false} HeardInLives(expireMs: int, steps: seq<Lifecycle.Step>, key: string)
    ensures Refold.AllMessages(Lifecycle.Lives(expireMs, steps, key)) == OfAircraft(Lifecycle.Messages(steps), key)
  {
    if steps == [] {
      assert Refold.AllMessages([[]]) == Refold.AllMessages([]) + [];
    } else {
      var front := steps[..|steps| - 1];
      HeardInLives(expireMs, front, key);
      hide Lifecycle.After;
      var lives, before := Lifecycle.Lives(expireMs, front, key), Lifecycle.Messages(front);
      match steps[|steps| - 1]
      case Heard(m, _, _) =>
        ToldInLives(lives, m);
        if m.line.icao.Some? { assert (before + [m])[..|before|] == before; }
      case Swept(_, _) =>
        assert (lives + [[]])[..|lives|] == lives;
        assert Refold.AllMessages(lives + [[]]) == Refold.AllMessages(lives) + [] == Refold.AllMessages(lives);
    }
  }

  lemma ToldInLives(lives: seq<seq<Decoded>>, m: Decoded)
    requires lives != []
    ensures Refold.AllMessages(Lifecycle.Told(lives, m)) == Refold.AllMessages(lives) + [m]
  {
    var n := |lives| - 1;
    var before := Refold.AllMessages(lives[..n]);
    assert Lifecycle.Told(lives, m)[..n] == lives[..n];
    assert before + (lives[n] + [m]) == before + lives[n] + [m];
  }

  lemma SameForAircraft(a: seq<Decoded>, b: seq<Decoded>, key: string)
    requires Reordering(a, b)
    ensures Reordering(OfAircraft(a, key), OfAircraft(b, key))
  {
    forall d: Decoded ensures multiset(OfAircraft(a, key))[d] == multiset(OfAircraft(b, key))[d] {
      CountByAircraft(a, key, d);
      CountByAircraft(b, key, d);
    }
  }

  /** The processor never lets the aircraft expire. */
  predicate Unexpired(expireMs: int, steps: seq<Lifecycle.Step>, key: string) {
    |Lifecycle.Lives(expireMs, steps, key)| == 1
  }

  /** The picture of an aircraft not expired is the fold of what was folded about it, whatever order it was heard in. */
  lemma PictureOfHeard(parse: Parser, topic: seq<Event>, ms: seq<Decoded>,
                       expireMs: int, steps: seq<Lifecycle.Step>, key: string)
    requires Hears(parse, topic, steps, key) && Unexpired(expireMs, steps, key)
    requires Reordering(ms, OfAircraft(Folded(parse, topic), key)) && TiesAgree(ms)
    ensures var j := Lifecycle.After(expireMs, steps);
            && (key in j.states <==> ms != [])
            && (key in j.states ==> SamePicture(j.states[key], Fold(key, ms)))
  {
    hide Folded, Fold, TiesAgree, OfAircraft;
    var heard := OfAircraft(Lifecycle.Messages(steps), key);
    var lives := Lifecycle.Lives(expireMs, steps, key);
    HeardIsFolded(parse, topic, steps, key);
    HeardInLives(expireMs, steps, key);
    assert lives == [heard] by { assert Refold.AllMessages(lives[..0]) + lives[0] == lives[0]; }
    Converges(key, ms, heard);
    ReorderingMembers(ms, heard);
    Lifecycle.RunFollowsLives(expireMs, steps, key);
  }

  /** The live processor and the shadow one, however each hears its stations interleaved, hold the same picture of an
      aircraft neither has let expire, if messages of one millisecond agree on what they both carry. */
  lemma ReplayConverges(parse: Parser, runs: Deliveries, topic: seq<Event>, rows: seq<Archive.Row>, key: string,
                        e1: int, live: seq<Lifecycle.Step>, e2: int, shadow: seq<Lifecycle.Step>)
    requires Delivered(parse, runs, topic) && IsReplay(rows, topic)
    requires Hears(parse, topic, live, key) && Hears(parse, Replayed(rows), shadow, key)
    requires Unexpired(e1, live, key) && Unexpired(e2, shadow, key)
    requires TiesAgree(OfAircraft(Folded(parse, topic), key))
    ensures key in Lifecycle.After(e1, live).states <==> key in Lifecycle.After(e2, shadow).states
    ensures key in Lifecycle.After(e1, live).states ==>
              && SamePicture(Lifecycle.After(e1, live).states[key], Lifecycle.After(e2, shadow).states[key])
              && Lifecycle.After(e1, live).states[key].snap.messages == |OfAircraft(Folded(parse, topic), key)|
  {
    hide Folded, Delivered, IsReplay, Fold, TiesAgree, OfAircraft;
    var ms := OfAircraft(Folded(parse, topic), key);
    SameMessages(parse, runs, topic, rows, Replayed(rows));
    SameForAircraft(Folded(parse, topic), Folded(parse, Replayed(rows)), key);
    PictureOfHeard(parse, topic, ms, e1, live, key);
    PictureOfHeard(parse, Replayed(rows), ms, e2, shadow, key);
    FoldEnvelope(key, ms);
  }

  // --- And the history ---

  lemma {:induction false} ProjectionsDistinct(ds: seq<Decoded>)
    requires forall s :: Increasing(OfStation(ds, s))
    ensures Lifecycle.DistinctReports(ds)
  {
    if ds != [] {
      var front, last := ds[..|ds| - 1], ds[|ds| - 1];
      assert ds == front + [last];
      forall s ensures Increasing(OfStation(front, s)) {
        OfStationSnoc(front, last, s);
        var whole, part := OfStation(ds, s), OfStation(front, s);
        forall n | 0 < n < |part| ensures part[n - 1].ts < part[n].ts { assert whole[n - 1].ts < whole[n].ts; }
      }
      ProjectionsDistinct(front);
      forall i | 0 <= i < |front| ensures front[i].stationId != last.stationId || front[i].ts != last.ts {
        if front[i].stationId == last.stationId {
          CountByStation(front, front[i]);
          assert front[i] in multiset(front);
          assert front[i] in OfStation(front, last.stationId);
          OfStationSnoc(front, last, last.stationId);
          var part := OfStation(front, last.stationId);
          var k :| 0 <= k < |part| && part[k] == front[i];
          IncreasingRises(OfStation(ds, last.stationId), k, |part|);
        }
      }
    }
  }

  lemma {:induction false} DistinctByAircraft(ms: seq<Decoded>)
    requires forall m :: m in ms ==> m.line.icao.Some?
    requires forall key :: Lifecycle.DistinctReports(OfAircraft(ms, key))
    ensures Lifecycle.DistinctReports(ms)
  {
    if ms != [] {
      var n := |ms| - 1;
      var front := ms[..n];
      forall key ensures Lifecycle.DistinctReports(OfAircraft(front, key)) {
        var whole, part := OfAircraft(ms, key), OfAircraft(front, key);
        assert forall i :: 0 <= i < |part| ==> part[i] == whole[i];
      }
      DistinctByAircraft(front);
      forall i | 0 <= i < n ensures !Lifecycle.SameReport(ms[i], ms[n]) {
        if ms[i].line.icao == ms[n].line.icao {
          assert ms[i] in ms;
          LastIsDistinct(ms, i, ms[i].line.icao.value);
        }
      }
    }
  }

  lemma LastIsDistinct(ms: seq<Decoded>, i: int, key: string)
    requires 0 <= i < |ms| - 1 && ms[i].line.icao == Some(key) == ms[|ms| - 1].line.icao
    requires Lifecycle.DistinctReports(OfAircraft(ms, key))
    ensures !Lifecycle.SameReport(ms[i], ms[|ms| - 1])
  {
    var n := |ms| - 1;
    var part := OfAircraft(ms[..n], key);
    CountByAircraft(ms[..n], key, ms[i]);
    assert ms[i] in multiset(ms[..n]) by { assert ms[..n][i] == ms[i]; }
    assert ms[i] in multiset(part);
    var k :| 0 <= k < |part| && part[k] == ms[i];
    assert OfAircraft(ms, key) == part + [ms[n]];
    assert !Lifecycle.SameReport((part + [ms[n]])[k], (part + [ms[n]])[|part|]);
  }

  lemma {:induction false} MessagesNameAircraft(steps: seq<Lifecycle.Step>)
    ensures forall m :: m in Lifecycle.Messages(steps) ==> m.line.icao.Some?
  {
    if steps != [] { MessagesNameAircraft(steps[..|steps| - 1]); }
  }

  /** A fold of what the live pipeline delivers, however it hears the stations interleaved, loses no trace to the
      history's key. */
  lemma EveryLiveTraceIsKept(parse: Parser, runs: Deliveries, topic: seq<Event>,
                             expireMs: int, steps: seq<Lifecycle.Step>,
                             written: seq<StateFunction.Trace>, t: StateFunction.Trace)
    requires Delivered(parse, runs, topic) && forall key :: Hears(parse, topic, steps, key)
    requires SameElements(written, Lifecycle.After(expireMs, steps).traces) && t in written
    ensures var table := History.InsertAll(map[], written);
            StateFunction.KeyOf(t) in table && table[StateFunction.KeyOf(t)] == t
  {
    hide Hears, Folded, OfAircraft, Lifecycle.After;
    LiveRises(parse, runs, topic);
    forall key ensures Lifecycle.DistinctReports(OfAircraft(Lifecycle.Messages(steps), key)) {
      assert Hears(parse, topic, steps, key);
      HeardRises(parse, topic, steps, key);
    }
    MessagesNameAircraft(steps);
    DistinctByAircraft(Lifecycle.Messages(steps));
    History.EveryTraceKeepsItsRow(expireMs, steps, written, t);
  }

  lemma LiveRises(parse: Parser, runs: Deliveries, topic: seq<Event>)
    requires Delivered(parse, runs, topic)
    ensures forall s :: Increasing(OfStation(Folded(parse, topic), s))
  {
    forall s ensures Increasing(OfStation(Folded(parse, topic), s)) {
      if s in runs {
        LivePart(parse, runs, topic, s);
      } else {
        StationPart(parse, topic, s);
        NoneOfStation(topic, s);
      }
    }
  }
}
