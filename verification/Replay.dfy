/** What the archive keeps over many flushes, and the replay of all of it in event-time order. */
module Replay {
  import opened Wire
  import opened Order
  import opened Archive
  import Consume

  // --- Replaying the archive ---

  predicate Before(a: int, b: int) { a < b }

  /** The dt=<date> directories in date order, dt=unknown skipped; none at all is an error. */
  method Days(files: Files) returns (days: Option<seq<int>>)
    ensures days == None <==> forall p :: p in files ==> p.day == None
    ensures days.Some? ==> Ascending(Before, days.value)
    ensures days.Some? ==> forall d :: d in days.value ==> exists p :: p in files && p.day == Some(d)
    ensures days.Some? ==> forall p :: p in files && p.day.Some? ==> p.day.value in days.value
  {
    var dated := set p | p in files && p.day.Some?;
    if dated == {} {
      forall p | p in files ensures p.day == None {
        assert p !in dated;
      }
      return None;
    }
    var left, list := dated, [];
    while left != {}
      invariant left <= dated && Ascending(Before, list)
      invariant forall d :: d in list ==> exists p :: p in dated && p.day == Some(d)
      invariant forall p :: p in dated && p !in left ==> p.day.value in list
      decreases left
    {
      var p :| p in left;
      if p.day.value !in list {
        InsertAscends(Before, list, p.day.value);
        list := Insert(Before, list, p.day.value);
      }
      left := left - {p};
    }
    assert exists p :: p in files && p.day.Some? by {
      var p :| p in dated;
    }
    days := Some(list);
  }

  function Concat(batches: seq<seq<Row>>): seq<Row> {
    if batches == [] then [] else Concat(batches[..|batches| - 1]) + batches[|batches| - 1]
  }

  const BATCH_SIZE := 5000

  /** The days read so far, as one list. */
  ghost predicate Upto(files: Files, days: seq<int>, topic: seq<Row>) {
    && Ascending(Less, topic)
    && (forall r :: r in topic <==> exists p :: p in files && p.day.Some? && p.day.value in days && r in files[p])
  }

  lemma NextDay(files: Files, days: seq<int>, d: int, topic: seq<Row>, rows: seq<Row>)
    requires Filed(files) && Upto(files, days, topic) && Ascending(Less, rows) && forall x :: x in days ==> x < d
    requires forall r :: r in rows <==> exists p :: p in files && p.day == Some(d) && r in files[p]
    ensures Upto(files, days + [d], topic + rows)
  {
    forall a, b | a in topic && b in rows ensures Less(a, b) {
      var p :| p in files && p.day.Some? && p.day.value in days && a in files[p];
      var q :| q in files && q.day == Some(d) && b in files[q];
      assert Partition(a) == p.day && Partition(b) == q.day;
    }
    forall i, j | 0 <= i < j < |topic + rows| ensures Less((topic + rows)[i], (topic + rows)[j]) {
      if i < |topic| && |topic| <= j { assert topic[i] in topic && rows[j - |topic|] in rows; }
    }
    forall r ensures r in topic + rows <==>
        exists p :: p in files && p.day.Some? && p.day.value in days + [d] && r in files[p]
    {
      if p :| p in files && p.day.Some? && p.day.value in days + [d] && r in files[p] {
        assert p.day.value in days || p.day == Some(d);
      }
      if r in topic {
        var p :| p in files && p.day.Some? && p.day.value in days && r in files[p];
        assert p.day.value in days + [d];
      }
      if r in rows {
        var p :| p in files && p.day == Some(d) && r in files[p];
        assert p.day.value in days + [d];
      }
    }
  }

  /** One day sent in slices. */
  method SendDay(rows: seq<Row>) returns (slices: seq<seq<Row>>)
    ensures Concat(slices) == rows && forall s :: s in slices ==> 0 < |s| <= 5000
    ensures forall i :: 0 <= i < |slices| - 1 ==> |slices[i]| == 5000
  {
    slices := [];
    var start := 0;
    while start < |rows|
      invariant 0 <= start <= |rows| && Concat(slices) == rows[..start]
      invariant forall s :: s in slices ==> 0 < |s| <= BATCH_SIZE
      invariant forall i :: 0 <= i < |slices| && (i < |slices| - 1 || start < |rows|) ==> |slices[i]| == BATCH_SIZE
    {
      var end := if start + BATCH_SIZE < |rows| then start + BATCH_SIZE else |rows|;
      var more := slices + [rows[start..end]];
      assert more[..|slices|] == slices;
      assert rows[..end] == rows[..start] + rows[start..end];
      slices, start := more, end;
    }
    assert rows[..|rows|] == rows;
  }

  lemma {:induction false} ConcatConcat(a: seq<seq<Row>>, b: seq<seq<Row>>)
    ensures Concat(a + b) == Concat(a) + Concat(b)
  {
    if b == [] {
      assert a + b == a;
    } else {
      ConcatConcat(a, b[..|b| - 1]);
      assert (a + b)[..|a + b| - 1] == a + b[..|b| - 1];
    }
  }

  /** The whole replay: every dated row of the archive, once, in one ascending sequence, in slices. */
  method Backfill(files: Files) returns (slices: seq<seq<Row>>)
    requires Filed(files)
    ensures Ascending(Less, Concat(slices)) && forall r :: r in Concat(slices) <==> Holds(files, r)
    ensures forall s :: s in slices ==> 0 < |s| <= 5000
  {
    slices := [];
    var days := Days(files);
    if days == None {
      return;
    }
    for i := 0 to |days.value|
      invariant Upto(files, days.value[..i], Concat(slices))
      invariant forall s :: s in slices ==> 0 < |s| <= BATCH_SIZE
    {
      var d := days.value[i];
      var rows := ReadDay(files, d);
      var day := SendDay(rows);
      forall x | x in days.value[..i] ensures x < d {
        var k :| 0 <= k < i && days.value[k] == x;
        assert Before(days.value[k], days.value[i]);
      }
      NextDay(files, days.value[..i], d, Concat(slices), rows);
      assert days.value[..i + 1] == days.value[..i] + [d];
      ConcatConcat(slices, day);
      slices := slices + day;
    }
    assert days.value[..|days.value|] == days.value;
    AllDays(files, days.value, Concat(slices));
  }

  lemma AllDays(files: Files, days: seq<int>, topic: seq<Row>)
    requires Upto(files, days, topic) && forall p :: p in files && p.day.Some? ==> p.day.value in days
    ensures forall r :: r in topic <==> Holds(files, r)
  {
  }

  // --- What a flush does to what the archive holds ---

  ghost predicate KeepsAll(before: Files, after: Files) { forall r :: Holds(before, r) ==> Holds(after, r) }

  /** If a dated file about to be replaced holds the row, so does the batch, or a file that is not replaced. */
  ghost predicate SparesRow(files: Files, rows: seq<Row>, days: set<Option<int>>, r: Row) {
    (exists p :: p in files && p.day.Some? && Replaces(rows, days, p) && r in files[p]) ==>
      r in rows || exists q :: q in files && !Replaces(rows, days, q) && r in files[q]
  }

  ghost predicate Spares(files: Files, rows: seq<Row>, days: set<Option<int>>) {
    forall r :: SparesRow(files, rows, days, r)
  }

  lemma DaysHeld(files: Files, rows: seq<Row>, days: set<Option<int>>, r: Row)
    requires Filed(files)
    ensures r in rows && Partition(r) in days && Partition(r).Some? ==> Holds(WriteDays(files, rows, days), r)
    ensures Holds(WriteDays(files, rows, days), r) ==>
        Holds(files, r) || (r in rows && Partition(r) in days && Partition(r).Some?)
  {
    var after := WriteDays(files, rows, days);
    if r in rows && Partition(r) in days && Partition(r).Some? {
      FileHolds(rows, Partition(r));
      var p := PathOf(rows, Partition(r));
      assert p in after && r in after[p];
    }
    if Holds(after, r) {
      var p :| p in after && p.day.Some? && r in after[p];
      FileHolds(rows, p.day);
    }
  }

  /** A row the archive holds survives a flush exactly when the flush spares it. */
  lemma KeepsRowIff(files: Files, rows: seq<Row>, days: set<Option<int>>, r: Row)
    requires Filed(files) && Holds(files, r)
    ensures Holds(WriteDays(files, rows, days), r) <==> SparesRow(files, rows, days, r)
  {
    var after := WriteDays(files, rows, days);
    hide FileOf;
    DaysHeld(files, rows, days, r);
    var p :| p in files && p.day.Some? && r in files[p];
    if SparesRow(files, rows, days, r) && r !in rows {
      var q :| q in files && !Replaces(rows, days, q) && r in files[q];
      assert Partition(r) == p.day == q.day;
      assert q in after && r in after[q];
    }
    if Holds(after, r) {
      var q :| q in after && q.day.Some? && r in after[q];
      if Replaces(rows, days, q) { FileHolds(rows, q.day); }
    }
  }

  /** A flush loses nothing exactly when it spares what it overwrites. */
  lemma KeepsAllIff(files: Files, rows: seq<Row>, days: set<Option<int>>)
    requires Filed(files)
    ensures KeepsAll(files, WriteDays(files, rows, days)) <==> Spares(files, rows, days)
  {
    hide WriteDays, Replaces;
    forall r | Holds(files, r) ensures Holds(WriteDays(files, rows, days), r) <==> SparesRow(files, rows, days, r) {
      KeepsRowIff(files, rows, days, r);
    }
    forall r | !Holds(files, r) ensures SparesRow(files, rows, days, r) {}
  }

  /** Two rows of one day and one instant, flushed apart, land on one path: the second flush loses the first row. */
  lemma SameSpanLoses(station: string, ts: Instant, a: string, b: string)
    requires station != "" && ts != ZERO_TIME && a != b
    ensures var x, y := Row(station, ts, a), Row(station, ts, b);
            Holds(WriteAll(map[], [x]), x) && !Holds(WriteAll(WriteAll(map[], [x]), [y]), x)
  {
    var x, y := Row(station, ts, a), Row(station, ts, b);
    OneRow(map[], x);
    OneRow(WriteAll(map[], [x]), y);
    hide WriteAll;
    var p := Path(Partition(x), ts, ts);
    var f, g := WriteAll(map[], [x]), WriteAll(WriteAll(map[], [x]), [y]);
    assert p in f && x in f[p];
    assert forall q :: q in g ==> g[q] == [y];
  }

  lemma OneRow(files: Files, r: Row)
    ensures WriteAll(files, [r]) == files[Path(Partition(r), r.ts, r.ts) := [r]]
  {
    var day := Partition(r);
    OneRowFile(r);
    assert DaysOf([r]) == {day} by { assert r in [r]; }
    hide Group, FileOf, PathOf, WriteDays, Partition, DaysOf;
    OneDayMore(files, [r], {}, day);
    NoDays(files, [r]);
    assert {} + {day} == {day};
  }

  lemma OneRowFile(r: Row)
    ensures FileOf([r], Partition(r)) == [r] && PathOf([r], Partition(r)) == Path(Partition(r), r.ts, r.ts)
  {
    var day := Partition(r);
    assert [r][..0] == [];
    assert Group([r], day) == [r] by { assert Group([], day) == []; }
    assert Sort(Less, [r]) == [r] by { assert Sort(Less, []) == []; }
    hide Group, Sort;
  }

  // --- Many flushes ---

  function FilesAfter(batches: seq<seq<Row>>): Files {
    if batches == [] then map[] else WriteAll(FilesAfter(batches[..|batches| - 1]), batches[|batches| - 1])
  }

  ghost predicate AlwaysSpares(batches: seq<seq<Row>>) {
    batches == [] ||
    var front, last := batches[..|batches| - 1], batches[|batches| - 1];
    AlwaysSpares(front) && Spares(FilesAfter(front), last, DaysOf(last))
  }

  ghost predicate Flushed(batches: seq<seq<Row>>, r: Row) { exists i :: 0 <= i < |batches| && r in batches[i] }

  lemma FlushedSnoc(batches: seq<seq<Row>>, last: seq<Row>, r: Row)
    ensures Flushed(batches + [last], r) <==> Flushed(batches, r) || r in last
  {
    var more := batches + [last];
    if Flushed(batches, r) {
      var i :| 0 <= i < |batches| && r in batches[i];
      assert r in more[i];
    }
    if r in last { assert r in more[|batches|]; }
  }

  /** Whatever is overwritten, the archive holds nothing but dated rows that were flushed, each under its day. */
  lemma {:induction false} OnlyFlushed(batches: seq<seq<Row>>)
    ensures Filed(FilesAfter(batches))
    ensures forall r :: Holds(FilesAfter(batches), r) ==> Flushed(batches, r) && Partition(r).Some?
  {
    if batches != [] {
      var n := |batches| - 1;
      var front, last := batches[..n], batches[n];
      OnlyFlushed(front);
      assert batches == front + [last];
      WriteDaysFiles(FilesAfter(front), last, DaysOf(last));
      forall r | Holds(FilesAfter(batches), r) ensures Flushed(batches, r) && Partition(r).Some? {
        FlushedSnoc(front, last, r);
        DaysHeld(FilesAfter(front), last, DaysOf(last), r);
      }
    }
  }

  /** However events are split into batches that overlap and repeat, the archive holds exactly the dated rows
      flushed. */
  lemma {:induction false} ArchiveIsComplete(batches: seq<seq<Row>>)
    requires AlwaysSpares(batches)
    ensures forall r :: Holds(FilesAfter(batches), r) <==> Flushed(batches, r) && Partition(r).Some?
  {
    OnlyFlushed(batches);
    if batches != [] {
      var n := |batches| - 1;
      var front, last := batches[..n], batches[n];
      ArchiveIsComplete(front);
      OnlyFlushed(front);
      assert batches == front + [last];
      KeepsAllIff(FilesAfter(front), last, DaysOf(last));
      forall r | Flushed(batches, r) && Partition(r).Some? ensures Holds(FilesAfter(batches), r) {
        FlushedSnoc(front, last, r);
        DaysHeld(FilesAfter(front), last, DaysOf(last), r);
        assert r in last ==> Partition(r) in DaysOf(last);
      }
    }
  }

  /** A flush cut short has stored whole days: it is a flush of the rows of those days. */
  function OfDays(rows: seq<Row>, days: set<Option<int>>): seq<Row> {
    if rows == [] then []
    else
      var front := OfDays(rows[..|rows| - 1], days);
      if Partition(rows[|rows| - 1]) in days then front + [rows[|rows| - 1]] else front
  }

  lemma {:induction false} OfDaysGroups(rows: seq<Row>, days: set<Option<int>>)
    ensures forall d :: d in days ==> Group(OfDays(rows, days), d) == Group(rows, d)
    ensures forall r :: r in OfDays(rows, days) <==> r in rows && Partition(r) in days
  {
    if rows != [] {
      var front, last := rows[..|rows| - 1], rows[|rows| - 1];
      OfDaysGroups(front, days);
      assert rows == front + [last];
      var kept := OfDays(front, days);
      assert (kept + [last])[..|kept|] == kept;
    }
  }

  lemma DaysOfDays(rows: seq<Row>, days: set<Option<int>>)
    requires days <= DaysOf(rows)
    ensures DaysOf(OfDays(rows, days)) == days
  {
    OfDaysGroups(rows, days);
    var part := OfDays(rows, days);
    forall d | d in days ensures d in DaysOf(part) {
      var r :| r in rows && Partition(r) == d;
      assert r in part;
    }
  }

  lemma SameGroupsSameFiles(files: Files, a: seq<Row>, b: seq<Row>, days: set<Option<int>>)
    requires forall d :: d in days ==> FileOf(a, d) == FileOf(b, d)
    ensures WriteDays(files, a, days) == WriteDays(files, b, days)
  {
    hide FileOf;
    forall d | d in days ensures PathOf(a, d) == PathOf(b, d) {}
    assert Paths(a, days) == Paths(b, days);
    hide PathOf, Paths;
    assert forall p :: Replaces(a, days, p) <==> Replaces(b, days, p);
  }

  lemma PartialFlushIsAFlush(files: Files, rows: seq<Row>, days: set<Option<int>>)
    requires days <= DaysOf(rows)
    ensures WriteDays(files, rows, days) == WriteAll(files, OfDays(rows, days))
  {
    OfDaysGroups(rows, days);
    DaysOfDays(rows, days);
    hide Group, Sort, OfDays, DaysOf;
    SameGroupsSameFiles(files, rows, OfDays(rows, days), days);
  }

  // --- The archiver ---

  type Log = Consume.Place -> Record

  /** No record is fatal to the archiver. */
  function Never(x: Consume.Place): bool { false }

  function RowAt(log: Log, x: Consume.Place): Row { DecodeRow(log(x)) }

  function RowsAt(log: Log, w: seq<Consume.Place>): seq<Row> {
    seq(|w|, i requires 0 <= i < |w| => RowAt(log, w[i]))
  }

  function Batches(log: Log, writes: seq<seq<Consume.Place>>): seq<seq<Row>> {
    seq(|writes|, i requires 0 <= i < |writes| => RowsAt(log, writes[i]))
  }

  /** The records of a batch that belong to the given days. */
  function PlacesOfDays(log: Log, w: seq<Consume.Place>, days: set<Option<int>>): seq<Consume.Place> {
    if w == [] then []
    else
      var front := PlacesOfDays(log, w[..|w| - 1], days);
      if Partition(RowAt(log, w[|w| - 1])) in days then front + [w[|w| - 1]] else front
  }

  lemma {:induction false} RowsOfDays(log: Log, w: seq<Consume.Place>, days: set<Option<int>>)
    ensures RowsAt(log, PlacesOfDays(log, w, days)) == OfDays(RowsAt(log, w), days)
  {
    if w != [] {
      RowsOfDays(log, w[..|w| - 1], days);
      assert RowsAt(log, w)[..|w| - 1] == RowsAt(log, w[..|w| - 1]);
    }
  }

  function RunOf(flushRecords: int, steps: seq<Consume.Step>): Consume.Consumer {
    Consume.Run(Never, flushRecords, steps)
  }

  /** A flush cut short has put whole days of its batch in place. */
  ghost predicate StoresDays(log: Log, c: Consume.Consumer, s: Consume.Step) {
    s.Turn? && s.round.flush.Lost? ==>
      exists days :: days <= DaysOf(RowsAt(log, Consume.InHand(Never, c, s))) &&
        s.round.flush.stored == PlacesOfDays(log, Consume.InHand(Never, c, s), days)
  }

  ghost predicate ArchiverRun(log: Log, flushRecords: int, steps: seq<Consume.Step>) {
    steps == [] ||
    var front, last := steps[..|steps| - 1], steps[|steps| - 1];
    && ArchiverRun(log, flushRecords, front)
    && Consume.Legal(Never, flushRecords, RunOf(flushRecords, front), last)
    && StoresDays(log, RunOf(flushRecords, front), last)
  }

  /** The files a run leaves: each flush writes the days it gets to of the batch in hand. */
  function ArchiveOf(log: Log, flushRecords: int, steps: seq<Consume.Step>): Files {
    if steps == [] then map[]
    else
      var front := steps[..|steps| - 1];
      var c, d := RunOf(flushRecords, front), RunOf(flushRecords, steps);
      if |d.writes| <= |c.writes| then ArchiveOf(log, flushRecords, front)
      else
        WriteDays(ArchiveOf(log, flushRecords, front), RowsAt(log, Consume.InHand(Never, c, steps[|steps| - 1])),
                  DaysOf(RowsAt(log, d.writes[|c.writes|])))
  }

  lemma {:induction false} ArchiverRunIsSafe(log: Log, flushRecords: int, steps: seq<Consume.Step>)
    requires ArchiverRun(log, flushRecords, steps)
    ensures Consume.LegalRun(Never, flushRecords, steps) &&
        Consume.Safe(Never, flushRecords, RunOf(flushRecords, steps))
  {
    if steps != [] {
      var front := steps[..|steps| - 1];
      ArchiverRunIsSafe(log, flushRecords, front);
      hide Consume.Safe, Consume.Legal, Consume.Do;
      Consume.RoundIsSafe(Never, flushRecords, RunOf(flushRecords, front), steps[|steps| - 1]);
    }
  }

  lemma BatchesSnoc(log: Log, writes: seq<seq<Consume.Place>>, w: seq<Consume.Place>)
    ensures Batches(log, writes + [w]) == Batches(log, writes) + [RowsAt(log, w)]
  {
  }

  lemma WholeFlush(files: Files, rows: seq<Row>)
    ensures WriteDays(files, rows, DaysOf(rows)) == WriteAll(files, rows)
  {
  }

  /** What a step does to the files is a whole flush of what it stored. */
  lemma StepIsAFlush(log: Log, files: Files, c: Consume.Consumer, s: Consume.Step, w: seq<Consume.Place>)
    requires StoresDays(log, c, s)
    requires w == Consume.InHand(Never, c, s) || (s.Turn? && s.round.flush.Lost? && w == s.round.flush.stored)
    ensures WriteDays(files, RowsAt(log, Consume.InHand(Never, c, s)), DaysOf(RowsAt(log, w)))
         == WriteAll(files, RowsAt(log, w))
  {
    var hand := Consume.InHand(Never, c, s);
    hide WriteDays, DaysOf, Consume.InHand, OfDays, RowsAt, PlacesOfDays;
    if w == hand {
      WholeFlush(files, RowsAt(log, w));
    } else {
      var days :| days <= DaysOf(RowsAt(log, hand)) && w == PlacesOfDays(log, hand, days);
      RowsOfDays(log, hand, days);
      DaysOfDays(RowsAt(log, hand), days);
      PartialFlushIsAFlush(files, RowsAt(log, hand), days);
    }
  }

  /** Its files are those of its flushes, complete or cut short, one after the other. */
  lemma {:induction false} ArchiveIsItsFlushes(log: Log, flushRecords: int, steps: seq<Consume.Step>)
    requires ArchiverRun(log, flushRecords, steps)
    ensures ArchiveOf(log, flushRecords, steps) == FilesAfter(Batches(log, RunOf(flushRecords, steps).writes))
  {
    if steps != [] {
      var front, s := steps[..|steps| - 1], steps[|steps| - 1];
      var c, d := RunOf(flushRecords, front), RunOf(flushRecords, steps);
      ArchiveIsItsFlushes(log, flushRecords, front);
      ArchiverRunIsSafe(log, flushRecords, front);
      Consume.StepStores(Never, flushRecords, c, s);
      hide StoresDays, Consume.Legal, Consume.Safe, Consume.Do, Consume.InHand, WriteDays, WriteAll, DaysOf, RowsAt,
          Batches;
      if d.writes != c.writes {
        var w := d.writes[|c.writes|];
        StepIsAFlush(log, ArchiveOf(log, flushRecords, front), c, s, w);
        BatchesSnoc(log, c.writes, w);
        var before := Batches(log, c.writes);
        assert (before + [RowsAt(log, w)])[..|before|] == before;
      }
    }
  }

  /** Every committed event that has a date is in the archive. */
  ghost predicate CommittedHeld(log: Log, committed: Consume.Offsets, files: Files) {
    forall x: Consume.Place :: 0 <= x.offset < Consume.At(committed, x.partition) && Partition(RowAt(log, x)).Some? ==>
      Holds(files, RowAt(log, x))
  }

  /** So it is at every moment of a run. */
  ghost predicate AlwaysHeld(log: Log, flushRecords: int, steps: seq<Consume.Step>) {
    && CommittedHeld(log, RunOf(flushRecords, steps).committed, ArchiveOf(log, flushRecords, steps))
    && (steps == [] || AlwaysHeld(log, flushRecords, steps[..|steps| - 1]))
  }

  /** Every flush, when it overwrites, spares the events committed by then. */
  ghost predicate SparesCommitted(log: Log, flushRecords: int, steps: seq<Consume.Step>) {
    steps == [] ||
    var front := steps[..|steps| - 1];
    var c, d := RunOf(flushRecords, front), RunOf(flushRecords, steps);
    && SparesCommitted(log, flushRecords, front)
    && (|c.writes| < |d.writes| ==>
          forall x: Consume.Place :: 0 <= x.offset < Consume.At(c.committed, x.partition) ==>
            SparesRow(ArchiveOf(log, flushRecords, front), RowsAt(log, Consume.InHand(Never, c, steps[|steps| - 1])),
                      DaysOf(RowsAt(log, d.writes[|c.writes|])), RowAt(log, x)))
  }

  lemma RowIn(log: Log, w: seq<Consume.Place>, x: Consume.Place)
    requires x in w
    ensures RowAt(log, x) in RowsAt(log, w)
  {
    var i :| 0 <= i < |w| && w[i] == x;
    assert RowsAt(log, w)[i] == RowAt(log, x);
  }

  /** One flush: what was committed stays held exactly when it is spared, and what the flush commits is held. */
  lemma FlushHolds(log: Log, files: Files, before: Consume.Offsets, after: Consume.Offsets,
                   hand: seq<Consume.Place>, w: seq<Consume.Place>)
    requires Filed(files) && CommittedHeld(log, before, files)
    requires forall p :: Consume.At(before, p) <= Consume.At(after, p)
    requires after == before || w == hand
    requires forall x: Consume.Place :: 0 <= x.offset < Consume.At(after, x.partition) ==>
               x.offset < Consume.At(before, x.partition) || x in hand
    ensures CommittedHeld(log, after, WriteDays(files, RowsAt(log, hand), DaysOf(RowsAt(log, w))))
       <==> forall x: Consume.Place :: 0 <= x.offset < Consume.At(before, x.partition) ==>
              SparesRow(files, RowsAt(log, hand), DaysOf(RowsAt(log, w)), RowAt(log, x))
  {
    var rows, days := RowsAt(log, hand), DaysOf(RowsAt(log, w));
    var files' := WriteDays(files, rows, days);
    hide WriteDays, Replaces, RowsAt, RowAt;
    forall x: Consume.Place | 0 <= x.offset < Consume.At(before, x.partition)
      ensures SparesRow(files, rows, days, RowAt(log, x)) <==>
          (Partition(RowAt(log, x)).Some? ==> Holds(files', RowAt(log, x)))
    {
      if Partition(RowAt(log, x)).Some? { KeepsRowIff(files, rows, days, RowAt(log, x)); }
    }
    forall x: Consume.Place | Consume.At(before, x.partition) <= x.offset < Consume.At(after, x.partition) &&
        Partition(RowAt(log, x)).Some?
      ensures Holds(files', RowAt(log, x))
    {
      RowIn(log, hand, x);
      DaysHeld(files, rows, days, RowAt(log, x));
    }
    hide SparesRow, Holds;
  }

  lemma ArchiveIsFiled(log: Log, flushRecords: int, steps: seq<Consume.Step>)
    requires ArchiverRun(log, flushRecords, steps)
    ensures Filed(ArchiveOf(log, flushRecords, steps))
  {
    ArchiveIsItsFlushes(log, flushRecords, steps);
    OnlyFlushed(Batches(log, RunOf(flushRecords, steps).writes));
  }

  /** Through any crashes, a committed event with a date stays in the archive at every moment exactly when no flush
      overwrites, unspared, what was committed by then. */
  lemma {:induction false} CommittedIsArchivedIff(log: Log, flushRecords: int, steps: seq<Consume.Step>)
    requires ArchiverRun(log, flushRecords, steps)
    ensures AlwaysHeld(log, flushRecords, steps) <==> SparesCommitted(log, flushRecords, steps)
  {
    if steps != [] {
      var front, s := steps[..|steps| - 1], steps[|steps| - 1];
      var c, d := RunOf(flushRecords, front), RunOf(flushRecords, steps);
      CommittedIsArchivedIff(log, flushRecords, front);
      ArchiveIsFiled(log, flushRecords, front);
      ArchiverRunIsSafe(log, flushRecords, front);
      Consume.StepStores(Never, flushRecords, c, s);
      var hand := Consume.InHand(Never, c, s);
      hide StoresDays, Consume.Legal, Consume.Safe, Consume.Do, Consume.InHand, WriteDays, DaysOf, RowsAt;
      if d.writes != c.writes && CommittedHeld(log, c.committed, ArchiveOf(log, flushRecords, front)) {
        var w := d.writes[|c.writes|];
        FlushHolds(log, ArchiveOf(log, flushRecords, front), c.committed, d.committed, hand, w);
      }
    }
  }
}
