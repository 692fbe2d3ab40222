/** The archive: batches of rows written as one file per event date, named by the times they span, and read back a day
    at a time. */
module Archive {
  import opened Wire
  import opened Order

  datatype Row = Row(stationId: string, ts: Instant, raw: string)

  /** The canonical order: event time, then station, then line. */
  predicate Less(a: Row, b: Row) {
    || a.ts < b.ts
    || (a.ts == b.ts &&
          (StringLess(a.stationId, b.stationId) || (a.stationId == b.stationId && StringLess(a.raw, b.raw))))
  }

  lemma LessIsStrictTotal()
    ensures StrictTotal(Less)
  {
    StringLessIsStrictTotal();
    hide StringLess;
    forall x, y, z | Less(x, y) && Less(y, z) ensures Less(x, z) {}
    forall x, y ensures Less(x, y) || Less(y, x) || x == y {}
    forall x ensures !Less(x, x) {}
  }

  const DAY := 86_400_000_000

  /** Go's zero time, January 1 of year 1. */
  const ZERO_TIME := -62_135_596_800_000_000

  /** A topic record: bytes that are, or are not, a gateway event. */
  datatype Record = Event(bytes: string, stationId: string, ts: Instant, raw: string) | Other(bytes: string)

  /** Every record makes a row: one that is not an event, or lacks its station or time, keeps its bytes. */
  function DecodeRow(r: Record): Row {
    if r.Event? && r.stationId != "" && r.ts != ZERO_TIME then Row(r.stationId, r.ts, r.raw)
    else Row("", ZERO_TIME, r.bytes)
  }

  /** The event date in days since the epoch; None is dt=unknown. */
  function Partition(r: Row): Option<int> {
    if r.stationId == "" || r.ts == ZERO_TIME then None else Some(r.ts / DAY)
  }

  /** A gateway event goes, line and all, to the day of its time, days being 86,400 seconds. */
  lemma EventIsFiled(bytes: string, stationId: string, ts: Instant, raw: string)
    requires stationId != "" && ts != -62_135_596_800_000_000
    ensures DecodeRow(Record.Event(bytes, stationId, ts, raw)) == Row(stationId, ts, raw)
    ensures var day := Partition(Row(stationId, ts, raw));
            day.Some? && day.value * 86_400_000_000 <= ts < (day.value + 1) * 86_400_000_000
  {
  }

  /** A row has no date exactly when it has no station or no time. */
  lemma UndatedIff(r: Row)
    ensures Partition(r) == None <==> r.stationId == "" || r.ts == -62_135_596_800_000_000
  {
  }

  /** Not a gateway event, or one without its station or its time. */
  predicate Undated(r: Record) { r.Other? || r.stationId == "" || r.ts == -62_135_596_800_000_000 }

  datatype Path = Path(day: Option<int>, first: Instant, last: Instant)

  type Files = map<Path, seq<Row>>

  function Group(rows: seq<Row>, day: Option<int>): seq<Row> {
    if rows == [] then []
    else
      var front := Group(rows[..|rows| - 1], day);
      if Partition(rows[|rows| - 1]) == day then front + [rows[|rows| - 1]] else front
  }

  function DaysOf(rows: seq<Row>): set<Option<int>> { set r | r in rows :: Partition(r) }

  function FileOf(rows: seq<Row>, day: Option<int>): seq<Row> { Sort(Less, Group(rows, day)) }

  function PathOf(rows: seq<Row>, day: Option<int>): Path {
    var g := FileOf(rows, day);
    if g == [] then Path(day, 0, 0) else Path(day, g[0].ts, g[|g| - 1].ts)
  }

  function Paths(rows: seq<Row>, days: set<Option<int>>): set<Path> { set d | d in days :: PathOf(rows, d) }

  /** A path that writing the given days of the batch puts in place, over what was there. */
  predicate Replaces(rows: seq<Row>, days: set<Option<int>>, p: Path) { p.day in days && p == PathOf(rows, p.day) }

  /** The archive with the files of the given days of a batch in place. */
  function WriteDays(files: Files, rows: seq<Row>, days: set<Option<int>>): Files {
    map p | p in files.Keys + Paths(rows, days) :: if Replaces(rows, days, p) then FileOf(rows, p.day) else files[p]
  }

  function WriteAll(files: Files, rows: seq<Row>): Files { WriteDays(files, rows, DaysOf(rows)) }

  lemma {:induction false} GroupHolds(rows: seq<Row>, day: Option<int>)
    ensures forall r :: r in Group(rows, day) <==> r in rows && Partition(r) == day
  {
    if rows != [] {
      var front, last := rows[..|rows| - 1], rows[|rows| - 1];
      GroupHolds(front, day);
      assert forall r :: r in rows <==> r in front || r == last;
    }
  }

  lemma FileHolds(rows: seq<Row>, day: Option<int>)
    ensures forall r :: r in FileOf(rows, day) <==> r in rows && Partition(r) == day
  {
    LessIsStrictTotal();
    GroupHolds(rows, day);
    SortSorts(Less, Group(rows, day));
    forall r ensures r in FileOf(rows, day) <==> r in Group(rows, day) {
      assert r in multiset(FileOf(rows, day)) <==> r in multiset(Group(rows, day));
    }
  }

  /** A day's file is its rows, as often as they occur, in the canonical order, and is named by the first and last of
      their times. */
  lemma FileIsItsDay(rows: seq<Row>, day: Option<int>)
    ensures forall r :: multiset(FileOf(rows, day))[r] == if Partition(r) == day then multiset(rows)[r] else 0
    ensures Sorted(Less, FileOf(rows, day)) && PathOf(rows, day).day == day
    ensures day in DaysOf(rows) ==>
              var p := PathOf(rows, day);
              && (forall r :: r in rows && Partition(r) == day ==> p.first <= r.ts <= p.last)
              && (exists r :: r in rows && Partition(r) == day && r.ts == p.first)
              && (exists r :: r in rows && Partition(r) == day && r.ts == p.last)
  {
    LessIsStrictTotal();
    SortSorts(Less, Group(rows, day));
    forall r ensures multiset(FileOf(rows, day))[r] == if Partition(r) == day then multiset(rows)[r] else 0 {
      GroupCounts(rows, day, r);
    }
    if day in DaysOf(rows) {
      FileHolds(rows, day);
      NamedBySpan(rows, day);
      SpanOfSorted(FileOf(rows, day));
    }
  }

  lemma {:induction false} GroupCounts(rows: seq<Row>, day: Option<int>, r: Row)
    ensures multiset(Group(rows, day))[r] == if Partition(r) == day then multiset(rows)[r] else 0
  {
    hide Partition;
    if rows != [] {
      var front, last := rows[..|rows| - 1], rows[|rows| - 1];
      GroupCounts(front, day, r);
      assert rows == front + [last];
    }
  }

  lemma SpanOfSorted(g: seq<Row>)
    requires Sorted(Less, g) && g != []
    ensures forall r :: r in g ==> g[0].ts <= r.ts <= g[|g| - 1].ts
    ensures g[0] in g && g[|g| - 1] in g
  {
    hide StringLess;
    forall r | r in g ensures g[0].ts <= r.ts <= g[|g| - 1].ts {
      var i :| 0 <= i < |g| && g[i] == r;
      assert i > 0 ==> !Less(g[i], g[0]);
      assert i < |g| - 1 ==> !Less(g[|g| - 1], g[i]);
    }
  }

  /** A record that is no dated event keeps its bytes: a flush that gets to dt=unknown puts them in a file there. */
  lemma UndatedIsKept(files: Files, rows: seq<Row>, days: set<Option<int>>, r: Record)
    requires Undated(r) && DecodeRow(r) in rows && None in days
    ensures DecodeRow(r).raw == r.bytes && Partition(DecodeRow(r)) == None
    ensures var after := WriteDays(files, rows, days);
            exists p, row :: p in after && p.day == None && row in after[p] && row.raw == r.bytes
  {
    var row, p := DecodeRow(r), PathOf(rows, None);
    FileHolds(rows, None);
    PathHasDay(rows, None);
    hide FileOf, PathOf;
    assert p in WriteDays(files, rows, days) && row in WriteDays(files, rows, days)[p];
  }

  /** In the canonical order time never falls, stations at one instant stand in order, and of one station at one instant
      no line comes twice, nor out of order. */
  lemma AscendingReads(rows: seq<Row>, i: int, j: int)
    requires Ascending(Less, rows) && 0 <= i < j < |rows|
    ensures rows[i].ts <= rows[j].ts
    ensures rows[i].ts == rows[j].ts ==>
              rows[i].stationId == rows[j].stationId || StringLess(rows[i].stationId, rows[j].stationId)
    ensures rows[i].ts == rows[j].ts && rows[i].stationId == rows[j].stationId ==> StringLess(rows[i].raw, rows[j].raw)
  {
    assert Less(rows[i], rows[j]);
    StringLessIsStrictTotal();
    hide StringLess;
  }

  class Store {
    var files: Files

    constructor ()
      ensures files == map[]
    {
      files := map[];
    }

    /** Writes one file per date, in any order; `reached` is how many are in place before an error or a crash, and
        `done` the dates of those. */
    method GroupAndWrite(rows: seq<Row>, reached: nat) returns (done: set<Option<int>>)
      modifies this
      ensures done <= DaysOf(rows) && files == WriteDays(old(files), rows, done)
      ensures |DaysOf(rows)| <= reached ==> done == DaysOf(rows)
    {
      var groups := Groups(rows);
      hide FileOf, PathOf, Group, WriteDays, DaysOf;
      NoDays(files, rows);
      done := {};
      var left, n := groups.Keys, 0;
      while left != {} && n < reached
        invariant left !! done && left + done == groups.Keys && files == WriteDays(old(files), rows, done)
        invariant n == |done| && |left| + |done| == |groups.Keys|
        decreases left
      {
        var d :| d in left;
        var g := Sort(Less, groups[d]);
        NamedBySpan(rows, d);
        files := files[Path(d, g[0].ts, g[|g| - 1].ts) := g];
        OneDayMore(old(files), rows, done, d);
        left, done, n := left - {d}, done + {d}, n + 1;
      }
    }
  }

  method Groups(rows: seq<Row>) returns (groups: map<Option<int>, seq<Row>>)
    ensures groups.Keys == DaysOf(rows)
    ensures forall d :: d in groups ==> groups[d] == Group(rows, d)
  {
    groups := map[];
    for i := 0 to |rows|
      invariant groups.Keys == DaysOf(rows[..i])
      invariant forall d :: d in groups ==> groups[d] == Group(rows[..i], d)
    {
      var d := Partition(rows[i]);
      assert rows[..i + 1][..i] == rows[..i];
      assert rows[..i + 1] == rows[..i] + [rows[i]];
      if d !in groups { NoGroup(rows[..i], d); }
      groups := groups[d := (if d in groups then groups[d] else []) + [rows[i]]];
    }
    assert rows[..|rows|] == rows;
  }

  lemma NamedBySpan(rows: seq<Row>, d: Option<int>)
    requires d in DaysOf(rows)
    ensures var g := Sort(Less, Group(rows, d));
            g == FileOf(rows, d) && g != [] && PathOf(rows, d) == Path(d, g[0].ts, g[|g| - 1].ts)
  {
    FileHolds(rows, d);
    var r :| r in rows && Partition(r) == d;
    assert r in FileOf(rows, d);
  }

  lemma PathHasDay(rows: seq<Row>, d: Option<int>)
    ensures PathOf(rows, d).day == d
  {
  }

  lemma PathsMore(rows: seq<Row>, days: set<Option<int>>, d: Option<int>)
    ensures Paths(rows, days + {d}) == Paths(rows, days) + {PathOf(rows, d)}
  {
    hide PathOf;
  }

  lemma OneDayMore(files: Files, rows: seq<Row>, days: set<Option<int>>, d: Option<int>)
    ensures WriteDays(files, rows, days + {d}) == WriteDays(files, rows, days)[PathOf(rows, d) := FileOf(rows, d)]
  {
    PathsMore(rows, days, d);
    PathHasDay(rows, d);
    hide FileOf, PathOf, Paths;
    assert forall p :: Replaces(rows, days + {d}, p) <==> Replaces(rows, days, p) || p == PathOf(rows, d);
    var a, b := WriteDays(files, rows, days + {d}), WriteDays(files, rows, days)[PathOf(rows, d) := FileOf(rows, d)];
    forall p ensures p in a <==> p in b {}
    forall p | p in a ensures a[p] == b[p] {}
  }

  lemma NoDays(files: Files, rows: seq<Row>)
    ensures WriteDays(files, rows, {}) == files
  {
    hide FileOf;
    forall p ensures p in WriteDays(files, rows, {}) <==> p in files {}
  }

  lemma {:induction false} NoGroup(rows: seq<Row>, day: Option<int>)
    requires day !in DaysOf(rows)
    ensures Group(rows, day) == []
  {
    if rows != [] {
      assert rows[|rows| - 1] in rows;
      NoGroup(rows[..|rows| - 1], day);
    }
  }

  // --- Reading back ---

  /** A row the archive holds under its date. */
  ghost predicate Holds(files: Files, r: Row) {
    exists p :: p in files && p.day.Some? && r in files[p]
  }

  /** Every row is in a file of its own date. */
  ghost predicate Filed(files: Files) {
    forall p, r :: p in files && r in files[p] ==> Partition(r) == p.day
  }

  lemma WriteDaysFiles(files: Files, rows: seq<Row>, days: set<Option<int>>)
    requires Filed(files)
    ensures Filed(WriteDays(files, rows, days))
  {
    forall d ensures forall r :: r in FileOf(rows, d) <==> r in rows && Partition(r) == d { FileHolds(rows, d); }
  }

  /** `slices.CompactFunc`: drops a row equal to the one kept before it. */
  method Compact(rows: seq<Row>) returns (kept: seq<Row>)
    requires Sorted(Less, rows)
    ensures Ascending(Less, kept) && SameElements(kept, rows)
  {
    LessIsStrictTotal();
    kept := [];
    for i := 0 to |rows|
      invariant Ascending(Less, kept) && SameElements(kept, rows[..i])
      invariant i == 0 ==> kept == []
      invariant i > 0 ==> kept != [] && kept[|kept| - 1] == rows[i - 1]
    {
      assert rows[..i + 1] == rows[..i] + [rows[i]];
      if i == 0 || Less(rows[i - 1], rows[i]) {
        if i > 0 { BelowLast(kept, rows[i]); }
        kept := kept + [rows[i]];
      } else {
        assert !Less(rows[i], rows[i - 1]);
      }
    }
    assert rows[..|rows|] == rows;
  }

  lemma BelowLast(kept: seq<Row>, r: Row)
    requires Ascending(Less, kept) && kept != [] && Less(kept[|kept| - 1], r)
    ensures Ascending(Less, kept + [r])
  {
    LessIsStrictTotal();
    hide Less;
    forall i | 0 <= i < |kept| ensures Less(kept[i], r) {
      if i < |kept| - 1 { assert Less(kept[i], kept[|kept| - 1]); }
    }
  }

  /** One day's rows: those of its files, in whatever order the files are listed, sorted, each once. */
  method ReadDay(files: Files, day: int) returns (rows: seq<Row>)
    ensures Ascending(Less, rows)
    ensures forall r :: r in rows <==> exists p :: p in files && p.day == Some(day) && r in files[p]
  {
    var all: seq<Row> := [];
    var paths := set p | p in files && p.day == Some(day);
    var left := paths;
    while left != {}
      invariant left <= paths
      invariant forall r :: r in all <==> exists p :: p in paths - left && r in files[p]
      decreases left
    {
      var p :| p in left;
      forall r ensures r in all + files[p] <==> exists q :: q in paths - (left - {p}) && r in files[q] {
        if r in all {
          var q :| q in paths - left && r in files[q];
          assert q in paths - (left - {p});
        }
        if r in files[p] { assert p in paths - (left - {p}); }
      }
      all, left := all + files[p], left - {p};
    }
    LessIsStrictTotal();
    SortSorts(Less, all);
    var sorted := Sort(Less, all);
    rows := Compact(sorted);
    forall r ensures r in rows <==> r in all {
      assert r in multiset(sorted) <==> r in multiset(all);
    }
    assert paths - {} == paths;
  }
}
