/** The heartbeat: what arrived in the buffer and what left it, told from two samples of it. */
module Heartbeat {
  import opened Wire
  import opened Buffer
  import opened Delivery

  datatype State = State(
    at: Instant,
    lastId: int,
    depth: int,
    lastEventAt: Option<Instant>,
    lastPublishAt: Option<Instant>)

  datatype Report = Report(
    reportedAt: Instant,
    uptime: int,
    diskFree: int,
    depth: int,
    oldest: Option<Instant>,
    eventRate: Option<real>,
    lastEventTs: Option<Instant>,
    lastPublishTs: Option<Instant>)

  /** Two ticks at the same instant divide by zero. */
  datatype Outcome = Sent(report: Report, state: State) | ZeroDivision

  /** Events per second. */
  function Rate(arrived: int, elapsed: int): real
    requires elapsed != 0
  {
    arrived as real / (elapsed as real / 1_000_000.0)
  }

  function BuildReport(now: Instant, uptime: int, diskFree: int, stats: Stats, prev: Option<State>): Outcome {
    var report := Report(now, uptime, diskFree, stats.depth, stats.oldestTs, None, None, None);
    if prev == None || stats.lastId < prev.value.lastId then
      Sent(report, State(now, stats.lastId, stats.depth, None, None))
    else
      var p := prev.value;
      var arrived := stats.lastId - p.lastId;
      var left := p.depth + arrived - stats.depth;
      var lastEventAt := if arrived > 0 then Some(now) else p.lastEventAt;
      var lastPublishAt := if left > 0 then Some(now) else p.lastPublishAt;
      if now == p.at then ZeroDivision
      else
        Sent(report.(eventRate := Some(Rate(arrived, now - p.at)),
                     lastEventTs := lastEventAt, lastPublishTs := lastPublishAt),
             State(now, stats.lastId, stats.depth, lastEventAt, lastPublishAt))
  }

  /** The process: what it remembers from one tick to the next. */
  class Monitor {
    var state: Option<State>

    constructor ()
      ensures state == None
    {
      state := None;
    }

    /** One turn of the loop: a sample of the buffer, a report. Dividing by zero ends the process. */
    method Tick(db: Db, now: Instant, uptime: int, diskFree: int) returns (report: Option<Report>)
      modifies this
      ensures var outcome := BuildReport(now, uptime, diskFree, Sampled(db.View()), old(state));
              match outcome
              case Sent(r, s) => report == Some(r) && state == Some(s)
              case ZeroDivision => report == None && state == old(state)
      ensures report == None <==>
                old(state).Some? && old(state).value.at == now && db.View().lastId >= old(state).value.lastId
    {
      var stats := db.Sample();
      var outcome := BuildReport(now, uptime, diskFree, stats, state);
      match outcome
      case Sent(r, s) =>
        report, state := Some(r), Some(s);
      case ZeroDivision =>
        report := None;
    }
  }

  // --- What the buffer really took in and gave up ---

  function ArrivedIn(step: Step): nat {
    match step
    case Append(entries) => |NonBlank(entries)|
    case _ => 0
  }

  function AckedIn(s: Station, step: Step): nat {
    if step.Ack? && s.phase.Replied? then |s.phase.batch| else 0
  }

  /** Rows appended in a stretch of a station's life that begins in `s`. */
  function Arrivals(steps: seq<Step>): nat {
    if steps == [] then 0 else Arrivals(steps[..|steps| - 1]) + ArrivedIn(steps[|steps| - 1])
  }

  /** Rows acknowledged in it. */
  function Departures(s: Station, steps: seq<Step>): nat {
    if steps == [] then 0
    else
      var front := steps[..|steps| - 1];
      Departures(s, front) + AckedIn(DoAll(s, front), steps[|steps| - 1])
  }

  lemma {:induction false} SamplesCount(s: Station, steps: seq<Step>)
    requires Conserved(s)
    ensures var t := DoAll(s, steps);
            && Conserved(t)
            && t.table.lastId - s.table.lastId == Arrivals(steps)
            && |s.table.rows| + Arrivals(steps) - |t.table.rows| == Departures(s, steps)
  {
    hide Conserved;
    if steps != [] {
      var front := steps[..|steps| - 1];
      SamplesCount(s, front);
      StepCounts(DoAll(s, front), steps[|steps| - 1]);
    }
  }

  lemma StepCounts(s: Station, step: Step)
    requires Conserved(s)
    ensures var t := Do(s, step);
            && Conserved(t)
            && t.table.lastId == s.table.lastId + ArrivedIn(step)
            && |t.table.rows| == |s.table.rows| + ArrivedIn(step) - AckedIn(s, step)
  {
    DoConserves(s, step);
    if step.Ack? && s.phase.Replied? { AckConserves(s); }
  }

  /** Between two samples of one buffer, a report's rate counts exactly the rows appended, and it sees a departure
      exactly when a batch was acknowledged. */
  lemma ReportIsExact(now: Instant, uptime: int, diskFree: int, s: Station, steps: seq<Step>, p: State)
    requires Conserved(s) && p.lastId == s.table.lastId && p.depth == |s.table.rows| && p.at != now
    ensures var r := BuildReport(now, uptime, diskFree, Sampled(DoAll(s, steps).table), Some(p));
            && r.Sent?
            && r.report.eventRate == Some(Rate(Arrivals(steps), now - p.at))
            && r.state.lastEventAt == (if Arrivals(steps) > 0 then Some(now) else p.lastEventAt)
            && r.state.lastPublishAt == (if Departures(s, steps) > 0 then Some(now) else p.lastPublishAt)
            && r.state.lastId == DoAll(s, steps).table.lastId && r.state.depth == |DoAll(s, steps).table.rows|
            && r.state.at == now
  {
    hide Conserved, Rate, Arrivals, Departures, DoAll;
    SamplesCount(s, steps);
  }

  /** The rate is per second, of a clock in microseconds. */
  lemma RateIsPerSecond(arrived: int, elapsed: int)
    requires elapsed != 0
    ensures Rate(arrived, elapsed) * (elapsed as real) == arrived as real * 1_000_000.0
  {
    var x := elapsed as real;
    assert x / 1_000_000.0 != 0.0;
    assert arrived as real / (x / 1_000_000.0) * (x / 1_000_000.0) == arrived as real;
  }

  /** A report tells the times it leaves remembered, the depth, and the time of the oldest row there; a first one, or
      the first of a buffer whose counter went back, tells no rate and no times. */
  lemma ReportTells(now: Instant, uptime: int, diskFree: int, t: Table, prev: Option<State>)
    requires BuildReport(now, uptime, diskFree, Sampled(t), prev).Sent?
    ensures var r := BuildReport(now, uptime, diskFree, Sampled(t), prev);
            && r.report.reportedAt == now && r.report.uptime == uptime && r.report.diskFree == diskFree
            && r.report.depth == |t.rows|
            && (t.rows == [] ==> r.report.oldest == None)
            && (t.rows != [] ==> r.report.oldest == Some(t.rows[0].ts))
            && r.report.lastEventTs == r.state.lastEventAt && r.report.lastPublishTs == r.state.lastPublishAt
            && (r.report.eventRate == None <==> prev == None || t.lastId < prev.value.lastId)
            && (r.report.eventRate == None ==> r.report.lastEventTs == None == r.report.lastPublishTs)
  {
    hide Rate;
  }

  // --- Whole runs of ticks, over buffers that may be recreated ---

  /** A sample at `now`, the buffer having been recreated or not, and having lived `steps` more. */
  datatype Tick = Tick(now: Instant, recreated: bool, steps: seq<Step>)

  function Life(ticks: seq<Tick>): Station {
    if ticks == [] then FRESH
    else
      var last := ticks[|ticks| - 1];
      DoAll(if last.recreated then FRESH else Life(ticks[..|ticks| - 1]), last.steps)
  }

  function Heart(ticks: seq<Tick>): Option<State> {
    if ticks == [] then None
    else
      match BuildReport(ticks[|ticks| - 1].now, 0, 0, Sampled(Life(ticks).table), Heart(ticks[..|ticks| - 1]))
      case Sent(_, state) => Some(state)
      case ZeroDivision => None
  }

  /** The buffer was recreated before tick `k`, and its counter shows it. */
  predicate Reset(ticks: seq<Tick>, k: int) {
    0 < k < |ticks| && ticks[k].recreated && Life(ticks[..k + 1]).table.lastId < Life(ticks[..k]).table.lastId
  }

  /** What had gone from, or come into, the buffer that tick `k` replaces unseen: nothing when it replaces none. */
  function Unseen(ticks: seq<Tick>, k: int, departing: bool): int
    requires 0 < k < |ticks|
  {
    var before := Life(ticks[..k]).table;
    if !ticks[k].recreated then 0 else if departing then before.lastId - |before.rows| else before.lastId
  }

  /** Rows acknowledged, or appended, in the interval that ends in tick `k`. */
  function Movements(ticks: seq<Tick>, k: int, departing: bool): nat
    requires 0 < k < |ticks|
  {
    if !departing then Arrivals(ticks[k].steps)
    else Departures(if ticks[k].recreated then FRESH else Life(ticks[..k]), ticks[k].steps)
  }

  /** Since the last recreation the counter shows, the interval that ends in tick `k` saw a movement: more of them,
      after a recreation it does not show, than the old buffer had. */
  ghost predicate Moved(ticks: seq<Tick>, k: int, departing: bool) {
    0 < k < |ticks| && (forall j :: k <= j < |ticks| ==> !Reset(ticks, j)) &&
    Movements(ticks, k, departing) > Unseen(ticks, k, departing)
  }

  /** `t` is the time of the latest tick whose interval saw a movement. */
  ghost predicate LatestMove(ticks: seq<Tick>, departing: bool, t: Option<Instant>) {
    if exists k :: Moved(ticks, k, departing)
    then exists k :: Moved(ticks, k, departing) && t == Some(ticks[k].now) &&
                     forall j :: Moved(ticks, j, departing) ==> j <= k
    else t == None
  }

  predicate Rising(ticks: seq<Tick>) {
    forall k :: 0 < k < |ticks| ==> ticks[k - 1].now < ticks[k].now
  }

  lemma MovedBefore(ticks: seq<Tick>, k: int, departing: bool)
    requires |ticks| > 1 && !Reset(ticks, |ticks| - 1) && k != |ticks| - 1
    ensures Moved(ticks, k, departing) <==> Moved(ticks[..|ticks| - 1], k, departing)
  {
    hide Life, Arrivals, Departures;
    var n := |ticks| - 1;
    var front := ticks[..n];
    forall j | 0 < j < n
      ensures Reset(ticks, j) <==> Reset(front, j)
      ensures Movements(ticks, j, departing) == Movements(front, j, departing)
      ensures Unseen(ticks, j, departing) == Unseen(front, j, departing)
    {
      assert front[..j] == ticks[..j] && front[..j + 1] == ticks[..j + 1] && front[j] == ticks[j];
    }
    hide Reset, Movements, Unseen;
  }

  lemma LatestMoveGrows(ticks: seq<Tick>, departing: bool, t: Option<Instant>)
    requires |ticks| > 1 && !Reset(ticks, |ticks| - 1) && LatestMove(ticks[..|ticks| - 1], departing, t)
    ensures LatestMove(ticks, departing,
                       if Moved(ticks, |ticks| - 1, departing) then Some(ticks[|ticks| - 1].now) else t)
  {
    hide Life, Arrivals, Departures, Reset;
    var n := |ticks| - 1;
    var front := ticks[..n];
    forall k ensures Moved(ticks, k, departing) ==> k <= n {}
    forall k ensures Moved(front, k, departing) ==> k < n {}
    forall k | k != n ensures Moved(ticks, k, departing) <==> Moved(front, k, departing) {
      MovedBefore(ticks, k, departing);
    }
    hide Moved;
    if !Moved(ticks, n, departing) && exists k :: Moved(front, k, departing) {
      var k :| Moved(front, k, departing) && t == Some(front[k].now) &&
                 forall j :: Moved(front, j, departing) ==> j <= k;
      assert Moved(ticks, k, departing);
    }
  }

  lemma NoneSinceReset(ticks: seq<Tick>, departing: bool)
    requires ticks != [] && Reset(ticks, |ticks| - 1)
    ensures LatestMove(ticks, departing, None)
  {
    hide Reset;
    forall k | 0 < k < |ticks| ensures !Moved(ticks, k, departing) { assert Reset(ticks, |ticks| - 1); }
  }

  /** What is remembered of a buffer at its last tick, times aside. */
  ghost predicate HeartSees(ticks: seq<Tick>)
    requires ticks != []
    ensures HeartSees(ticks) ==> Heart(ticks).Some?
  {
    && Conserved(Life(ticks)) && Heart(ticks).Some?
    && Heart(ticks).value.lastId == Life(ticks).table.lastId && Heart(ticks).value.depth == |Life(ticks).table.rows|
    && Heart(ticks).value.at == ticks[|ticks| - 1].now
  }

  lemma NewBuffer(steps: seq<Step>)
    ensures var t := DoAll(FRESH, steps);
            && Conserved(t) && t.table.lastId == Arrivals(steps)
            && |t.table.rows| == Arrivals(steps) - Departures(FRESH, steps)
  {
    BufferIsConserved([]);
    SamplesCount(FRESH, steps);
  }

  lemma FirstTick(ticks: seq<Tick>)
    requires |ticks| == 1
    ensures HeartSees(ticks) && Heart(ticks).value.lastEventAt == None == Heart(ticks).value.lastPublishAt
  {
    hide Conserved, DoAll;
    NewBuffer(ticks[0].steps);
    assert ticks[..0] == [] && Life([]) == FRESH && Heart([]) == None;
    assert Life(ticks) == DoAll(FRESH, ticks[0].steps);
  }

  lemma ResetTick(ticks: seq<Tick>)
    requires |ticks| > 1 && HeartSees(ticks[..|ticks| - 1]) && Reset(ticks, |ticks| - 1)
    ensures HeartSees(ticks) && Heart(ticks).value.lastEventAt == None == Heart(ticks).value.lastPublishAt
  {
    hide Conserved, DoAll;
    assert ticks[..|ticks| - 1 + 1] == ticks;
    NewBuffer(ticks[|ticks| - 1].steps);
  }

  /** A tick that follows one, on a buffer kept or replaced unseen. */
  ghost predicate Follows(ticks: seq<Tick>) {
    var n := |ticks| - 1;
    0 < n && HeartSees(ticks[..n]) && !Reset(ticks, n) && ticks[n].now != ticks[n - 1].now
  }

  /** What the tick remembers, `p` being what the one before did. */
  ghost predicate Remembers(ticks: seq<Tick>, p: State)
    requires |ticks| > 1
  {
    var n := |ticks| - 1;
    && HeartSees(ticks)
    && Heart(ticks).value.lastEventAt == (if Moved(ticks, n, false) then Some(ticks[n].now) else p.lastEventAt)
    && Heart(ticks).value.lastPublishAt == (if Moved(ticks, n, true) then Some(ticks[n].now) else p.lastPublishAt)
  }

  lemma MovedAtLast(ticks: seq<Tick>, departing: bool)
    requires |ticks| > 1 && !Reset(ticks, |ticks| - 1)
    ensures var n := |ticks| - 1;
            Moved(ticks, n, departing) <==> Movements(ticks, n, departing) > Unseen(ticks, n, departing)
  {
    hide Reset, Movements, Unseen;
  }

  lemma KeptTick(ticks: seq<Tick>)
    requires Follows(ticks) && !ticks[|ticks| - 1].recreated
    ensures Remembers(ticks, Heart(ticks[..|ticks| - 1]).value)
  {
    hide Conserved, DoAll, BuildReport, Departures, Arrivals, Moved, Reset;
    var n := |ticks| - 1;
    var front, last := ticks[..n], ticks[n];
    MovedAtLast(ticks, false);
    MovedAtLast(ticks, true);
    ReportIsExact(last.now, 0, 0, Life(front), last.steps, Heart(front).value);
    SamplesCount(Life(front), last.steps);
  }

  lemma ReplacedTick(ticks: seq<Tick>)
    requires Follows(ticks) && ticks[|ticks| - 1].recreated
    ensures Remembers(ticks, Heart(ticks[..|ticks| - 1]).value)
  {
    hide Conserved, DoAll, BuildReport, Departures, Arrivals, Moved;
    var n := |ticks| - 1;
    var front, last := ticks[..n], ticks[n];
    assert ticks[..n + 1] == ticks;
    MovedAtLast(ticks, false);
    MovedAtLast(ticks, true);
    AfterUnseenRecreation(last.now, 0, 0, last.steps, Heart(front).value);
    NewBuffer(last.steps);
  }

  /** After any ticks and any recreations, the times remembered are those of the latest interval with an arrival and
      with an ack since the last recreation the counter shows; after one it does not, only more of either than the old
      buffer had makes a movement. */
  lemma {:induction false} HeartRemembers(ticks: seq<Tick>)
    requires ticks != [] && Rising(ticks)
    ensures HeartSees(ticks)
    ensures LatestMove(ticks, false, Heart(ticks).value.lastEventAt)
    ensures LatestMove(ticks, true, Heart(ticks).value.lastPublishAt)
  {
    hide HeartSees, Life, Heart, Moved, LatestMove, Reset;
    var n := |ticks| - 1;
    if n == 0 {
      FirstTick(ticks);
      FirstMovesNothing(ticks, false);
      FirstMovesNothing(ticks, true);
    } else {
      var front := ticks[..n];
      HeartRemembers(front);
      if Reset(ticks, n) {
        ResetTick(ticks);
        NoneSinceReset(ticks, false);
        NoneSinceReset(ticks, true);
      } else {
        if ticks[n].recreated { ReplacedTick(ticks); } else { KeptTick(ticks); }
        LatestMoveGrows(ticks, false, Heart(front).value.lastEventAt);
        LatestMoveGrows(ticks, true, Heart(front).value.lastPublishAt);
      }
    }
  }

  lemma FirstMovesNothing(ticks: seq<Tick>, departing: bool)
    requires |ticks| == 1
    ensures LatestMove(ticks, departing, None)
  {
  }

  /** A recreation the counter does not show. */
  lemma AfterUnseenRecreation(now: Instant, uptime: int, diskFree: int, steps: seq<Step>, p: State)
    requires p.at != now && p.lastId <= DoAll(FRESH, steps).table.lastId
    ensures var t := DoAll(FRESH, steps).table;
            var r := BuildReport(now, uptime, diskFree, Sampled(t), Some(p));
            && r.Sent? && r.report.eventRate == Some(Rate(Arrivals(steps) - p.lastId, now - p.at))
            && r.state.lastEventAt == (if Arrivals(steps) > p.lastId then Some(now) else p.lastEventAt)
            && r.state.lastPublishAt
                 == (if Departures(FRESH, steps) > p.lastId - p.depth then Some(now) else p.lastPublishAt)
            && r.state.lastId == t.lastId && r.state.depth == |t.rows| && r.state.at == now
  {
    hide Conserved, DoAll, Arrivals, Departures, Rate;
    NewBuffer(steps);
  }

  /** After such a recreation the rate is right exactly when the old buffer had assigned no id, an arrival is told
      exactly when there were more than its ids, and an ack exactly when there were more than its rows gone. */
  lemma UnseenRecreationIff(now: Instant, uptime: int, diskFree: int, steps: seq<Step>, p: State)
    requires p.at < now && p.lastId <= DoAll(FRESH, steps).table.lastId
    ensures var r := BuildReport(now, uptime, diskFree, Sampled(DoAll(FRESH, steps).table), Some(p));
            && r.Sent?
            && (r.report.eventRate == Some(Rate(Arrivals(steps), now - p.at)) <==> p.lastId == 0)
            && r.state.lastEventAt == (if Arrivals(steps) > p.lastId then Some(now) else p.lastEventAt)
            && r.state.lastPublishAt
                 == (if Departures(FRESH, steps) > p.lastId - p.depth then Some(now) else p.lastPublishAt)
  {
    hide DoAll, Arrivals, Departures, Rate, BuildReport;
    AfterUnseenRecreation(now, uptime, diskFree, steps, p);
    SameRate(Arrivals(steps) - p.lastId, Arrivals(steps), now - p.at);
  }

  /** One line buffered, posted, answered and deleted. */
  function OneLine(ts: Instant, raw: string): seq<Step> { [Append([(ts, raw)]), Read(-1), Produce, Reply, Ack] }

  /** A buffer that passed one line on is replaced by one that does the same: neither arrival nor ack is told. */
  lemma RecreationHidesALine(now: Instant, ts: Instant, raw: string, p: State)
    requires raw != "" && p.at < now && p.lastId == 1 && p.depth == 0
    ensures var steps := OneLine(ts, raw);
            var r := BuildReport(now, 0, 0, Sampled(DoAll(FRESH, steps).table), Some(p));
            && Arrivals(steps) == 1 == Departures(FRESH, steps)
            && r.Sent? && r.report.eventRate == Some(0.0)
            && r.state.lastEventAt == p.lastEventAt && r.state.lastPublishAt == p.lastPublishAt
  {
    var steps := OneLine(ts, raw);
    OneLineRuns(ts, raw);
    assert Rate(0, now - p.at) == 0.0;
    hide DoAll, Arrivals, Departures, Rate, BuildReport, OneLine;
    AfterUnseenRecreation(now, 0, 0, steps, p);
  }

  lemma OneLineRuns(ts: Instant, raw: string)
    requires raw != ""
    ensures var steps := OneLine(ts, raw);
            Arrivals(steps) == 1 == Departures(FRESH, steps) && DoAll(FRESH, steps).table == Table([], 1)
  {
    hide Do, DoAll, Arrivals, Departures;
    NewBuffer(OneLine(ts, raw));
    OneLineStates(ts, raw);
    NothingDone();
    var a, steps := Append([(ts, raw)]), OneLine(ts, raw);
    DoAllSnoc(FRESH, [], a);
    DoAllSnoc(FRESH, [a], Read(-1));
    DoAllSnoc(FRESH, [a, Read(-1)], Produce);
    DoAllSnoc(FRESH, [a, Read(-1), Produce], Reply);
    DoAllSnoc(FRESH, [a, Read(-1), Produce, Reply], Ack);
    assert [] + [a] == [a] && [a] + [Read(-1)] == [a, Read(-1)];
    assert [a, Read(-1)] + [Produce] == [a, Read(-1), Produce];
    assert [a, Read(-1), Produce] + [Reply] == [a, Read(-1), Produce, Reply];
    assert [a, Read(-1), Produce, Reply] + [Ack] == steps;
  }

  lemma OneLineStates(ts: Instant, raw: string)
    requires raw != ""
    ensures Do(Do(Do(Do(Do(FRESH, Append([(ts, raw)])), Read(-1)), Produce), Reply), Ack).table == Table([], 1)
  {
    hide Appended, Acked, Batch;
    var row := Row(1, ts, raw);
    OneAppended((ts, raw));
    OneAcked(row);
    var s1 := Station(Table([row], 1), [row], Idle, []);
    WholeBatch(s1.table);
    assert Do(s1, Read(-1)) == s1.(phase := Posting([row], 0));
    assert [] + [row] == [row];
    assert Do(s1.(phase := Posting([row], 0)), Produce) == s1.(phase := Posting([row], 1), topic := [row]);
  }

  lemma WholeBatch(t: Table)
    ensures Batch(t, -1) == t.rows
  {
  }

  lemma NothingDone()
    ensures DoAll(FRESH, []) == FRESH
  {
  }

  lemma OneAppended(entry: Entry)
    requires entry.1 != ""
    ensures var row := Row(1, entry.0, entry.1);
            Do(FRESH, Append([entry])) == Station(Table([row], 1), [row], Idle, [])
  {
    assert [entry][..0] == [] && NonBlank([entry]) == [entry];
    assert Numbered([entry], 0) == [Row(1, entry.0, entry.1)];
  }

  lemma OneAcked(row: Row)
    ensures Acked(Table([row], 1), [row]) == Table([], 1)
  {
    assert row in [row] && [row][..0] == [] && row.id in Ids([row]);
    assert Without([row], Ids([row])) == Without([], Ids([row])) == [];
  }

  lemma SameRate(a: int, b: int, elapsed: int)
    requires elapsed > 0
    ensures Rate(a, elapsed) == Rate(b, elapsed) <==> a == b
  {
    var x := elapsed as real / 1_000_000.0;
    assert x > 0.0;
    SameQuotient(a as real, b as real, x);
  }

  lemma SameQuotient(a: real, b: real, x: real)
    requires x > 0.0
    ensures a / x == b / x <==> a == b
  {
    assert a / x * x == a && b / x * x == b;
  }
}
