/** Whole runs of the keyed fold: any messages, any clock readings, timers as late as they like. */
module Lifecycle {
  import opened Wire
  import opened AircraftState
  import opened Convergence
  import opened StateFunction

  /** A message folded, or a timer going off when the processing clock reads `now`. */
  datatype Step = Heard(m: Decoded, register: int, now: int) | Swept(timer: Timer, now: int)

  function Do(j: Job, s: Step): Job {
    match s
    case Heard(m, register, now) => Element(j, m, register, now)
    case Swept(t, _) => Fire(j, t)
  }

  function After(expireMs: int, steps: seq<Step>): Job {
    if steps == [] then Start(expireMs) else Do(After(expireMs, steps[..|steps| - 1]), steps[|steps| - 1])
  }

  function Clock(start: int, steps: seq<Step>): int {
    if steps == [] then start else steps[|steps| - 1].now
  }

  /** The clock never runs backwards, and only a pending timer that is due goes off. */
  predicate Legal(j: Job, clock: int, s: Step) {
    match s
    case Heard(_, register, now) => clock <= register <= now
    case Swept(t, now) => clock <= now && t in j.timers && t.at <= now
  }

  predicate LegalRun(expireMs: int, start: int, steps: seq<Step>) {
    steps == [] ||
    var front := steps[..|steps| - 1];
    LegalRun(expireMs, start, front) && Legal(After(expireMs, front), Clock(start, front), steps[|steps| - 1])
  }

  // --- Timers ---

  ghost predicate HeardBy(j: Job, clock: int) {
    forall k :: k in j.states ==> j.states[k].heardMs <= clock
  }

  lemma ElementKeepsOneTimer(j: Job, m: Decoded, register: int, now: int)
    requires OneTimerEach(j)
    ensures OneTimerEach(Element(j, m, register, now))
  {
    hide Merge, Changes;
    if m.line.icao.Some? {
      var r := Element(j, m, register, now);
      var key := m.line.icao.value;
      var added := Timer(key, register + SWEEP_MS);
      forall t | t in r.timers ensures t in j.timers || (t == added && key !in j.states) {}
      forall k | k in r.states ensures exists u :: u in r.timers && u.key == k {
        if k == key && key !in j.states {
          assert added in r.timers;
        } else {
          var u :| u in j.timers && u.key == k;
          assert u in r.timers;
        }
      }
    }
  }

  lemma ElementKeepsReach(j: Job, m: Decoded, register: int, now: int)
    requires OneTimerEach(j) && TimersInReach(j) && HeardBy(j, register) && register <= now
    ensures var r := Element(j, m, register, now); TimersInReach(r) && HeardBy(r, now)
  {
    hide Merge, Changes;
    if m.line.icao.Some? {
      var r := Element(j, m, register, now);
      var key := m.line.icao.value;
      MergeHears(Known(j, key).(heardMs := now), m);
      forall t | t in r.timers && t.key in r.states ensures t.at <= r.states[t.key].heardMs + Window(r.expireMs) {
        assert t in j.timers && t.key in j.states ==> t.at <= j.states[t.key].heardMs + Window(j.expireMs);
      }
    }
  }

  /** In every reachable state a live aircraft has exactly one timer, and it lies within the window of the last
      message. */
  lemma {:induction false} TimerChain(expireMs: int, start: int, steps: seq<Step>)
    requires LegalRun(expireMs, start, steps)
    ensures var j := After(expireMs, steps);
            && j.expireMs == expireMs && OneTimerEach(j) && TimersInReach(j) && HeardBy(j, Clock(start, steps))
            && forall t :: t in j.timers && t.key in j.states ==>
                 t.at <= j.states[t.key].heardMs + (if expireMs < 0 then 0 else expireMs) + 10_000
  {
    hide Merge;
    if steps != [] {
      var front := steps[..|steps| - 1];
      TimerChain(expireMs, start, front);
      var j := After(expireMs, front);
      match steps[|steps| - 1]
      case Heard(m, register, now) =>
        ElementKeepsOneTimer(j, m, register, now);
        ElementKeepsReach(j, m, register, now);
      case Swept(t, now) =>
        FireKeepsOneTimer(j, t);
        FireKeepsReach(j, t);
    }
  }

  /** What the clock read when the aircraft was last heard. */
  function LastHeard(steps: seq<Step>, key: string): Option<int> {
    if steps == [] then None
    else
      match steps[|steps| - 1]
      case Heard(m, _, now) => if m.line.icao == Some(key) then Some(now) else LastHeard(steps[..|steps| - 1], key)
      case Swept(_, _) => LastHeard(steps[..|steps| - 1], key)
  }

  lemma {:induction false} HeardAtLast(expireMs: int, steps: seq<Step>, key: string)
    requires key in After(expireMs, steps).states
    ensures LastHeard(steps, key) == Some(After(expireMs, steps).states[key].heardMs)
  {
    hide Merge, Changes;
    var front, j := steps[..|steps| - 1], After(expireMs, steps[..|steps| - 1]);
    match steps[|steps| - 1]
    case Heard(m, _, now) =>
      if m.line.icao == Some(key) {
        MergeHears(Known(j, key).(heardMs := now), m);
      } else {
        HeardAtLast(expireMs, front, key);
      }
    case Swept(_, _) =>
      HeardAtLast(expireMs, front, key);
  }

  /** An aircraft is retired only by its own timer, whose nominal time lies after the silence the expiry asks for, and
      at most ten seconds after it, however late the timer goes off and however old the events are. */
  lemma TombstoneTime(expireMs: int, start: int, steps: seq<Step>, s: Step, key: string)
    requires LegalRun(expireMs, start, steps + [s])
    requires var j := After(expireMs, steps); key in j.states && key !in Do(j, s).states
    ensures s.Swept? && s.timer.key == key && LastHeard(steps, key).Some?
    ensures var heard := LastHeard(steps, key).value;
            && heard + expireMs < s.timer.at <= heard + 10_000 + (if expireMs < 0 then 0 else expireMs)
            && s.timer.at <= s.now
    ensures Do(After(expireMs, steps), s).out == After(expireMs, steps).out + [StateOut(key, None)]
  {
    hide Merge;
    assert (steps + [s])[..|steps|] == steps;
    TimerChain(expireMs, start, steps);
    HeardAtLast(expireMs, steps, key);
  }

  /** A life begins with a timer ten seconds away; a sweep that leaves the aircraft alive moves it on by ten seconds,
      and nothing else moves it. */
  lemma NextTimer(expireMs: int, start: int, steps: seq<Step>, s: Step, t: Timer)
    requires LegalRun(expireMs, start, steps + [s]) && t in Do(After(expireMs, steps), s).timers
    ensures var j := After(expireMs, steps);
            || (t in j.timers && s != Swept(t, s.now))
            || (s.Heard? && t.key !in j.states && t.at == s.register + 10_000)
            || (s.Swept? && s.timer == Timer(t.key, t.at - 10_000))
  {
    hide Merge, Changes;
    assert (steps + [s])[..|steps|] == steps;
    TimerChain(expireMs, start, steps);
  }

  // --- Lives and traces ---

  /** The messages heard about an aircraft, life by life; the last life is the current one, empty when there is none. */
  function Lives(expireMs: int, steps: seq<Step>, key: string): (r: seq<seq<Decoded>>)
    ensures r != []
  {
    if steps == [] then [[]]
    else
      var front := steps[..|steps| - 1];
      var lives := Lives(expireMs, front, key);
      match steps[|steps| - 1]
      case Heard(m, _, _) =>
        if m.line.icao == Some(key) then Told(lives, m) else lives
      case Swept(t, _) =>
        var j := After(expireMs, front);
        if t.key == key && key in j.states && Expired(j.states[key], t.at, expireMs) then lives + [[]] else lives
  }

  /** The traces of one life: one for each message that changed the picture. */
  function LifeTraces(key: string, ms: seq<Decoded>): seq<Trace> {
    if ms == [] then []
    else
      var front, m := ms[..|ms| - 1], ms[|ms| - 1];
      var before := LifeTraces(key, front);
      if Changes(Fold(key, front), m) then before + [Trace(Fold(key, ms).snap, m.stationId, m.ts)] else before
  }

  function AllLifeTraces(key: string, lives: seq<seq<Decoded>>): seq<Trace> {
    if lives == [] then [] else AllLifeTraces(key, lives[..|lives| - 1]) + LifeTraces(key, lives[|lives| - 1])
  }

  function TracesOf(traces: seq<Trace>, key: string): seq<Trace> {
    if traces == [] then []
    else
      var rest := TracesOf(traces[..|traces| - 1], key);
      if traces[|traces| - 1].snap.icao == key then rest + [traces[|traces| - 1]] else rest
  }

  ghost predicate FollowsLives(j: Job, lives: seq<seq<Decoded>>, key: string)
    requires lives != []
  {
    var current := lives[|lives| - 1];
    && (key in j.states <==> current != [])
    && (key in j.states ==> SamePicture(j.states[key], Fold(key, current)))
    && TracesOf(j.traces, key) == AllLifeTraces(key, lives)
  }

  /** What a merge does to a picture depends on the picture only. */
  lemma MergeSamePicture(a: State, b: State, m: Decoded)
    requires SamePicture(a, b)
    ensures SamePicture(Merge(a, m), Merge(b, m)) && (Changes(a, m) <==> Changes(b, m))
  {
    assert Merge(a, m).snap.fields == Merge(b, m).snap.fields;
    assert Merge(a, m).fieldTs == Merge(b, m).fieldTs;
  }

  lemma TracesOfSnoc(traces: seq<Trace>, t: Trace, key: string)
    ensures TracesOf(traces + [t], key)
         == (if t.snap.icao == key then TracesOf(traces, key) + [t] else TracesOf(traces, key))
  {
    assert (traces + [t])[..|traces|] == traces;
  }

  function Told(lives: seq<seq<Decoded>>, m: Decoded): seq<seq<Decoded>>
    requires lives != []
  {
    lives[|lives| - 1 := lives[|lives| - 1] + [m]]
  }

  lemma LifeGrows(key: string, lives: seq<seq<Decoded>>, m: Decoded)
    requires lives != []
    ensures var current := lives[|lives| - 1];
            AllLifeTraces(key, Told(lives, m)) == AllLifeTraces(key, lives)
              + (if Changes(Fold(key, current), m)
                 then [Trace(Fold(key, current + [m]).snap, m.stationId, m.ts)] else [])
    ensures Fold(key, lives[|lives| - 1] + [m]) == Merge(Fold(key, lives[|lives| - 1]), m)
  {
    hide Merge;
    var n := |lives| - 1;
    assert (lives[n] + [m])[..|lives[n]|] == lives[n];
    assert Told(lives, m)[..n] == lives[..n];
  }

  lemma HeardFollows(j: Job, lives: seq<seq<Decoded>>, key: string, m: Decoded, register: int, now: int)
    requires lives != [] && FollowsLives(j, lives, key) && m.line.icao == Some(key)
    ensures FollowsLives(Element(j, m, register, now), Told(lives, m), key)
  {
    hide Merge, AllLifeTraces, TracesOf, EnvelopeOf;
    var current := lives[|lives| - 1];
    var a := Fold(key, current + [m]);
    LifeGrows(key, lives, m);
    FoldEnvelope(key, current + [m]);
    MergeSamePicture(Known(j, key).(heardMs := now), Fold(key, current), m);
    TracesOfSnoc(j.traces, Trace(a.snap, m.stationId, m.ts), key);
  }

  lemma OthersUnmoved(j: Job, m: Decoded, register: int, now: int, key: string)
    requires m.line.icao.Some? && m.line.icao.value != key
    requires m.line.icao.value in j.states ==> j.states[m.line.icao.value].snap.icao == m.line.icao.value
    ensures TracesOf(Element(j, m, register, now).traces, key) == TracesOf(j.traces, key)
  {
    hide Merge;
    var a := Merge(Known(j, m.line.icao.value).(heardMs := now), m);
    MergeHears(Known(j, m.line.icao.value).(heardMs := now), m);
    TracesOfSnoc(j.traces, Trace(a.snap, m.stationId, m.ts), key);
  }

  lemma SweptFollows(j: Job, lives: seq<seq<Decoded>>, key: string, t: Timer)
    requires lives != [] && FollowsLives(j, lives, key)
    ensures var over := t.key == key && key in j.states && Expired(j.states[key], t.at, j.expireMs);
            FollowsLives(Fire(j, t), if over then lives + [[]] else lives, key)
  {
    hide Merge;
    assert (lives + [[]])[..|lives|] == lives;
    assert LifeTraces(key, []) == [];
  }

  /** A run leaves an aircraft's picture and its traces exactly as its lives say: clock readings, sweeps, `dirty` and
      `heardMs` have no say in them beyond where a life ends. */
  lemma {:induction false} RunFollowsLives(expireMs: int, steps: seq<Step>, key: string)
    ensures FollowsLives(After(expireMs, steps), Lives(expireMs, steps, key), key)
    ensures After(expireMs, steps).expireMs == expireMs
  {
    hide Merge;
    if steps == [] {
      assert AllLifeTraces(key, [[]]) == AllLifeTraces(key, []) + LifeTraces(key, []);
    } else {
      var front := steps[..|steps| - 1];
      RunFollowsLives(expireMs, front, key);
      var j, lives := After(expireMs, front), Lives(expireMs, front, key);
      match steps[|steps| - 1]
      case Heard(m, register, now) =>
        if m.line.icao == Some(key) {
          HeardFollows(j, lives, key, m, register, now);
        } else if m.line.icao.Some? {
          KeyedByIcao(expireMs, front);
          OthersUnmoved(j, m, register, now, key);
        }
      case Swept(t, _) =>
        SweptFollows(j, lives, key, t);
    }
  }

  lemma {:induction false} KeyedByIcao(expireMs: int, steps: seq<Step>)
    ensures forall k :: k in After(expireMs, steps).states ==> After(expireMs, steps).states[k].snap.icao == k
  {
    hide Merge;
    if steps != [] {
      var front := steps[..|steps| - 1];
      KeyedByIcao(expireMs, front);
      match steps[|steps| - 1]
      case Heard(m, _, now) =>
        if m.line.icao.Some? { MergeHears(Known(After(expireMs, front), m.line.icao.value).(heardMs := now), m); }
      case Swept(_, _) =>
    }
  }

  /** Two runs, with different clocks, sweeps and even expiry windows, in which an aircraft was told the same things
      in each of its lives, emit the same traces for it and hold the same picture. */
  lemma TracesAreDeterministic(e1: int, s1: seq<Step>, e2: int, s2: seq<Step>, key: string)
    requires Lives(e1, s1, key) == Lives(e2, s2, key)
    ensures TracesOf(After(e1, s1).traces, key) == TracesOf(After(e2, s2).traces, key)
    ensures key in After(e1, s1).states <==> key in After(e2, s2).states
    ensures key in After(e1, s1).states ==> SamePicture(After(e1, s1).states[key], After(e2, s2).states[key])
  {
    RunFollowsLives(e1, s1, key);
    RunFollowsLives(e2, s2, key);
  }

  /** Within a life every trace differs from the one before in Payload or position time, and the last one carries
      the current values. */
  lemma {:induction false} TracesAreExact(key: string, ms: seq<Decoded>)
    ensures var ts := LifeTraces(key, ms);
            && (forall i :: 0 < i < |ts| ==> ts[i].snap.fields != ts[i - 1].snap.fields)
            && Fold(key, ms).snap.fields == (if ts == [] then Create(key).snap.fields else ts[|ts| - 1].snap.fields)
  {
    hide Merge;
    if ms != [] {
      TracesAreExact(key, ms[..|ms| - 1]);
    }
  }

  predicate PayloadMoves(a: State, m: Decoded) {
    Merge(a, m).snap.fields[..POSITION_TS] != a.snap.fields[..POSITION_TS]
  }

  /** The message has news for the Payload: a value it may set, and not the one known. */
  predicate HasPayloadNews(a: State, m: Decoded) {
    exists i :: 0 <= i < POSITION_TS && Accepts(a, m, i) && a.snap.fields[i] != Carried(m, i)
  }

  /** The message repeats a Payload already known at a later position time. */
  predicate OnlyMovesPositionTime(a: State, m: Decoded) {
    Accepts(a, m, POSITION_TS) && a.snap.fields[POSITION_TS] != Some(At(m.ts)) && !HasPayloadNews(a, m)
  }

  /** Traces are documented to land only when the Payload changes. That is so of a message exactly when it does not
      merely move the time of a position already known. */
  lemma PayloadTracesOnlyIff(a: State, m: Decoded)
    ensures PayloadMoves(a, m) <==> HasPayloadNews(a, m)
    ensures (Changes(a, m) ==> PayloadMoves(a, m)) <==> !OnlyMovesPositionTime(a, m)
  {
    var f, g := a.snap.fields, Merge(a, m).snap.fields;
    assert f == f[..POSITION_TS] + [f[POSITION_TS]] && g == g[..POSITION_TS] + [g[POSITION_TS]];
  }

  /** A message of a life that only moves the position time. */
  ghost predicate MovesTimeAlone(key: string, ms: seq<Decoded>, k: int) {
    0 <= k < |ms| && OnlyMovesPositionTime(Fold(key, ms[..k]), ms[k])
  }

  function PayloadOf(s: Snapshot): seq<Option<Value>> { s.fields[..POSITION_TS] }

  /** The Payload known just before the trace at `i`: the previous trace's, or an aircraft's not heard yet. */
  function PayloadBefore(key: string, ts: seq<Trace>, i: int): seq<Option<Value>>
    requires 0 <= i <= |ts|
  {
    PayloadOf(if i == 0 then Create(key).snap else ts[i - 1].snap)
  }

  /** Each trace has another Payload than the one known before it. */
  ghost predicate PayloadsDiffer(key: string, ts: seq<Trace>) {
    forall i :: 0 <= i < |ts| ==> PayloadOf(ts[i].snap) != PayloadBefore(key, ts, i)
  }

  /** The traces of a life keep the documented rule exactly when no message in it only moves the position time. */
  lemma {:induction false} TracesMovePayloadIff(key: string, ms: seq<Decoded>)
    ensures PayloadsDiffer(key, LifeTraces(key, ms)) <==> forall k :: !MovesTimeAlone(key, ms, k)
  {
    hide Merge, OnlyMovesPositionTime;
    if ms != [] {
      var n := |ms| - 1;
      var front, m := ms[..n], ms[n];
      var a, ts := Fold(key, front), LifeTraces(key, front);
      TracesMovePayloadIff(key, front);
      TracesAreExact(key, front);
      PayloadTracesOnlyIff(a, m);
      NothingMoved(a, m);
      forall k | k != n ensures MovesTimeAlone(key, ms, k) <==> MovesTimeAlone(key, front, k) {
        if 0 <= k < n { assert front[..k] == ms[..k]; }
      }
      assert MovesTimeAlone(key, ms, n) <==> OnlyMovesPositionTime(a, m);
      if Changes(a, m) { OnePayloadMore(key, ts, Trace(Fold(key, ms).snap, m.stationId, m.ts)); }
    }
  }

  lemma NothingMoved(a: State, m: Decoded)
    ensures PayloadMoves(a, m) ==> Changes(a, m)
    ensures OnlyMovesPositionTime(a, m) ==> Changes(a, m)
  {
    if OnlyMovesPositionTime(a, m) { assert Merge(a, m).snap.fields[POSITION_TS] != a.snap.fields[POSITION_TS]; }
  }

  lemma OnePayloadMore(key: string, ts: seq<Trace>, t: Trace)
    ensures PayloadsDiffer(key, ts + [t])
       <==> PayloadsDiffer(key, ts) && PayloadOf(t.snap) != PayloadBefore(key, ts, |ts|)
  {
    var more := ts + [t];
    forall i | 0 <= i <= |ts| ensures PayloadBefore(key, more, i) == PayloadBefore(key, ts, i) {}
    if PayloadsDiffer(key, more) {
      assert more[|ts|] == t;
      forall i | 0 <= i < |ts| ensures PayloadOf(ts[i].snap) != PayloadBefore(key, ts, i) {
        assert more[i] == ts[i];
      }
    }
  }

  /** It fails when a position is heard again a millisecond later. */
  lemma RepeatedPositionIsTraced(key: string, station: string, lat: Value, lon: Value)
    ensures var p := seq(POSITION_TS, i => if i == LAT then Some(lat) else if i == LON then Some(lon) else None);
            var m := Decoded(station, 1000, Line(Some(key), None, None, p));
            var a := Merge(Create(key), m.(ts := 0));
            Changes(a, m) && !PayloadMoves(a, m)
  {
    var p := seq(POSITION_TS, i => if i == LAT then Some(lat) else if i == LON then Some(lon) else None);
    var m := Decoded(station, 1000, Line(Some(key), None, None, p));
    var a := Merge(Create(key), m.(ts := 0));
    PayloadTracesOnlyIff(a, m);
    forall i | 0 <= i < FIELDS ensures a.snap.fields[i] == Carried(m.(ts := 0), i) && a.fieldTs[i] == 0 {}
    assert forall i :: 0 <= i < POSITION_TS ==> Merge(a, m).snap.fields[i] == a.snap.fields[i];
  }

  // --- The key traces are stored under ---

  function Messages(steps: seq<Step>): seq<Decoded> {
    if steps == [] then []
    else
      var rest := Messages(steps[..|steps| - 1]);
      match steps[|steps| - 1]
      case Heard(m, _, _) => if m.line.icao.Some? then rest + [m] else rest
      case Swept(_, _) => rest
  }

  /** Two reports of one aircraft by one station at one instant. */
  predicate SameReport(a: Decoded, b: Decoded) {
    a.stationId == b.stationId && a.ts == b.ts && a.line.icao == b.line.icao
  }

  /** No station reports an aircraft twice at one instant; it may hear two aircraft at once. */
  predicate DistinctReports(ms: seq<Decoded>) {
    forall i, j :: 0 <= i < j < |ms| ==> !SameReport(ms[i], ms[j])
  }

  predicate DistinctKeys(traces: seq<Trace>) {
    forall i, j :: 0 <= i < j < |traces| ==> KeyOf(traces[i]) != KeyOf(traces[j])
  }

  predicate IsFrom(t: Trace, m: Decoded) {
    m.stationId == t.eventStationId && m.ts == t.eventTs && m.line.icao == Some(t.snap.icao)
  }

  ghost predicate FromMessages(traces: seq<Trace>, ms: seq<Decoded>) {
    forall t :: t in traces ==> exists m :: m in ms && IsFrom(t, m)
  }

  /** Where no station reports an aircraft twice at one instant, no two traces of the fold share their key. */
  lemma {:induction false} TraceKeysAreDistinct(expireMs: int, steps: seq<Step>)
    requires DistinctReports(Messages(steps))
    ensures DistinctKeys(After(expireMs, steps).traces) && FromMessages(After(expireMs, steps).traces, Messages(steps))
  {
    hide Merge;
    if steps != [] {
      var front := steps[..|steps| - 1];
      var j, before, after := After(expireMs, front), Messages(front), Messages(steps);
      assert before == after || before == after[..|after| - 1];
      TraceKeysAreDistinct(expireMs, front);
      match steps[|steps| - 1]
      case Swept(_, _) =>
      case Heard(m, register, now) =>
        if m.line.icao.Some? {
          assert after == before + [m];
          KeyedByIcao(expireMs, front);
          MergeHears(Known(j, m.line.icao.value).(heardMs := now), m);
          NextTraceIsDistinct(j.traces, before, m, Merge(Known(j, m.line.icao.value).(heardMs := now), m).snap);
          FromMore(j.traces, before, m);
        }
    }
  }

  lemma FromMore(traces: seq<Trace>, ms: seq<Decoded>, m: Decoded)
    requires FromMessages(traces, ms)
    ensures FromMessages(traces, ms + [m])
  {
    assert forall x :: x in ms ==> x in ms + [m];
  }

  lemma NextTraceIsDistinct(traces: seq<Trace>, ms: seq<Decoded>, m: Decoded, s: Snapshot)
    requires DistinctReports(ms + [m]) && DistinctKeys(traces) && FromMessages(traces, ms) &&
        m.line.icao == Some(s.icao)
    ensures var more := traces + [Trace(s, m.stationId, m.ts)]; DistinctKeys(more) && FromMessages(more, ms + [m])
  {
    var next := Trace(s, m.stationId, m.ts);
    FromMore(traces, ms, m);
    assert m in ms + [m] && IsFrom(next, m);
    forall t | t in traces ensures KeyOf(t) != KeyOf(next) {
      var m0 :| m0 in ms && IsFrom(t, m0);
      var i :| 0 <= i < |ms| && ms[i] == m0;
      assert (ms + [m])[i] == m0 && (ms + [m])[|ms|] == m;
      assert !SameReport(m0, m);
    }
  }
}
