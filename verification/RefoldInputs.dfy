/** Inputs on which a second fold adds a row, or a row is dropped. */
module RefoldInputs {
  import opened Wire
  import opened AircraftState
  import opened Convergence
  import opened StateFunction
  import opened Lifecycle
  import opened History
  import opened Traces
  import opened Refold
  import StationDedup

  function Carrying(station: string, key: string, ts: Instant, field: nat, v: Value): Decoded
    requires field < POSITION_TS
  {
    Decoded(station, ts, Line(Some(key), None, None, seq(POSITION_TS, i => if i == field then Some(v) else None)))
  }

  lemma CarriesOnly(station: string, key: string, ts: Instant, field: nat, v: Value)
    requires field < POSITION_TS
    ensures var m := Carrying(station, key, ts, field, v);
            && m.stationId == station && m.ts == ts && m.line.icao == Some(key)
            && (forall i :: 0 <= i < POSITION_TS ==> (i == field <==> m.line.payload[i].Some?))
            && Carried(m, POSITION_TS) == None
  {
  }

  /** A late message is enough: the picture converges, and the table keeps two rows for one event. */
  lemma LateEventHasTwoRows(key: string, a: string, b: string, call: Value, squawk: Value)
    ensures var x, y := Carrying(a, key, 2_000_000, CALLSIGN, call), Carrying(b, key, 1_000_000, SQUAWK, squawk);
            && Reordering([x, y], [y, x]) && TiesAgree([x, y]) && InTimeOrder([y, x])
            && var first, second := TraceAt(key, [x, y], 1), TraceAt(key, [y, x], 0);
            && IsFrom(first, y) && IsFrom(second, y) && KeyOf(first) != KeyOf(second)
            && var table := InsertAll(TableAfter(key, [x, y]), LifeTraces(key, [y, x]));
            KeyOf(first) in table && KeyOf(second) in table
  {
    hide Carrying, TiesAgree, Fold, Traced, TraceAt, LifeTraces, TableAfter, InsertAll, KeyOf;
    var x, y := Carrying(a, key, 2_000_000, CALLSIGN, call), Carrying(b, key, 1_000_000, SQUAWK, squawk);
    CarriesOnly(a, key, 2_000_000, CALLSIGN, call);
    CarriesOnly(b, key, 1_000_000, SQUAWK, squawk);
    TwoTraced(key, x, CALLSIGN, y, SQUAWK);
    TwoTraced(key, y, SQUAWK, x, CALLSIGN);
    NoTies(x, CALLSIGN, y, SQUAWK);
    assert [y, x] == [y] + [x] && [x, y] == [x] + [y];
    TwoRows(key, x, y);
  }

  /** A message traced late by one fold and in time by another leaves a row in each. */
  lemma TwoRows(key: string, x: Decoded, y: Decoded)
    requires y.ts < x.ts && y.line.icao == Some(key) && Traced(key, [x, y], 1) && Traced(key, [y, x], 0)
    ensures var first, second := TraceAt(key, [x, y], 1), TraceAt(key, [y, x], 0);
            && IsFrom(first, y) && IsFrom(second, y) && KeyOf(first) != KeyOf(second)
            && var table := InsertAll(TableAfter(key, [x, y]), LifeTraces(key, [y, x]));
            KeyOf(first) in table && KeyOf(second) in table
  {
    assert [x, y][0] == x && [x, y][1] == y;
    LastSeenIsOwnIff(key, [x, y], 1);
    LastSeenIsOwnIff(key, [y, x], 0);
    TraceHas(key, [x, y], 1);
    TraceHas(key, [y, x], 0);
    hide Fold, Newest, NewestTime;
    TracesOfLife(key, [x, y]);
    TracesOfLife(key, [y, x]);
    Inserted(map[], LifeTraces(key, [x, y]));
    Inserted(TableAfter(key, [x, y]), LifeTraces(key, [y, x]));
    hide Traced, LifeTraces, InsertAll;
  }

  /** Two messages with one field each never tie. */
  lemma NoTies(m: Decoded, f: nat, n: Decoded, g: nat)
    requires f < POSITION_TS && g < POSITION_TS && f != g
    requires forall i :: 0 <= i < POSITION_TS ==>
        (i == f <==> m.line.payload[i].Some?) && (i == g <==> n.line.payload[i].Some?)
    requires Carried(m, POSITION_TS) == None == Carried(n, POSITION_TS)
    ensures TiesAgree([m, n])
  {
    forall i, j | 0 <= i < FIELDS && Top([m, n], i, j) ensures (i == f && j == 0) || (i == g && j == 1) {
      assert [m, n][0] == m && [m, n][1] == n;
    }
  }

  lemma NewsChanges(s: State, m: Decoded, f: nat)
    requires f < FIELDS && Accepts(s, m, f) && s.snap.fields[f] != Carried(m, f)
    ensures Changes(s, m)
  {
    assert Merge(s, m).snap.fields[f] != s.snap.fields[f];
  }

  lemma MergeLeaves(s: State, m: Decoded, f: nat)
    requires f < FIELDS && Carried(m, f) == None
    ensures Merge(s, m).snap.fields[f] == s.snap.fields[f] && Merge(s, m).fieldTs[f] == s.fieldTs[f]
  {
  }

  /** Two messages about different fields, neither before the epoch, both change the picture. */
  lemma TwoTraced(key: string, m: Decoded, f: nat, n: Decoded, g: nat)
    requires f < POSITION_TS && g < POSITION_TS && f != g && 0 <= m.ts && 0 <= n.ts
    requires m.line.payload[f].Some? && n.line.payload[g].Some? && m.line.payload[g] == None
    ensures Traced(key, [m, n], 0) && Traced(key, [m, n], 1)
  {
    hide Merge, Changes;
    assert [m, n][..0] == [] && [m, n][..1] == [m] && [m][..0] == [];
    NewsChanges(Create(key), m, f);
    MergeLeaves(Create(key), m, g);
    NewsChanges(Merge(Create(key), m), n, g);
  }

  /** The run that hears two messages at once, and the one whose timer goes off in between. */
  function Unbroken(x: Decoded, y: Decoded): seq<Step> { [Heard(x, 0, 0), Heard(y, 0, 0)] }

  function Broken(key: string, x: Decoded, y: Decoded): seq<Step> {
    [Heard(x, 0, 0), Swept(Timer(key, SWEEP_MS), SWEEP_MS), Heard(y, SWEEP_MS, SWEEP_MS)]
  }

  /** Expiry is enough: heard in time order, and the same, but the second fold forgot the aircraft in between. The
      second message, no news to the first fold, gets a row. */
  lemma ExpiryAddsARow(key: string, station: string, ts: Instant, call: Value, expireMs: int)
    requires 0 <= ts && 0 <= expireMs < SWEEP_MS
    ensures var x, y := Carrying(station, key, ts, CALLSIGN, call), Carrying(station, key, ts + 1, CALLSIGN, call);
            && LegalRun(expireMs, 0, Unbroken(x, y)) && Lives(expireMs, Unbroken(x, y), key) == [[x, y]]
            && LegalRun(expireMs, 0, Broken(key, x, y)) && Lives(expireMs, Broken(key, x, y), key) == [[x], [y]]
            && var t := TraceAt(key, [y], 0);
            && t in After(expireMs, Broken(key, x, y)).traces
            && KeyOf(t) !in InsertAll(map[], After(expireMs, Unbroken(x, y)).traces)
  {
    hide Carrying, After, Lives, LegalRun, Traced, TraceAt, InsertAll;
    var x, y := Carrying(station, key, ts, CALLSIGN, call), Carrying(station, key, ts + 1, CALLSIGN, call);
    CarriesOnly(station, key, ts, CALLSIGN, call);
    CarriesOnly(station, key, ts + 1, CALLSIGN, call);
    SamePayload(station, key, ts, CALLSIGN, call);
    UnbrokenLives(expireMs, key, x, y);
    BrokenLives(expireMs, key, x, y);
    NoNews(key, x, CALLSIGN, y);
    RowIsNew(key, expireMs, x, y);
  }

  lemma SamePayload(station: string, key: string, ts: Instant, field: nat, v: Value)
    requires field < POSITION_TS
    ensures Carrying(station, key, ts, field, v).line == Carrying(station, key, ts + 1, field, v).line
  {
  }

  lemma UnbrokenLives(expireMs: int, key: string, x: Decoded, y: Decoded)
    requires x.line.icao == Some(key) == y.line.icao
    ensures LegalRun(expireMs, 0, Unbroken(x, y)) && Lives(expireMs, Unbroken(x, y), key) == [[x, y]]
  {
    hide Merge, Changes;
    var steps := Unbroken(x, y);
    assert steps[..1] == [Heard(x, 0, 0)] && steps[..1][..0] == [];
    assert Lives(expireMs, steps[..1], key) == [[x]] by {
      assert Lives(expireMs, [], key) == [[]] && [] + [x] == [x];
    }
    assert [x] + [y] == [x, y];
    assert LegalRun(expireMs, 0, steps[..1]) by { assert LegalRun(expireMs, 0, []); }
  }

  lemma FirstHeard(expireMs: int, key: string, x: Decoded)
    requires x.line.icao == Some(key)
    ensures var j := After(expireMs, [Heard(x, 0, 0)]);
            && j.expireMs == expireMs && j.timers == {Timer(key, SWEEP_MS)}
            && key in j.states && j.states[key].heardMs == 0
  {
    hide Merge, Changes;
    assert [Heard(x, 0, 0)][..0] == [];
    MergeHears(Create(key).(heardMs := 0), x);
  }

  lemma BrokenLives(expireMs: int, key: string, x: Decoded, y: Decoded)
    requires x.line.icao == Some(key) == y.line.icao && 0 <= expireMs < SWEEP_MS
    ensures LegalRun(expireMs, 0, Broken(key, x, y)) && Lives(expireMs, Broken(key, x, y), key) == [[x], [y]]
  {
    var steps := Broken(key, x, y);
    assert steps[..2][..1] == [Heard(x, 0, 0)] == steps[..1] && steps[..1][..0] == [];
    FirstHeard(expireMs, key, x);
    assert Lives(expireMs, steps[..1], key) == [[x]] by {
      assert Lives(expireMs, [], key) == [[]] && [] + [x] == [x];
    }
    assert LegalRun(expireMs, 0, steps[..1]) by { assert LegalRun(expireMs, 0, []); }
    hide After;
    assert Lives(expireMs, steps[..2], key) == [[x], []];
    assert LegalRun(expireMs, 0, steps[..2]);
    assert [] + [y] == [y];
  }

  /** A field said again changes nothing. */
  lemma NoNews(key: string, x: Decoded, f: nat, y: Decoded)
    requires f < POSITION_TS && 0 <= x.ts <= y.ts && x.line == y.line && Carried(x, POSITION_TS) == None
    requires forall i :: 0 <= i < POSITION_TS ==> (i == f <==> x.line.payload[i].Some?)
    ensures Traced(key, [y], 0) && !Traced(key, [x, y], 1)
  {
    hide Merge, Changes;
    assert [x, y][..1] == [x] && [x][..0] == [] && [y][..0] == [];
    NewsChanges(Create(key), y, f);
    MergeTakes(Create(key), x, f);
    forall i | 0 <= i < FIELDS && Carried(y, i).Some? ensures i == f {}
    OldNewsChangesNothing(Merge(Create(key), x), y);
  }

  lemma MergeTakes(s: State, m: Decoded, f: nat)
    requires f < FIELDS && Accepts(s, m, f)
    ensures Merge(s, m).snap.fields[f] == Carried(m, f)
  {
  }

  lemma OldNewsChangesNothing(s: State, m: Decoded)
    requires forall i :: 0 <= i < FIELDS && Carried(m, i).Some? ==> s.snap.fields[i] == Carried(m, i)
    ensures !Changes(s, m)
  {
    assert Merge(s, m).snap.fields == s.snap.fields;
  }

  lemma RowIsNew(key: string, expireMs: int, x: Decoded, y: Decoded)
    requires x.ts != y.ts && Traced(key, [y], 0) && !Traced(key, [x, y], 1)
    requires Lives(expireMs, Unbroken(x, y), key) == [[x, y]] && Lives(expireMs, Broken(key, x, y), key) == [[x], [y]]
    ensures TraceAt(key, [y], 0) in After(expireMs, Broken(key, x, y)).traces
    ensures KeyOf(TraceAt(key, [y], 0)) !in InsertAll(map[], After(expireMs, Unbroken(x, y)).traces)
  {
    hide Traced, AsNew, Lives, After, InsertAll, TraceAt;
    assert TracedIn(key, [[x], [y]], 1, 0);
    TraceOfRun(expireMs, Broken(key, x, y), key, 1, 0);
    forall h, i ensures !(TracedIn(key, [[x, y]], h, i) && Collide([[x, y]][h], i, [y], 0)) {}
    KeyIsNew(expireMs, Unbroken(x, y), key, [y], 0);
  }

  lemma TraceOfRun(expireMs: int, steps: seq<Step>, key: string, l: int, k: int)
    requires TracedIn(key, Lives(expireMs, steps, key), l, k)
    ensures TraceAt(key, Lives(expireMs, steps, key)[l], k) in After(expireMs, steps).traces
  {
    hide After, Lives, TraceAt, TracedIn, AllLifeTraces, TracesOf;
    RunFollowsLives(expireMs, steps, key);
    TracesOfLives(key, Lives(expireMs, steps, key));
    TracesOfHolds(After(expireMs, steps).traces, key);
  }

  lemma KeyIsNew(expireMs: int, steps: seq<Step>, key: string, ms: seq<Decoded>, k: int)
    requires 0 <= k < |ms| && !CollidesIn(key, Lives(expireMs, steps, key), ms, k)
    ensures KeyOf(TraceAt(key, ms, k)) !in InsertAll(map[], After(expireMs, steps).traces)
  {
    hide After, Lives, InsertAll, CollidesIn, TableOfLives;
    TraceHas(key, ms, k);
    KeyIsThereIff(key, Lives(expireMs, steps, key), ms, k);
    RunTable(expireMs, steps, key);
  }

  /** The interleaving is enough: heard live in time order, nothing expired, each station's messages in order both
      times; but the second fold hears the one station before the other, as it may from two partitions. */
  lemma InterleavingAddsARow(key: string, a: string, b: string, call: Value, squawk: Value, expireMs: int)
    requires a != b
    ensures var x, y := Carrying(a, key, 2_000_000, CALLSIGN, call), Carrying(b, key, 1_000_000, SQUAWK, squawk);
            && InTimeOrder([y, x])
            && (forall s :: StationDedup.OfStation([x, y], s) == StationDedup.OfStation([y, x], s))
            && LegalRun(expireMs, 0, Unbroken(y, x)) && Lives(expireMs, Unbroken(y, x), key) == [[y, x]]
            && LegalRun(expireMs, 0, Unbroken(x, y)) && Lives(expireMs, Unbroken(x, y), key) == [[x, y]]
            && var t := TraceAt(key, [x, y], 1);
            && t in After(expireMs, Unbroken(x, y)).traces
            && KeyOf(t) !in InsertAll(map[], After(expireMs, Unbroken(y, x)).traces)
  {
    hide Carrying, After, Lives, LegalRun, Traced, TraceAt, InsertAll, AsNew;
    var x, y := Carrying(a, key, 2_000_000, CALLSIGN, call), Carrying(b, key, 1_000_000, SQUAWK, squawk);
    CarriesOnly(a, key, 2_000_000, CALLSIGN, call);
    CarriesOnly(b, key, 1_000_000, SQUAWK, squawk);
    TwoTraced(key, x, CALLSIGN, y, SQUAWK);
    UnbrokenLives(expireMs, key, x, y);
    UnbrokenLives(expireMs, key, y, x);
    assert TracedIn(key, [[x, y]], 0, 1);
    TraceOfRun(expireMs, Unbroken(x, y), key, 0, 1);
    LaterIsOlder(x, y);
    KeyIsNew(expireMs, Unbroken(y, x), key, [x, y], 1);
    forall s ensures StationDedup.OfStation([x, y], s) == StationDedup.OfStation([y, x], s) { EitherOrder(x, y, s); }
  }

  /** Behind the newer message, the older one shares its key with neither of the pair in order. */
  lemma LaterIsOlder(x: Decoded, y: Decoded)
    requires y.ts < x.ts
    ensures forall i :: !Collide([y, x], i, [x, y], 1)
  {
    assert [x, y][0].ts == x.ts && [y, x][0].ts == y.ts;
  }

  lemma EitherOrder(x: Decoded, y: Decoded, s: string)
    requires x.stationId != y.stationId
    ensures StationDedup.OfStation([x, y], s) == StationDedup.OfStation([y, x], s)
  {
    assert [x, y] == [] + [x] + [y] && [y, x] == [] + [y] + [x];
    StationDedup.OfStationSnoc([], x, s);
    StationDedup.OfStationSnoc([], y, s);
    StationDedup.OfStationSnoc([x], y, s);
    StationDedup.OfStationSnoc([y], x, s);
  }

  // --- An input on which a row is dropped ---

  lemma PairCollides(x: Decoded, y: Decoded)
    requires x.stationId == y.stationId && x.ts == y.ts
    ensures Collide([x, y], 0, [x, y], 1)
  {
    var ms := [x, y];
    assert ms[0].ts <= ms[0].ts && ms[1].ts <= ms[0].ts;
  }

  /** A station's two reports of an aircraft at one instant, each with news, are such a pair. */
  lemma SecondReportIsDropped(key: string, station: string, ts: Instant, call: Value, squawk: Value)
    requires 0 <= ts
    ensures var ms := [Carrying(station, key, ts, CALLSIGN, call), Carrying(station, key, ts, SQUAWK, squawk)];
            var t := TraceAt(key, ms, 1);
            t in LifeTraces(key, ms) && KeyOf(t) in TableAfter(key, ms) && !KeepsRow(key, ms, t)
  {
    hide Fold, Changes, LifeTraces, InsertAll, Carrying, Collide, Traced, TraceAt, KeyOf, KeepsRow;
    var x, y := Carrying(station, key, ts, CALLSIGN, call), Carrying(station, key, ts, SQUAWK, squawk);
    CarriesOnly(station, key, ts, CALLSIGN, call);
    CarriesOnly(station, key, ts, SQUAWK, squawk);
    TwoTraced(key, x, CALLSIGN, y, SQUAWK);
    TracesOfLife(key, [x, y]);
    PairCollides(x, y);
    LaterReportIsDropped(key, [x, y], 0, 1);
  }
}
