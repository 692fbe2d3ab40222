/** The backfill end to end: from the archiver's run, through the replay of its files and a second fold, to the picture
    and the trace table. */
module Backfill {
  import opened Wire
  import opened Order
  import opened AircraftState
  import opened Convergence
  import opened StationDedup
  import opened Lifecycle
  import opened History
  import opened Refold
  import opened Traces
  import opened Pipeline
  import Archive
  import Consume
  import Replay

  /** The archiver has archived what the stations delivered, and the backfill has read it back. */
  ghost predicate ReplayOf(parse: Parser, runs: Deliveries, topic: seq<Event>, log: Replay.Log, flushRecords: int,
                           archiver: seq<Consume.Step>, places: seq<Consume.Place>, rows: seq<Archive.Row>)
  {
    && Delivered(parse, runs, topic)
    && Archived(log, flushRecords, archiver, topic, places)
    && ReadBack(rows, Replay.ArchiveOf(log, flushRecords, archiver))
  }

  /** The live processor hears the topic, the shadow one its replay, each with its stations interleaved in any way. */
  ghost predicate BothHear(parse: Parser, topic: seq<Event>, rows: seq<Archive.Row>, live: seq<Step>, shadow: seq<Step>,
                           key: string)
  {
    Hears(parse, topic, live, key) && Hears(parse, Replayed(rows), shadow, key)
  }

  /** From the archiver's run to the picture: what was committed through any crashes, read back and folded by the shadow
      processor, makes the live picture again. */
  lemma BackfillConverges(parse: Parser, runs: Deliveries, topic: seq<Event>, log: Replay.Log, flushRecords: int,
                          archiver: seq<Consume.Step>, places: seq<Consume.Place>, rows: seq<Archive.Row>, key: string,
                          e1: int, live: seq<Step>, e2: int, shadow: seq<Step>)
    requires ReplayOf(parse, runs, topic, log, flushRecords, archiver, places, rows)
    requires BothHear(parse, topic, rows, live, shadow, key)
    requires Unexpired(e1, live, key) && Unexpired(e2, shadow, key)
    requires TiesAgree(OfAircraft(Folded(parse, topic), key))
    ensures key in After(e1, live).states <==> key in After(e2, shadow).states
    ensures key in After(e1, live).states ==>
              && SamePicture(After(e1, live).states[key], After(e2, shadow).states[key])
              && After(e1, live).states[key].snap.messages == |OfAircraft(Folded(parse, topic), key)|
  {
    BackfillIsReplay(log, flushRecords, archiver, topic, places, rows);
    ReplayConverges(parse, runs, topic, rows, key, e1, live, e2, shadow);
  }

  // --- What the two folds hear ---

  lemma {:induction false} AllOfAircraft(ds: seq<Decoded>, key: string)
    ensures About(OfAircraft(ds, key), key)
  {
    if ds != [] { AllOfAircraft(ds[..|ds| - 1], key); }
  }

  /** The shadow's lives hold the reports of the live ones, each heard once by either. */
  lemma ShadowRefolds(parse: Parser, runs: Deliveries, topic: seq<Event>, rows: seq<Archive.Row>, key: string,
                      e1: int, live: seq<Step>, e2: int, shadow: seq<Step>)
    requires Delivered(parse, runs, topic) && IsReplay(rows, topic) && BothHear(parse, topic, rows, live, shadow, key)
    ensures Refolds(key, Lives(e1, live, key), Lives(e2, shadow, key))
    ensures DistinctReports(AllMessages(Lives(e2, shadow, key)))
  {
    hide Delivered, IsReplay, Hears, Folded, OfAircraft, Lives, AllMessages, DistinctReports, About;
    forall s ensures OfStation(Folded(parse, topic), s) == OfStation(Folded(parse, Replayed(rows)), s)
             ensures Increasing(OfStation(Folded(parse, topic), s))
    {
      SameParts(parse, runs, topic, rows, Replayed(rows), s);
    }
    HeardRises(parse, topic, live, key);
    HeardRises(parse, Replayed(rows), shadow, key);
    HeardInLives(e1, live, key);
    HeardInLives(e2, shadow, key);
    AllOfAircraft(Messages(live), key);
    SameMessages(parse, runs, topic, rows, Replayed(rows));
    SameForAircraft(Folded(parse, topic), Folded(parse, Replayed(rows)), key);
    HeardIsFolded(parse, topic, live, key);
    HeardIsFolded(parse, Replayed(rows), shadow, key);
    ReorderingMembers(OfAircraft(Messages(live), key), OfAircraft(Messages(shadow), key));
  }

  // --- The table ---

  ghost predicate ShadowRetraces(e1: int, live: seq<Step>, e2: int, shadow: seq<Step>, key: string) {
    RetracedAlike(key, Lives(e1, live, key), Lives(e2, shadow, key))
  }

  /** From the archiver's run to the table: writing the shadow processor's traces adds no row to those of the live one,
      however each hears its stations interleaved and whatever either lets expire, exactly when, for every aircraft,
      each message the shadow traces was traced live, with the same newest time heard in its life by then. */
  lemma BackfillAddsNoRowIff(parse: Parser, runs: Deliveries, topic: seq<Event>, log: Replay.Log, flushRecords: int,
                             archiver: seq<Consume.Step>, places: seq<Consume.Place>, rows: seq<Archive.Row>,
                             e1: int, live: seq<Step>, e2: int, shadow: seq<Step>)
    requires ReplayOf(parse, runs, topic, log, flushRecords, archiver, places, rows)
    requires forall key :: BothHear(parse, topic, rows, live, shadow, key)
    ensures InsertAll(InsertAll(map[], After(e1, live).traces), After(e2, shadow).traces)
         == InsertAll(map[], After(e1, live).traces)
       <==> forall key :: ShadowRetraces(e1, live, e2, shadow, key)
  {
    BackfillIsReplay(log, flushRecords, archiver, topic, places, rows);
    hide ReplayOf, Delivered, IsReplay, After, InsertAll, Lives, BothHear, Retraced, RetracedAlike, Refolds;
    forall key ensures RunRetraces(e1, live, e2, shadow, key) <==> ShadowRetraces(e1, live, e2, shadow, key) {
      assert BothHear(parse, topic, rows, live, shadow, key);
      DeliveredOf(parse, runs, topic, log, flushRecords, archiver, places, rows);
      ShadowRefolds(parse, runs, topic, rows, key, e1, live, e2, shadow);
      RetracedAlikeIff(key, Lives(e1, live, key), Lives(e2, shadow, key));
    }
    hide RunRetraces, ShadowRetraces;
    RefoldAddsNothingIff(e1, live, e2, shadow);
  }

  lemma DeliveredOf(parse: Parser, runs: Deliveries, topic: seq<Event>, log: Replay.Log, flushRecords: int,
                    archiver: seq<Consume.Step>, places: seq<Consume.Place>, rows: seq<Archive.Row>)
    requires ReplayOf(parse, runs, topic, log, flushRecords, archiver, places, rows)
    ensures Delivered(parse, runs, topic) && IsReplay(rows, topic)
  {
    hide Delivered, IsReplay;
    BackfillIsReplay(log, flushRecords, archiver, topic, places, rows);
  }

  lemma DistinctIsClear(key: string, lives: seq<seq<Decoded>>)
    requires DistinctReports(AllMessages(lives)) && About(AllMessages(lives), key)
    ensures Clear(key, lives)
  {
    MessagesHold(lives);
    hide AllMessages, DistinctReports, AsNew, Traced;
    forall l, i, m, j | TracedIn(key, lives, l, i) && TracedIn(key, lives, m, j) && (l != m || i != j)
      ensures !Collide(lives[l], i, lives[m], j)
    {
      assert lives[l][i] in AllMessages(lives) && lives[m][j] in AllMessages(lives);
      if Collide(lives[l], i, lives[m], j) { OnePlace(lives, l, i, m, j); }
    }
  }

  /** From the archiver's run to the rows: the live rows and the replayed ones agree, content and all, exactly when, for
      every aircraft, each message the shadow traces was traced live having heard alike by then: as many messages, over
      the same time, from the same stations, the newest carriers of each field agreeing. */
  lemma BackfillAgreesIff(parse: Parser, runs: Deliveries, topic: seq<Event>, log: Replay.Log, flushRecords: int,
                          archiver: seq<Consume.Step>, places: seq<Consume.Place>, rows: seq<Archive.Row>,
                          e1: int, live: seq<Step>, e2: int, shadow: seq<Step>)
    requires ReplayOf(parse, runs, topic, log, flushRecords, archiver, places, rows)
    requires forall key :: BothHear(parse, topic, rows, live, shadow, key)
    ensures Agrees(InsertAll(map[], After(e1, live).traces), After(e2, shadow).traces)
       <==> forall key :: RunRewrites(e1, live, e2, shadow, key)
  {
    hide ReplayOf, Delivered, IsReplay, After, InsertAll, Lives, BothHear, Clear, RunRewrites, Agrees;
    DeliveredOf(parse, runs, topic, log, flushRecords, archiver, places, rows);
    forall key ensures RunClear(e1, live, key) {
      assert BothHear(parse, topic, rows, live, shadow, key);
      ShadowRefolds(parse, runs, topic, rows, key, e1, live, e2, shadow);
      DistinctIsClear(key, Lives(e1, live, key));
    }
    hide RunClear;
    RowsAgreeIff(e1, live, e2, shadow);
  }

  // --- When the replay keeps the promise ---

  /** The shadow heard the aircraft in time order, each live life being an unbroken stretch of one of its. */
  ghost predicate ShadowStretches(e1: int, live: seq<Step>, e2: int, shadow: seq<Step>, key: string) {
    AllInTimeOrder(Lives(e2, shadow, key)) && Stretches(Lives(e1, live, key), Lives(e2, shadow, key))
  }

  /** Where every aircraft was heard in time order, live without a gap, and the shadow let it expire at most where the
      live processor did, the replay adds no row. */
  lemma InOrderBackfillAddsNoRow(parse: Parser, runs: Deliveries, topic: seq<Event>, log: Replay.Log, flushRecords: int,
                                 archiver: seq<Consume.Step>, places: seq<Consume.Place>, rows: seq<Archive.Row>,
                                 e1: int, live: seq<Step>, e2: int, shadow: seq<Step>)
    requires ReplayOf(parse, runs, topic, log, flushRecords, archiver, places, rows)
    requires forall key :: BothHear(parse, topic, rows, live, shadow, key) && ShadowStretches(e1, live, e2, shadow, key)
    ensures InsertAll(InsertAll(map[], After(e1, live).traces), After(e2, shadow).traces)
         == InsertAll(map[], After(e1, live).traces)
  {
    hide ReplayOf, Delivered, IsReplay, After, InsertAll, Lives, BothHear, Refolds, Stretches, AllInTimeOrder, Retraced;
    DeliveredOf(parse, runs, topic, log, flushRecords, archiver, places, rows);
    forall key ensures RunRetraces(e1, live, e2, shadow, key) {
      assert BothHear(parse, topic, rows, live, shadow, key) && ShadowStretches(e1, live, e2, shadow, key);
      ShadowRefolds(parse, runs, topic, rows, key, e1, live, e2, shadow);
      InOrderAddsNothing(key, Lives(e1, live, key), Lives(e2, shadow, key));
    }
    RefoldAddsNothingIff(e1, live, e2, shadow);
  }

  /** The shadow's lives are cut at most where the live ones are: each live life is an unbroken stretch of one. */
  ghost predicate CutsAtMost(e1: int, live: seq<Step>, e2: int, shadow: seq<Step>, key: string) {
    Stretches(Lives(e1, live, key), Lives(e2, shadow, key))
  }

  ghost predicate OneStation(ms: seq<Decoded>, s: string) { forall m :: m in ms ==> m.stationId == s }

  lemma {:induction false} AllOfStation(ms: seq<Decoded>, s: string)
    requires OneStation(ms, s)
    ensures OfStation(ms, s) == ms
  {
    if ms != [] {
      assert ms[|ms| - 1] in ms;
      AllOfStation(ms[..|ms| - 1], s);
      assert ms == ms[..|ms| - 1] + [ms[|ms| - 1]];
    }
  }

  /** An aircraft that one station heard is heard in one order only: the order of time. */
  lemma OneStationInOrder(parse: Parser, topic: seq<Event>, steps: seq<Step>, key: string, s: string)
    requires Hears(parse, topic, steps, key) && OneStation(OfAircraft(Folded(parse, topic), key), s)
    requires Increasing(OfStation(Folded(parse, topic), s))
    ensures OfAircraft(Messages(steps), key) == OfAircraft(OfStation(Folded(parse, topic), s), key)
    ensures InTimeOrder(OfAircraft(Messages(steps), key))
  {
    hide Folded;
    var heard, part := OfAircraft(Messages(steps), key), OfStation(Folded(parse, topic), s);
    HeardIsFolded(parse, topic, steps, key);
    ReorderingMembers(OfAircraft(Folded(parse, topic), key), heard);
    AllOfStation(heard, s);
    AircraftRises(part, key);
    forall i, j | 0 <= i < j < |heard| ensures heard[i].ts <= heard[j].ts { IncreasingRises(heard, i, j); }
  }

  lemma {:induction false} LivesInOrder(lives: seq<seq<Decoded>>)
    requires InTimeOrder(AllMessages(lives))
    ensures AllInTimeOrder(lives)
  {
    if lives != [] {
      var n := |lives| - 1;
      var front, all := AllMessages(lives[..n]), AllMessages(lives);
      forall i, j | 0 <= i < j < |front| ensures front[i].ts <= front[j].ts { assert all[i].ts <= all[j].ts; }
      forall i, j | 0 <= i < j < |lives[n]| ensures lives[n][i].ts <= lives[n][j].ts {
        assert all[|front| + i].ts <= all[|front| + j].ts;
      }
      LivesInOrder(lives[..n]);
      forall l | 0 <= l < |lives| ensures InTimeOrder(lives[l]) {
        if l < n { assert lives[..n][l] == lives[l]; }
      }
    }
  }

  /** An aircraft that one station heard keeps the promise, however the replay's stations interleave, where the shadow
      lets it expire at most where the live processor did; and expired at the same places, it leaves the same traces. */
  lemma OneStationKeepsThePromise(parse: Parser, runs: Deliveries, topic: seq<Event>, rows: seq<Archive.Row>,
                                  key: string, s: string, e1: int, live: seq<Step>, e2: int, shadow: seq<Step>)
    requires Delivered(parse, runs, topic) && IsReplay(rows, topic) && BothHear(parse, topic, rows, live, shadow, key)
    requires OneStation(OfAircraft(Folded(parse, topic), key), s)
    ensures CutsAtMost(e1, live, e2, shadow, key) ==>
              InTable(After(e2, shadow).traces, key, InsertAll(map[], After(e1, live).traces))
    ensures CutAlike(Lives(e1, live, key), Lives(e2, shadow, key)) ==>
              TracesOf(After(e1, live).traces, key) == TracesOf(After(e2, shadow).traces, key)
  {
    hide Delivered, IsReplay, Hears, Folded, OfAircraft, After, Lives, InsertAll, Refolds, Stretches;
    hide InTable, AllInTimeOrder, DistinctReports, InTimeOrder, TracesOf, Retraced;
    SameParts(parse, runs, topic, rows, Replayed(rows), s);
    SameMessages(parse, runs, topic, rows, Replayed(rows));
    SameForAircraft(Folded(parse, topic), Folded(parse, Replayed(rows)), key);
    ReorderingMembers(OfAircraft(Folded(parse, topic), key), OfAircraft(Folded(parse, Replayed(rows)), key));
    OneStationInOrder(parse, topic, live, key, s);
    OneStationInOrder(parse, Replayed(rows), shadow, key, s);
    HeardInLives(e1, live, key);
    HeardInLives(e2, shadow, key);
    if CutsAtMost(e1, live, e2, shadow, key) {
      ShadowRefolds(parse, runs, topic, rows, key, e1, live, e2, shadow);
      LivesInOrder(Lives(e2, shadow, key));
      InOrderAddsNothing(key, Lives(e1, live, key), Lives(e2, shadow, key));
      AircraftAddsNothingIff(e1, live, e2, shadow, key);
    }
    if CutAlike(Lives(e1, live, key), Lives(e2, shadow, key)) {
      SameCuts(Lives(e1, live, key), Lives(e2, shadow, key));
      TracesAreDeterministic(e1, live, e2, shadow, key);
    }
  }

  /** The lives are cut at the same places. */
  predicate CutAlike(a: seq<seq<Decoded>>, b: seq<seq<Decoded>>) {
    |a| == |b| && forall l :: 0 <= l < |a| ==> |a[l]| == |b[l]|
  }

  lemma {:induction false} SameCuts(a: seq<seq<Decoded>>, b: seq<seq<Decoded>>)
    requires CutAlike(a, b) && AllMessages(a) == AllMessages(b)
    ensures a == b
  {
    if a != [] {
      var n := |a| - 1;
      var x, y := AllMessages(a[..n]), AllMessages(b[..n]);
      assert |AllMessages(a)| == |x| + |a[n]| && |AllMessages(b)| == |y| + |b[n]|;
      assert x == AllMessages(a)[..|x|] && y == AllMessages(b)[..|x|];
      assert a[n] == AllMessages(a)[|x|..] && b[n] == AllMessages(b)[|x|..];
      SameCuts(a[..n], b[..n]);
      assert a == a[..n] + [a[n]] && b == b[..n] + [b[n]];
    }
  }

  // --- Several stations in the archive's order ---

  /** The archive's order, as far as it shows in a message. */
  predicate ArchiveBefore(a: Decoded, b: Decoded) {
    a.ts < b.ts || (a.ts == b.ts && StringLess(a.stationId, b.stationId))
  }

  lemma ArchiveBeforeIsStrict()
    ensures Strict(ArchiveBefore)
  {
    StringLessIsStrictTotal();
    hide StringLess;
    forall x, y, z | ArchiveBefore(x, y) && ArchiveBefore(y, z) ensures ArchiveBefore(x, z) {}
    forall x ensures !ArchiveBefore(x, x) {}
  }

  /** An aircraft both processors heard in the archive's order, and let expire at the same places, leaves the same
      traces live and replayed. */
  lemma InOrderRefoldsTheSame(parse: Parser, runs: Deliveries, topic: seq<Event>, rows: seq<Archive.Row>, key: string,
                              e1: int, live: seq<Step>, e2: int, shadow: seq<Step>)
    requires Delivered(parse, runs, topic) && IsReplay(rows, topic) && BothHear(parse, topic, rows, live, shadow, key)
    requires Ascending(ArchiveBefore, OfAircraft(Messages(live), key))
    requires Ascending(ArchiveBefore, OfAircraft(Messages(shadow), key))
    requires CutAlike(Lives(e1, live, key), Lives(e2, shadow, key))
    ensures TracesOf(After(e1, live).traces, key) == TracesOf(After(e2, shadow).traces, key)
  {
    hide Delivered, IsReplay, Hears, Folded, OfAircraft, After, Lives, ArchiveBefore, Ascending, TracesOf;
    SameMessages(parse, runs, topic, rows, Replayed(rows));
    SameForAircraft(Folded(parse, topic), Folded(parse, Replayed(rows)), key);
    HeardIsFolded(parse, topic, live, key);
    HeardIsFolded(parse, Replayed(rows), shadow, key);
    ReorderingMembers(OfAircraft(Messages(live), key), OfAircraft(Messages(shadow), key));
    ArchiveBeforeIsStrict();
    AscendingUnique(ArchiveBefore, OfAircraft(Messages(live), key), OfAircraft(Messages(shadow), key));
    HeardInLives(e1, live, key);
    HeardInLives(e2, shadow, key);
    SameCuts(Lives(e1, live, key), Lives(e2, shadow, key));
    TracesAreDeterministic(e1, live, e2, shadow, key);
  }
}
