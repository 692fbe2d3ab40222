/** What a second fold, whatever it heard in whatever order and wherever it let an aircraft expire, adds to the table of
    the first, and when the rows of the two agree. */
module Refold {
  import opened Wire
  import opened AircraftState
  import opened Convergence
  import opened StateFunction
  import opened Lifecycle
  import opened History
  import opened Traces

  /** The messages of all lives, in the order heard. */
  function AllMessages(lives: seq<seq<Decoded>>): seq<Decoded> {
    if lives == [] then [] else AllMessages(lives[..|lives| - 1]) + lives[|lives| - 1]
  }

  lemma {:induction false} MessagesHold(lives: seq<seq<Decoded>>)
    ensures forall l, k :: 0 <= l < |lives| && 0 <= k < |lives[l]| ==> lives[l][k] in AllMessages(lives)
    ensures forall m :: m in AllMessages(lives) ==>
              exists l, k :: 0 <= l < |lives| && 0 <= k < |lives[l]| && lives[l][k] == m
  {
    if lives != [] {
      var n := |lives| - 1;
      var front := lives[..n];
      MessagesHold(front);
      forall l, k | 0 <= l < |lives| && 0 <= k < |lives[l]| ensures lives[l][k] in AllMessages(lives) {
        if l < n { assert front[l][k] in AllMessages(front); }
      }
      forall m | m in AllMessages(lives)
        ensures exists l, k :: 0 <= l < |lives| && 0 <= k < |lives[l]| && lives[l][k] == m
      {
        if m in AllMessages(front) {
          var l, k :| 0 <= l < |front| && 0 <= k < |front[l]| && front[l][k] == m;
          assert lives[l][k] == m;
        } else {
          var k :| 0 <= k < |lives[n]| && lives[n][k] == m;
        }
      }
    }
  }

  /** A report is in one place of the lives. */
  lemma {:induction false} OnePlace(lives: seq<seq<Decoded>>, l: int, i: int, m: int, j: int)
    requires DistinctReports(AllMessages(lives))
    requires 0 <= l < |lives| && 0 <= i < |lives[l]| && 0 <= m < |lives| && 0 <= j < |lives[m]|
    requires SameReport(lives[l][i], lives[m][j])
    ensures l == m && i == j
  {
    var n := |lives| - 1;
    var front, last, all := lives[..n], lives[n], AllMessages(lives);
    var p := |AllMessages(front)|;
    assert all[..p] == AllMessages(front) && all[p..] == last;
    assert DistinctReports(AllMessages(front)) by {
      forall a, b | 0 <= a < b < p ensures !SameReport(AllMessages(front)[a], AllMessages(front)[b]) {
        assert all[a] == AllMessages(front)[a] && all[b] == AllMessages(front)[b];
      }
    }
    MessagesHold(front);
    hide AllMessages, DistinctReports;
    if l < n && m < n {
      OnePlace(front, l, i, m, j);
    } else if l < n {
      InBothParts(all, p, front[l][i], j);
    } else if m < n {
      InBothParts(all, p, front[m][j], i);
    } else if i != j {
      NotTwice(all, p + i, p + j);
      assert false;
    }
  }

  lemma NotTwice(all: seq<Decoded>, a: int, b: int)
    requires DistinctReports(all) && 0 <= a < |all| && 0 <= b < |all| && a != b
    ensures !SameReport(all[a], all[b])
  {
    if a < b { assert !SameReport(all[a], all[b]); } else { assert !SameReport(all[b], all[a]); }
  }

  lemma InBothParts(all: seq<Decoded>, p: int, m: Decoded, j: int)
    requires DistinctReports(all) && 0 <= p <= |all| && m in all[..p] && 0 <= j < |all| - p
    ensures !SameReport(m, all[p..][j]) && !SameReport(all[p..][j], m)
  {
    var a :| 0 <= a < p && all[..p][a] == m;
    NotTwice(all, a, p + j);
  }

  /** The table after a fold of the lives. */
  function TableOfLives(key: string, lives: seq<seq<Decoded>>): Table { InsertAll(map[], AllLifeTraces(key, lives)) }

  /** A message traced in one of the lives has the key the one at `k` would have. */
  ghost predicate CollidesIn(key: string, lives: seq<seq<Decoded>>, ms: seq<Decoded>, k: int) {
    exists h, i :: TracedIn(key, lives, h, i) && Collide(lives[h], i, ms, k)
  }

  /** So it is of every message the second fold traced. */
  ghost predicate Retraced(key: string, live: seq<seq<Decoded>>, again: seq<seq<Decoded>>) {
    forall l, k :: TracedIn(key, again, l, k) ==> CollidesIn(key, live, again[l], k)
  }

  lemma KeyIsThereIff(key: string, lives: seq<seq<Decoded>>, ms: seq<Decoded>, k: int)
    requires 0 <= k < |ms|
    ensures KeyOf(TraceAt(key, ms, k)) in TableOfLives(key, lives) <==> CollidesIn(key, lives, ms, k)
  {
    hide AllLifeTraces, InsertAll, TraceAt, KeyOf, TracedIn, Collide;
    TracesOfLives(key, lives);
    Inserted(map[], AllLifeTraces(key, lives));
    forall h, i | TracedIn(key, lives, h, i)
      ensures KeyOf(TraceAt(key, lives[h], i)) == KeyOf(TraceAt(key, ms, k)) <==> Collide(lives[h], i, ms, k)
    {
      SameKeyIff(key, lives[h], i, ms, k);
    }
    if h, i :| TracedIn(key, lives, h, i) && Collide(lives[h], i, ms, k) {
      assert TraceAt(key, lives[h], i) in AllLifeTraces(key, lives);
    }
  }

  /** Every key of the second fold is in the table exactly when each message it traced collides with one the first
      traced. */
  lemma LivesAddNothingIff(key: string, live: seq<seq<Decoded>>, again: seq<seq<Decoded>>)
    ensures InsertAll(TableOfLives(key, live), AllLifeTraces(key, again)) == TableOfLives(key, live)
       <==> Retraced(key, live, again)
    ensures (forall t :: t in AllLifeTraces(key, again) ==> KeyOf(t) in TableOfLives(key, live))
       <==> Retraced(key, live, again)
  {
    hide AllLifeTraces, InsertAll, TraceAt, KeyOf, TracedIn, TableOfLives, CollidesIn;
    ReinsertIsNoOpIff(TableOfLives(key, live), AllLifeTraces(key, again));
    TracesOfLives(key, again);
    forall l, k | TracedIn(key, again, l, k)
      ensures KeyOf(TraceAt(key, again[l], k)) in TableOfLives(key, live) <==> CollidesIn(key, live, again[l], k)
    {
      KeyIsThereIff(key, live, again[l], k);
    }
    if forall t :: t in AllLifeTraces(key, again) ==> KeyOf(t) in TableOfLives(key, live) {
      forall l, k | TracedIn(key, again, l, k) ensures CollidesIn(key, live, again[l], k) {
        assert TraceAt(key, again[l], k) in AllLifeTraces(key, again);
      }
    }
  }

  // --- Whole runs ---

  ghost predicate RunRetraces(e1: int, s1: seq<Step>, e2: int, s2: seq<Step>, key: string) {
    Retraced(key, Lives(e1, s1, key), Lives(e2, s2, key))
  }

  /** Every key of this aircraft's traces is in the table. */
  ghost predicate InTable(traces: seq<Trace>, key: string, table: Table) {
    forall t :: t in traces && t.snap.icao == key ==> KeyOf(t) in table
  }

  lemma AllInTable(traces: seq<Trace>, table: Table)
    ensures (forall key :: InTable(traces, key, table)) <==> forall t :: t in traces ==> KeyOf(t) in table
  {
    if forall key :: InTable(traces, key, table) {
      forall t | t in traces ensures KeyOf(t) in table { assert InTable(traces, t.snap.icao, table); }
    }
  }

  /** The table of a run holds a key of an aircraft exactly when the table of its lives does. */
  lemma RunTable(expireMs: int, steps: seq<Step>, key: string)
    ensures var table := InsertAll(map[], After(expireMs, steps).traces);
            forall k: TraceKey :: k.icao == key ==>
              (k in table <==> k in TableOfLives(key, Lives(expireMs, steps, key)))
  {
    hide After, Lives, AllLifeTraces, InsertAll, TracesOf;
    var traces, lives := After(expireMs, steps).traces, Lives(expireMs, steps, key);
    RunFollowsLives(expireMs, steps, key);
    TracesOfHolds(traces, key);
    Inserted(map[], traces);
    Inserted(map[], AllLifeTraces(key, lives));
    assert TracesOf(traces, key) == AllLifeTraces(key, lives);
  }

  lemma AircraftAddsNothingIff(e1: int, s1: seq<Step>, e2: int, s2: seq<Step>, key: string)
    ensures RunRetraces(e1, s1, e2, s2, key)
       <==> InTable(After(e2, s2).traces, key, InsertAll(map[], After(e1, s1).traces))
  {
    hide After, Lives, AllLifeTraces, InsertAll, TracesOf, Retraced, TableOfLives;
    RunTable(e1, s1, key);
    RunFollowsLives(e2, s2, key);
    TracesOfHolds(After(e2, s2).traces, key);
    LivesAddNothingIff(key, Lives(e1, s1, key), Lives(e2, s2, key));
    assert TracesOf(After(e2, s2).traces, key) == AllLifeTraces(key, Lives(e2, s2, key));
  }

  /** Of any two runs, writing the traces of the second adds no row to those of the first exactly when every message
      traced in a life of the second is one station's, at one instant, with one traced in a life of the first, the
      newest time heard by then being the same. */
  lemma RefoldAddsNothingIff(e1: int, s1: seq<Step>, e2: int, s2: seq<Step>)
    ensures InsertAll(InsertAll(map[], After(e1, s1).traces), After(e2, s2).traces)
         == InsertAll(map[], After(e1, s1).traces)
       <==> forall key :: RunRetraces(e1, s1, e2, s2, key)
  {
    hide After, InsertAll, RunRetraces, InTable;
    var table, second := InsertAll(map[], After(e1, s1).traces), After(e2, s2).traces;
    ReinsertIsNoOpIff(table, second);
    forall key ensures RunRetraces(e1, s1, e2, s2, key) <==> InTable(second, key, table) {
      AircraftAddsNothingIff(e1, s1, e2, s2, key);
    }
    AllInTable(second, table);
  }

  // --- When the rows agree ---

  /** Every message the second fold traced was traced by the first, at the same moment. */
  ghost predicate Rewritten(key: string, live: seq<seq<Decoded>>, again: seq<seq<Decoded>>) {
    forall l, k :: TracedIn(key, again, l, k) ==>
      exists h, i :: TracedIn(key, live, h, i) && SameMoment(live[h], i, again[l], k)
  }

  lemma SameTracesIff(key: string, live: seq<seq<Decoded>>, again: seq<seq<Decoded>>)
    ensures (forall t :: t in AllLifeTraces(key, again) ==> t in AllLifeTraces(key, live))
       <==> Rewritten(key, live, again)
  {
    hide AllLifeTraces, TraceAt, TracedIn, SameMoment;
    TracesOfLives(key, live);
    TracesOfLives(key, again);
    forall l, k, h, i | TracedIn(key, again, l, k) && TracedIn(key, live, h, i)
      ensures TraceAt(key, live[h], i) == TraceAt(key, again[l], k) <==> SameMoment(live[h], i, again[l], k)
    {
      SameTraceIff(key, live[h], i, again[l], k);
    }
    if forall t :: t in AllLifeTraces(key, again) ==> t in AllLifeTraces(key, live) {
      forall l, k | TracedIn(key, again, l, k)
        ensures exists h, i :: TracedIn(key, live, h, i) && SameMoment(live[h], i, again[l], k)
      {
        assert TraceAt(key, again[l], k) in AllLifeTraces(key, live);
      }
    }
    if Rewritten(key, live, again) {
      forall t | t in AllLifeTraces(key, again) ensures t in AllLifeTraces(key, live) {
        var l, k :| TracedIn(key, again, l, k) && t == TraceAt(key, again[l], k);
        var h, i :| TracedIn(key, live, h, i) && SameMoment(live[h], i, again[l], k);
        assert TraceAt(key, live[h], i) in AllLifeTraces(key, live);
      }
    }
  }

  ghost predicate RunRewrites(e1: int, s1: seq<Step>, e2: int, s2: seq<Step>, key: string) {
    Rewritten(key, Lives(e1, s1, key), Lives(e2, s2, key))
  }

  /** Every trace is in the table, content and all. */
  ghost predicate Agrees(table: Table, traces: seq<Trace>) {
    forall t :: t in traces ==> KeyOf(t) in table && table[KeyOf(t)] == t
  }

  lemma AgreesIff(first: seq<Trace>, second: seq<Trace>)
    requires DistinctKeys(first)
    ensures Agrees(InsertAll(map[], first), second) <==> forall t :: t in second ==> t in first
  {
    TableHoldsFirst(first);
    DistinctKeysIdentify(first);
    hide DistinctKeys, InsertAll;
    forall t | t in second
      ensures KeyOf(t) in InsertAll(map[], first) && InsertAll(map[], first)[KeyOf(t)] == t <==> t in first
    {
      if KeyOf(t) in InsertAll(map[], first) {
        var i :| FirstAt(first, KeyOf(t), i) && InsertAll(map[], first)[KeyOf(t)] == first[i];
        assert first[i] in first;
      }
    }
  }

  lemma AircraftAgreesIff(e1: int, s1: seq<Step>, e2: int, s2: seq<Step>, key: string)
    ensures RunRewrites(e1, s1, e2, s2, key)
       <==> forall t :: t in After(e2, s2).traces && t.snap.icao == key ==> t in After(e1, s1).traces
  {
    hide After, Lives, AllLifeTraces, TracesOf, Rewritten;
    RunFollowsLives(e1, s1, key);
    RunFollowsLives(e2, s2, key);
    TracesOfHolds(After(e1, s1).traces, key);
    TracesOfHolds(After(e2, s2).traces, key);
    SameTracesIff(key, Lives(e1, s1, key), Lives(e2, s2, key));
    assert TracesOf(After(e1, s1).traces, key) == AllLifeTraces(key, Lives(e1, s1, key));
    assert TracesOf(After(e2, s2).traces, key) == AllLifeTraces(key, Lives(e2, s2, key));
  }

  /** Where the first run's traces have a row each, the table agrees with every trace of a second run, content and all,
      exactly when each message the second traced was traced by the first at the same moment. */
  lemma RowsAgreeIff(e1: int, s1: seq<Step>, e2: int, s2: seq<Step>)
    requires forall key :: RunClear(e1, s1, key)
    ensures Agrees(InsertAll(map[], After(e1, s1).traces), After(e2, s2).traces)
       <==> forall key :: RunRewrites(e1, s1, e2, s2, key)
  {
    hide After, InsertAll, RunRewrites, RunClear, Agrees, DistinctKeys;
    var first, second := After(e1, s1).traces, After(e2, s2).traces;
    DistinctKeysIff(e1, s1);
    AgreesIff(first, second);
    forall key
      ensures RunRewrites(e1, s1, e2, s2, key) <==> forall t :: t in second && t.snap.icao == key ==> t in first
    {
      AircraftAgreesIff(e1, s1, e2, s2, key);
    }
    if forall key :: RunRewrites(e1, s1, e2, s2, key) {
      forall t | t in second ensures t in first { assert RunRewrites(e1, s1, e2, s2, t.snap.icao); }
    }
  }

  // --- The same reports again ---

  ghost predicate About(ms: seq<Decoded>, key: string) { forall m :: m in ms ==> m.line.icao == Some(key) }

  ghost predicate InTimeOrder(ms: seq<Decoded>) { forall i, j :: 0 <= i < j < |ms| ==> ms[i].ts <= ms[j].ts }

  /** The first fold heard each report once; the second heard nothing else. */
  ghost predicate Refolds(key: string, live: seq<seq<Decoded>>, again: seq<seq<Decoded>>) {
    && About(AllMessages(live), key) && DistinctReports(AllMessages(live))
    && (forall m :: m in AllMessages(again) ==> m in AllMessages(live))
  }

  /** Each of its lives heard its messages in time order. */
  ghost predicate AllInTimeOrder(lives: seq<seq<Decoded>>) { forall l :: 0 <= l < |lives| ==> InTimeOrder(lives[l]) }

  /** `m` was traced in one of the lives, when the newest time heard was that at `k` of `ms`. */
  ghost predicate TracedAlike(key: string, lives: seq<seq<Decoded>>, ms: seq<Decoded>, k: int)
    requires 0 <= k < |ms|
  {
    exists h, i ::
      TracedIn(key, lives, h, i) && lives[h][i] == ms[k] && AsNew(lives[h], i, ms, k) && AsNew(ms, k, lives[h], i)
  }

  ghost predicate RetracedAlike(key: string, live: seq<seq<Decoded>>, again: seq<seq<Decoded>>) {
    forall l, k :: TracedIn(key, again, l, k) ==> TracedAlike(key, live, again[l], k)
  }

  /** `m` changed the picture in one of the lives, having arrived there as the newest message so far. */
  ghost predicate TracedAsNewest(key: string, lives: seq<seq<Decoded>>, m: Decoded) {
    exists l, i :: TracedIn(key, lives, l, i) && lives[l][i] == m && Newest(lives[l], i)
  }

  ghost predicate RefoldsInTime(key: string, live: seq<seq<Decoded>>, again: seq<seq<Decoded>>) {
    forall l, k :: TracedIn(key, again, l, k) ==> TracedAsNewest(key, live, again[l][k])
  }

  /** Of the same reports, those that collide are the same. */
  lemma CollideIsSame(key: string, live: seq<seq<Decoded>>, again: seq<seq<Decoded>>, l: int, k: int, h: int, i: int)
    requires Refolds(key, live, again)
    requires 0 <= l < |again| && 0 <= k < |again[l]| && 0 <= h < |live| && 0 <= i < |live[h]|
    ensures live[h][i].stationId == again[l][k].stationId && live[h][i].ts == again[l][k].ts ==>
              live[h][i] == again[l][k]
  {
    MessagesHold(live);
    MessagesHold(again);
    var m := again[l][k];
    assert m in AllMessages(again);
    assert m in AllMessages(live) && live[h][i] in AllMessages(live);
    var h', i' :| 0 <= h' < |live| && 0 <= i' < |live[h']| && live[h'][i'] == m;
    hide AllMessages, DistinctReports;
    if live[h][i].stationId == m.stationId && live[h][i].ts == m.ts { OnePlace(live, h, i, h', i'); }
  }

  /** Then every message traced again was traced, with the same newest time heard by then. */
  lemma RetracedAlikeIff(key: string, live: seq<seq<Decoded>>, again: seq<seq<Decoded>>)
    requires Refolds(key, live, again)
    ensures Retraced(key, live, again) <==> RetracedAlike(key, live, again)
  {
    hide TracedIn, CollidesIn, TracedAlike, Refolds;
    forall l, k | TracedIn(key, again, l, k)
      ensures CollidesIn(key, live, again[l], k) <==> TracedAlike(key, live, again[l], k)
    {
      CollidesIsAlike(key, live, again, l, k);
    }
  }

  lemma CollidesIsAlike(key: string, live: seq<seq<Decoded>>, again: seq<seq<Decoded>>, l: int, k: int)
    requires Refolds(key, live, again) && 0 <= l < |again| && 0 <= k < |again[l]|
    ensures CollidesIn(key, live, again[l], k) <==> TracedAlike(key, live, again[l], k)
  {
    hide TracedIn, AsNew, Refolds;
    forall h, i | TracedIn(key, live, h, i)
      ensures Collide(live[h], i, again[l], k)
         <==> live[h][i] == again[l][k] && AsNew(live[h], i, again[l], k) && AsNew(again[l], k, live[h], i)
    {
      CollideIsSame(key, live, again, l, k, h, i);
    }
    hide Collide;
  }

  /** To a fold in time order, that is the newest of its life so far. */
  lemma NewestIff(ms: seq<Decoded>, i: int, ns: seq<Decoded>, k: int)
    requires 0 <= i < |ms| && 0 <= k < |ns| && ms[i] == ns[k] && InTimeOrder(ns)
    ensures AsNew(ms, i, ns, k) && AsNew(ns, k, ms, i) <==> Newest(ms, i)
  {
    assert forall g :: 0 <= g <= k ==> ns[g].ts <= ns[k].ts;
    if Newest(ms, i) {
      forall g | 0 <= g <= i ensures Reached(ns, k, ms[g].ts) { assert ms[g].ts <= ns[k].ts; }
      forall g | 0 <= g <= k ensures Reached(ms, i, ns[g].ts) { assert ns[g].ts <= ms[i].ts; }
    }
    if AsNew(ms, i, ns, k) {
      forall g | 0 <= g < i ensures ms[g].ts <= ms[i].ts {
        assert Reached(ns, k, ms[g].ts);
        var h :| 0 <= h <= k && ms[g].ts <= ns[h].ts;
      }
    }
  }

  /** Folding the messages again in time order adds no row exactly when every message the second fold traces was traced
      by the first, and arrived there as the newest of its life so far. */
  lemma InTimeRefoldIff(key: string, live: seq<seq<Decoded>>, again: seq<seq<Decoded>>)
    requires Refolds(key, live, again) && AllInTimeOrder(again)
    ensures Retraced(key, live, again) <==> RefoldsInTime(key, live, again)
  {
    hide TracedIn, TracedAlike, TracedAsNewest, Refolds, Retraced, InTimeOrder;
    RetracedAlikeIff(key, live, again);
    forall l, k | TracedIn(key, again, l, k)
      ensures TracedAlike(key, live, again[l], k) <==> TracedAsNewest(key, live, again[l][k])
    {
      AlikeIsNewest(key, live, again[l], k);
    }
  }

  lemma AlikeIsNewest(key: string, lives: seq<seq<Decoded>>, ms: seq<Decoded>, k: int)
    requires 0 <= k < |ms| && InTimeOrder(ms)
    ensures TracedAlike(key, lives, ms, k) <==> TracedAsNewest(key, lives, ms[k])
  {
    hide TracedIn, AsNew, Newest, InTimeOrder;
    if h, i :| TracedIn(key, lives, h, i) && lives[h][i] == ms[k] &&
               AsNew(lives[h], i, ms, k) && AsNew(ms, k, lives[h], i) {
      NewestIff(lives[h], i, ms, k);
    }
    if h, i :| TracedIn(key, lives, h, i) && lives[h][i] == ms[k] && Newest(lives[h], i) {
      NewestIff(lives[h], i, ms, k);
    }
  }

  // --- When it cannot ---

  /** Each live life is an unbroken stretch of a life of the second fold: it was heard in event-time order, without a
      gap, and the second fold expired the aircraft at most where the first did. */
  ghost predicate Stretches(live: seq<seq<Decoded>>, again: seq<seq<Decoded>>) {
    forall h :: 0 <= h < |live| && live[h] != [] ==>
      exists l, p :: 0 <= l < |again| && IsStretch(live[h], again[l], p)
  }

  predicate IsStretch(part: seq<Decoded>, whole: seq<Decoded>, p: int) {
    0 <= p && p + |part| <= |whole| && whole[p..p + |part|] == part
  }

  /** `b`, which heard only the later of what `a` heard, knows no other values, and no newer ones. */
  ghost predicate KnowsLess(b: State, a: State) {
    forall i :: 0 <= i < FIELDS ==>
      0 <= b.fieldTs[i] <= a.fieldTs[i] && (b.snap.fields[i] == a.snap.fields[i] || b.snap.fields[i] == None)
  }

  ghost predicate StampsUpto(a: State, ts: Instant) {
    forall i :: 0 <= i < FIELDS ==> a.fieldTs[i] == 0 || 0 <= a.fieldTs[i] <= Millis(ts)
  }

  lemma {:induction false} StampsAreTimes(key: string, ms: seq<Decoded>, ts: Instant)
    requires forall m :: m in ms ==> m.ts <= ts
    ensures StampsUpto(Fold(key, ms), ts)
  {
    if ms != [] {
      assert ms[|ms| - 1] in ms;
      StampsAreTimes(key, ms[..|ms| - 1], ts);
    }
  }

  lemma MergeKnowsLess(b: State, a: State, m: Decoded)
    requires KnowsLess(b, a) && StampsUpto(a, m.ts)
    ensures KnowsLess(Merge(b, m), Merge(a, m))
    ensures Changes(a, m) ==> Changes(b, m)
  {
    forall i | 0 <= i < FIELDS ensures Accepts(a, m, i) <==> Accepts(b, m, i) {}
    if Changes(a, m) {
      var i :| 0 <= i < FIELDS && Merge(a, m).snap.fields[i] != a.snap.fields[i];
      assert Merge(b, m).snap.fields[i] != b.snap.fields[i];
    }
  }

  lemma {:induction false} NoStampBeforeEpoch(key: string, ms: seq<Decoded>)
    ensures KnowsLess(Create(key), Fold(key, ms))
  {
    if ms != [] { NoStampBeforeEpoch(key, ms[..|ms| - 1]); }
  }

  lemma FoldSnoc(key: string, ms: seq<Decoded>, m: Decoded)
    ensures Fold(key, ms + [m]) == Merge(Fold(key, ms), m)
  {
    hide Merge;
    assert (ms + [m])[..|ms|] == ms;
  }

  lemma {:induction false} TailKnowsLess(key: string, ms: seq<Decoded>, p: int, k: int)
    requires InTimeOrder(ms) && 0 <= p <= k <= |ms|
    ensures KnowsLess(Fold(key, ms[p..k]), Fold(key, ms[..k]))
    decreases k
  {
    hide Merge, KnowsLess, StampsUpto, Changes;
    if k == p {
      assert ms[p..k] == [] && Fold(key, []) == Create(key);
      NoStampBeforeEpoch(key, ms[..k]);
    } else {
      hide Fold;
      TailKnowsLess(key, ms, p, k - 1);
      EarlierStamps(key, ms, k - 1);
      MergeKnowsLess(Fold(key, ms[p..k - 1]), Fold(key, ms[..k - 1]), ms[k - 1]);
      FoldSnoc(key, ms[p..k - 1], ms[k - 1]);
      FoldSnoc(key, ms[..k - 1], ms[k - 1]);
      assert ms[p..k] == ms[p..k - 1] + [ms[k - 1]] && ms[..k] == ms[..k - 1] + [ms[k - 1]];
    }
  }

  lemma EarlierStamps(key: string, ms: seq<Decoded>, k: int)
    requires InTimeOrder(ms) && 0 <= k < |ms|
    ensures StampsUpto(Fold(key, ms[..k]), ms[k].ts)
  {
    hide Fold, StampsUpto;
    forall m | m in ms[..k] ensures m.ts <= ms[k].ts {
      var j :| 0 <= j < k && ms[..k][j] == m;
    }
    StampsAreTimes(key, ms[..k], ms[k].ts);
  }

  /** What is news to a longer life in time order is news to any stretch of it. */
  lemma StretchTraces(key: string, part: seq<Decoded>, whole: seq<Decoded>, p: int, k: int)
    requires InTimeOrder(whole) && IsStretch(part, whole, p) && 0 <= k < |part| && Traced(key, whole, p + k)
    ensures Traced(key, part, k) && Newest(part, k)
  {
    hide Merge, Changes, Fold, KnowsLess, StampsUpto;
    TailKnowsLess(key, whole, p, p + k);
    EarlierStamps(key, whole, p + k);
    assert whole[p..p + k] == part[..k] && whole[p + k] == part[k] by { assert whole[p..p + |part|] == part; }
    MergeKnowsLess(Fold(key, part[..k]), Fold(key, whole[..p + k]), part[k]);
    forall j | 0 <= j < k ensures part[j].ts <= part[k].ts {
      assert part[j] == whole[p..p + |part|][j] == whole[p + j];
    }
  }

  /** Heard in order and without a gap, and expired the second time at most where it was the first, an aircraft's
      messages can be folded again without adding a row. */
  lemma InOrderAddsNothing(key: string, live: seq<seq<Decoded>>, again: seq<seq<Decoded>>)
    requires Refolds(key, live, again) && AllInTimeOrder(again)
    requires DistinctReports(AllMessages(again)) && Stretches(live, again)
    ensures RefoldsInTime(key, live, again) && Retraced(key, live, again)
    ensures InsertAll(TableOfLives(key, live), AllLifeTraces(key, again)) == TableOfLives(key, live)
  {
    hide Traced, AllLifeTraces, TableOfLives;
    forall l, k | TracedIn(key, again, l, k) ensures TracedAsNewest(key, live, again[l][k]) {
      InOrderTraced(key, live, again, l, k);
    }
    InTimeRefoldIff(key, live, again);
    LivesAddNothingIff(key, live, again);
  }

  lemma InOrderTraced(key: string, live: seq<seq<Decoded>>, again: seq<seq<Decoded>>, l: int, k: int)
    requires Refolds(key, live, again) && AllInTimeOrder(again)
    requires DistinctReports(AllMessages(again)) && Stretches(live, again)
    requires TracedIn(key, again, l, k) && 0 <= k < |again[l]|
    ensures TracedAsNewest(key, live, again[l][k])
  {
    hide Traced, DistinctReports, InTimeOrder, Newest, IsStretch, AllMessages;
    var h, i := WhereHeard(key, live, again, l, k);
    var l', p :| 0 <= l' < |again| && IsStretch(live[h], again[l'], p);
    InStretch(live[h], again[l'], p, i);
    OnePlace(again, l, k, l', p + i);
    StretchTraces(key, live[h], again[l], p, i);
    assert TracedIn(key, live, h, i);
  }

  lemma WhereHeard(key: string, live: seq<seq<Decoded>>, again: seq<seq<Decoded>>, l: int, k: int)
    returns (h: int, i: int)
    requires Refolds(key, live, again) && 0 <= l < |again| && 0 <= k < |again[l]|
    ensures 0 <= h < |live| && 0 <= i < |live[h]| && live[h][i] == again[l][k]
  {
    MessagesHold(live);
    MessagesHold(again);
    assert again[l][k] in AllMessages(again);
    assert again[l][k] in AllMessages(live);
    hide AllMessages, DistinctReports, InTimeOrder;
    h, i :| 0 <= h < |live| && 0 <= i < |live[h]| && live[h][i] == again[l][k];
  }

  lemma InStretch(part: seq<Decoded>, whole: seq<Decoded>, p: int, i: int)
    requires IsStretch(part, whole, p) && 0 <= i < |part|
    ensures 0 <= p + i < |whole| && whole[p + i] == part[i]
  {
    assert whole[p..p + |part|][i] == whole[p + i];
  }
}
