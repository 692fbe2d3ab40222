/** Which messages leave a trace, under which keys, and how many rows a run's traces make in the table. */
module Traces {
  import opened Wire
  import opened AircraftState
  import opened Convergence
  import opened StateFunction
  import opened Lifecycle
  import opened History

  /** The message at `k` changed the picture. */
  ghost predicate Traced(key: string, ms: seq<Decoded>, k: int): (r: bool)
    ensures r ==> 0 <= k < |ms|
  {
    0 <= k < |ms| && Changes(Fold(key, ms[..k]), ms[k])
  }

  function TraceAt(key: string, ms: seq<Decoded>, k: int): Trace
    requires 0 <= k < |ms|
  {
    Trace(Fold(key, ms[..k + 1]).snap, ms[k].stationId, ms[k].ts)
  }

  lemma TracedBefore(key: string, ms: seq<Decoded>, n: int, k: int)
    requires 0 <= k < n <= |ms|
    ensures (Traced(key, ms[..n], k) <==> Traced(key, ms, k)) && TraceAt(key, ms[..n], k) == TraceAt(key, ms, k)
  {
    hide Fold, Changes;
    assert ms[..n][..k] == ms[..k] && ms[..n][..k + 1] == ms[..k + 1];
  }

  /** What the last message adds to the traces. */
  lemma LastTraced(key: string, ms: seq<Decoded>)
    requires ms != []
    ensures var n := |ms| - 1;
            LifeTraces(key, ms) == LifeTraces(key, ms[..n]) + (if Traced(key, ms, n) then [TraceAt(key, ms, n)] else [])
  {
    hide Fold, Changes;
    assert ms[..|ms| - 1 + 1] == ms;
  }

  lemma {:induction false} TracesOfLife(key: string, ms: seq<Decoded>)
    ensures forall k :: Traced(key, ms, k) ==> TraceAt(key, ms, k) in LifeTraces(key, ms)
    ensures forall t :: t in LifeTraces(key, ms) ==> exists k :: Traced(key, ms, k) && t == TraceAt(key, ms, k)
  {
    hide Fold, Changes;
    if ms != [] {
      var n := |ms| - 1;
      var front := ms[..n];
      TracesOfLife(key, front);
      LastTraced(key, ms);
      forall k | 0 <= k < n
        ensures (Traced(key, ms, k) <==> Traced(key, front, k)) && TraceAt(key, ms, k) == TraceAt(key, front, k)
      {
        TracedBefore(key, ms, n, k);
      }
      hide LifeTraces, TraceAt;
    }
  }

  /** Nothing newer was heard before the message at `k`. */
  ghost predicate Newest(ms: seq<Decoded>, k: int)
    requires 0 <= k < |ms|
  {
    forall j :: 0 <= j < k ==> ms[j].ts <= ms[k].ts
  }

  /** The time of the newest message up to `k`. */
  ghost predicate NewestTime(ms: seq<Decoded>, k: int, ts: Instant)
    requires 0 <= k < |ms|
  {
    (exists j :: 0 <= j <= k && ms[j].ts == ts) && forall j :: 0 <= j <= k ==> ms[j].ts <= ts
  }

  lemma TraceHas(key: string, ms: seq<Decoded>, k: int)
    requires 0 <= k < |ms|
    ensures var s := TraceAt(key, ms, k).snap;
            s.icao == key && s.messages == k + 1 && s.lastSeen.Some? && NewestTime(ms, k, s.lastSeen.value)
  {
    var upto := ms[..k + 1];
    FoldEnvelope(key, upto);
    hide Fold;
    var last := TraceAt(key, ms, k).snap.lastSeen.value;
    var m :| m in upto && m.ts == last;
    var j :| 0 <= j < |upto| && upto[j] == m;
    assert ms[j].ts == last;
    forall i | 0 <= i <= k ensures ms[i].ts <= last { assert upto[i] in upto; }
  }

  lemma LastSeenIsOwnIff(key: string, ms: seq<Decoded>, k: int)
    requires 0 <= k < |ms|
    ensures TraceAt(key, ms, k).snap.lastSeen == Some(ms[k].ts) <==> Newest(ms, k)
  {
    TraceHas(key, ms, k);
    hide Fold;
  }

  /** A trace's key is a function of its event alone exactly when each message traced arrived as the newest so far:
      only then is `last_seen` the event's own time. */
  lemma OwnTimeIff(key: string, ms: seq<Decoded>)
    ensures (forall t :: t in LifeTraces(key, ms) ==> t.snap.lastSeen == Some(t.eventTs))
       <==> (forall k :: Traced(key, ms, k) ==> Newest(ms, k))
  {
    TracesOfLife(key, ms);
    hide LifeTraces, Changes, Fold;
    forall k | 0 <= k < |ms| ensures TraceAt(key, ms, k).snap.lastSeen == Some(ms[k].ts) <==> Newest(ms, k) {
      LastSeenIsOwnIff(key, ms, k);
    }
    if forall t :: t in LifeTraces(key, ms) ==> t.snap.lastSeen == Some(t.eventTs) {
      forall k | Traced(key, ms, k) ensures Newest(ms, k) { assert TraceAt(key, ms, k) in LifeTraces(key, ms); }
    }
  }

  // --- The traces of several lives ---

  /** The message at `k` of life `l` changed the picture. */
  ghost predicate TracedIn(key: string, lives: seq<seq<Decoded>>, l: int, k: int): (r: bool)
    ensures r ==> 0 <= l < |lives| && 0 <= k < |lives[l]|
  {
    0 <= l < |lives| && Traced(key, lives[l], k)
  }

  lemma {:induction false} TracesOfLives(key: string, lives: seq<seq<Decoded>>)
    ensures forall l, k :: TracedIn(key, lives, l, k) ==> TraceAt(key, lives[l], k) in AllLifeTraces(key, lives)
    ensures forall t :: t in AllLifeTraces(key, lives) ==>
              exists l, k :: TracedIn(key, lives, l, k) && t == TraceAt(key, lives[l], k)
  {
    hide Traced, TraceAt, LifeTraces;
    if lives != [] {
      var n := |lives| - 1;
      var front := lives[..n];
      TracesOfLives(key, front);
      TracesOfLife(key, lives[n]);
      forall l, k | TracedIn(key, lives, l, k) ensures TraceAt(key, lives[l], k) in AllLifeTraces(key, lives) {
        if l < n { assert TracedIn(key, front, l, k); }
      }
      forall t | t in AllLifeTraces(key, lives)
        ensures exists l, k :: TracedIn(key, lives, l, k) && t == TraceAt(key, lives[l], k)
      {
        if t in AllLifeTraces(key, front) {
          var l, k :| TracedIn(key, front, l, k) && t == TraceAt(key, front[l], k);
          assert TracedIn(key, lives, l, k);
        } else {
          var k :| Traced(key, lives[n], k) && t == TraceAt(key, lives[n], k);
          assert TracedIn(key, lives, n, k);
        }
      }
    }
  }

  // --- Rows lost to the key ---

  ghost predicate Reached(ms: seq<Decoded>, k: int, ts: Instant)
    requires 0 <= k < |ms|
  {
    exists h :: 0 <= h <= k && ts <= ms[h].ts
  }

  /** Whatever had been heard by `i` of the one life, something as new had by `j` of the other. */
  ghost predicate AsNew(ms: seq<Decoded>, i: int, ns: seq<Decoded>, j: int)
    requires 0 <= i < |ms| && 0 <= j < |ns|
  {
    forall g :: 0 <= g <= i ==> Reached(ns, j, ms[g].ts)
  }

  /** The two messages, of one aircraft, are one station's, at one instant, with the same newest time heard by then. */
  ghost predicate Collide(ms: seq<Decoded>, i: int, ns: seq<Decoded>, j: int) {
    && 0 <= i < |ms| && 0 <= j < |ns|
    && ms[i].stationId == ns[j].stationId && ms[i].ts == ns[j].ts && AsNew(ms, i, ns, j) && AsNew(ns, j, ms, i)
  }

  lemma AsNewTimes(ms: seq<Decoded>, i: int, ns: seq<Decoded>, j: int, s: Instant, t: Instant)
    requires 0 <= i < |ms| && 0 <= j < |ns| && NewestTime(ms, i, s) && NewestTime(ns, j, t)
    ensures AsNew(ms, i, ns, j) <==> s <= t
  {
    var g :| 0 <= g <= i && ms[g].ts == s;
    var h :| 0 <= h <= j && ns[h].ts == t;
    if s <= t {
      forall g | 0 <= g <= i ensures Reached(ns, j, ms[g].ts) { assert ms[g].ts <= ns[h].ts; }
    }
  }

  /** Two traces share their key exactly when their messages are such a pair. */
  lemma SameKeyIff(key: string, ms: seq<Decoded>, i: int, ns: seq<Decoded>, j: int)
    requires 0 <= i < |ms| && 0 <= j < |ns|
    ensures KeyOf(TraceAt(key, ms, i)) == KeyOf(TraceAt(key, ns, j)) <==> Collide(ms, i, ns, j)
  {
    TraceHas(key, ms, i);
    TraceHas(key, ns, j);
    hide Fold, NewestTime, AsNew;
    var s, t := TraceAt(key, ms, i).snap.lastSeen.value, TraceAt(key, ns, j).snap.lastSeen.value;
    AsNewTimes(ms, i, ns, j, s, t);
    AsNewTimes(ns, j, ms, i, t, s);
  }

  /** The two messages are one report, and what had been heard by then was heard alike. */
  ghost predicate SameMoment(ms: seq<Decoded>, i: int, ns: seq<Decoded>, j: int) {
    && 0 <= i < |ms| && 0 <= j < |ns|
    && ms[i].stationId == ns[j].stationId && ms[i].ts == ns[j].ts && HeardAlike(ms[..i + 1], ns[..j + 1])
  }

  /** Two traces are the same, content and all, exactly when their messages are such a pair. */
  lemma SameTraceIff(key: string, ms: seq<Decoded>, i: int, ns: seq<Decoded>, j: int)
    requires 0 <= i < |ms| && 0 <= j < |ns|
    ensures TraceAt(key, ms, i) == TraceAt(key, ns, j) <==> SameMoment(ms, i, ns, j)
  {
    hide Fold, HeardAlike;
    SameSnapshotIff(key, ms[..i + 1], ns[..j + 1]);
  }

  ghost predicate Apart(a: seq<Trace>, b: seq<Trace>) {
    forall x, y :: x in a && y in b ==> KeyOf(x) != KeyOf(y)
  }

  lemma DistinctConcat(a: seq<Trace>, b: seq<Trace>)
    ensures DistinctKeys(a + b) <==> DistinctKeys(a) && DistinctKeys(b) && Apart(a, b)
  {
    hide KeyOf;
    var c := a + b;
    if DistinctKeys(c) {
      forall i, j | 0 <= i < j < |a| ensures KeyOf(a[i]) != KeyOf(a[j]) { assert c[i] == a[i] && c[j] == a[j]; }
      forall i, j | 0 <= i < j < |b| ensures KeyOf(b[i]) != KeyOf(b[j]) {
        assert c[|a| + i] == b[i] && c[|a| + j] == b[j];
      }
      forall x, y | x in a && y in b ensures KeyOf(x) != KeyOf(y) {
        var i :| 0 <= i < |a| && a[i] == x;
        var j :| 0 <= j < |b| && b[j] == y;
        assert c[i] == x && c[|a| + j] == y;
      }
    }
    if DistinctKeys(a) && DistinctKeys(b) && Apart(a, b) {
      forall i, j | 0 <= i < j < |c| ensures KeyOf(c[i]) != KeyOf(c[j]) {
        if i < |a| <= j { assert c[i] in a && c[j] in b; }
      }
    }
  }

  /** No two traced messages of the lives collide. */
  ghost predicate Clear(key: string, lives: seq<seq<Decoded>>) {
    forall l, i, m, j :: TracedIn(key, lives, l, i) && TracedIn(key, lives, m, j) && (l != m || i != j) ==>
      !Collide(lives[l], i, lives[m], j)
  }

  ghost predicate LifeClear(key: string, ms: seq<Decoded>) {
    forall i, j :: Traced(key, ms, i) && Traced(key, ms, j) && i < j ==> !Collide(ms, i, ms, j)
  }

  /** The message at `n` collides with none traced before it. */
  ghost predicate LastClear(key: string, ms: seq<Decoded>, n: int) {
    forall i :: i < n && Traced(key, ms, i) ==> !Collide(ms, i, ms, n)
  }

  lemma {:induction false} LifeKeysIff(key: string, ms: seq<Decoded>)
    ensures DistinctKeys(LifeTraces(key, ms)) <==> LifeClear(key, ms)
  {
    hide Traced, TraceAt, Collide, DistinctKeys;
    if ms == [] {
      NoneTraced(key, ms);
    } else {
      var n := |ms| - 1;
      var front := ms[..n];
      LifeKeysIff(key, front);
      LastTraced(key, ms);
      LifeClearSnoc(key, ms);
      if Traced(key, ms, n) {
        DistinctConcat(LifeTraces(key, front), [TraceAt(key, ms, n)]);
        LastApartIff(key, ms);
        OneIsDistinct(TraceAt(key, ms, n));
      }
      hide LifeTraces, LifeClear, LastClear;
    }
  }

  lemma NoneTraced(key: string, ms: seq<Decoded>)
    requires ms == []
    ensures DistinctKeys(LifeTraces(key, ms)) && LifeClear(key, ms)
  {
  }

  lemma OneIsDistinct(t: Trace)
    ensures DistinctKeys([t])
  {
  }

  lemma CollideBefore(ms: seq<Decoded>, n: int, i: int, j: int)
    requires 0 <= i < n <= |ms| && 0 <= j < n
    ensures Collide(ms[..n], i, ms[..n], j) <==> Collide(ms, i, ms, j)
  {
    AsNewBefore(ms[..n], ms, i, j);
    AsNewBefore(ms[..n], ms, j, i);
    hide AsNew;
  }

  lemma AsNewBefore(front: seq<Decoded>, ms: seq<Decoded>, i: int, j: int)
    requires 0 <= i < |front| && 0 <= j < |front| && front <= ms
    ensures AsNew(front, i, front, j) <==> AsNew(ms, i, ms, j)
  {
    forall g | 0 <= g <= i ensures Reached(front, j, front[g].ts) <==> Reached(ms, j, ms[g].ts) {
      if h :| 0 <= h <= j && front[g].ts <= front[h].ts { assert ms[g].ts <= ms[h].ts; }
      if h :| 0 <= h <= j && ms[g].ts <= ms[h].ts { assert front[g].ts <= front[h].ts; }
    }
    hide Reached;
    assert forall g :: 0 <= g <= i ==> front[g] == ms[g];
  }

  lemma LifeClearSnoc(key: string, ms: seq<Decoded>)
    requires ms != []
    ensures var n := |ms| - 1;
            LifeClear(key, ms) <==> LifeClear(key, ms[..n]) && (Traced(key, ms, n) ==> LastClear(key, ms, n))
  {
    hide Traced, Collide;
    var n := |ms| - 1;
    forall i | 0 <= i < n ensures Traced(key, ms, i) <==> Traced(key, ms[..n], i) { TracedBefore(key, ms, n, i); }
    forall i, j | 0 <= i < n && 0 <= j < n ensures Collide(ms[..n], i, ms[..n], j) <==> Collide(ms, i, ms, j) {
      CollideBefore(ms, n, i, j);
    }
    if LifeClear(key, ms) {
      forall i, j | Traced(key, ms[..n], i) && Traced(key, ms[..n], j) && i < j
        ensures !Collide(ms[..n], i, ms[..n], j)
      {
        assert Traced(key, ms, i) && Traced(key, ms, j);
      }
    }
    if LifeClear(key, ms[..n]) && (Traced(key, ms, n) ==> LastClear(key, ms, n)) {
      forall i, j | Traced(key, ms, i) && Traced(key, ms, j) && i < j ensures !Collide(ms, i, ms, j) {
        if j < n { assert Traced(key, ms[..n], i) && Traced(key, ms[..n], j); }
      }
    }
  }

  lemma LastApartIff(key: string, ms: seq<Decoded>)
    requires ms != []
    ensures var n := |ms| - 1;
            Apart(LifeTraces(key, ms[..n]), [TraceAt(key, ms, n)]) <==> LastClear(key, ms, n)
  {
    var n := |ms| - 1;
    var front := ms[..n];
    TracesOfLife(key, front);
    forall i | 0 <= i < n
      ensures Traced(key, ms, i) <==> Traced(key, front, i)
      ensures KeyOf(TraceAt(key, front, i)) == KeyOf(TraceAt(key, ms, n)) <==> Collide(ms, i, ms, n)
    {
      TracedBefore(key, ms, n, i);
      SameKeyIff(key, ms, i, ms, n);
    }
    hide Traced, TraceAt, Collide, LifeTraces, KeyOf;
    if LastClear(key, ms, n) {
      forall x | x in LifeTraces(key, front) ensures KeyOf(x) != KeyOf(TraceAt(key, ms, n)) {
        var i :| Traced(key, front, i) && x == TraceAt(key, front, i);
      }
    }
    if Apart(LifeTraces(key, front), [TraceAt(key, ms, n)]) {
      forall i | i < n && Traced(key, ms, i) ensures !Collide(ms, i, ms, n) {
        assert TraceAt(key, front, i) in LifeTraces(key, front);
        assert TraceAt(key, ms, n) in [TraceAt(key, ms, n)];
      }
    }
  }

  /** No traced message of the last life collides with one of an earlier life. */
  ghost predicate LifeApart(key: string, lives: seq<seq<Decoded>>, n: int)
    requires 0 <= n < |lives|
  {
    forall l, i, j :: l < n && TracedIn(key, lives, l, i) && Traced(key, lives[n], j) ==>
      !Collide(lives[l], i, lives[n], j)
  }

  lemma CollideBack(ms: seq<Decoded>, i: int, ns: seq<Decoded>, j: int)
    ensures Collide(ms, i, ns, j) <==> Collide(ns, j, ms, i)
  {
  }

  lemma ClearSnoc(key: string, lives: seq<seq<Decoded>>)
    requires lives != []
    ensures var n := |lives| - 1;
            Clear(key, lives) <==> Clear(key, lives[..n]) && LifeClear(key, lives[n]) && LifeApart(key, lives, n)
  {
    hide Traced, Collide;
    var n := |lives| - 1;
    var front := lives[..n];
    assert forall l, i :: TracedIn(key, front, l, i) <==> l < n && TracedIn(key, lives, l, i);
    forall ms, i, ns, j ensures Collide(ms, i, ns, j) <==> Collide(ns, j, ms, i) { CollideBack(ms, i, ns, j); }
    if Clear(key, lives) {
      forall i, j | Traced(key, lives[n], i) && Traced(key, lives[n], j) && i < j
        ensures !Collide(lives[n], i, lives[n], j)
      {
        assert TracedIn(key, lives, n, i) && TracedIn(key, lives, n, j);
      }
      forall l, i, j | l < n && TracedIn(key, lives, l, i) && Traced(key, lives[n], j)
        ensures !Collide(lives[l], i, lives[n], j)
      {
        assert TracedIn(key, lives, n, j);
      }
    }
  }

  lemma LivesApartIff(key: string, lives: seq<seq<Decoded>>)
    requires lives != []
    ensures var n := |lives| - 1;
            Apart(AllLifeTraces(key, lives[..n]), LifeTraces(key, lives[n])) <==> LifeApart(key, lives, n)
  {
    hide Traced, TraceAt, Collide, LifeTraces, AllLifeTraces, KeyOf;
    var n := |lives| - 1;
    var front, last := lives[..n], lives[n];
    TracesOfLives(key, front);
    TracesOfLife(key, last);
    assert forall l, i :: TracedIn(key, front, l, i) <==> l < n && TracedIn(key, lives, l, i);
    if LifeApart(key, lives, n) {
      forall x, y | x in AllLifeTraces(key, front) && y in LifeTraces(key, last) ensures KeyOf(x) != KeyOf(y) {
        var l, i :| TracedIn(key, front, l, i) && x == TraceAt(key, front[l], i);
        var j :| Traced(key, last, j) && y == TraceAt(key, last, j);
        assert TracedIn(key, lives, l, i);
        SameKeyIff(key, lives[l], i, last, j);
      }
    }
    if Apart(AllLifeTraces(key, front), LifeTraces(key, last)) {
      forall l, i, j | l < n && TracedIn(key, lives, l, i) && Traced(key, last, j)
        ensures !Collide(lives[l], i, last, j)
      {
        assert TracedIn(key, front, l, i);
        assert TraceAt(key, front[l], i) in AllLifeTraces(key, front) && TraceAt(key, last, j) in LifeTraces(key, last);
        SameKeyIff(key, lives[l], i, last, j);
      }
    }
  }

  lemma {:induction false} LivesKeysIff(key: string, lives: seq<seq<Decoded>>)
    ensures DistinctKeys(AllLifeTraces(key, lives)) <==> Clear(key, lives)
  {
    hide LifeTraces, Traced, Collide, DistinctKeys;
    if lives == [] {
      NoneDistinct();
    } else {
      var n := |lives| - 1;
      LivesKeysIff(key, lives[..n]);
      LifeKeysIff(key, lives[n]);
      DistinctConcat(AllLifeTraces(key, lives[..n]), LifeTraces(key, lives[n]));
      LivesApartIff(key, lives);
      ClearSnoc(key, lives);
      hide Clear, LifeClear, LifeApart, Apart;
    }
  }

  lemma NoneDistinct()
    ensures DistinctKeys([])
  {
  }

  lemma {:induction false} TracesOfHolds(traces: seq<Trace>, key: string)
    ensures forall t :: t in TracesOf(traces, key) <==> t in traces && t.snap.icao == key
  {
    if traces != [] {
      var front, last := traces[..|traces| - 1], traces[|traces| - 1];
      TracesOfHolds(front, key);
      assert forall t :: t in traces <==> t in front || t == last;
    }
  }

  ghost predicate DistinctOf(traces: seq<Trace>, key: string) { DistinctKeys(TracesOf(traces, key)) }

  /** Aircraft never share a key. */
  lemma {:induction false} ByAircraft(traces: seq<Trace>)
    ensures DistinctKeys(traces) <==> forall key :: DistinctOf(traces, key)
  {
    hide DistinctKeys;
    if traces == [] {
      NoneDistinct();
    } else {
      var front, t := traces[..|traces| - 1], traces[|traces| - 1];
      assert traces == front + [t];
      ByAircraft(front);
      OneIsDistinct(t);
      DistinctConcat(front, [t]);
      var key := t.snap.icao;
      DistinctConcat(TracesOf(front, key), [t]);
      TracesOfHolds(front, key);
      assert Apart(front, [t]) <==> Apart(TracesOf(front, key), [t]);
      forall k ensures TracesOf(traces, k) == (if k == key then TracesOf(front, k) + [t] else TracesOf(front, k)) {
        TracesOfSnoc(front, t, k);
      }
      hide TracesOf, Apart;
      if DistinctKeys(traces) {
        forall k ensures DistinctOf(traces, k) { assert DistinctOf(front, k); }
      }
      if forall k :: DistinctOf(traces, k) {
        assert DistinctKeys(TracesOf(front, key) + [t]) by { assert DistinctOf(traces, key); }
        forall k ensures DistinctOf(front, k) {
          if k != key { assert DistinctOf(traces, k); }
        }
      }
    }
  }

  lemma {:induction false} RowCount(rows: seq<Trace>)
    ensures |InsertAll(map[], rows)| <= |rows|
    ensures |InsertAll(map[], rows)| == |rows| <==> DistinctKeys(rows)
  {
    hide DistinctKeys;
    if rows == [] {
      NoneDistinct();
    } else {
      var front, r := rows[..|rows| - 1], rows[|rows| - 1];
      RowCount(front);
      assert rows == front + [r];
      OneIsDistinct(r);
      DistinctConcat(front, [r]);
      Inserted(map[], front);
      hide KeyOf;
      assert Apart(front, [r]) <==> KeyOf(r) !in InsertAll(map[], front);
    }
  }

  ghost predicate RunClear(expireMs: int, steps: seq<Step>, key: string) { Clear(key, Lives(expireMs, steps, key)) }

  lemma DistinctKeysIff(expireMs: int, steps: seq<Step>)
    ensures DistinctKeys(After(expireMs, steps).traces) <==> forall key :: RunClear(expireMs, steps, key)
  {
    hide After, Lives, AllLifeTraces, TracesOf, DistinctKeys, Clear;
    var traces := After(expireMs, steps).traces;
    ByAircraft(traces);
    forall key ensures DistinctOf(traces, key) <==> RunClear(expireMs, steps, key) {
      RunFollowsLives(expireMs, steps, key);
      LivesKeysIff(key, Lives(expireMs, steps, key));
    }
    if forall key :: RunClear(expireMs, steps, key) {
      forall key ensures DistinctOf(traces, key) { assert RunClear(expireMs, steps, key); }
    }
  }

  /** A run's traces make a row each exactly when, of no aircraft, two traced messages of any of its lives are one
      station's, at one instant, with the same newest time heard by then. */
  lemma OneRowPerTraceIff(expireMs: int, steps: seq<Step>)
    ensures var traces := After(expireMs, steps).traces;
            |InsertAll(map[], traces)| == |traces| <==> forall key :: RunClear(expireMs, steps, key)
  {
    hide After, DistinctKeys, RunClear, InsertAll;
    RowCount(After(expireMs, steps).traces);
    DistinctKeysIff(expireMs, steps);
  }

  // --- One life's rows ---

  /** The table after a first fold of one life. */
  function TableAfter(key: string, ms: seq<Decoded>): Table { InsertAll(map[], LifeTraces(key, ms)) }

  /** The table holds this very trace under its key. */
  ghost predicate KeepsRow(key: string, ms: seq<Decoded>, t: Trace) {
    KeyOf(t) in TableAfter(key, ms) && TableAfter(key, ms)[KeyOf(t)] == t
  }

  lemma {:induction false} TableGrows(key: string, ms: seq<Decoded>, n: nat)
    requires n <= |ms|
    ensures forall k :: k in TableAfter(key, ms[..n]) ==>
        k in TableAfter(key, ms) && TableAfter(key, ms)[k] == TableAfter(key, ms[..n])[k]
  {
    if n == |ms| {
      assert ms[..n] == ms;
    } else {
      var front := ms[..|ms| - 1];
      TableGrows(key, front, n);
      assert front[..n] == ms[..n];
      LastTraced(key, ms);
      var before, t := LifeTraces(key, front), TraceAt(key, ms, |ms| - 1);
      hide Fold, Changes, LifeTraces, TraceAt;
      assert (before + [t])[..|before|] == before;
    }
  }

  /** Of two such traces in a life it is the later whose row is dropped. */
  lemma LaterReportIsDropped(key: string, ms: seq<Decoded>, i: int, j: int)
    requires i < j && Traced(key, ms, i) && Traced(key, ms, j) && Collide(ms, i, ms, j)
    ensures KeyOf(TraceAt(key, ms, j)) in TableAfter(key, ms) && !KeepsRow(key, ms, TraceAt(key, ms, j))
  {
    var front, k := ms[..j], KeyOf(TraceAt(key, ms, j));
    SameKeyIff(key, ms, i, ms, j);
    TracedBefore(key, ms, j, i);
    TracesOfLife(key, front);
    TableHoldsFirst(LifeTraces(key, front));
    TableGrows(key, ms, j);
    hide Fold, Changes, LifeTraces, InsertAll, Collide, TraceAt, KeyOf;
    assert TraceAt(key, front, i) in LifeTraces(key, front);
    var n :| FirstAt(LifeTraces(key, front), k, n) && TableAfter(key, front)[k] == LifeTraces(key, front)[n];
    assert LifeTraces(key, front)[n] in LifeTraces(key, front);
    var h :| Traced(key, front, h) && LifeTraces(key, front)[n] == TraceAt(key, front, h);
    TraceHas(key, front, h);
    TraceHas(key, ms, j);
  }
}
