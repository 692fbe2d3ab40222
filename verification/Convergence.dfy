/** What a fold over messages leaves behind, said without the fold: each field belongs to the newest message that
    carried it, and the order of arrival matters only where messages tie. */
module Convergence {
  import opened Wire
  import opened Order
  import opened AircraftState

  /** The state after the messages `ms`, in arrival order, none of them lost to expiry. */
  function Fold(icao: string, ms: seq<Decoded>): State {
    if ms == [] then Create(icao) else Merge(Fold(icao, ms[..|ms| - 1]), ms[|ms| - 1])
  }

  ghost predicate Carries(ms: seq<Decoded>, i: int, k: int)
    requires 0 <= i < FIELDS
  {
    0 <= k < |ms| && Carried(ms[k], i).Some?
  }

  /** A message that carries the field and is not older than the epoch (`fieldTs` uses 0 for "never set"). */
  ghost predicate Carrier(ms: seq<Decoded>, i: int, k: int)
    requires 0 <= i < FIELDS
  {
    Carries(ms, i, k) && 0 <= Millis(ms[k].ts)
  }

  /** Among the newest carriers, by millisecond. */
  ghost predicate Top(ms: seq<Decoded>, i: int, k: int)
    requires 0 <= i < FIELDS
  {
    Carrier(ms, i, k) && forall j :: Carrier(ms, i, j) ==> Millis(ms[j].ts) <= Millis(ms[k].ts)
  }

  /** The last to arrive among the newest carriers. */
  ghost predicate Winner(ms: seq<Decoded>, i: int, k: int): (r: bool)
    requires 0 <= i < FIELDS
    ensures r ==> 0 <= k < |ms|
  {
    Top(ms, i, k) && forall j :: Top(ms, i, j) ==> j <= k
  }

  ghost predicate FieldFromWinner(ms: seq<Decoded>, i: int, v: Option<Value>, stamp: int)
    requires 0 <= i < FIELDS
  {
    if exists k :: Carrier(ms, i, k)
    then exists k :: Winner(ms, i, k) && v == Carried(ms[k], i) && stamp == Millis(ms[k].ts)
    else v == None && stamp == 0
  }

  lemma MergeField(a: State, m: Decoded, i: int)
    requires 0 <= i < FIELDS
    ensures Merge(a, m).snap.fields[i] == if Accepts(a, m, i) then Carried(m, i) else a.snap.fields[i]
    ensures Merge(a, m).fieldTs[i] == if Accepts(a, m, i) then Millis(m.ts) else a.fieldTs[i]
  {
  }

  lemma CarrierSnoc(ms: seq<Decoded>, i: int)
    requires 0 <= i < FIELDS && ms != []
    ensures var n := |ms| - 1;
            forall k :: Carrier(ms, i, k) <==> Carrier(ms[..n], i, k) || (k == n && Carrier(ms, i, n))
  {
  }

  /** A newest carrier that arrives last wins. */
  lemma LastWins(ms: seq<Decoded>, i: int)
    requires 0 <= i < FIELDS && ms != [] && Carrier(ms, i, |ms| - 1)
    requires forall k :: Carrier(ms, i, k) ==> Millis(ms[k].ts) <= Millis(ms[|ms| - 1].ts)
    ensures Winner(ms, i, |ms| - 1)
  {
  }

  /** Otherwise the winner so far goes on winning. */
  lemma WinnerStays(ms: seq<Decoded>, i: int, k: int)
    requires 0 <= i < FIELDS && ms != [] && Winner(ms[..|ms| - 1], i, k)
    requires Carrier(ms, i, |ms| - 1) ==> Millis(ms[|ms| - 1].ts) < Millis(ms[k].ts)
    ensures Winner(ms, i, k)
  {
    CarrierSnoc(ms, i);
    hide Carrier;
    assert Top(ms, i, k);
    assert forall j :: Top(ms, i, j) ==> Top(ms[..|ms| - 1], i, j);
  }

  /** Every field, and its stamp, comes from the winner among the messages that carried it. */
  lemma {:induction false} FoldFields(icao: string, ms: seq<Decoded>, i: int)
    requires 0 <= i < FIELDS
    ensures FieldFromWinner(ms, i, Fold(icao, ms).snap.fields[i], Fold(icao, ms).fieldTs[i])
  {
    hide Merge, Winner;
    if ms != [] {
      var n := |ms| - 1;
      var front, s := ms[..n], Fold(icao, ms[..n]);
      FoldFields(icao, front, i);
      MergeField(s, ms[n], i);
      CarrierSnoc(ms, i);
      if k :| Carrier(front, i, k) {
        var w :| Winner(front, i, w) && s.snap.fields[i] == Carried(front[w], i) && s.fieldTs[i] == Millis(front[w].ts);
        WinnerIsTop(front, i, w);
        if Carrier(ms, i, n) && s.fieldTs[i] <= Millis(ms[n].ts) {
          LastWins(ms, i);
        } else {
          WinnerStays(ms, i, w);
        }
      } else if Carrier(ms, i, n) {
        LastWins(ms, i);
      }
    }
  }

  lemma WinnerIsTop(ms: seq<Decoded>, i: int, k: int)
    requires 0 <= i < FIELDS && Winner(ms, i, k)
    ensures Carrier(ms, i, k) && forall j :: Carrier(ms, i, j) ==> Millis(ms[j].ts) <= Millis(ms[k].ts)
  {
  }

  // --- In the messages' own terms ---

  /** A message not older than the epoch whose line says something of attribute `i`. */
  ghost predicate Says(ms: seq<Decoded>, i: int, k: int)
    requires 0 <= i < POSITION_TS
  {
    0 <= k < |ms| && 0 <= ms[k].ts && ms[k].line.payload[i].Some?
  }

  /** A message not older than the epoch whose line gives both coordinates. */
  ghost predicate Places(ms: seq<Decoded>, k: int) {
    0 <= k < |ms| && 0 <= ms[k].ts && ms[k].line.payload[LAT].Some? && ms[k].line.payload[LON].Some?
  }

  /** Newer by millisecond, or of the same one and arrived no earlier. */
  predicate Supersedes(ms: seq<Decoded>, k: int, j: int)
    requires 0 <= k < |ms| && 0 <= j < |ms|
  {
    ms[j].ts / 1000 < ms[k].ts / 1000 || (ms[j].ts / 1000 == ms[k].ts / 1000 && j <= k)
  }

  /** Each of the twelve attributes is the one the newest message that gave it gave, the later arrival where two share
      a millisecond; unknown when none gave it. */
  lemma PayloadIsNewest(icao: string, ms: seq<Decoded>, i: int)
    requires 0 <= i < POSITION_TS
    ensures var v := Fold(icao, ms).snap.fields[i];
            if exists k :: Says(ms, i, k)
            then exists k :: Says(ms, i, k) && v == ms[k].line.payload[i] &&
                             forall j :: Says(ms, i, j) ==> Supersedes(ms, k, j)
            else v == None
  {
    FoldFields(icao, ms, i);
    hide Fold;
    assert forall k :: Carrier(ms, i, k) <==> Says(ms, i, k);
    if exists k :: Carrier(ms, i, k) {
      var w :| Winner(ms, i, w) && Fold(icao, ms).snap.fields[i] == Carried(ms[w], i);
      WinnerSupersedes(ms, i, w);
      assert Says(ms, i, w);
    }
  }

  /** The position time is the event time of the newest message that gave a whole position. */
  lemma PositionTimeIsNewest(icao: string, ms: seq<Decoded>)
    ensures var v := Fold(icao, ms).snap.fields[POSITION_TS];
            if exists k :: Places(ms, k)
            then exists k :: Places(ms, k) && v == Some(At(ms[k].ts)) &&
                             forall j :: Places(ms, j) ==> Supersedes(ms, k, j)
            else v == None
  {
    FoldFields(icao, ms, POSITION_TS);
    hide Fold;
    assert forall k :: Carrier(ms, POSITION_TS, k) <==> Places(ms, k);
    if exists k :: Carrier(ms, POSITION_TS, k) {
      var w :| Winner(ms, POSITION_TS, w) && Fold(icao, ms).snap.fields[POSITION_TS] == Carried(ms[w], POSITION_TS);
      WinnerSupersedes(ms, POSITION_TS, w);
      assert Places(ms, w);
    }
  }

  lemma WinnerSupersedes(ms: seq<Decoded>, i: int, k: int)
    requires 0 <= i < FIELDS && Winner(ms, i, k)
    ensures Carrier(ms, i, k) && forall j :: Carrier(ms, i, j) ==> Supersedes(ms, k, j)
  {
    forall j | Carrier(ms, i, j) ensures Supersedes(ms, k, j) {
      if Millis(ms[j].ts) == Millis(ms[k].ts) { assert Top(ms, i, j); }
    }
  }

  /** `t` is the least time in `ms` (sign 1) or the greatest (sign -1); None when nothing was heard. */
  ghost predicate Extreme(ms: seq<Decoded>, t: Option<Instant>, sign: int) {
    if ms == [] then t == None
    else t.Some? && (exists m :: m in ms && m.ts == t.value) && forall m :: m in ms ==> sign * t.value <= sign * m.ts
  }

  ghost predicate StationsOf(ms: seq<Decoded>, stations: seq<string>) {
    && Ascending(StringLess, stations)
    && (forall id :: id in stations ==> exists m :: m in ms && m.stationId == id)
    && (forall m :: m in ms ==> m.stationId in stations)
  }

  ghost predicate EnvelopeOf(ms: seq<Decoded>, s: Snapshot) {
    s.messages == |ms| && StationsOf(ms, s.stations) && Extreme(ms, s.firstSeen, 1) && Extreme(ms, s.lastSeen, -1)
  }

  /** `messages` counts, `firstSeen` and `lastSeen` bound, and `stations` is the sorted array of who heard it. */
  lemma {:induction false} FoldEnvelope(icao: string, ms: seq<Decoded>)
    ensures Fold(icao, ms).snap.icao == icao && EnvelopeOf(ms, Fold(icao, ms).snap)
  {
    hide Merge;
    if ms != [] {
      var front, last := ms[..|ms| - 1], ms[|ms| - 1];
      FoldEnvelope(icao, front);
      assert ms == front + [last];
      MergeHears(Fold(icao, front), last);
      StationsGrow(front, Fold(icao, front).snap.stations, last);
      SpanGrows(front, Fold(icao, front).snap, last);
    }
  }

  lemma StationsGrow(ms: seq<Decoded>, stations: seq<string>, m: Decoded)
    requires StationsOf(ms, stations)
    ensures StationsOf(ms + [m], AddStation(stations, m.stationId))
  {
    AddStationAscends(stations, m.stationId);
    assert m in ms + [m];
  }

  lemma SpanGrows(ms: seq<Decoded>, s: Snapshot, m: Decoded)
    requires Extreme(ms, s.firstSeen, 1) && Extreme(ms, s.lastSeen, -1)
    ensures Extreme(ms + [m], Earlier(s.firstSeen, m.ts), 1) && Extreme(ms + [m], Later(s.lastSeen, m.ts), -1)
  {
    assert m in ms + [m];
    assert forall x :: x in ms ==> x in ms + [m];
  }

  lemma SameEnvelope(a: seq<Decoded>, s: Snapshot, b: seq<Decoded>, t: Snapshot)
    requires EnvelopeOf(a, s) && EnvelopeOf(b, t) && SameElements(a, b) && |a| == |b|
    ensures s.firstSeen == t.firstSeen && s.lastSeen == t.lastSeen && s.stations == t.stations &&
        s.messages == t.messages
  {
    StringLessIsStrictTotal();
    hide StringLess;
    AscendingUnique(StringLess, s.stations, t.stations);
  }

  // --- The documented rule and where the code departs from it ---

  /** The rule as documented: the newest carrier, the later arrival winning a tie, whatever its time. */
  ghost predicate DocumentedField(ms: seq<Decoded>, i: int, v: Option<Value>)
    requires 0 <= i < FIELDS
  {
    if exists k :: Carries(ms, i, k)
    then exists k :: DocumentedWinner(ms, i, k) && v == Carried(ms[k], i)
    else v == None
  }

  ghost predicate DocumentedWinner(ms: seq<Decoded>, i: int, k: int)
    requires 0 <= i < FIELDS
  {
    Carries(ms, i, k) &&
    forall j :: Carries(ms, i, j) ==>
      Millis(ms[j].ts) < Millis(ms[k].ts) || (Millis(ms[j].ts) == Millis(ms[k].ts) && j <= k)
  }

  /** The fold follows the documented rule on a field exactly when not all of its carriers predate the epoch. */
  lemma FoldFollowsDocumentIff(icao: string, ms: seq<Decoded>, i: int)
    requires 0 <= i < FIELDS
    ensures DocumentedField(ms, i, Fold(icao, ms).snap.fields[i])
       <==> ((exists k :: Carries(ms, i, k)) ==> exists k :: Carrier(ms, i, k))
  {
    FoldFields(icao, ms, i);
    if k :| Carrier(ms, i, k) {
      var w :| Winner(ms, i, w) && Fold(icao, ms).snap.fields[i] == Carried(ms[w], i);
      forall j | Carries(ms, i, j)
        ensures Millis(ms[j].ts) < Millis(ms[w].ts) || (Millis(ms[j].ts) == Millis(ms[w].ts) && j <= w)
      {
        if Carrier(ms, i, j) && Millis(ms[j].ts) == Millis(ms[w].ts) { assert Top(ms, i, j); }
      }
      assert DocumentedWinner(ms, i, w);
      assert Carries(ms, i, w);
    }
  }

  /** One microsecond before the epoch, a first callsign is dropped. */
  lemma PreEpochCallsignIsDropped(station: string, icao: string, call: string)
    ensures var p := seq(POSITION_TS, i => if i == CALLSIGN then Some(Text(call)) else None);
            var m := Decoded(station, -1, Line(Some(icao), None, None, p));
            Fold(icao, [m]).snap.fields[CALLSIGN] == None && !DocumentedField([m], CALLSIGN, None)
  {
    var p := seq(POSITION_TS, i => if i == CALLSIGN then Some(Text(call)) else None);
    var m := Decoded(station, -1, Line(Some(icao), None, None, p));
    assert Carries([m], CALLSIGN, 0);
    assert [m][..0] == [];
    assert Fold(icao, [m]) == Merge(Create(icao), m);
  }

  // --- Order of arrival ---

  ghost predicate Reordering(a: seq<Decoded>, b: seq<Decoded>) { multiset(a) == multiset(b) }

  /** For each field, the newest carriers agree on its value. */
  ghost predicate TiesAgree(ms: seq<Decoded>) {
    forall i, j, k :: 0 <= i < FIELDS && Top(ms, i, j) && Top(ms, i, k) ==> Carried(ms[j], i) == Carried(ms[k], i)
  }

  ghost predicate OrderIndependent(icao: string, ms: seq<Decoded>) {
    forall other :: Reordering(ms, other) ==> SamePicture(Fold(icao, ms), Fold(icao, other))
  }

  lemma ReorderingMembers(a: seq<Decoded>, b: seq<Decoded>)
    requires Reordering(a, b)
    ensures SameElements(a, b) && |a| == |b|
  {
    assert |multiset(a)| == |a| && |multiset(b)| == |b|;
    forall x ensures x in a <==> x in b {
      assert x in multiset(a) <==> x in multiset(b);
    }
  }

  lemma CarrierMoves(a: seq<Decoded>, b: seq<Decoded>, i: int, k: int)
    requires SameElements(a, b) && 0 <= i < FIELDS && Carrier(a, i, k)
    ensures exists j :: Carrier(b, i, j) && b[j] == a[k]
  {
    assert a[k] in b;
    var j :| 0 <= j < |b| && b[j] == a[k];
    assert Carrier(b, i, j);
  }

  lemma SameField(icao: string, a: seq<Decoded>, b: seq<Decoded>, i: int)
    requires SameElements(a, b) && 0 <= i < FIELDS
    requires forall j, k :: Top(a, i, j) && Top(a, i, k) ==> Carried(a[j], i) == Carried(a[k], i)
    ensures Fold(icao, a).snap.fields[i] == Fold(icao, b).snap.fields[i]
    ensures Fold(icao, a).fieldTs[i] == Fold(icao, b).fieldTs[i]
  {
    FoldFields(icao, a, i);
    FoldFields(icao, b, i);
    if k :| Carrier(a, i, k) {
      CarrierMoves(a, b, i, k);
      var u :| Winner(a, i, u) && Fold(icao, a).snap.fields[i] == Carried(a[u], i);
      var v :| Winner(b, i, v) && Fold(icao, b).snap.fields[i] == Carried(b[v], i);
      CarrierMoves(a, b, i, u);
      CarrierMoves(b, a, i, v);
      var w :| Carrier(a, i, w) && a[w] == b[v];
      assert Top(a, i, w);
    } else if k :| Carrier(b, i, k) {
      CarrierMoves(b, a, i, k);
      assert false;
    }
  }

  /** Reordered messages fold to the same picture when the newest carriers agree. */
  lemma Converges(icao: string, a: seq<Decoded>, b: seq<Decoded>)
    requires Reordering(a, b) && TiesAgree(a)
    ensures SamePicture(Fold(icao, a), Fold(icao, b))
  {
    ReorderingMembers(a, b);
    var s, t := Fold(icao, a), Fold(icao, b);
    forall i | 0 <= i < FIELDS ensures s.snap.fields[i] == t.snap.fields[i] && s.fieldTs[i] == t.fieldTs[i] {
      SameField(icao, a, b, i);
    }
    assert s.snap.fields == t.snap.fields && s.fieldTs == t.fieldTs;
    FoldEnvelope(icao, a);
    FoldEnvelope(icao, b);
    SameEnvelope(a, s.snap, b, t.snap);
  }

  function MoveLast(ms: seq<Decoded>, k: nat): seq<Decoded>
    requires k < |ms|
  {
    ms[..k] + ms[k + 1..] + [ms[k]]
  }

  /** A newest carrier that arrives last decides the field. */
  lemma LastTopDecides(icao: string, ms: seq<Decoded>, i: int, k: int)
    requires 0 <= i < FIELDS && Top(ms, i, k)
    ensures Reordering(ms, MoveLast(ms, k))
    ensures Fold(icao, MoveLast(ms, k)).snap.fields[i] == Carried(ms[k], i)
  {
    var b := MoveLast(ms, k);
    assert ms == ms[..k] + [ms[k]] + ms[k + 1..];
    ReorderingMembers(ms, b);
    FoldFields(icao, b, i);
    assert Carrier(b, i, |b| - 1);
    forall j | Carrier(b, i, j) ensures Millis(b[j].ts) <= Millis(ms[k].ts) {
      CarrierMoves(b, ms, i, j);
    }
    assert Top(b, i, |b| - 1);
    assert Winner(b, i, |b| - 1);
  }

  /** Arrival order never shows in the picture exactly when, field by field, the newest carriers agree. */
  lemma OrderIndependentIff(icao: string, ms: seq<Decoded>)
    ensures OrderIndependent(icao, ms) <==> TiesAgree(ms)
  {
    if TiesAgree(ms) {
      forall other | Reordering(ms, other) ensures SamePicture(Fold(icao, ms), Fold(icao, other)) {
        Converges(icao, ms, other);
      }
    }
    if OrderIndependent(icao, ms) {
      forall i, j, k | 0 <= i < FIELDS && Top(ms, i, j) && Top(ms, i, k)
        ensures Carried(ms[j], i) == Carried(ms[k], i)
      {
        LastTopDecides(icao, ms, i, j);
        LastTopDecides(icao, ms, i, k);
      }
    }
  }

  // --- When two orders leave one snapshot ---

  /** The newest carriers, the last of them in each, agree on the field. */
  ghost predicate SaysTheSame(a: seq<Decoded>, b: seq<Decoded>, i: int)
    requires 0 <= i < FIELDS
  {
    && ((exists k :: Carrier(a, i, k)) <==> (exists k :: Carrier(b, i, k)))
    && (forall j, k :: Winner(a, i, j) && Winner(b, i, k) ==> Carried(a[j], i) == Carried(b[k], i))
  }

  /** Something in `b` is as early as anything in `a`. */
  ghost predicate AsEarly(a: seq<Decoded>, b: seq<Decoded>) {
    forall m :: m in a ==> exists n :: n in b && n.ts <= m.ts
  }

  /** Something in `b` is as late as anything in `a`. */
  ghost predicate AsLate(a: seq<Decoded>, b: seq<Decoded>) {
    forall m :: m in a ==> exists n :: n in b && m.ts <= n.ts
  }

  ghost predicate StationsIn(a: seq<Decoded>, b: seq<Decoded>) {
    forall m :: m in a ==> exists n :: n in b && n.stationId == m.stationId
  }

  ghost predicate SameSpan(a: seq<Decoded>, b: seq<Decoded>) {
    AsEarly(a, b) && AsEarly(b, a) && AsLate(a, b) && AsLate(b, a)
  }

  /** As many messages, over the same time, from the same stations, whose newest carriers agree. */
  ghost predicate HeardAlike(a: seq<Decoded>, b: seq<Decoded>) {
    && |a| == |b| && SameSpan(a, b) && StationsIn(a, b) && StationsIn(b, a)
    && (forall i :: 0 <= i < FIELDS ==> SaysTheSame(a, b, i))
  }

  lemma OneWinner(ms: seq<Decoded>, i: int, j: int, k: int)
    requires 0 <= i < FIELDS && Winner(ms, i, j) && Winner(ms, i, k)
    ensures j == k && Carried(ms[k], i).Some? && Carrier(ms, i, k)
  {
  }

  /** The field after a fold, by its winner. */
  lemma FieldIs(icao: string, ms: seq<Decoded>, i: int)
    requires 0 <= i < FIELDS
    ensures (exists k :: Carrier(ms, i, k)) <==> Fold(icao, ms).snap.fields[i].Some?
    ensures (exists k :: Carrier(ms, i, k)) ==> exists k :: Winner(ms, i, k)
    ensures forall k :: Winner(ms, i, k) ==> Fold(icao, ms).snap.fields[i] == Carried(ms[k], i)
  {
    FoldFields(icao, ms, i);
    hide Fold, Winner, Carrier;
    if exists k :: Carrier(ms, i, k) {
      var w :| Winner(ms, i, w) && Fold(icao, ms).snap.fields[i] == Carried(ms[w], i);
      OneWinner(ms, i, w, w);
      forall k | Winner(ms, i, k) ensures k == w { OneWinner(ms, i, k, w); }
    } else {
      forall k | Winner(ms, i, k) ensures Carrier(ms, i, k) { OneWinner(ms, i, k, k); }
    }
  }

  lemma SameFieldIff(icao: string, a: seq<Decoded>, b: seq<Decoded>, i: int)
    requires 0 <= i < FIELDS
    ensures Fold(icao, a).snap.fields[i] == Fold(icao, b).snap.fields[i] <==> SaysTheSame(a, b, i)
  {
    hide Fold, Winner, Carrier;
    FieldIs(icao, a, i);
    FieldIs(icao, b, i);
  }

  lemma AsEarlyIff(a: seq<Decoded>, t: Instant, b: seq<Decoded>, u: Instant)
    requires Extreme(a, Some(t), 1) && Extreme(b, Some(u), 1) && a != [] && b != []
    ensures AsEarly(a, b) <==> u <= t
  {
    var m :| m in a && m.ts == t;
    var n :| n in b && n.ts == u;
  }

  lemma AsLateIff(a: seq<Decoded>, t: Instant, b: seq<Decoded>, u: Instant)
    requires Extreme(a, Some(t), -1) && Extreme(b, Some(u), -1) && a != [] && b != []
    ensures AsLate(a, b) <==> t <= u
  {
    var m :| m in a && m.ts == t;
    var n :| n in b && n.ts == u;
  }

  lemma SameSpanIff(a: seq<Decoded>, s: Snapshot, b: seq<Decoded>, t: Snapshot)
    requires Extreme(a, s.firstSeen, 1) && Extreme(a, s.lastSeen, -1)
    requires Extreme(b, t.firstSeen, 1) && Extreme(b, t.lastSeen, -1) && |a| == |b|
    ensures s.firstSeen == t.firstSeen && s.lastSeen == t.lastSeen <==> SameSpan(a, b)
  {
    hide Extreme, AsEarly, AsLate;
    HasExtreme(a, s.firstSeen, 1);
    HasExtreme(a, s.lastSeen, -1);
    HasExtreme(b, t.firstSeen, 1);
    HasExtreme(b, t.lastSeen, -1);
    if a == [] {
      NoneToSpan();
    } else {
      AsEarlyIff(a, s.firstSeen.value, b, t.firstSeen.value);
      AsEarlyIff(b, t.firstSeen.value, a, s.firstSeen.value);
      AsLateIff(a, s.lastSeen.value, b, t.lastSeen.value);
      AsLateIff(b, t.lastSeen.value, a, s.lastSeen.value);
    }
  }

  lemma HasExtreme(a: seq<Decoded>, t: Option<Instant>, sign: int)
    requires Extreme(a, t, sign)
    ensures t.Some? <==> a != []
  {
  }

  lemma NoneToSpan()
    ensures SameSpan([], [])
  {
  }

  lemma SameStationsIff(a: seq<Decoded>, s: seq<string>, b: seq<Decoded>, t: seq<string>)
    requires StationsOf(a, s) && StationsOf(b, t)
    ensures s == t <==> StationsIn(a, b) && StationsIn(b, a)
  {
    StringLessIsStrictTotal();
    hide StringLess;
    if StationsIn(a, b) && StationsIn(b, a) {
      assert SameElements(s, t);
      AscendingUnique(StringLess, s, t);
    }
  }

  /** Two sequences of messages leave the same snapshot exactly when they were heard alike. */
  lemma SameSnapshotIff(icao: string, a: seq<Decoded>, b: seq<Decoded>)
    ensures Fold(icao, a).snap == Fold(icao, b).snap <==> HeardAlike(a, b)
  {
    hide Fold, SaysTheSame, SameSpan, StationsIn, StationsOf, Extreme;
    var s, t := Fold(icao, a).snap, Fold(icao, b).snap;
    FoldEnvelope(icao, a);
    FoldEnvelope(icao, b);
    forall i | 0 <= i < FIELDS ensures s.fields[i] == t.fields[i] <==> SaysTheSame(a, b, i) {
      SameFieldIff(icao, a, b, i);
    }
    assert s.fields == t.fields <==> forall i :: 0 <= i < FIELDS ==> SaysTheSame(a, b, i);
    SameStationsIff(a, s.stations, b, t.stations);
    if |a| == |b| { SameSpanIff(a, s, b, t); }
  }

  // --- Positions ---

  ghost predicate WholePositions(ms: seq<Decoded>) {
    forall m :: m in ms ==> (m.line.payload[LAT].Some? <==> m.line.payload[LON].Some?)
  }

  ghost predicate PositionFrom(s: Snapshot, m: Decoded) {
    && m.line.payload[LAT].Some? && m.line.payload[LON].Some?
    && s.fields[LAT] == m.line.payload[LAT]
    && s.fields[LON] == m.line.payload[LON]
    && s.fields[POSITION_TS] == Some(At(m.ts))
  }

  lemma SameWinners(ms: seq<Decoded>, i: int, j: int)
    requires 0 <= i < FIELDS && 0 <= j < FIELDS && forall k :: Carrier(ms, i, k) <==> Carrier(ms, j, k)
    ensures forall k :: Winner(ms, i, k) <==> Winner(ms, j, k)
  {
    assert forall k :: Top(ms, i, k) <==> Top(ms, j, k);
  }

  /** If latitude and longitude always travel together, a picture never mixes two messages' positions. */
  lemma PositionIsOneMessages(icao: string, ms: seq<Decoded>)
    requires WholePositions(ms)
    ensures var s := Fold(icao, ms).snap;
            || s.fields[LAT] == s.fields[LON] == s.fields[POSITION_TS] == None
            || exists m :: m in ms && PositionFrom(s, m)
  {
    FoldFields(icao, ms, LAT);
    FoldFields(icao, ms, LON);
    FoldFields(icao, ms, POSITION_TS);
    forall k ensures Carrier(ms, LAT, k) <==> Carrier(ms, LON, k)
             ensures Carrier(ms, LAT, k) <==> Carrier(ms, POSITION_TS, k)
    {
      if 0 <= k < |ms| { assert ms[k] in ms; }
    }
    SameWinners(ms, LAT, LON);
    SameWinners(ms, LAT, POSITION_TS);
    if k :| Carrier(ms, LAT, k) {
      assert Carrier(ms, LON, k) && Carrier(ms, POSITION_TS, k);
      var s := Fold(icao, ms).snap;
      var a :| Winner(ms, LAT, a) && s.fields[LAT] == Carried(ms[a], LAT);
      var b :| Winner(ms, LON, b) && s.fields[LON] == Carried(ms[b], LON);
      var c :| Winner(ms, POSITION_TS, c) && s.fields[POSITION_TS] == Carried(ms[c], POSITION_TS);
      assert a == b == c;
      assert ms[a] in ms && PositionFrom(s, ms[a]);
    }
  }
}
