/** Keyed state for one aircraft: its Snapshot and the event time at which each field was last set, merged
    field by field as messages arrive. */
module AircraftState {
  import opened Wire
  import opened Order

  type Fields = f: seq<Option<Value>> | |f| == FIELDS witness seq(FIELDS, _ => None)
  type Stamps = t: seq<int> | |t| == FIELDS witness seq(FIELDS, _ => 0)

  /** The full picture of one aircraft: the Payload and the position time (`fields`), and who heard it when. */
  datatype Snapshot = Snapshot(
    icao: string,
    fields: Fields,
    firstSeen: Option<Instant>,
    lastSeen: Option<Instant>,
    stations: seq<string>,
    messages: nat)

  /** `fieldTs` is in epoch milliseconds, 0 standing for "never set". */
  datatype State = State(snap: Snapshot, fieldTs: Stamps, dirty: bool, heardMs: int)

  /** What shows in a published picture, or decides a later one; `dirty` and `heardMs` steer publication only. */
  predicate SamePicture(a: State, b: State) { a.snap == b.snap && a.fieldTs == b.fieldTs }

  function Create(icao: string): State {
    State(Snapshot(icao, seq(FIELDS, _ => None), None, None, [], 0), seq(FIELDS, _ => 0), false, 0)
  }

  /** What a message says about field `i`; the position time comes with a complete position only. */
  function Carried(m: Decoded, i: int): Option<Value>
    requires 0 <= i < FIELDS
  {
    if i < POSITION_TS then m.line.payload[i]
    else if m.line.payload[LAT].Some? && m.line.payload[LON].Some? then Some(At(m.ts))
    else None
  }

  predicate Accepts(a: State, m: Decoded, i: int)
    requires 0 <= i < FIELDS
  {
    Carried(m, i).Some? && a.fieldTs[i] <= Millis(m.ts)
  }

  function Earlier(t: Option<Instant>, ts: Instant): Option<Instant> {
    if t == None || ts < t.value then Some(ts) else t
  }

  function Later(t: Option<Instant>, ts: Instant): Option<Instant> {
    if t == None || t.value < ts then Some(ts) else t
  }

  function AddStation(stations: seq<string>, id: string): seq<string> {
    if id in stations then stations else Sort(StringLess, stations + [id])
  }

  function Heard(s: Snapshot, m: Decoded): Snapshot {
    Snapshot(s.icao, s.fields, Earlier(s.firstSeen, m.ts), Later(s.lastSeen, m.ts),
             AddStation(s.stations, m.stationId), s.messages + 1)
  }

  /** One message merged, all fields at once: the specification of `Aircraft.Apply`. */
  function Merge(a: State, m: Decoded): State {
    var fields := seq(FIELDS, i requires 0 <= i < FIELDS =>
      if Accepts(a, m, i) then Carried(m, i) else a.snap.fields[i]);
    var fieldTs := seq(FIELDS, i requires 0 <= i < FIELDS => if Accepts(a, m, i) then Millis(m.ts) else a.fieldTs[i]);
    State(Heard(a.snap, m).(fields := fields), fieldTs, fields == a.snap.fields, a.heardMs)
  }

  /** Outside its fields, a merge only records who was heard, and when. */
  lemma MergeHears(a: State, m: Decoded)
    ensures var r := Merge(a, m); r.snap == Heard(a.snap, m).(fields := r.snap.fields) && r.heardMs == a.heardMs
  {
  }

  /** `b` with the fields below `k` merged from `m`. */
  ghost function MergedBelow(b: State, m: Decoded, k: int): State {
    var fields := seq(FIELDS, i requires 0 <= i < FIELDS =>
      if i < k && Accepts(b, m, i) then Carried(m, i) else b.snap.fields[i]);
    var fieldTs := seq(FIELDS, i requires 0 <= i < FIELDS =>
      if i < k && Accepts(b, m, i) then Millis(m.ts) else b.fieldTs[i]);
    b.(snap := b.snap.(fields := fields), fieldTs := fieldTs)
  }

  /** A message changes an aircraft iff it changes its Payload or its position time. */
  predicate Changes(a: State, m: Decoded) {
    Merge(a, m).snap.fields != a.snap.fields
  }

  lemma ComparesMid(a: seq<string>, mid: nat, key: string)
    requires Ascending(StringLess, a) && mid < |a|
    ensures StringLess(a[mid], key) ==> forall i :: 0 <= i <= mid ==> StringLess(a[i], key)
    ensures StringLess(key, a[mid]) ==> forall i :: mid <= i < |a| ==> StringLess(key, a[i])
    ensures !StringLess(a[mid], key) && !StringLess(key, a[mid]) ==> a[mid] == key
  {
    StringLessIsStrictTotal();
    hide StringLess;
  }

  /** `Arrays.binarySearch`: a non-negative answer exactly when the key is there, given a sorted array. */
  method BinarySearch(a: seq<string>, key: string) returns (r: int)
    requires Ascending(StringLess, a)
    ensures r >= 0 <==> key in a
  {
    hide StringLess, Ascending;
    StringIrreflexive(key);
    var low, high := 0, |a| - 1;
    while low <= high
      invariant 0 <= low <= high + 1 <= |a|
      invariant forall i :: 0 <= i < low ==> StringLess(a[i], key)
      invariant forall i :: high < i < |a| ==> StringLess(key, a[i])
    {
      var mid := (low + high) / 2;
      ComparesMid(a, mid, key);
      if StringLess(a[mid], key) {
        low := mid + 1;
      } else if StringLess(key, a[mid]) {
        high := mid - 1;
      } else {
        return mid;
      }
    }
    r := -(low + 1);
  }

  class Aircraft {
    var snap: Snapshot
    const fieldTs: array<int>
    var dirty: bool
    var heardMs: int

    ghost predicate Valid()
      reads this, fieldTs
    {
      fieldTs.Length == FIELDS && Ascending(StringLess, snap.stations)
    }

    ghost function View(): State
      requires fieldTs.Length == FIELDS
      reads this, fieldTs
    {
      State(snap, fieldTs[..], dirty, heardMs)
    }

    /** The state a `ValueState` hands back, or `Create(icao)` for an aircraft not heard yet. */
    constructor (s: State)
      requires Ascending(StringLess, s.snap.stations)
      ensures Valid() && fresh(fieldTs) && View() == s
    {
      snap, dirty, heardMs := s.snap, s.dirty, s.heardMs;
      fieldTs := new int[FIELDS](i requires 0 <= i < FIELDS => s.fieldTs[i]);
    }

    method Set(field: int, ts: int, v: Option<Value>) returns (changed: bool)
      requires fieldTs.Length == FIELDS && 0 <= field < FIELDS
      modifies this`snap, fieldTs
      ensures var taken := v.Some? && old(fieldTs[field]) <= ts;
              && snap == (if taken then old(snap).(fields := old(snap.fields)[field := v]) else old(snap))
              && fieldTs[..] == (if taken then old(fieldTs[..])[field := ts] else old(fieldTs[..]))
      ensures changed <==> snap.fields != old(snap.fields)
    {
      if v == None || ts < fieldTs[field] {
        return false;
      }
      fieldTs[field] := ts;
      if snap.fields[field] == v {
        assert snap.fields == snap.fields[field := v];
        return false;
      }
      assert snap.fields[field] != snap.fields[field := v][field];
      snap := snap.(fields := snap.fields[field := v]);
      return true;
    }

    /** `changed |= set(field, ts, v)`: one step of merging `m` into `b`, the fields below `field` being done. */
    method Take(ghost b: State, m: Decoded, field: int, v: Option<Value>, soFar: bool) returns (changed: bool)
      requires fieldTs.Length == FIELDS && 0 <= field < FIELDS && v == Carried(m, field)
      requires View() == MergedBelow(b, m, field) && (soFar <==> snap.fields != b.snap.fields)
      modifies this`snap, fieldTs
      ensures View() == MergedBelow(b, m, field + 1)
      ensures changed <==> snap.fields != b.snap.fields
    {
      assert snap.fields[field] == b.snap.fields[field] && fieldTs[field] == b.fieldTs[field];
      ghost var before := snap.fields;
      var c := Set(field, Millis(m.ts), v);
      changed := soFar || c;
      assert fieldTs[..] == MergedBelow(b, m, field + 1).fieldTs;
      assert snap.fields == MergedBelow(b, m, field + 1).snap.fields;
      if soFar {
        ghost var i :| 0 <= i < FIELDS && before[i] != b.snap.fields[i];
        assert snap.fields[i] != b.snap.fields[i];
      }
    }

    method TakeAll(ghost b: State, m: Decoded) returns (changed: bool)
      requires fieldTs.Length == FIELDS && View() == b == MergedBelow(b, m, 0)
      modifies this`snap, fieldTs
      ensures View() == MergedBelow(b, m, FIELDS)
      ensures changed <==> snap.fields != b.snap.fields
    {
      var p := m.line.payload;
      changed := false;
      changed := Take(b, m, CALLSIGN, p[CALLSIGN], changed);
      changed := Take(b, m, ALTITUDE, p[ALTITUDE], changed);
      changed := Take(b, m, GROUND_SPEED, p[GROUND_SPEED], changed);
      changed := Take(b, m, TRACK, p[TRACK], changed);
      changed := Take(b, m, LAT, p[LAT], changed);
      changed := Take(b, m, LON, p[LON], changed);
      changed := Take(b, m, VERTICAL_RATE, p[VERTICAL_RATE], changed);
      changed := Take(b, m, SQUAWK, p[SQUAWK], changed);
      changed := Take(b, m, ALERT, p[ALERT], changed);
      changed := Take(b, m, EMERGENCY, p[EMERGENCY], changed);
      changed := Take(b, m, SPI, p[SPI], changed);
      changed := Take(b, m, ON_GROUND, p[ON_GROUND], changed);
      var hasPosition := p[LAT].Some? && p[LON].Some?;
      changed := Take(b, m, POSITION_TS, if hasPosition then Some(At(m.ts)) else None, changed);
    }

    /** The part of `apply` that every message does: who heard the aircraft, and when. */
    method Hear(m: Decoded)
      requires Ascending(StringLess, snap.stations)
      modifies this`snap
      ensures snap == Heard(old(snap), m) && Ascending(StringLess, snap.stations)
    {
      AddStationAscends(snap.stations, m.stationId);
      if snap.firstSeen == None || m.ts < snap.firstSeen.value {
        snap := snap.(firstSeen := Some(m.ts));
      }
      if snap.lastSeen == None || snap.lastSeen.value < m.ts {
        snap := snap.(lastSeen := Some(m.ts));
      }
      snap := snap.(messages := snap.messages + 1);
      var found := BinarySearch(snap.stations, m.stationId);
      if found < 0 {
        snap := snap.(stations := Sort(StringLess, snap.stations + [m.stationId]));
      }
    }

    /** Merges one message and reports whether it changed anything. */
    method Apply(m: Decoded) returns (changed: bool)
      requires Valid()
      modifies this`snap, this`dirty, fieldTs
      ensures Valid() && View() == Merge(old(View()), m)
      ensures changed <==> Changes(old(View()), m)
    {
      Hear(m);
      ghost var b := View();
      assert b == MergedBelow(b, m, 0);
      changed := TakeAll(b, m);
      dirty := !changed;
      assert snap.fields == Merge(b, m).snap.fields && fieldTs[..] == Merge(b, m).fieldTs;
    }

    /** Silent for longer than expireMs of processing time. */
    predicate Expired(nowMs: int, expireMs: int)
      reads this
    {
      nowMs - heardMs > expireMs
    }
  }

  lemma AddStationAscends(stations: seq<string>, id: string)
    requires Ascending(StringLess, stations)
    ensures Ascending(StringLess, AddStation(stations, id))
    ensures forall x :: x in AddStation(stations, id) <==> x in stations || x == id
  {
    StringLessIsStrictTotal();
    if id !in stations {
      assert (stations + [id])[..|stations|] == stations;
      SortAscending(StringLess, stations);
      InsertAscends(StringLess, stations, id);
    }
  }
}
