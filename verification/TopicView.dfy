/** A reader of the compacted topic: the latest record for each key, a null removing it. */
module TopicView {
  import opened Wire
  import opened AircraftState
  import opened StateFunction
  import opened Lifecycle

  /** A record's value as the reader sees it: a tombstone, a snapshot, or something that does not parse. */
  datatype Payload = Null | Json(snapshot: Snapshot) | Malformed

  type View = map<string, Snapshot>

  function Applied(view: View, icao: string, value: Payload): View {
    if icao == "" then view
    else match value
      case Null => view - {icao}
      case Json(s) => view[icao := s]
      case Malformed => view
  }

  class Map {
    var state: View

    constructor ()
      ensures state == map[]
    {
      state := map[];
    }

    method Fold(icao: string, value: Payload)
      modifies this
      ensures state == Applied(old(state), icao, value)
    {
      if icao == "" {
        return;
      }
      if value == Null {
        state := state - {icao};
        return;
      }
      if value.Json? {
        state := state[icao := value.snapshot];
      }
    }
  }

  /** What a reader makes of any records of the topic. */
  function Read(records: seq<(string, Payload)>): View {
    if records == [] then map[]
    else
      var last := records[|records| - 1];
      Applied(Read(records[..|records| - 1]), last.0, last.1)
  }

  /** The last record for the key that the reader understands. */
  ghost predicate LatestFor(records: seq<(string, Payload)>, key: string, k: int) {
    && 0 <= k < |records| && records[k].0 == key && records[k].1 != Malformed
    && (forall j :: k < j < |records| && records[j].0 == key ==> records[j].1 == Malformed)
  }

  /** Of each key a reader holds the latest snapshot it could read, unless a null came after it; a record it cannot read
      changes nothing, and one without a key is none. */
  lemma {:induction false} ReadIsLatest(records: seq<(string, Payload)>, key: string)
    ensures "" !in Read(records)
    ensures key != "" ==>
              (key in Read(records) <==> exists k :: LatestFor(records, key, k) && records[k].1.Json?)
    ensures key in Read(records) ==> exists k :: LatestFor(records, key, k) && records[k].1 == Json(Read(records)[key])
  {
    if records != [] {
      var n := |records| - 1;
      var front, last := records[..n], records[n];
      ReadIsLatest(front, key);
      assert records == front + [last];
      if last.0 == key && last.1 != Malformed {
        assert LatestFor(records, key, n);
        assert forall k :: LatestFor(records, key, k) ==> k == n;
      } else {
        forall k ensures LatestFor(records, key, k) <==> LatestFor(front, key, k) {
          if LatestFor(front, key, k) { assert forall j :: k < j < n ==> records[j] == front[j]; }
          if LatestFor(records, key, k) { assert forall j :: k < j < n ==> front[j] == records[j]; }
        }
      }
    }
  }

  function Encoded(o: StateOut): Payload {
    match o.snapshot
    case None => Null
    case Some(s) => Json(s)
  }

  /** What a reader holds after the whole topic. */
  function ViewOf(out: seq<StateOut>): View {
    if out == [] then map[]
    else Applied(ViewOf(out[..|out| - 1]), out[|out| - 1].icao, Encoded(out[|out| - 1]))
  }

  lemma ViewOfSnoc(out: seq<StateOut>, o: StateOut)
    ensures ViewOf(out + [o]) == Applied(ViewOf(out), o.icao, Encoded(o))
  {
    assert (out + [o])[..|out|] == out;
  }

  /** What the view says of one aircraft: exactly its snapshot if nothing is owed; otherwise its Payload and position
      time, as of fewer messages, or nothing at all while those are empty. */
  ghost predicate Shows(view: View, states: map<string, State>, key: string) {
    if key !in states then key !in view
    else if !states[key].dirty then key in view && view[key] == states[key].snap
    else if key in view then
      view[key].fields == states[key].snap.fields && view[key].messages < states[key].snap.messages
    else states[key].snap.fields == Create(key).snap.fields
  }

  ghost predicate ViewMatches(j: Job) {
    forall k :: k != "" ==> Shows(ViewOf(j.out), j.states, k)
  }

  /** A message published, or owed, about an aircraft. */
  lemma MergedShows(j: Job, m: Decoded, key: string, now: int)
    requires key != "" && Shows(ViewOf(j.out), j.states, key)
    ensures var before := Known(j, key).(heardMs := now);
            var a, states := Merge(before, m), j.states[key := Merge(before, m)];
            && (!Changes(before, m) ==> Shows(ViewOf(j.out), states, key))
            && (Changes(before, m) ==> Shows(ViewOf(j.out + [StateOut(key, Some(a.snap))]), states, key))
  {
    hide Merge, ViewOf, Create;
    var before := Known(j, key).(heardMs := now);
    MergeOwes(before, m);
    MergeHears(before, m);
    ViewOfSnoc(j.out, StateOut(key, Some(Merge(before, m).snap)));
  }

  lemma ElementShows(j: Job, m: Decoded, register: int, now: int)
    requires ViewMatches(j)
    ensures ViewMatches(Element(j, m, register, now))
  {
    hide Merge, Changes, ViewOf, Create;
    if m.line.icao.Some? {
      var r := Element(j, m, register, now);
      var key := m.line.icao.value;
      ViewOfSnoc(j.out, StateOut(key, Some(Merge(Known(j, key).(heardMs := now), m).snap)));
      forall k | k != "" ensures Shows(ViewOf(r.out), r.states, k) {
        assert Shows(ViewOf(j.out), j.states, k);
        if k == key { MergedShows(j, m, key, now); }
      }
    }
  }

  /** A merge owes a publication exactly when it changed nothing. */
  lemma MergeOwes(a: State, m: Decoded)
    ensures Merge(a, m).dirty <==> !Changes(a, m)
  {
  }

  lemma FireShows(j: Job, t: Timer)
    requires ViewMatches(j)
    ensures ViewMatches(Fire(j, t))
  {
    hide ViewOf, Create;
    var r := Fire(j, t);
    ViewOfSnoc(j.out, StateOut(t.key, None));
    if t.key in j.states { ViewOfSnoc(j.out, StateOut(t.key, Some(j.states[t.key].snap))); }
    forall k | k != "" ensures Shows(ViewOf(r.out), r.states, k) {
      assert Shows(ViewOf(j.out), j.states, k);
      if k == t.key && k in r.states {
        assert r.states[k].snap == j.states[k].snap && !r.states[k].dirty;
      }
    }
  }

  /** In every reachable state the topic, folded latest-per-key, is the current picture of the sky. */
  lemma {:induction false} TopicIsThePicture(expireMs: int, steps: seq<Step>)
    ensures ViewMatches(After(expireMs, steps))
  {
    if steps != [] {
      var front := steps[..|steps| - 1];
      TopicIsThePicture(expireMs, front);
      match steps[|steps| - 1]
      case Heard(m, register, now) => ElementShows(After(expireMs, front), m, register, now);
      case Swept(t, _) => FireShows(After(expireMs, front), t);
    }
  }

  /** In every reachable state, a timer that goes off and leaves its aircraft alive leaves the topic showing the whole
      snapshot: it publishes one exactly when the topic showed another, or none. */
  lemma SweepShowsAll(expireMs: int, steps: seq<Step>, t: Timer, now: int)
    requires var j := After(expireMs, steps);
             t.key != "" && t.key in j.states && t.key in Do(j, Swept(t, now)).states
    ensures var j, r := After(expireMs, steps), Do(After(expireMs, steps), Swept(t, now));
            && r.states[t.key].snap == j.states[t.key].snap
            && t.key in ViewOf(r.out) && ViewOf(r.out)[t.key] == r.states[t.key].snap
            && var shown := t.key in ViewOf(j.out) && ViewOf(j.out)[t.key] == j.states[t.key].snap;
            r.out == if shown then j.out else j.out + [StateOut(t.key, Some(j.states[t.key].snap))]
  {
    hide After, ViewOf;
    var j := After(expireMs, steps);
    TopicIsThePicture(expireMs, steps);
    assert Shows(ViewOf(j.out), j.states, t.key);
    ViewOfSnoc(j.out, StateOut(t.key, Some(j.states[t.key].snap)));
  }
}
