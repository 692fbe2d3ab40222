/** The keyed fold: messages update an aircraft and may publish it; one processing-time timer per live aircraft
    sweeps it, republishing what is owed and retiring it once it has been silent too long. */
module StateFunction {
  import opened Wire
  import opened Order
  import opened AircraftState

  const SWEEP_MS := 10_000

  /** One record for aircraft.state: a snapshot, or a tombstone. */
  datatype StateOut = StateOut(icao: string, snapshot: Option<Snapshot>)

  /** A changed Snapshot stamped with the Event that changed it. */
  datatype Trace = Trace(snap: Snapshot, eventStationId: string, eventTs: Instant)

  /** The natural key of the trace table. */
  datatype TraceKey = TraceKey(eventStationId: string, eventTs: Instant, icao: string, lastSeen: Option<Instant>)

  function KeyOf(t: Trace): TraceKey { TraceKey(t.eventStationId, t.eventTs, t.snap.icao, t.snap.lastSeen) }

  datatype Timer = Timer(key: string, at: int)

  datatype Job = Job(
    expireMs: int,
    states: map<string, State>,
    timers: set<Timer>,
    out: seq<StateOut>,
    traces: seq<Trace>)

  function Start(expireMs: int): Job { Job(expireMs, map[], {}, [], []) }

  predicate Expired(a: State, nowMs: int, expireMs: int) { nowMs - a.heardMs > expireMs }

  function Known(j: Job, key: string): State {
    if key in j.states then j.states[key] else Create(key)
  }

  /** One message; `register` and `now` are the two readings of the processing clock. A message that names no
      aircraft is filtered out before the fold. */
  function Element(j: Job, m: Decoded, register: int, now: int): Job {
    if m.line.icao == None then j
    else
      var key := m.line.icao.value;
      var before := Known(j, key).(heardMs := now);
      var a := Merge(before, m);
      var changed := Changes(before, m);
      Job(j.expireMs,
          j.states[key := a],
          if key in j.states then j.timers else j.timers + {Timer(key, register + SWEEP_MS)},
          if changed then j.out + [StateOut(key, Some(a.snap))] else j.out,
          if changed then j.traces + [Trace(a.snap, m.stationId, m.ts)] else j.traces)
  }

  /** One timer going off, known to the job by its nominal time only. */
  function Fire(j: Job, t: Timer): Job {
    var rest := j.timers - {t};
    if t.key !in j.states then j.(timers := rest)
    else
      var a := j.states[t.key];
      if Expired(a, t.at, j.expireMs) then
        j.(states := j.states - {t.key}, timers := rest, out := j.out + [StateOut(t.key, None)])
      else
        Job(j.expireMs,
            if a.dirty then j.states[t.key := a.(dirty := false)] else j.states,
            rest + {Timer(t.key, t.at + SWEEP_MS)},
            if a.dirty then j.out + [StateOut(t.key, Some(a.snap))] else j.out,
            j.traces)
  }

  /** A live aircraft has exactly one pending timer, a key without state none. */
  ghost predicate OneTimerEach(j: Job) {
    && (forall t :: t in j.timers ==> t.key in j.states)
    && (forall k :: k in j.states ==> exists t :: t in j.timers && t.key == k)
    && (forall t, u :: t in j.timers && u in j.timers && t.key == u.key ==> t == u)
  }

  /** How long after the last message a pending timer can lie. */
  function Window(expireMs: int): int {
    (if expireMs < 0 then 0 else expireMs) + SWEEP_MS
  }

  ghost predicate TimersInReach(j: Job) {
    forall t :: t in j.timers && t.key in j.states ==> t.at <= j.states[t.key].heardMs + Window(j.expireMs)
  }

  lemma FireKeepsOneTimer(j: Job, t: Timer)
    requires OneTimerEach(j) && t in j.timers
    ensures OneTimerEach(Fire(j, t))
  {
    var r := Fire(j, t);
    var next := Timer(t.key, t.at + SWEEP_MS);
    forall u | u in r.timers ensures u.key in r.states && (u.key == t.key ==> u == next) {
      assert u == next || (u in j.timers && u != t);
    }
    forall k | k in r.states ensures exists u :: u in r.timers && u.key == k {
      if k == t.key {
        assert next in r.timers;
      } else {
        var u :| u in j.timers && u.key == k;
        assert u in r.timers;
      }
    }
    forall u, v | u in r.timers && v in r.timers && u.key == v.key ensures u == v {
      if u.key != t.key { assert u in j.timers && v in j.timers; }
    }
  }

  lemma FireKeepsReach(j: Job, t: Timer)
    requires TimersInReach(j) && t in j.timers
    ensures TimersInReach(Fire(j, t))
  {
    var r := Fire(j, t);
    forall u | u in r.timers && u.key in r.states ensures u.at <= r.states[u.key].heardMs + Window(r.expireMs) {
      assert u == Timer(t.key, t.at + SWEEP_MS) || u in j.timers;
    }
  }

  /** `r` is what some of `key`'s timers going off make of `j`: no trace, no other aircraft, no merged value. */
  ghost predicate SweptFrom(j: Job, r: Job, key: string) {
    && r.expireMs == j.expireMs && r.traces == j.traces
    && (forall k :: k != key ==> (k in r.states <==> k in j.states))
    && (forall k :: k != key && k in r.states ==> r.states[k] == j.states[k])
    && (key in r.states ==>
          key in j.states && SamePicture(r.states[key], j.states[key]) &&
          r.states[key].heardMs == j.states[key].heardMs)
  }

  /** `Timer(key, at)` is the pending timer of an aircraft that `j` became by sweeping. */
  ghost predicate Sweeping(j: Job, r: Job, key: string, at: int) {
    && OneTimerEach(r) && TimersInReach(r) && SweptFrom(j, r, key)
    && (key in r.states ==> Timer(key, at) in r.timers)
  }

  lemma FireSweeps(j: Job, r: Job, key: string, at: int)
    requires Sweeping(j, r, key, at) && Timer(key, at) in r.timers
    ensures Sweeping(j, Fire(r, Timer(key, at)), key, at + SWEEP_MS)
    ensures Fire(r, Timer(key, at)).expireMs == r.expireMs
    ensures key in Fire(r, Timer(key, at)).states <==> at - j.states[key].heardMs <= r.expireMs
    ensures key in Fire(r, Timer(key, at)).states ==> !Fire(r, Timer(key, at)).states[key].dirty
  {
    FireKeepsOneTimer(r, Timer(key, at));
    FireKeepsReach(r, Timer(key, at));
  }

  function Due(timers: set<Timer>, key: string, now: int): set<Timer> {
    set t | t in timers && t.key == key && t.at <= now
  }

  lemma NoneDueIff(timers: set<Timer>, key: string, now: int)
    ensures Due(timers, key, now) != {} <==> exists t :: t in timers && t.key == key && t.at <= now
  {
    if t :| t in timers && t.key == key && t.at <= now { assert t in Due(timers, key, now); }
    if Due(timers, key, now) != {} { var t :| t in Due(timers, key, now); }
  }

  lemma NextIsDue(j: Job, r: Job, key: string, at: int, now: int)
    requires Sweeping(j, r, key, at)
    ensures forall t :: t in Due(r.timers, key, now) ==>
        t == Timer(key, at) && t in r.timers && key in r.states && at <= now
  {
  }

  lemma NoneIsDue(j: Job, r: Job, key: string, at: int, now: int)
    requires Sweeping(j, r, key, at) && Due(r.timers, key, now) == {}
    ensures OneTimerEach(r) && TimersInReach(r) && SweptFrom(j, r, key)
    ensures forall t :: t in r.timers && t.key == key ==> now < t.at
    ensures key in j.states && now >= j.states[key].heardMs + Window(r.expireMs) ==> key !in r.states
  {
    forall t | t in r.timers && t.key == key ensures now < t.at {
      assert t !in Due(r.timers, key, now);
    }
  }

  lemma SweepingFrom(j: Job, key: string) returns (at: int)
    requires OneTimerEach(j) && TimersInReach(j)
    ensures Sweeping(j, j, key, at)
  {
    at := 0;
    if key in j.states {
      var t :| t in j.timers && t.key == key;
      at := t.at;
    }
  }

  class Operator {
    const expireMs: int
    var states: map<string, State>
    var timers: set<Timer>
    var out: seq<StateOut>
    var traces: seq<Trace>

    constructor (expireMs: int)
      ensures View() == Start(expireMs)
    {
      this.expireMs := expireMs;
      states, timers, out, traces := map[], {}, [], [];
    }

    ghost function View(): Job
      reads this
    {
      Job(expireMs, states, timers, out, traces)
    }

    ghost predicate Valid()
      reads this
    {
      forall k :: k in states ==> Ascending(StringLess, states[k].snap.stations)
    }

    method ProcessElement(m: Decoded, register: int, now: int)
      requires Valid() && m.line.icao.Some?
      modifies this
      ensures Valid() && View() == Element(old(View()), m, register, now)
    {
      var key := m.line.icao.value;
      var a := new Aircraft(if key in states then states[key] else Create(key));
      if key !in states {
        timers := timers + {Timer(key, register + SWEEP_MS)};
      }
      a.heardMs := now;
      assert a.View() == Known(old(View()), key).(heardMs := now);
      var changed := a.Apply(m);
      if changed {
        out := out + [StateOut(key, Some(a.snap))];
        traces := traces + [Trace(a.snap, m.stationId, m.ts)];
      }
      states := states[key := State(a.snap, a.fieldTs[..], a.dirty, a.heardMs)];
    }

    method OnTimer(t: Timer)
      requires Valid() && t in timers
      modifies this
      ensures Valid() && View() == Fire(old(View()), t)
    {
      timers := timers - {t};
      if t.key !in states {
        return;
      }
      var a := new Aircraft(states[t.key]);
      var expired := a.Expired(t.at, expireMs);
      if expired {
        out := out + [StateOut(t.key, None)];
        states := states - {t.key};
        return;
      }
      if a.dirty {
        a.dirty := false;
        out := out + [StateOut(t.key, Some(a.snap))];
        states := states[t.key := State(a.snap, a.fieldTs[..], a.dirty, a.heardMs)];
      }
      timers := timers + {Timer(t.key, t.at + SWEEP_MS)};
    }

    /** What the timer service does when the clock reads `now`: fires an aircraft's timers until none is due. It
        terminates, retires an aircraft silent for longer than the expiry window and a sweep, keeps one that was heard
        within the window, and leaves nothing owed of one it swept and kept. */
    method CatchUp(key: string, now: int)
      requires Valid() && OneTimerEach(View()) && TimersInReach(View())
      modifies this
      ensures Valid() && OneTimerEach(View()) && TimersInReach(View())
      ensures SweptFrom(old(View()), View(), key)
      ensures forall t :: t in timers && t.key == key ==> now < t.at
      ensures key in old(states) ==>
                var window := (if expireMs < 0 then 0 else expireMs) + 10_000;
                now >= old(states[key]).heardMs + window ==> key !in states
      ensures key in old(states) && now <= old(states[key]).heardMs + expireMs ==> key in states
      ensures (exists t :: t in old(timers) && t.key == key && t.at <= now) && key in states ==> !states[key].dirty
      ensures !(exists t :: t in old(timers) && t.key == key && t.at <= now) ==> View() == old(View())
    {
      hide Fire, Ascending, StringLess, Sweeping, OneTimerEach, TimersInReach, SweptFrom, Due;
      ghost var j := View();
      ghost var at := SweepingFrom(j, key);
      NextIsDue(j, j, key, at, now);
      var due := Due(timers, key, now);
      NoneDueIff(timers, key, now);
      ghost var swept := false;
      while due != {}
        invariant due == Due(timers, key, now) && Valid() && Sweeping(j, View(), key, at)
        invariant key in j.states && now <= j.states[key].heardMs + expireMs ==> key in states
        invariant swept || due != {} <==> Due(j.timers, key, now) != {}
        invariant if swept then key in states ==> !states[key].dirty else View() == j
        invariant forall t :: t in due ==> t == Timer(key, at) && t in timers && key in states && at <= now
        decreases if due != {} then now - at + 1 else 0
      {
        var t :| t in due;
        FireSweeps(j, View(), key, at);
        OnTimer(t);
        swept := true;
        at := at + SWEEP_MS;
        NextIsDue(j, View(), key, at, now);
        due := Due(timers, key, now);
        if u :| u in due { assert at <= now; }
      }
      NoneIsDue(j, View(), key, at, now);
    }
  }
}
