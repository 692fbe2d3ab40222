/** The poll, decode, batch, flush, commit loop that drains a topic into durable storage, and the process around it,
    which may die anywhere and starts again from the committed offsets. */
module Consume {
  datatype Place = Place(partition: int, offset: int)

  type Offsets = map<int, nat>

  function At(m: Offsets, p: int): nat { if p in m then m[p] else 0 }

  /** How a flush of a non-empty batch ends: stored and committed, or in an error or a crash that left only some of the
      batch stored, in the order given, and nothing committed. */
  datatype Flush = Done | Lost(stored: seq<Place>)

  /** One turn of the loop: the partitions of the records polled, in order; whether the context is cancelled, the poll
      itself failed, or the flush interval is over; and how a flush would end. */
  datatype Round = Round(fetched: seq<int>, cancelled: bool, pollFailed: bool, due: bool, flush: Flush)

  /** `position` is what has been polled, `pending` what has been decoded since the last flush, `writes` what each flush
      put into the store. */
  datatype Consumer = Consumer(
    committed: Offsets,
    position: Offsets,
    pending: seq<Place>,
    writes: seq<seq<Place>>,
    running: bool)

  const FRESH := Consumer(map[], map[], [], [], true)

  datatype Polled = Polled(position: Offsets, pending: seq<Place>, failed: bool)

  /** Everything a poll returns counts as polled; decoding stops at the first record that fails. */
  function Poll(fatal: Place -> bool, position: Offsets, pending: seq<Place>, fetched: seq<int>): Polled {
    if fetched == [] then Polled(position, pending, false)
    else
      var r := Poll(fatal, position, pending, fetched[..|fetched| - 1]);
      var p := fetched[|fetched| - 1];
      var place := Place(p, At(r.position, p));
      var further := r.position[p := At(r.position, p) + 1];
      if r.failed || fatal(place) then Polled(further, r.pending, true) else Polled(further, r.pending + [place], false)
  }

  /** Store the batch, then commit everything polled. An empty batch does neither. */
  function Flushed(c: Consumer, flush: Flush): Consumer {
    if c.pending == [] then c
    else
      match flush
      case Done => c.(writes := c.writes + [c.pending], committed := c.position, pending := [])
      case Lost(stored) => c.(writes := c.writes + [stored], running := false)
  }

  function DoRound(fatal: Place -> bool, flushRecords: int, c: Consumer, r: Round): Consumer {
    if !c.running then c
    else
      var polled := Poll(fatal, c.position, c.pending, r.fetched);
      var c1 := c.(position := polled.position, pending := polled.pending);
      if polled.failed then c1.(running := false)
      else if r.cancelled then Flushed(c1, r.flush).(running := false)
      else if r.pollFailed then c1.(running := false)
      else if |c1.pending| >= flushRecords || r.due then Flushed(c1, r.flush)
      else c1
  }

  function DoRounds(fatal: Place -> bool, flushRecords: int, c: Consumer, rounds: seq<Round>): Consumer {
    if rounds == [] then c
    else DoRound(fatal, flushRecords, DoRounds(fatal, flushRecords, c, rounds[..|rounds| - 1]), rounds[|rounds| - 1])
  }

  /** The consumer's client and the store behind it. */
  class Worker {
    const fatal: Place -> bool
    const flushRecords: int
    var committed: Offsets
    var position: Offsets
    var writes: seq<seq<Place>>

    constructor (fatal: Place -> bool, flushRecords: int)
      ensures this.fatal == fatal && this.flushRecords == flushRecords && View([], true) == FRESH
    {
      this.fatal, this.flushRecords := fatal, flushRecords;
      committed, position, writes := map[], map[], [];
    }

    ghost function View(pending: seq<Place>, running: bool): Consumer
      reads this
    {
      Consumer(committed, position, pending, writes, running)
    }

    method FlushBatch(pending: seq<Place>, flush: Flush) returns (ok: bool)
      modifies this`writes, this`committed
      ensures View(if ok then [] else pending, ok) == Flushed(old(View(pending, true)), flush)
    {
      if pending == [] {
        return true;
      }
      if flush.Lost? {
        writes := writes + [flush.stored];
        return false;
      }
      writes := writes + [pending];
      committed := position;
      ok := true;
    }

    /** Decodes what one poll returned, up to the first record that fails. */
    method DecodePolled(fetched: seq<int>, pending: seq<Place>) returns (more: seq<Place>, failed: bool)
      modifies this`position
      ensures Polled(position, more, failed) == Poll(fatal, old(position), pending, fetched)
    {
      more, failed := pending, false;
      for k := 0 to |fetched|
        invariant Polled(position, more, failed) == Poll(fatal, old(position), pending, fetched[..k])
      {
        assert fetched[..k + 1][..k] == fetched[..k];
        var p := fetched[k];
        var place := Place(p, At(position, p));
        position := position[p := At(position, p) + 1];
        if !failed {
          if fatal(place) {
            failed := true;
          } else {
            more := more + [place];
          }
        }
      }
      assert fetched[..|fetched|] == fetched;
    }

    /** The loop, over any rounds; it leaves when one of them ends it. */
    method Batch(rounds: seq<Round>) returns (pending: seq<Place>, running: bool)
      modifies this
      ensures View(pending, running) == DoRounds(fatal, flushRecords, old(View([], true)), rounds)
    {
      hide Poll;
      pending, running := [], true;
      ghost var start := View([], true);
      for i := 0 to |rounds|
        invariant View(pending, running) == DoRounds(fatal, flushRecords, start, rounds[..i])
      {
        assert rounds[..i + 1][..i] == rounds[..i];
        if running {
          var r := rounds[i];
          var failed;
          pending, failed := DecodePolled(r.fetched, pending);
          if failed {
            running := false;
          } else if r.cancelled {
            var ok := FlushBatch(pending, r.flush);
            if ok { pending := []; }
            running := false;
          } else if r.pollFailed {
            running := false;
          } else if |pending| >= flushRecords || r.due {
            running := FlushBatch(pending, r.flush);
            if running { pending := []; }
          }
        }
      }
      assert rounds[..|rounds|] == rounds;
    }
  }

  // --- Whole lives of a consumer ---

  datatype Step = Turn(round: Round) | Restart

  function Do(fatal: Place -> bool, flushRecords: int, c: Consumer, s: Step): Consumer {
    match s
    case Turn(r) => DoRound(fatal, flushRecords, c, r)
    case Restart => c.(position := c.committed, pending := [], running := true)
  }

  function Run(fatal: Place -> bool, flushRecords: int, steps: seq<Step>): Consumer {
    if steps == [] then FRESH
    else Do(fatal, flushRecords, Run(fatal, flushRecords, steps[..|steps| - 1]), steps[|steps| - 1])
  }

  /** What the client and the store may do: a poll returns no more than it was asked for (no limit when that is not
      positive), and a flush stores nothing outside its batch. */
  predicate Legal(fatal: Place -> bool, flushRecords: int, c: Consumer, s: Step) {
    s.Turn? ==>
      && (0 < flushRecords - |c.pending| ==> |s.round.fetched| <= flushRecords - |c.pending|)
      && (s.round.flush.Lost? ==>
            var batch := Poll(fatal, c.position, c.pending, s.round.fetched).pending;
            |s.round.flush.stored| <= |batch| && forall x :: x in s.round.flush.stored ==> x in batch)
  }

  predicate LegalRun(fatal: Place -> bool, flushRecords: int, steps: seq<Step>) {
    steps == [] ||
    var front := steps[..|steps| - 1];
    LegalRun(fatal, flushRecords, front) &&
    Legal(fatal, flushRecords, Run(fatal, flushRecords, front), steps[|steps| - 1])
  }

  ghost predicate Stored(c: Consumer, x: Place) { exists i :: 0 <= i < |c.writes| && x in c.writes[i] }

  /** Every place polled and not committed is pending, and nothing that fails to decode is. */
  ghost predicate Accounted(fatal: Place -> bool, committed: Offsets, position: Offsets, pending: seq<Place>) {
    && (forall p :: At(committed, p) <= At(position, p))
    && (forall p, o :: At(committed, p) <= o < At(position, p) ==> Place(p, o) in pending)
    && (forall x :: x in pending ==> !fatal(x) && At(committed, x.partition) <= x.offset < At(position, x.partition))
  }

  /** Every offset below a commit is stored, and decoded. */
  ghost predicate CommitsAreStored(fatal: Place -> bool, c: Consumer) {
    forall p, o :: 0 <= o < At(c.committed, p) ==> Stored(c, Place(p, o)) && !fatal(Place(p, o))
  }

  ghost predicate WritesFit(fatal: Place -> bool, flushRecords: int, c: Consumer) {
    forall w :: w in c.writes ==> (forall x :: x in w ==> !fatal(x)) && (0 < flushRecords ==> |w| <= flushRecords)
  }

  ghost predicate Safe(fatal: Place -> bool, flushRecords: int, c: Consumer) {
    && CommitsAreStored(fatal, c) && WritesFit(fatal, flushRecords, c)
    && (c.running ==> Accounted(fatal, c.committed, c.position, c.pending))
    && (c.running && 0 < flushRecords ==> |c.pending| < flushRecords)
  }

  lemma AccountedDecodes(fatal: Place -> bool, committed: Offsets, position: Offsets, pending: seq<Place>)
    requires Accounted(fatal, committed, position, pending)
    ensures forall x :: x in pending ==> !fatal(x)
  {
  }

  lemma {:induction false} PollAccounts(fatal: Place -> bool, committed: Offsets, position: Offsets,
                                        pending: seq<Place>, fetched: seq<int>)
    requires Accounted(fatal, committed, position, pending)
    ensures var r := Poll(fatal, position, pending, fetched);
            && |r.pending| <= |pending| + |fetched|
            && (!r.failed ==> Accounted(fatal, committed, r.position, r.pending))
            && (forall x :: x in r.pending ==> !fatal(x))
  {
    hide Accounted;
    if fetched == [] {
      AccountedDecodes(fatal, committed, position, pending);
    } else {
      var front, p := fetched[..|fetched| - 1], fetched[|fetched| - 1];
      PollAccounts(fatal, committed, position, pending, front);
      var r := Poll(fatal, position, pending, front);
      if !r.failed && !fatal(Place(p, At(r.position, p))) { OneMore(fatal, committed, r.position, r.pending, p); }
    }
  }

  lemma OneMore(fatal: Place -> bool, committed: Offsets, position: Offsets, pending: seq<Place>, p: int)
    requires Accounted(fatal, committed, position, pending) && !fatal(Place(p, At(position, p)))
    ensures Accounted(fatal, committed, position[p := At(position, p) + 1], pending + [Place(p, At(position, p))])
  {
    var here := Place(p, At(position, p));
    var further, more := position[p := At(position, p) + 1], pending + [here];
    forall q, o | At(committed, q) <= o < At(further, q) ensures Place(q, o) in more {
      if Place(q, o) != here { assert Place(q, o) in pending; }
    }
    forall x | x in more ensures !fatal(x) && At(committed, x.partition) <= x.offset < At(further, x.partition) {
      assert x in pending || x == here;
    }
  }

  lemma StoredGrows(c: Consumer, w: seq<Place>, x: Place)
    ensures Stored(c.(writes := c.writes + [w]), x) <==> Stored(c, x) || x in w
  {
    var more := c.(writes := c.writes + [w]);
    if Stored(c, x) {
      var i :| 0 <= i < |c.writes| && x in c.writes[i];
      assert x in more.writes[i];
    }
    if x in w { assert x in more.writes[|c.writes|]; }
  }

  lemma FlushIsSafe(fatal: Place -> bool, flushRecords: int, c: Consumer, flush: Flush)
    requires CommitsAreStored(fatal, c) && WritesFit(fatal, flushRecords, c) && c.running
    requires Accounted(fatal, c.committed, c.position, c.pending) && (0 < flushRecords ==> |c.pending| <= flushRecords)
    requires flush.Lost? ==> |flush.stored| <= |c.pending| && forall x :: x in flush.stored ==> x in c.pending
    ensures Safe(fatal, flushRecords, Flushed(c, flush))
  {
    var r := Flushed(c, flush);
    if c.pending != [] {
      var w := r.writes[|c.writes|];
      forall p, o | 0 <= o < At(r.committed, p) ensures Stored(r, Place(p, o)) && !fatal(Place(p, o)) {
        StoredGrows(c, w, Place(p, o));
        assert Stored(r, Place(p, o)) <==> Stored(c.(writes := c.writes + [w]), Place(p, o));
        if o >= At(c.committed, p) { assert Place(p, o) in c.pending; }
      }
      assert WritesFit(fatal, flushRecords, r);
    }
  }

  lemma SameStore(fatal: Place -> bool, flushRecords: int, c: Consumer, d: Consumer)
    requires CommitsAreStored(fatal, c) && WritesFit(fatal, flushRecords, c)
    requires d.committed == c.committed && d.writes == c.writes
    ensures CommitsAreStored(fatal, d) && WritesFit(fatal, flushRecords, d)
  {
    forall x | Stored(c, x) ensures Stored(d, x) {}
  }

  lemma RoundIsSafe(fatal: Place -> bool, flushRecords: int, c: Consumer, s: Step)
    requires Safe(fatal, flushRecords, c) && Legal(fatal, flushRecords, c, s)
    ensures Safe(fatal, flushRecords, Do(fatal, flushRecords, c, s))
  {
    SameStore(fatal, flushRecords, c, Do(fatal, flushRecords, c, Restart));
    if s.Turn? && c.running {
      hide Poll, Accounted, Flushed, CommitsAreStored, WritesFit;
      PollAccounts(fatal, c.committed, c.position, c.pending, s.round.fetched);
      var polled := Poll(fatal, c.position, c.pending, s.round.fetched);
      var c1 := c.(position := polled.position, pending := polled.pending);
      SameStore(fatal, flushRecords, c, c1);
      if !polled.failed { FlushIsSafe(fatal, flushRecords, c1, s.round.flush); }
      var f := Flushed(c1, s.round.flush);
      SameStore(fatal, flushRecords, c, c1.(running := false));
      if !polled.failed { SameStore(fatal, flushRecords, f, f.(running := false)); }
    }
  }

  /** Over every run, with crashes and restarts anywhere: what is committed is stored, a record that fails to decode is
      never passed, no flush exceeds its limit, and a poll asks for at least one record. */
  lemma {:induction false} OffsetsAreSafe(fatal: Place -> bool, flushRecords: int, steps: seq<Step>)
    requires LegalRun(fatal, flushRecords, steps)
    ensures Safe(fatal, flushRecords, Run(fatal, flushRecords, steps))
  {
    if steps != [] {
      OffsetsAreSafe(fatal, flushRecords, steps[..|steps| - 1]);
      RoundIsSafe(fatal, flushRecords, Run(fatal, flushRecords, steps[..|steps| - 1]), steps[|steps| - 1]);
    }
  }

  /** What is in hand when a turn may flush. */
  function InHand(fatal: Place -> bool, c: Consumer, s: Step): seq<Place> {
    if s.Turn? then Poll(fatal, c.position, c.pending, s.round.fetched).pending else []
  }

  /** A step stores and commits nothing, or it stores one more batch: all that is in hand, committing no more than that
      batch adds, or what a flush cut short got to, committing nothing. */
  lemma StepStores(fatal: Place -> bool, flushRecords: int, c: Consumer, s: Step)
    requires Safe(fatal, flushRecords, c) && Legal(fatal, flushRecords, c, s)
    ensures forall p :: At(c.committed, p) <= At(Do(fatal, flushRecords, c, s).committed, p)
    ensures var d := Do(fatal, flushRecords, c, s);
            || (d.writes == c.writes && d.committed == c.committed)
            || (s.Turn? && s.round.flush.Lost? && d.writes == c.writes + [s.round.flush.stored] &&
                d.committed == c.committed)
            || (d.writes == c.writes + [InHand(fatal, c, s)] &&
                forall x: Place :: 0 <= x.offset < At(d.committed, x.partition) ==>
                  x.offset < At(c.committed, x.partition) || x in InHand(fatal, c, s))
  {
    if s.Turn? && c.running {
      PollAccounts(fatal, c.committed, c.position, c.pending, s.round.fetched);
      hide Poll;
    }
  }

  /** A poll moves each partition on by the records polled of it, and fails exactly if one of them does. */
  lemma {:induction false} PollAdvances(fatal: Place -> bool, position: Offsets, pending: seq<Place>, fetched: seq<int>)
    ensures var r := Poll(fatal, position, pending, fetched);
            && (forall p :: At(r.position, p) == At(position, p) + multiset(fetched)[p])
            && (!r.failed ==> |r.pending| == |pending| + |fetched|)
            && (r.failed <==> FatalBetween(fatal, position, r.position))
  {
    if fetched != [] {
      var front, p := fetched[..|fetched| - 1], fetched[|fetched| - 1];
      assert fetched == front + [p];
      PollAdvances(fatal, position, pending, front);
      FatalAtNext(fatal, position, Poll(fatal, position, pending, front).position, p);
      hide FatalBetween;
    }
  }

  ghost predicate FatalBetween(fatal: Place -> bool, from: Offsets, to: Offsets) {
    exists p, o :: At(from, p) <= o < At(to, p) && fatal(Place(p, o))
  }

  lemma FatalAtNext(fatal: Place -> bool, from: Offsets, to: Offsets, p: int)
    requires At(from, p) <= At(to, p)
    ensures FatalBetween(fatal, from, to[p := At(to, p) + 1])
       <==> FatalBetween(fatal, from, to) || fatal(Place(p, At(to, p)))
  {
    var further := to[p := At(to, p) + 1];
    if q, o :| At(from, q) <= o < At(to, q) && fatal(Place(q, o)) { assert o < At(further, q); }
    if fatal(Place(p, At(to, p))) { assert At(from, p) <= At(to, p) < At(further, p); }
  }

  /** Everything polled has been stored and committed. */
  ghost predicate AllCommitted(c: Consumer) {
    && (forall p :: At(c.committed, p) == At(c.position, p))
    && (forall p, o :: 0 <= o < At(c.position, p) ==> Stored(c, Place(p, o)))
  }

  predicate Quiet(c: Consumer, d: Consumer) { d.writes == c.writes && d.committed == c.committed }

  /** A flush that ends well leaves everything polled committed, one that does not leaves nothing more so. */
  lemma FlushOutcome(fatal: Place -> bool, c: Consumer, flush: Flush)
    requires Accounted(fatal, c.committed, c.position, c.pending)
    ensures var f := Flushed(c, flush);
            && f.position == c.position
            && if flush.Done? || c.pending == []
               then (forall p :: At(f.committed, p) == At(c.position, p)) && f.running == c.running
               else f.writes == c.writes + [flush.stored] && f.committed == c.committed && !f.running
  {
    if c.pending == [] {
      forall p ensures At(c.committed, p) == At(c.position, p) {
        assert Place(p, At(c.committed, p)) !in c.pending;
      }
    }
  }

  /** What a turn must do: see `TurnOutcome`. */
  ghost predicate Outcome(fatal: Place -> bool, flushRecords: int, c: Consumer, r: Round, d: Consumer) {
    var inHand := |c.pending| + |r.fetched|;
    && (forall p :: At(d.position, p) == At(c.position, p) + multiset(r.fetched)[p])
    && if FatalBetween(fatal, c.position, d.position) || (r.pollFailed && !r.cancelled) then Quiet(c, d) && !d.running
       else if r.cancelled || r.due || inHand >= flushRecords then
         if r.flush.Done? || inHand == 0
         then (forall p :: At(d.committed, p) == At(d.position, p)) && d.running == !r.cancelled
         else d.writes == c.writes + [r.flush.stored] && d.committed == c.committed && !d.running
       else Quiet(c, d) && d.running
  }

  lemma RoundOutcome(fatal: Place -> bool, flushRecords: int, c: Consumer, r: Round)
    requires c.running && Accounted(fatal, c.committed, c.position, c.pending)
    ensures Outcome(fatal, flushRecords, c, r, DoRound(fatal, flushRecords, c, r))
  {
    PollAccounts(fatal, c.committed, c.position, c.pending, r.fetched);
    PollAdvances(fatal, c.position, c.pending, r.fetched);
    var polled := Poll(fatal, c.position, c.pending, r.fetched);
    DecodedOutcome(fatal, flushRecords, c, r, c.(position := polled.position, pending := polled.pending));
    hide Poll, FatalBetween, Flushed, Accounted, Outcome, Quiet;
    if polled.failed {
      FailedOutcome(fatal, flushRecords, c, r, c.(position := polled.position, pending := polled.pending));
    }
  }

  /** A turn that stops at a record that fails to decode. */
  lemma FailedOutcome(fatal: Place -> bool, flushRecords: int, c: Consumer, r: Round, c1: Consumer)
    requires forall p :: At(c1.position, p) == At(c.position, p) + multiset(r.fetched)[p]
    requires Quiet(c, c1) && FatalBetween(fatal, c.position, c1.position)
    ensures Outcome(fatal, flushRecords, c, r, c1.(running := false))
  {
    hide At;
  }

  /** A turn whose records all decode, `c1` holding them. */
  lemma DecodedOutcome(fatal: Place -> bool, flushRecords: int, c: Consumer, r: Round, c1: Consumer)
    requires forall p :: At(c1.position, p) == At(c.position, p) + multiset(r.fetched)[p]
    requires Quiet(c, c1) && c1.running
    ensures !FatalBetween(fatal, c.position, c1.position) && |c1.pending| == |c.pending| + |r.fetched| &&
            Accounted(fatal, c1.committed, c1.position, c1.pending) ==>
              var f := Flushed(c1, r.flush);
              var d := if r.cancelled then f.(running := false)
                       else if r.pollFailed then c1.(running := false)
                       else if |c1.pending| >= flushRecords || r.due then f
                       else c1;
              Outcome(fatal, flushRecords, c, r, d)
  {
    if !FatalBetween(fatal, c.position, c1.position) && Accounted(fatal, c1.committed, c1.position, c1.pending) {
      FlushOutcome(fatal, c1, r.flush);
      hide FatalBetween, Accounted, Flushed, At;
    }
  }

  /** What a turn must do, over every run. A record that fails to decode, or a failed poll, ends the loop with nothing
      stored. Otherwise, when the context is cancelled, the interval is over, or as many records as the limit are in
      hand, everything polled is stored and committed, unless the flush fails, which commits nothing and ends the loop;
      when none is so, nothing is stored and the loop goes on. */
  lemma TurnOutcome(fatal: Place -> bool, flushRecords: int, steps: seq<Step>, r: Round)
    requires LegalRun(fatal, flushRecords, steps + [Turn(r)]) && Run(fatal, flushRecords, steps).running
    ensures var c, d := Run(fatal, flushRecords, steps), Run(fatal, flushRecords, steps + [Turn(r)]);
            && Outcome(fatal, flushRecords, c, r, d)
            && ((forall p :: At(d.committed, p) == At(d.position, p)) ==> AllCommitted(d))
  {
    hide Outcome, WritesFit, Stored, DoRound, Legal;
    var all := steps + [Turn(r)];
    assert all[..|steps|] == steps;
    OffsetsAreSafe(fatal, flushRecords, steps);
    OffsetsAreSafe(fatal, flushRecords, all);
    RoundOutcome(fatal, flushRecords, Run(fatal, flushRecords, steps), r);
  }
}
