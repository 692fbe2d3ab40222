/** The history writer's crashes do not show in its table: each key holds the first record with it, as one clean pass
    over the topic would leave it. */
module Replayed {
  import opened Order
  import opened StateFunction
  import opened History
  import opened Consume

  function Flat(writes: seq<seq<Place>>): seq<Place> {
    if writes == [] then [] else Flat(writes[..|writes| - 1]) + writes[|writes| - 1]
  }

  /** A statement batch cut short has stored its first statements. */
  predicate PrefixFlush(fatal: Place -> bool, c: Consumer, s: Step) {
    s.Turn? && s.round.flush.Lost? ==>
      s.round.flush.stored <= Poll(fatal, c.position, c.pending, s.round.fetched).pending
  }

  predicate PrefixRun(fatal: Place -> bool, flushRecords: int, steps: seq<Step>) {
    steps == [] ||
    var front := steps[..|steps| - 1];
    PrefixRun(fatal, flushRecords, front) && PrefixFlush(fatal, Run(fatal, flushRecords, front), steps[|steps| - 1])
  }

  /** Before a place, all earlier offsets of its partition. */
  ghost predicate GapFree(w: seq<Place>) {
    forall i, o :: 0 <= i < |w| && 0 <= o < w[i].offset ==> Place(w[i].partition, o) in w[..i]
  }

  ghost predicate Reaches(w: seq<Place>, upto: Offsets) {
    forall p, o :: 0 <= o < At(upto, p) ==> Place(p, o) in w
  }

  ghost predicate Orderly(c: Consumer) {
    && GapFree(Flat(c.writes)) && Reaches(Flat(c.writes), c.committed)
    && (c.running ==> GapFree(Flat(c.writes) + c.pending) && Reaches(Flat(c.writes) + c.pending, c.position))
  }

  lemma {:induction false} PollKeepsOrder(fatal: Place -> bool, w: seq<Place>, position: Offsets, pending: seq<Place>,
                                          fetched: seq<int>)
    requires GapFree(w + pending) && Reaches(w + pending, position)
    ensures var r := Poll(fatal, position, pending, fetched);
            GapFree(w + r.pending) && (!r.failed ==> Reaches(w + r.pending, r.position))
  {
    if fetched != [] {
      var front, p := fetched[..|fetched| - 1], fetched[|fetched| - 1];
      PollKeepsOrder(fatal, w, position, pending, front);
      var r := Poll(fatal, position, pending, front);
      hide GapFree, Reaches;
      if !r.failed {
        OneMoreInOrder(w + r.pending, r.position, p);
        assert w + (r.pending + [Place(p, At(r.position, p))]) == w + r.pending + [Place(p, At(r.position, p))];
      }
    }
  }

  lemma OneMoreInOrder(w: seq<Place>, position: Offsets, p: int)
    requires GapFree(w) && Reaches(w, position)
    ensures GapFree(w + [Place(p, At(position, p))])
    ensures Reaches(w + [Place(p, At(position, p))], position[p := At(position, p) + 1])
  {
    var here := Place(p, At(position, p));
    var more := w + [here];
    forall i, o | 0 <= i < |more| && 0 <= o < more[i].offset ensures Place(more[i].partition, o) in more[..i] {
      assert more[..i] == if i < |w| then w[..i] else w;
    }
    forall q, o | 0 <= o < At(position[p := At(position, p) + 1], q) ensures Place(q, o) in more {
      if Place(q, o) != here { assert Place(q, o) in w; }
    }
  }

  lemma GapFreePrefix(a: seq<Place>, b: seq<Place>)
    requires GapFree(b) && a <= b
    ensures GapFree(a)
  {
    forall i, o | 0 <= i < |a| && 0 <= o < a[i].offset ensures Place(a[i].partition, o) in a[..i] {
      assert a[..i] == b[..i] && a[i] == b[i];
    }
  }

  lemma FlatSnoc(writes: seq<seq<Place>>, w: seq<Place>)
    ensures Flat(writes + [w]) == Flat(writes) + w
  {
    assert (writes + [w])[..|writes|] == writes;
  }

  lemma FlushKeepsOrder(c: Consumer, flush: Flush)
    requires Orderly(c) && c.running && (flush.Lost? ==> flush.stored <= c.pending)
    ensures Orderly(Flushed(c, flush)) && Orderly(Flushed(c, flush).(running := false))
  {
    if c.pending != [] {
      match flush
      case Done =>
        FlatSnoc(c.writes, c.pending);
        assert Flat(c.writes) + c.pending + [] == Flat(c.writes) + c.pending;
      case Lost(stored) =>
        FlatSnoc(c.writes, stored);
        GapFreePrefix(Flat(c.writes) + stored, Flat(c.writes) + c.pending);
    }
  }

  lemma StepKeepsOrder(fatal: Place -> bool, flushRecords: int, c: Consumer, s: Step)
    requires Orderly(c) && PrefixFlush(fatal, c, s)
    ensures Orderly(Do(fatal, flushRecords, c, s))
  {
    if s.Restart? {
      assert Flat(c.writes) + [] == Flat(c.writes);
    } else if c.running {
      PollKeepsOrder(fatal, Flat(c.writes), c.position, c.pending, s.round.fetched);
      var polled := Poll(fatal, c.position, c.pending, s.round.fetched);
      var c1 := c.(position := polled.position, pending := polled.pending);
      hide Poll, GapFree, Reaches, Flat, Flushed;
      if !polled.failed { FlushKeepsOrder(c1, s.round.flush); }
    }
  }

  /** What a crashing writer has put in the store never skips a record. */
  lemma {:induction false} RunIsOrderly(fatal: Place -> bool, flushRecords: int, steps: seq<Step>)
    requires PrefixRun(fatal, flushRecords, steps)
    ensures Orderly(Run(fatal, flushRecords, steps))
  {
    if steps != [] {
      var front := steps[..|steps| - 1];
      RunIsOrderly(fatal, flushRecords, front);
      hide Orderly;
      StepKeepsOrder(fatal, flushRecords, Run(fatal, flushRecords, front), steps[|steps| - 1]);
    }
  }

  /** The topic, record by record. */
  type Log = Place -> Trace

  function Rows(log: Log, w: seq<Place>): seq<Trace> {
    seq(|w|, i requires 0 <= i < |w| => log(w[i]))
  }

  /** The table a consumer has built. */
  function TableOf(log: Log, c: Consumer): Table { InsertAll(map[], Rows(log, Flat(c.writes))) }

  /** Records with this key are in one partition, as those of one aircraft are. */
  ghost predicate KeyStaysIn(log: Log, k: TraceKey, p: int) {
    forall x :: KeyOf(log(x)) == k ==> x.partition == p && x.offset >= 0
  }

  ghost predicate FirstRecord(log: Log, k: TraceKey, p: int, o: int) {
    0 <= o && KeyOf(log(Place(p, o))) == k && forall q :: 0 <= q < o ==> KeyOf(log(Place(p, q))) != k
  }

  /** Under each key that stays in its partition the table holds the topic's first record with it. */
  lemma TableHoldsFirstRecord(log: Log, w: seq<Place>, k: TraceKey, p: int)
    requires GapFree(w) && KeyStaysIn(log, k, p) && k in InsertAll(map[], Rows(log, w))
    ensures exists o :: FirstRecord(log, k, p, o) && InsertAll(map[], Rows(log, w))[k] == log(Place(p, o))
  {
    var rows := Rows(log, w);
    TableHoldsFirst(rows);
    hide InsertAll;
    var i :| FirstAt(rows, k, i) && InsertAll(map[], rows)[k] == rows[i];
    var x := w[i];
    assert KeyOf(log(x)) == k;
    forall q | 0 <= q < x.offset ensures KeyOf(log(Place(p, q))) != k {
      assert Place(p, q) in w[..i];
      var j :| 0 <= j < i && w[j] == Place(p, q);
      assert rows[j] == log(Place(p, q));
    }
    assert FirstRecord(log, k, p, x.offset);
  }

  /** Two writers of one topic that stored the same records, one through any crashes and one in a clean pass, built
      the same table. */
  lemma CrashesDoNotShow(fatal: Place -> bool, log: Log, n1: int, s1: seq<Step>, n2: int, s2: seq<Step>)
    requires PrefixRun(fatal, n1, s1) && PrefixRun(fatal, n2, s2)
    requires SameElements(Flat(Run(fatal, n1, s1).writes), Flat(Run(fatal, n2, s2).writes))
    requires forall x :: x in Flat(Run(fatal, n1, s1).writes) ==> KeyStaysIn(log, KeyOf(log(x)), x.partition)
    ensures TableOf(log, Run(fatal, n1, s1)) == TableOf(log, Run(fatal, n2, s2))
  {
    RunIsOrderly(fatal, n1, s1);
    RunIsOrderly(fatal, n2, s2);
    SameFirsts(log, Flat(Run(fatal, n1, s1).writes), Flat(Run(fatal, n2, s2).writes));
  }

  lemma SameFirsts(log: Log, a: seq<Place>, b: seq<Place>)
    requires GapFree(a) && GapFree(b) && SameElements(a, b)
    requires forall x :: x in a ==> KeyStaysIn(log, KeyOf(log(x)), x.partition)
    ensures InsertAll(map[], Rows(log, a)) == InsertAll(map[], Rows(log, b))
  {
    var s, t := InsertAll(map[], Rows(log, a)), InsertAll(map[], Rows(log, b));
    KeysOfPlaces(log, a);
    KeysOfPlaces(log, b);
    forall k ensures k in s <==> k in t {
      assert (exists x :: x in a && KeyOf(log(x)) == k) <==> (exists x :: x in b && KeyOf(log(x)) == k);
    }
    forall k | k in s ensures s[k] == t[k] {
      var x :| x in a && KeyOf(log(x)) == k;
      TableHoldsFirstRecord(log, a, k, x.partition);
      TableHoldsFirstRecord(log, b, k, x.partition);
    }
  }

  lemma KeysOfPlaces(log: Log, w: seq<Place>)
    ensures forall k :: k in InsertAll(map[], Rows(log, w)) <==> exists x :: x in w && KeyOf(log(x)) == k
  {
    var rows := Rows(log, w);
    TableHoldsFirst(rows);
    hide InsertAll;
    forall k ensures k in InsertAll(map[], rows) <==> exists x :: x in w && KeyOf(log(x)) == k {
      if k in InsertAll(map[], rows) {
        var i :| FirstAt(rows, k, i);
        assert w[i] in w && KeyOf(log(w[i])) == k;
      }
      if x :| x in w && KeyOf(log(x)) == k {
        var i :| 0 <= i < |w| && w[i] == x;
        assert rows[i] in rows;
      }
    }
  }

  /** A committed trace is in the table. */
  lemma CommittedIsInTheTable(fatal: Place -> bool, flushRecords: int, log: Log, steps: seq<Step>, x: Place)
    requires PrefixRun(fatal, flushRecords, steps)
    requires 0 <= x.offset < At(Run(fatal, flushRecords, steps).committed, x.partition)
    ensures KeyOf(log(x)) in TableOf(log, Run(fatal, flushRecords, steps))
  {
    RunIsOrderly(fatal, flushRecords, steps);
    KeysOfPlaces(log, Flat(Run(fatal, flushRecords, steps).writes));
  }
}
