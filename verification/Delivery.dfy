/** One station's delivery: ingest fills the buffer, publish posts its head and deletes it on a reply, the gateway
    produces a post's events before replying. Posts fail, replies get lost and processes restart at any point. */
module Delivery {
  import opened Wire
  import opened Buffer
  import opened StationDedup

  /** Where the publisher stands: between posts, in one with `produced` of its events on the topic, or holding the
      gateway's 200. */
  datatype Phase = Idle | Posting(batch: seq<Row>, produced: nat) | Replied(batch: seq<Row>)

  /** `accepted` is every row the buffer ever took, `topic` every event produced. */
  datatype Station = Station(table: Table, accepted: seq<Row>, phase: Phase, topic: seq<Row>)

  datatype Step =
    | Append(entries: seq<Entry>)  // ingest commits a batch of lines
    | Read(limit: int)             // publish takes the head of the queue and posts it
    | Produce                      // the broker has the post's next event
    | Fail                         // an error, a lost reply, a crash of either side
    | Reply                        // the 200, sent once the broker has every event
    | Ack                          // publish deletes the batch

  const FRESH := Station(Table([], 0), [], Idle, [])

  function Do(s: Station, step: Step): Station {
    match step
    case Append(entries) =>
      var t := Appended(s.table, entries);
      s.(table := t, accepted := s.accepted + t.rows[|s.table.rows|..])
    case Read(limit) =>
      if s.phase == Idle && Batch(s.table, limit) != [] then s.(phase := Posting(Batch(s.table, limit), 0)) else s
    case Produce =>
      if s.phase.Posting? && s.phase.produced < |s.phase.batch| then
        s.(phase := s.phase.(produced := s.phase.produced + 1), topic := s.topic + [s.phase.batch[s.phase.produced]])
      else s
    case Fail =>
      s.(phase := Idle)
    case Reply =>
      if s.phase.Posting? && s.phase.produced == |s.phase.batch| then s.(phase := Replied(s.phase.batch)) else s
    case Ack =>
      if s.phase.Replied? then s.(phase := Idle, table := Acked(s.table, s.phase.batch)) else s
  }

  function DoAll(s: Station, steps: seq<Step>): Station {
    if steps == [] then s else Do(DoAll(s, steps[..|steps| - 1]), steps[|steps| - 1])
  }

  function Run(steps: seq<Step>): Station { DoAll(FRESH, steps) }

  lemma DoAllSnoc(s: Station, steps: seq<Step>, step: Step)
    ensures DoAll(s, steps + [step]) == Do(DoAll(s, steps), step)
  {
    assert (steps + [step])[..|steps|] == steps;
  }

  function Produces(n: nat): seq<Step> { seq(n, _ => Produce) }

  lemma DoProduce(s: Station)
    requires s.phase.Posting? && s.phase.produced < |s.phase.batch|
    ensures Do(s, Produce) == s.(phase := Posting(s.phase.batch, s.phase.produced + 1),
                                 topic := s.topic + [s.phase.batch[s.phase.produced]])
  {
  }

  /** Producing `n` events of a post that has just begun. */
  lemma {:induction false} DoProduces(s: Station, n: nat)
    requires s.phase.Posting? && s.phase.produced == 0 && n <= |s.phase.batch|
    ensures DoAll(s, Produces(n)) == s.(phase := Posting(s.phase.batch, n), topic := s.topic + s.phase.batch[..n])
  {
    hide Do;
    if n == 0 {
      assert Produces(0) == [] && s.topic + s.phase.batch[..0] == s.topic;
    } else {
      hide DoAll;
      DoProduces(s, n - 1);
      assert Produces(n) == Produces(n - 1) + [Produce];
      DoAllSnoc(s, Produces(n - 1), Produce);
      hide Produces;
      OneMore(s.topic, s.phase.batch, n - 1);
      DoProduce(DoAll(s, Produces(n - 1)));
    }
  }

  lemma OneMore(topic: seq<Row>, batch: seq<Row>, k: nat)
    requires k < |batch|
    ensures topic + batch[..k] + [batch[k]] == topic + batch[..k + 1]
  {
  }

  lemma {:induction false} DoAllConcat(s: Station, a: seq<Step>, b: seq<Step>)
    ensures DoAll(s, a + b) == DoAll(DoAll(s, a), b)
  {
    hide Do;
    if b == [] {
      assert a + b == a;
    } else {
      DoAllConcat(s, a, b[..|b| - 1]);
      assert a + b == a + b[..|b| - 1] + [b[|b| - 1]];
      DoAllSnoc(s, a + b[..|b| - 1], b[|b| - 1]);
    }
  }

  // --- What every run keeps ---

  /** How many accepted rows have been acknowledged. */
  function Head(s: Station): int { |s.accepted| - |s.table.rows| }

  /** How many accepted rows have reached the topic at least once. */
  function High(topic: seq<Row>): int {
    if topic == [] then 0
    else
      var before := High(topic[..|topic| - 1]);
      if before < topic[|topic| - 1].id then topic[|topic| - 1].id else before
  }

  function Taken(s: Station): seq<Row> {
    match s.phase
    case Idle => []
    case Posting(batch, _) => batch
    case Replied(batch) => batch
  }

  /** The next accepted row the publisher will have on the topic. */
  function Cursor(s: Station): int {
    match s.phase
    case Idle => Head(s)
    case Posting(_, produced) => Head(s) + produced
    case Replied(batch) => Head(s) + |batch|
  }

  /** The buffer is the accepted rows not yet acknowledged, numbered without a gap; a post is the head of it; and
      the topic holds every accepted row before the cursor, so a row leaves the buffer only once it is there. */
  ghost predicate Conserved(s: Station) {
    && |s.table.rows| <= |s.accepted| == s.table.lastId
    && (forall i :: 0 <= i < |s.accepted| ==> s.accepted[i].id == i + 1)
    && s.table.rows == s.accepted[Head(s)..]
    && Taken(s) <= s.table.rows
    && (s.phase.Posting? ==> s.phase.produced <= |s.phase.batch|)
    && Cursor(s) <= High(s.topic) <= |s.accepted|
    && (forall r :: r in s.topic <==> r in s.accepted[..High(s.topic)])
  }

  lemma HighSnoc(topic: seq<Row>, r: Row)
    ensures High(topic + [r]) == (if High(topic) < r.id then r.id else High(topic))
  {
    assert (topic + [r])[..|topic|] == topic;
  }

  lemma AppendConserves(s: Station, entries: seq<Entry>)
    requires Conserved(s)
    ensures Conserved(Do(s, Append(entries))) && s.accepted <= Do(s, Append(entries)).accepted
    ensures Head(Do(s, Append(entries))) == Head(s)
  {
    var t := Appended(s.table, entries);
    var added := t.rows[|s.table.rows|..];
    var s' := Do(s, Append(entries));
    assert t.rows == s.table.rows + added;
    assert s'.accepted == s.accepted + added;
    assert s'.accepted[Head(s)..] == s.accepted[Head(s)..] + added;
    assert s'.accepted[..High(s.topic)] == s.accepted[..High(s.topic)];
  }

  lemma ProduceConserves(s: Station)
    requires Conserved(s) && s.phase.Posting? && s.phase.produced < |s.phase.batch|
    ensures Conserved(Do(s, Produce)) && Do(s, Produce).accepted == s.accepted
    ensures Cursor(s) < |s.accepted| && Cursor(Do(s, Produce)) == Cursor(s) + 1
    ensures Do(s, Produce).topic == s.topic + [s.accepted[Cursor(s)]]
    ensures High(Do(s, Produce).topic) == if High(s.topic) == Cursor(s) then High(s.topic) + 1 else High(s.topic)
  {
    var c, h := Cursor(s), High(s.topic);
    var r := s.accepted[c];
    assert s.table.rows[s.phase.produced] == r;
    HighSnoc(s.topic, r);
    if h == c {
      assert s.accepted[..h + 1] == s.accepted[..h] + [r];
    } else {
      assert r in s.accepted[..h];
    }
  }

  lemma AckConserves(s: Station)
    requires Conserved(s) && s.phase.Replied?
    ensures Conserved(Do(s, Ack)) && Head(Do(s, Ack)) == Cursor(s)
  {
    forall i | 0 <= i < |s.table.rows| ensures s.table.rows[i].id == s.table.lastId - |s.table.rows| + 1 + i {
      assert s.table.rows[i] == s.accepted[Head(s) + i];
    }
    AckTakesTheHead(s.table, s.phase.batch);
    assert s.table.rows[|s.phase.batch|..] == s.accepted[Cursor(s)..];
  }

  lemma DoConserves(s: Station, step: Step)
    requires Conserved(s)
    ensures Conserved(Do(s, step)) && s.accepted <= Do(s, step).accepted
  {
    match step
    case Append(entries) => AppendConserves(s, entries);
    case Produce => if s.phase.Posting? && s.phase.produced < |s.phase.batch| { ProduceConserves(s); }
    case Ack => if s.phase.Replied? { AckConserves(s); }
    case Read(_) =>
    case Fail =>
    case Reply =>
  }

  lemma {:induction false} BufferIsConserved(steps: seq<Step>)
    ensures Conserved(Run(steps))
  {
    if steps != [] {
      BufferIsConserved(steps[..|steps| - 1]);
      DoConserves(Run(steps[..|steps| - 1]), steps[|steps| - 1]);
    }
  }

  /** All that ingest was given to append. */
  function Given(steps: seq<Step>): seq<Entry> {
    if steps == [] then []
    else
      match steps[|steps| - 1]
      case Append(entries) => Given(steps[..|steps| - 1]) + entries
      case _ => Given(steps[..|steps| - 1])
  }

  /** Over every run what was accepted is exactly the non-blank lines given, in order, each with its time. */
  lemma {:induction false} AcceptedIsGiven(steps: seq<Step>)
    ensures var lines, rows := NonBlank(Given(steps)), Run(steps).accepted;
            |rows| == |lines| && forall i :: 0 <= i < |rows| ==> rows[i].ts == lines[i].0 && rows[i].raw == lines[i].1
  {
    hide NonBlank, Conserved;
    if steps == [] {
      NoEntries();
    } else {
      var front := steps[..|steps| - 1];
      AcceptedIsGiven(front);
      if steps[|steps| - 1].Append? { NonBlankConcat(Given(front), steps[|steps| - 1].entries); }
    }
  }

  // --- What the processor makes of the topic ---

  function EventOf(station: string, r: Row): Event { Event(station, r.ts, r.raw) }

  function Events(station: string, rows: seq<Row>): seq<Event> {
    seq(|rows|, i requires 0 <= i < |rows| => EventOf(station, rows[i]))
  }

  /** The messages the rows parse to. */
  function Parsed(parse: Parser, station: string, rows: seq<Row>): seq<Decoded> {
    DecodeAll(parse, Events(station, rows))
  }

  lemma ParsedConcat(parse: Parser, station: string, a: seq<Row>, b: seq<Row>)
    ensures Parsed(parse, station, a + b) == Parsed(parse, station, a) + Parsed(parse, station, b)
  {
    assert Events(station, a + b) == Events(station, a) + Events(station, b);
    DecodeAllConcat(parse, Events(station, a), Events(station, b));
  }

  lemma ParsedOne(parse: Parser, station: string, r: Row)
    ensures Parsed(parse, station, [r]) == match Decode(parse, EventOf(station, r)) case None => [] case Some(d) => [d]
  {
    assert Events(station, [r]) == [EventOf(station, r)];
    var events := [EventOf(station, r)];
    assert events[..0] == [] && DecodeAll(parse, []) == [];
    assert forall d: Decoded :: [] + [d] == [d];
  }

  function Upto(rows: seq<Row>, n: int): seq<Row> {
    if 0 <= n <= |rows| then rows[..n] else rows
  }

  /** What was accepted of a station's lines and has been on the topic, parsed. */
  function Published(parse: Parser, station: string, s: Station): seq<Decoded> {
    Parsed(parse, station, Upto(s.accepted, High(s.topic)))
  }

  /** `kept` ends with a message the next in a chain after `source` is not mistaken for a repeat of. */
  ghost predicate SameMark(kept: seq<Decoded>, source: seq<Decoded>) {
    if source == [] then kept == []
    else kept != [] && MarkOf(kept[|kept| - 1]) == MarkOf(source[|source| - 1])
  }

  ghost predicate SameNewest(kept: seq<Decoded>, source: seq<Decoded>) {
    if source == [] then kept == []
    else kept != [] && kept[|kept| - 1].ts == source[|source| - 1].ts
  }

  /** The filter's output is woven from the source; and where the cursor has passed all `n` of its messages, the
      filter holds the last one's mark. */
  ghost predicate ReadyAt(kept: seq<Decoded>, source: seq<Decoded>, n: int) {
    Woven(kept, source) && SameNewest(kept, source) && (n == |source| ==> SameMark(kept, source))
  }

  ghost predicate Ready(parse: Parser, station: string, s: Station)
    requires Conserved(s)
  {
    ReadyAt(Kept(Parsed(parse, station, s.topic)), Published(parse, station, s),
            |Parsed(parse, station, s.accepted[..Cursor(s)])|)
  }

  function Offered(kept: seq<Decoded>, d: Decoded): seq<Decoded> {
    if Repeats(LastMark(kept), d) then kept else kept + [d]
  }

  /** The next message of the source, offered for the first time, passes. */
  lemma OfferNext(kept: seq<Decoded>, source: seq<Decoded>, d: Decoded)
    requires ReadyAt(kept, source, |source|) && Chain(source + [d])
    ensures ReadyAt(Offered(kept, d), source + [d], |source| + 1) && Offered(kept, d) == kept + [d]
  {
    var n := |source|;
    if n > 0 {
      assert Follows((source + [d])[n - 1], (source + [d])[n]);
      assert MarkOf(kept[|kept| - 1]) == MarkOf(source[n - 1]);
    }
    assert (kept + [d])[..|kept|] == kept && (source + [d])[..n] == source;
  }

  /** A message offered again is dropped, or is woven in as a repeat. */
  lemma OfferAgain(kept: seq<Decoded>, source: seq<Decoded>, n: int)
    requires ReadyAt(kept, source, n) && Chain(source) && 0 <= n < |source|
    ensures ReadyAt(Offered(kept, source[n]), source, n + 1)
  {
    ChainRises(source, n, |source| - 1);
    assert (kept + [source[n]])[..|kept|] == kept;
  }

  /** What producing row `c` adds to the messages before the cursor, and to those published (the first `h` rows). */
  lemma ParsedStep(parse: Parser, station: string, rows: seq<Row>, c: int, h: int)
    requires 0 <= c <= h <= |rows| && c < |rows|
    ensures Parsed(parse, station, rows[..c + 1])
         == Parsed(parse, station, rows[..c]) + Parsed(parse, station, [rows[c]])
    ensures Parsed(parse, station, rows[..c]) <= Parsed(parse, station, rows[..h]) <= Parsed(parse, station, rows)
    ensures c < h ==> Parsed(parse, station, rows[..c + 1]) <= Parsed(parse, station, rows[..h])
    ensures Parsed(parse, station, rows[..c + 1]) <= Parsed(parse, station, rows)
  {
    assert rows[..c + 1] == rows[..c] + [rows[c]] && rows[..|rows|] == rows;
    ParsedConcat(parse, station, rows[..c], [rows[c]]);
    PrefixParsed(parse, station, rows, c, h);
    PrefixParsed(parse, station, rows, h, |rows|);
    PrefixParsed(parse, station, rows, c + 1, |rows|);
    if c < h { PrefixParsed(parse, station, rows, c + 1, h); }
  }

  lemma ProduceReady(parse: Parser, station: string, s: Station)
    requires Conserved(s) && s.phase.Posting? && s.phase.produced < |s.phase.batch|
    requires Chain(Parsed(parse, station, s.accepted)) && Ready(parse, station, s)
    ensures Conserved(Do(s, Produce)) && Ready(parse, station, Do(s, Produce))
  {
    hide Parsed, ReadyAt, Chain, Kept, Do;
    ProduceConserves(s);
    ProduceReadyAt(parse, station, s.accepted, s.topic, Cursor(s), High(s.topic));
  }

  lemma ProduceReadyAt(parse: Parser, station: string, rows: seq<Row>, topic: seq<Row>, c: int, h: int)
    requires 0 <= c <= h <= |rows| && c < |rows| && Chain(Parsed(parse, station, rows))
    requires ReadyAt(Kept(Parsed(parse, station, topic)), Parsed(parse, station, rows[..h]),
                     |Parsed(parse, station, rows[..c])|)
    ensures ReadyAt(Kept(Parsed(parse, station, topic + [rows[c]])),
                    Parsed(parse, station, rows[..if c == h then h + 1 else h]),
                    |Parsed(parse, station, rows[..c + 1])|)
  {
    hide Parsed, ReadyAt, Chain, Kept, Repeats;
    var messages, source, before := Parsed(parse, station, topic), Parsed(parse, station, rows[..h]),
        Parsed(parse, station, rows[..c]);
    ParsedConcat(parse, station, topic, [rows[c]]);
    ParsedOne(parse, station, rows[c]);
    ParsedStep(parse, station, rows, c, h);
    match Decode(parse, EventOf(station, rows[c]))
    case None =>
      assert messages + [] == messages && before + [] == before;
    case Some(d) =>
      KeptSnoc(messages, d);
      ChainPrefix(if c == h then source + [d] else source, Parsed(parse, station, rows));
      if c == h {
        OfferNext(Kept(messages), source, d);
      } else {
        assert source[|before|] == d;
        OfferAgain(Kept(messages), source, |before|);
      }
  }

  lemma ChainPrefix(a: seq<Decoded>, b: seq<Decoded>)
    requires a <= b && Chain(b)
    ensures Chain(a)
  {
    forall n | 0 < n < |a| ensures Follows(a[n - 1], a[n]) { assert Follows(b[n - 1], b[n]); }
  }

  lemma PrefixParsed(parse: Parser, station: string, rows: seq<Row>, i: int, j: int)
    requires 0 <= i <= j <= |rows|
    ensures Parsed(parse, station, rows[..i]) <= Parsed(parse, station, rows[..j])
  {
    assert rows[..j] == rows[..i] + rows[i..j];
    ParsedConcat(parse, station, rows[..i], rows[i..j]);
  }

  lemma DoReady(parse: Parser, station: string, s: Station, step: Step)
    requires Conserved(s) && Chain(Parsed(parse, station, s.accepted)) && Ready(parse, station, s)
    ensures Conserved(Do(s, step)) && Ready(parse, station, Do(s, step))
  {
    hide Parsed, ReadyAt, Chain, Kept, Conserved, Ready;
    match step
    case Append(entries) => AppendReady(parse, station, s, entries);
    case Produce => if s.phase.Posting? && s.phase.produced < |s.phase.batch| { ProduceReady(parse, station, s); }
    case Ack => AckReady(parse, station, s);
    case Fail => FailReady(parse, station, s);
    case Read(_) => QuietReady(parse, station, s, step);
    case Reply => QuietReady(parse, station, s, step);
  }

  lemma AppendReady(parse: Parser, station: string, s: Station, entries: seq<Entry>)
    requires Conserved(s) && Ready(parse, station, s)
    ensures Conserved(Do(s, Append(entries))) && Ready(parse, station, Do(s, Append(entries)))
  {
    hide Parsed, ReadyAt, Kept;
    var s' := Do(s, Append(entries));
    AppendConserves(s, entries);
    assert s'.accepted[..High(s.topic)] == s.accepted[..High(s.topic)];
    assert s'.accepted[..Cursor(s)] == s.accepted[..Cursor(s)];
  }

  lemma AckReady(parse: Parser, station: string, s: Station)
    requires Conserved(s) && Ready(parse, station, s)
    ensures Conserved(Do(s, Ack)) && Ready(parse, station, Do(s, Ack))
  {
    hide Parsed, ReadyAt, Kept;
    if s.phase.Replied? { AckConserves(s); }
  }

  lemma QuietReady(parse: Parser, station: string, s: Station, step: Step)
    requires Conserved(s) && Ready(parse, station, s) && (step.Read? || step.Reply?)
    ensures Conserved(Do(s, step)) && Ready(parse, station, Do(s, step))
  {
    hide Parsed, ReadyAt, Kept;
  }

  lemma FailReady(parse: Parser, station: string, s: Station)
    requires Conserved(s) && Ready(parse, station, s)
    ensures Conserved(Do(s, Fail)) && Ready(parse, station, Do(s, Fail))
  {
    hide Parsed, Kept;
    DoConserves(s, Fail);
    PrefixParsed(parse, station, s.accepted, Head(s), Cursor(s));
    PrefixParsed(parse, station, s.accepted, Cursor(s), High(s.topic));
  }

  lemma FreshIsReady(parse: Parser, station: string)
    ensures Conserved(FRESH) && Ready(parse, station, FRESH)
  {
    var none: seq<Row> := [];
    assert High(none) == 0 && none[..0] == none;
    assert ReadyAt(Kept([]), [], 0);
    assert Parsed(parse, station, none) == [] by {
      assert Events(station, none) == [];
    }
    hide Parsed, Kept, ReadyAt, High;
  }

  lemma {:induction false} RunIsReady(parse: Parser, station: string, steps: seq<Step>)
    requires Chain(Parsed(parse, station, Run(steps).accepted))
    ensures Conserved(Run(steps)) && Ready(parse, station, Run(steps))
  {
    hide Parsed, ReadyAt, Chain, Kept, Do, Ready, Conserved;
    if steps == [] {
      FreshIsReady(parse, station);
    } else {
      var front := Run(steps[..|steps| - 1]);
      BufferIsConserved(steps[..|steps| - 1]);
      DoConserves(front, steps[|steps| - 1]);
      var s := Run(steps);
      PrefixParsed(parse, station, s.accepted, |front.accepted|, |s.accepted|);
      assert s.accepted[..|front.accepted|] == front.accepted && s.accepted[..|s.accepted|] == s.accepted;
      ChainPrefix(Parsed(parse, station, front.accepted), Parsed(parse, station, s.accepted));
      RunIsReady(parse, station, steps[..|steps| - 1]);
      DoReady(parse, station, front, steps[|steps| - 1]);
    }
  }
}
