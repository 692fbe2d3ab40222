/** The ingest loop: lines are gathered in memory and written in batches, by count or by deadline. */
module Ingest {
  import opened Wire
  import opened Buffer

  /** What a read ends with: a line, nothing within the time asked for, the peer closing, or an exception. */
  datatype Heard = Got(line: string) | Silence | Closed | Broken

  /** One turn of the loop: the clock at its top, in the flush it may do, and when the line read is stamped. Past the
      script's end the process is told to stop, which is an exception too. */
  datatype Turn = Turn(top: Instant, flushed: Instant, heard: Heard, stamped: Instant)

  /** A read asked for: when, for how long, how many rows were found pending, and how many still are since which
      flush. */
  datatype Wait = Wait(at: Instant, time: int, found: nat, pending: nat, lastFlush: Instant)

  /** The lines read before the loop ends, each with its time. */
  function LinesRead(script: seq<Turn>): seq<Entry> {
    if script == [] then []
    else
      match script[0].heard
      case Got(line) => [(script[0].stamped, line)] + LinesRead(script[1..])
      case Silence => LinesRead(script[1..])
      case _ => []
  }

  /** The lines read are those of the turns before the end, each with the time the clock read once it was there. */
  lemma {:induction false} LinesAreStamped(script: seq<Turn>)
    ensures forall e :: e in LinesRead(script) <==> exists k :: StampedAt(script, e, k)
    ensures |LinesRead(script)| <= |script|
  {
    if script != [] {
      var rest := script[1..];
      LinesAreStamped(rest);
      var here := script[0].heard;
      if here == Closed || here == Broken {
        forall e, k ensures !StampedAt(script, e, k) {
          if 0 <= k < |script| { assert k > 0 ==> script[0].heard == here; }
        }
      } else {
        forall e, k
          ensures StampedAt(script, e, k)
             <==> (k == 0 && here == Got(e.1) && script[0].stamped == e.0) || StampedAt(rest, e, k - 1)
        {
          StampedLater(script, e, k);
        }
        forall e ensures e in LinesRead(script) <==> exists k :: StampedAt(script, e, k) {
          if here == Got(e.1) && script[0].stamped == e.0 { assert StampedAt(script, e, 0); }
          if k :| StampedAt(rest, e, k) { assert StampedAt(script, e, k + 1); }
        }
      }
    }
  }

  /** The line is that of turn `k`, stamped with its time, and no turn up to it ended the stream. */
  ghost predicate StampedAt(script: seq<Turn>, e: Entry, k: int) {
    && 0 <= k < |script| && script[k].heard == Got(e.1) && script[k].stamped == e.0
    && (forall j :: 0 <= j < k ==> script[j].heard.Got? || script[j].heard.Silence?)
  }

  lemma StampedLater(script: seq<Turn>, e: Entry, k: int)
    requires script != [] && (script[0].heard.Got? || script[0].heard.Silence?)
    ensures StampedAt(script, e, k)
       <==> (k == 0 && script[0].heard == Got(e.1) && script[0].stamped == e.0) || StampedAt(script[1..], e, k - 1)
  {
    var rest := script[1..];
    if StampedAt(rest, e, k - 1) {
      forall j | 0 <= j < k ensures script[j].heard.Got? || script[j].heard.Silence? {
        if j > 0 { assert rest[j - 1] == script[j]; }
      }
    }
    if StampedAt(script, e, k) && k > 0 {
      forall j | 0 <= j < k - 1 ensures rest[j].heard.Got? || rest[j].heard.Silence? {
        assert rest[j] == script[j + 1];
      }
    }
  }

  /** Whether the loop ends in an exception, rather than because the peer closed. */
  predicate Raises(script: seq<Turn>) {
    if script == [] then true
    else
      match script[0].heard
      case Closed => false
      case Broken => true
      case _ => Raises(script[1..])
  }

  /** The clock does not go back. */
  predicate Steady(start: Instant, script: seq<Turn>)
    decreases |script|
  {
    script == [] ||
    var t := script[0];
    start <= t.top <= t.flushed <= t.stamped && Steady(t.stamped, script[1..])
  }

  /** A wait is positive, at most a whole window, and never outlives the deadline of what is pending. */
  predicate Bounded(w: Wait, flushAfter: int) {
    0 < w.time <= flushAfter && (w.pending > 0 ==> w.at + w.time <= w.lastFlush + flushAfter)
  }

  ghost predicate AllBounded(waits: seq<Wait>, batchSize: int, flushAfter: int, steady: bool) {
    forall w :: w in waits ==> w.pending < Capacity(batchSize) && (steady && 0 < flushAfter ==> Bounded(w, flushAfter))
  }

  /** At each turn what is found pending, at most one line more than before, is written exactly when it is a batch or
      `flushAfter` has passed since the last write; then the read waits until that has passed again, or, with rows
      pending, would have passed. */
  predicate Punctual(waits: seq<Wait>, start: Instant, batchSize: int, flushAfter: int) {
    forall k :: 0 <= k < |waits| ==> OnTime(waits[k], Before(waits, k, start), batchSize, flushAfter)
  }

  /** The wait before the one at `k`; before the first, none with nothing pending. */
  function Before(waits: seq<Wait>, k: nat, start: Instant): Wait
    requires k <= |waits|
  {
    if k == 0 then Wait(start, 0, 0, 0, start) else waits[k - 1]
  }

  predicate OnTime(w: Wait, prev: Wait, batchSize: int, flushAfter: int) {
    && prev.pending <= w.found <= prev.pending + 1
    && w.time == (if w.pending == 0 then flushAfter else w.lastFlush + flushAfter - w.at)
    && if 0 < w.found && (batchSize <= w.found || flushAfter <= w.at - prev.lastFlush)
       then w.pending == 0
       else w.pending == w.found && w.lastFlush == prev.lastFlush
  }

  /** At most this many rows are ever pending. */
  function Capacity(batchSize: int): nat { if batchSize < 1 then 1 else batchSize }

  /** One connection's loop and what its closures share. */
  class Loop {
    const db: Db
    const batchSize: int
    const flushAfter: int
    var pending: seq<Entry>
    var written: nat
    var lastFlush: Instant
    var waits: seq<Wait>
    ghost const before: Table
    ghost var flushed: seq<Entry>

    /** The buffer has grown by the lines flushed, which with those pending are the lines read. */
    ghost predicate Valid(read: seq<Entry>)
      reads this, db
    {
      && flushed + pending == read
      && db.View() == Appended(before, flushed)
      && written == |NonBlank(flushed)|
      && |pending| <= Capacity(batchSize)
    }

    /** What the waits so far say of the state. */
    ghost predicate Tracked(start: Instant)
      reads this
    {
      && Punctual(waits, start, batchSize, flushAfter)
      && if waits == [] then pending == [] && lastFlush == start
         else
           var w := waits[|waits| - 1];
           lastFlush == w.lastFlush && w.pending <= |pending| <= w.pending + 1
    }

    constructor (start: Instant, db: Db, batchSize: int, flushAfter: int)
      ensures Valid([]) && this.db == db && before == db.View() && lastFlush == start && waits == []
      ensures this.batchSize == batchSize && this.flushAfter == flushAfter
    {
      this.db, this.batchSize, this.flushAfter := db, batchSize, flushAfter;
      pending, written, lastFlush, waits := [], 0, start, [];
      before, flushed := db.View(), [];
      AppendNothing(db.View());
    }

    method Flush(now: Instant, ghost read: seq<Entry>)
      requires Valid(read)
      modifies this`pending, this`written, this`lastFlush, this`flushed, db
      ensures Valid(read) && pending == [] && lastFlush == now
      ensures db.View() == Appended(before, read) && written == |NonBlank(read)|
    {
      hide Appended, NonBlank;
      AppendTwice(before, flushed, pending);
      var n := db.Append(pending);
      written := written + n;
      flushed := flushed + pending;
      pending := [];
      lastFlush := now;
      assert flushed + [] == flushed;
    }

    /** One turn; `more` is false when it ends the loop. */
    method TakeTurn(t: Turn, ghost read: seq<Entry>, ghost steady: bool, ghost start: Instant) returns (more: bool)
      requires Valid(read) && AllBounded(waits, batchSize, flushAfter, steady) && Tracked(start)
      requires steady ==> lastFlush <= t.top <= t.flushed <= t.stamped
      modifies this, db
      ensures Valid(read + (if t.heard.Got? then [(t.stamped, t.heard.line)] else []))
      ensures AllBounded(waits, batchSize, flushAfter, steady) && Tracked(start)
      ensures steady ==> lastFlush <= t.stamped
      ensures |waits| == |old(waits)| + 1
      ensures var w := waits[|waits| - 1];
              w.at == t.top && w.found == |old(pending)| && (w.pending < w.found ==> lastFlush == t.flushed)
      ensures more <==> t.heard.Got? || t.heard.Silence?
    {
      hide Appended, NonBlank, AllBounded, Punctual;
      var since, found := t.top - lastFlush, |pending|;
      if pending != [] && (|pending| >= batchSize || since >= flushAfter) {
        Flush(t.flushed, read);
        since := 0;
      }
      var wait := if pending != [] then flushAfter - since else flushAfter;
      OneMoreWait(waits, Wait(t.top, wait, found, |pending|, lastFlush), start, batchSize, flushAfter);
      OneWait(waits, Wait(t.top, wait, found, |pending|, lastFlush), batchSize, flushAfter, steady);
      waits := waits + [Wait(t.top, wait, found, |pending|, lastFlush)];
      if t.heard.Got? {
        assert flushed + (pending + [(t.stamped, t.heard.line)]) == flushed + pending + [(t.stamped, t.heard.line)];
        pending := pending + [(t.stamped, t.heard.line)];
      } else {
        assert read + [] == read;
      }
      more := t.heard.Got? || t.heard.Silence?;
    }

    /** Runs until the stream ends or the process is stopped: on every path each non-blank line read is in the
        buffer, once and in order. */
    method Run(script: seq<Turn>, final: Instant) returns (raised: bool)
      requires Valid([]) && waits == [] && pending == []
      modifies this, db
      ensures db.View() == Appended(before, LinesRead(script)) && written == |NonBlank(LinesRead(script))|
      ensures AllBounded(waits, batchSize, flushAfter, Steady(old(lastFlush), script))
      ensures Punctual(waits, old(lastFlush), batchSize, flushAfter)
      ensures raised <==> Raises(script)
    {
      hide Appended, NonBlank, AllBounded, Steady, Punctual;
      ghost var steady := Steady(lastFlush, script);
      ghost var read, clock, start := [], lastFlush, lastFlush;
      var rest := script;
      NoneYet(batchSize, flushAfter, steady, start);
      assert [] + LinesRead(rest) == LinesRead(rest);
      raised := true;
      while rest != []
        invariant Valid(read) && read + LinesRead(rest) == LinesRead(script)
        invariant AllBounded(waits, batchSize, flushAfter, steady) && Tracked(start)
        invariant steady ==> Steady(clock, rest) && lastFlush <= clock
        invariant raised && (Raises(rest) <==> Raises(script))
        decreases |rest|
      {
        var t := rest[0];
        SteadyOn(clock, rest);
        var more := TakeTurn(t, read, steady, start);
        ghost var line: seq<Entry> := if t.heard.Got? then [(t.stamped, t.heard.line)] else [];
        assert read + (line + LinesRead(rest[1..])) == read + line + LinesRead(rest[1..]);
        assert [] + LinesRead(rest[1..]) == LinesRead(rest[1..]) && read + line + [] == read + line;
        read, clock, rest := read + line, t.stamped, rest[1..];
        if !more {
          raised, rest := t.heard.Broken?, [];
          break;
        }
      }
      assert read + [] == read;
      if pending != [] {
        Flush(final, read);
      } else {
        assert flushed + [] == flushed;
      }
    }
  }

  lemma SteadyOn(clock: Instant, script: seq<Turn>)
    requires script != []
    ensures Steady(clock, script) ==>
              clock <= script[0].top <= script[0].flushed <= script[0].stamped && Steady(script[0].stamped, script[1..])
  {
  }

  lemma NoneYet(batchSize: int, flushAfter: int, steady: bool, start: Instant)
    ensures AllBounded([], batchSize, flushAfter, steady) && Punctual([], start, batchSize, flushAfter)
  {
  }

  lemma OneWait(waits: seq<Wait>, w: Wait, batchSize: int, flushAfter: int, steady: bool)
    requires AllBounded(waits, batchSize, flushAfter, steady) && w.pending < Capacity(batchSize)
    requires steady && w.pending == 0 ==> w.time == flushAfter
    requires steady && w.pending > 0 ==> w.lastFlush <= w.at < w.lastFlush + flushAfter == w.at + w.time
    ensures AllBounded(waits + [w], batchSize, flushAfter, steady)
  {
  }

  lemma OneMoreWait(waits: seq<Wait>, w: Wait, start: Instant, batchSize: int, flushAfter: int)
    requires Punctual(waits, start, batchSize, flushAfter)
    requires OnTime(w, Before(waits, |waits|, start), batchSize, flushAfter)
    ensures Punctual(waits + [w], start, batchSize, flushAfter)
  {
    hide OnTime;
    var more := waits + [w];
    forall k | 0 <= k < |more| ensures OnTime(more[k], Before(more, k, start), batchSize, flushAfter) {
      assert Before(more, k, start) == Before(waits, k, start);
    }
  }

  lemma AppendNothing(t: Table)
    ensures Appended(t, []) == t && |NonBlank([])| == 0
  {
    assert t.rows + [] == t.rows;
  }

  /** Two appends are one: how lines are batched does not show in the buffer. */
  lemma AppendTwice(t: Table, a: seq<Entry>, b: seq<Entry>)
    ensures Appended(Appended(t, a), b) == Appended(t, a + b)
    ensures |NonBlank(a + b)| == |NonBlank(a)| + |NonBlank(b)|
  {
    NonBlankConcat(a, b);
    hide NonBlank;
    var x, y := NonBlank(a), NonBlank(b);
    NumberedConcat(x, y, t.lastId);
    var m, n := Numbered(x, t.lastId), Numbered(y, t.lastId + |x|);
    hide Numbered;
    assert t.rows + (m + n) == t.rows + m + n;
  }

  lemma NumberedConcat(x: seq<Entry>, y: seq<Entry>, after: int)
    ensures Numbered(x + y, after) == Numbered(x, after) + Numbered(y, after + |x|)
    ensures |Numbered(x, after)| == |x|
  {
  }
}
