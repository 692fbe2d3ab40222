/** The per-station filter that drops re-delivered messages. It remembers the newest message it let through and
    nothing else. */
module StationDedup {
  import opened Wire

  /** Both fields are None in a mark restored from a checkpoint of an older shape. */
  datatype Mark = Mark(ts: Option<Instant>, fingerprint: Option<string>)

  /** A Java string concatenation's rendering of a reference. */
  function Shown(s: Option<string>): string {
    match s
    case None => "null"
    case Some(t) => t
  }

  function Fingerprint(d: Decoded): string {
    Shown(d.line.generated) + "|" + Shown(d.line.logged) + "|" + Shown(d.line.icao)
  }

  function MarkOf(d: Decoded): Mark { Mark(Some(d.ts), Some(Fingerprint(d))) }

  predicate Repeats(prev: Option<Mark>, d: Decoded) {
    && prev.Some? && prev.value.ts.Some?
    && (d.ts < prev.value.ts.value || (d.ts == prev.value.ts.value && prev.value.fingerprint == Some(Fingerprint(d))))
  }

  datatype Filter = Filter(marks: map<string, Mark>, out: seq<Decoded>)

  function MarkFor(marks: map<string, Mark>, station: string): Option<Mark> {
    if station in marks then Some(marks[station]) else None
  }

  function Offer(f: Filter, d: Decoded): Filter {
    if Repeats(MarkFor(f.marks, d.stationId), d) then f
    else Filter(f.marks[d.stationId := MarkOf(d)], f.out + [d])
  }

  class Operator {
    var marks: map<string, Mark>
    var out: seq<Decoded>

    constructor ()
      ensures View() == Filter(map[], [])
    {
      marks, out := map[], [];
    }

    ghost function View(): Filter
      reads this
    {
      Filter(marks, out)
    }

    method ProcessElement(d: Decoded)
      modifies this
      ensures View() == Offer(old(View()), d)
    {
      var fp := Fingerprint(d);
      if d.stationId in marks && marks[d.stationId].ts.Some? {
        var prev := marks[d.stationId];
        if d.ts < prev.ts.value || (d.ts == prev.ts.value && Some(fp) == prev.fingerprint) {
          return;
        }
      }
      marks := marks[d.stationId := Mark(Some(d.ts), Some(fp))];
      out := out + [d];
    }
  }

  /** The filter after a whole stream, stations interleaved as they come. */
  function Filtered(ds: seq<Decoded>): Filter {
    if ds == [] then Filter(map[], []) else Offer(Filtered(ds[..|ds| - 1]), ds[|ds| - 1])
  }

  /** What one station's filter lets through, said without a mark: a message is dropped if it repeats the last one
      let through. */
  function Kept(ds: seq<Decoded>): seq<Decoded> {
    if ds == [] then []
    else
      var front, d := Kept(ds[..|ds| - 1]), ds[|ds| - 1];
      if Repeats(LastMark(front), d) then front else front + [d]
  }

  function LastMark(kept: seq<Decoded>): Option<Mark> {
    if kept == [] then None else Some(MarkOf(kept[|kept| - 1]))
  }

  lemma KeptSnoc(ds: seq<Decoded>, d: Decoded)
    ensures Kept(ds + [d]) == (if Repeats(LastMark(Kept(ds)), d) then Kept(ds) else Kept(ds) + [d])
  {
    assert (ds + [d])[..|ds|] == ds;
  }

  function OfStation(ds: seq<Decoded>, station: string): seq<Decoded> {
    if ds == [] then []
    else
      var front, d := OfStation(ds[..|ds| - 1], station), ds[|ds| - 1];
      if d.stationId == station then front + [d] else front
  }

  lemma OfStationSnoc(ds: seq<Decoded>, d: Decoded, station: string)
    ensures OfStation(ds + [d], station)
         == (if d.stationId == station then OfStation(ds, station) + [d] else OfStation(ds, station))
  {
    assert (ds + [d])[..|ds|] == ds;
  }

  /** However stations interleave, each is filtered as if it were alone. */
  lemma {:induction false} StationsAreIndependent(ds: seq<Decoded>, station: string)
    ensures OfStation(Filtered(ds).out, station) == Kept(OfStation(ds, station))
    ensures MarkFor(Filtered(ds).marks, station) == LastMark(Kept(OfStation(ds, station)))
  {
    if ds != [] {
      var front, d := ds[..|ds| - 1], ds[|ds| - 1];
      StationsAreIndependent(front, station);
      OfStationSnoc(Filtered(front).out, d, station);
      KeptSnoc(OfStation(front, station), d);
    }
  }

  /** Filtering what was let through lets all of it through again, and ends with the same marks. */
  lemma {:induction false} Idempotent(ds: seq<Decoded>)
    ensures Filtered(Filtered(ds).out) == Filtered(ds)
  {
    if ds != [] {
      var front := ds[..|ds| - 1];
      Idempotent(front);
      assert (Filtered(front).out + [ds[|ds| - 1]])[..|Filtered(front).out|] == Filtered(front).out;
    }
  }

  // --- Streams the filter lets through whole ---

  predicate Follows(prev: Decoded, d: Decoded) {
    prev.ts < d.ts || (prev.ts == d.ts && Fingerprint(prev) != Fingerprint(d))
  }

  /** Times never fall, and no two messages in a row agree on both time and fingerprint. */
  ghost predicate Chain(ds: seq<Decoded>) {
    forall n :: 0 < n < |ds| ==> Follows(ds[n - 1], ds[n])
  }

  ghost predicate Increasing(ds: seq<Decoded>) {
    forall n :: 0 < n < |ds| ==> ds[n - 1].ts < ds[n].ts
  }

  lemma {:induction false} ChainRises(ds: seq<Decoded>, i: int, j: int)
    requires Chain(ds) && 0 <= i <= j < |ds|
    ensures ds[i].ts <= ds[j].ts
    decreases j
  {
    if i < j {
      ChainRises(ds, i, j - 1);
      assert Follows(ds[j - 1], ds[j]);
    }
  }

  lemma {:induction false} IncreasingRises(ds: seq<Decoded>, i: int, j: int)
    requires Increasing(ds) && 0 <= i < j < |ds|
    ensures ds[i].ts < ds[j].ts
    decreases j
  {
    if i < j - 1 { IncreasingRises(ds, i, j - 1); }
  }

  lemma IncreasingPrefix(ds: seq<Decoded>, n: nat)
    requires Increasing(ds) && n <= |ds|
    ensures Increasing(ds[..n])
  {
    forall k | 0 < k < n ensures ds[..n][k - 1].ts < ds[..n][k].ts { assert ds[k - 1].ts < ds[k].ts; }
  }

  /** Sent once and in order, a stream passes whole exactly when it is such a chain. */
  lemma {:induction false} KeptWholeIff(ds: seq<Decoded>)
    ensures Kept(ds) == ds <==> Chain(ds)
    ensures |Kept(ds)| <= |ds|
  {
    hide Fingerprint;
    if ds != [] {
      var n := |ds| - 1;
      var front, d := ds[..n], ds[n];
      assert ds == front + [d];
      KeptWholeIff(front);
      if Chain(ds) {
        assert Chain(front);
        assert n > 0 ==> Follows(ds[n - 1], ds[n]);
      }
      if Kept(ds) == ds {
        assert Kept(front) == front;
        forall k | 0 < k < |ds| ensures Follows(ds[k - 1], ds[k]) {
          if k < n { assert Follows(front[k - 1], front[k]); }
        }
      }
    }
  }

  // --- The fingerprint's three attributes ---

  /** Told apart from an absent one, and from its neighbours, when written between bars. */
  predicate Plain(s: Option<string>) { s.Some? ==> s.value != "null" && '|' !in s.value }

  predicate PlainLine(d: Decoded) { Plain(d.line.generated) && Plain(d.line.logged) && Plain(d.line.icao) }

  /** The same SBS-1 times and the same aircraft. */
  predicate SameIdentity(a: Decoded, b: Decoded) {
    a.line.generated == b.line.generated && a.line.logged == b.line.logged && a.line.icao == b.line.icao
  }

  lemma BarSplits(a: string, b: string, c: string, d: string)
    requires '|' !in a && '|' !in c && a + "|" + b == c + "|" + d
    ensures a == c && b == d
  {
    var x, y := a + "|" + b, c + "|" + d;
    assert x[|a|] == '|' && y[|c|] == '|';
    assert x[..|a|] == a && y[..|c|] == c;
    assert x[|a| + 1..] == b && y[|c| + 1..] == d;
  }

  lemma ShownApart(s: Option<string>, t: Option<string>)
    requires Plain(s) && Plain(t)
    ensures Shown(s) == Shown(t) <==> s == t
    ensures '|' !in Shown(s)
  {
  }

  lemma FingerprintIff(a: Decoded, b: Decoded)
    requires PlainLine(a) && PlainLine(b)
    ensures Fingerprint(a) == Fingerprint(b) <==> SameIdentity(a, b)
  {
    ShownApart(a.line.generated, b.line.generated);
    ShownApart(b.line.generated, a.line.generated);
    ShownApart(a.line.logged, b.line.logged);
    ShownApart(b.line.logged, a.line.logged);
    ShownApart(a.line.icao, b.line.icao);
    if Fingerprint(a) == Fingerprint(b) {
      var p, q := Shown(a.line.logged) + "|" + Shown(a.line.icao), Shown(b.line.logged) + "|" + Shown(b.line.icao);
      assert Fingerprint(a) == Shown(a.line.generated) + "|" + p && Fingerprint(b) == Shown(b.line.generated) + "|" + q;
      BarSplits(Shown(a.line.generated), p, Shown(b.line.generated), q);
      BarSplits(Shown(a.line.logged), Shown(a.line.icao), Shown(b.line.logged), Shown(b.line.icao));
    }
  }

  /** Times never fall, and two messages in a row at one instant differ in a time they carry or in the aircraft. */
  ghost predicate IdentityChain(ds: seq<Decoded>) {
    forall n :: 0 < n < |ds| ==>
      ds[n - 1].ts < ds[n].ts || (ds[n - 1].ts == ds[n].ts && !SameIdentity(ds[n - 1], ds[n]))
  }

  lemma IdentityChainIff(ds: seq<Decoded>)
    requires forall d :: d in ds ==> PlainLine(d)
    ensures Chain(ds) <==> IdentityChain(ds)
  {
    hide Fingerprint, PlainLine, SameIdentity;
    forall n | 0 < n < |ds| ensures Fingerprint(ds[n - 1]) == Fingerprint(ds[n]) <==> SameIdentity(ds[n - 1], ds[n]) {
      assert ds[n - 1] in ds && ds[n] in ds;
      FingerprintIff(ds[n - 1], ds[n]);
    }
    if Chain(ds) {
      forall n | 0 < n < |ds|
        ensures ds[n - 1].ts < ds[n].ts || (ds[n - 1].ts == ds[n].ts && !SameIdentity(ds[n - 1], ds[n]))
      {
        assert Follows(ds[n - 1], ds[n]);
      }
    }
  }

  /** Sent once and in order, a station's messages pass whole exactly when times never fall and no two in a row at one
      instant carry the same SBS-1 times about the same aircraft. */
  lemma PassesWholeIff(ds: seq<Decoded>)
    requires forall d :: d in ds ==> PlainLine(d)
    ensures Kept(ds) == ds <==> IdentityChain(ds)
  {
    KeptWholeIff(ds);
    IdentityChainIff(ds);
  }

  /** An absent attribute and the text "null" are not told apart. */
  lemma NullIsTakenForAbsent(d: Decoded)
    requires d.line.generated == None
    ensures var e := d.(line := d.line.(generated := Some("null"))); e != d && Kept([d, e]) == [d]
  {
    var e := d.(line := d.line.(generated := Some("null")));
    assert Kept([]) == [];
    assert Fingerprint(e) == Fingerprint(d) && e.line.generated != d.line.generated;
    hide Fingerprint, Kept;
    KeptSnoc([], d);
    KeptSnoc([d], e);
    assert [] + [d] == [d] && [d] + [e] == [d, e];
  }

  /** A mark of an older shape holds nothing back: not without its time, and not, at its time, without its
      fingerprint. */
  lemma OlderMarks(marks: map<string, Mark>, out: seq<Decoded>, d: Decoded, t: Instant, fp: Option<string>)
    ensures Offer(Filter(marks[d.stationId := Mark(None, fp)], out), d).out == out + [d]
    ensures Offer(Filter(marks[d.stationId := Mark(Some(t), None)], out), d).out == if d.ts < t then out else out + [d]
  {
  }

  /** `out` is `source` in order and whole, with repeats among it: each a message that already came through, as new
      as the newest that had. */
  ghost predicate Woven(out: seq<Decoded>, source: seq<Decoded>)
    decreases |out|
  {
    if out == [] then source == []
    else
      source != [] &&
      var last := out[|out| - 1];
      var newest := source[|source| - 1];
      || (last == newest && Woven(out[..|out| - 1], source[..|source| - 1]))
      || (last in source && last.ts == newest.ts && Woven(out[..|out| - 1], source))
  }

  lemma {:induction false} WovenLosesNothing(out: seq<Decoded>, source: seq<Decoded>)
    requires Woven(out, source)
    ensures |source| <= |out|
    ensures forall d :: d in source <==> d in out
    decreases |out|
  {
    if out != [] {
      var front, last := out[..|out| - 1], out[|out| - 1];
      assert out == front + [last];
      if last == source[|source| - 1] && Woven(front, source[..|source| - 1]) {
        assert source == source[..|source| - 1] + [last];
        WovenLosesNothing(front, source[..|source| - 1]);
      } else {
        WovenLosesNothing(front, source);
      }
    }
  }
}
