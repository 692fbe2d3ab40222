/** The records that travel between the stages: a raw Event, the Decoded message it parses to, and the
    values a message can carry. */
module Wire {
  datatype Option<+T> = None | Some(value: T)

  /** Microseconds since the epoch: the precision of a station's timestamps. */
  type Instant = int

  /** `Instant.toEpochMilli`, which rounds towards the past. */
  function Millis(t: Instant): int { t / 1000 }

  /** A field value, compared as `Objects.equals` compares it (a Double by its bits). */
  datatype Value = Text(text: string) | Whole(n: int) | Double(bits: nat) | Flag(on: bool) | At(ts: Instant)

  // Indexes into an aircraft's fields: the twelve of the Payload, then the position time.
  const CALLSIGN := 0
  const ALTITUDE := 1
  const GROUND_SPEED := 2
  const TRACK := 3
  const LAT := 4
  const LON := 5
  const VERTICAL_RATE := 6
  const SQUAWK := 7
  const ALERT := 8
  const EMERGENCY := 9
  const SPI := 10
  const ON_GROUND := 11
  const POSITION_TS := 12
  const FIELDS := 13

  /** The twelve SBS-1 attributes; None where the line did not carry one. */
  type Payload = p: seq<Option<Value>> | |p| == POSITION_TS witness seq(POSITION_TS, _ => None)

  /** One raw line as a station heard it. */
  datatype Event = Event(stationId: string, ts: Instant, raw: string)

  /** What the SBS-1 parser reads out of a line. */
  datatype Line = Line(icao: Option<string>, generated: Option<string>, logged: Option<string>, payload: Payload)

  datatype Decoded = Decoded(stationId: string, ts: Instant, line: Line)

  /** The line parser, left abstract: None is a line that does not parse. */
  type Parser = string -> Option<Line>

  function Decode(parse: Parser, e: Event): Option<Decoded> {
    match parse(e.raw)
    case None => None
    case Some(line) => Some(Decoded(e.stationId, e.ts, line))
  }

  /** The decode flatMap: lines that do not parse are skipped. */
  function DecodeAll(parse: Parser, events: seq<Event>): seq<Decoded> {
    if events == [] then []
    else
      var rest := DecodeAll(parse, events[..|events| - 1]);
      match Decode(parse, events[|events| - 1])
      case None => rest
      case Some(d) => rest + [d]
  }

  lemma {:induction false} DecodeAllConcat(parse: Parser, a: seq<Event>, b: seq<Event>)
    ensures DecodeAll(parse, a + b) == DecodeAll(parse, a) + DecodeAll(parse, b)
  {
    if b == [] {
      assert a + b == a;
    } else {
      var front := b[..|b| - 1];
      DecodeAllConcat(parse, a, front);
      assert (a + b)[..|a + b| - 1] == a + front;
    }
  }

  lemma {:induction false} DecodeAllMembers(parse: Parser, events: seq<Event>)
    ensures forall d :: d in DecodeAll(parse, events) <==> exists e :: e in events && Decode(parse, e) == Some(d)
  {
    if events != [] {
      var front, last := events[..|events| - 1], events[|events| - 1];
      DecodeAllMembers(parse, front);
      assert forall e :: e in events <==> e in front || e == last;
    }
  }
}
