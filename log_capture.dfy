/**
 * `src/node/log_capture.rs`: the tracing layer's capture buffer, with a
 * version counter the views poll to notice new lines, and the field visitor
 * that extracts an event's message. The mutexes are dropped: the buffer is a
 * single-threaded object here.
 */
module LogCapture {
  import opened Common
  import opened BoundedLog

  /** `usize` is 64 bits wide on the targets the application is built for. */
  const USIZE_MODULUS: nat := U64_MODULUS

  class LogCapture {
    var logs: seq<string>
    var version: nat
    const maxLogs: nat

    /** The buffer respects its bound and the counter fits a `usize`. */
    predicate Valid()
      reads this
    {
      |logs| <= maxLogs && version < USIZE_MODULUS
    }

    /** `LogCapture::new(max_logs)`: empty, version 0. */
    constructor (maxLogs: nat)
      ensures Valid()
      ensures this.maxLogs == maxLogs
      ensures logs == [] && version == 0
    {
      this.maxLogs := maxLogs;
      logs := [];
      version := 0;
    }

    /** `version()`: the current counter; changes nothing. */
    method Version() returns (v: nat)
      requires Valid()
      ensures v == version && v < USIZE_MODULUS
    {
      v := version;
    }

    /**
     * `add_log`: pushes the line (evicting the oldest if over the bound), then
     * bumps the version with `wrapping_add(1)`.
     */
    method AddLog(line: string)
      requires Valid()
      modifies this
      ensures Valid()
      ensures logs == Pushed(old(logs), line, maxLogs)
      ensures version == (old(version) + 1) % USIZE_MODULUS
    {
      PushedKeepsBound(logs, line, maxLogs);
      logs := Pushed(logs, line, maxLogs);
      version := (version + 1) % USIZE_MODULUS;
    }

    /** `get_logs`: the lines, oldest first; changes nothing. */
    method GetLogs() returns (lines: seq<string>)
      requires Valid()
      ensures lines == logs
      ensures |lines| <= maxLogs
    {
      lines := logs;
    }

    /**
     * `clear`: empties the buffer and bumps the version with a plain `+= 1`,
     * which does not wrap (it overflows at `usize::MAX`).
     */
    method Clear()
      requires Valid() && version + 1 < USIZE_MODULUS
      modifies this
      ensures Valid()
      ensures logs == [] && version == old(version) + 1
    {
      logs := [];
      version := version + 1;
    }
  }

  // ---------------------------------------------------------------------------
  // Message extraction

  /** The number of `"` characters `s` starts with. */
  function QuotePrefix(s: string): (n: nat)
    ensures n <= |s|
    ensures forall k | 0 <= k < n :: s[k] == '"'
    ensures n < |s| ==> s[n] != '"'
  {
    if |s| > 0 && s[0] == '"' then 1 + QuotePrefix(s[1..]) else 0
  }

  /** The number of `"` characters `s` ends with. */
  function QuoteSuffix(s: string): (n: nat)
    ensures n <= |s|
    ensures forall k | |s| - n <= k < |s| :: s[k] == '"'
    ensures n < |s| ==> s[|s| - 1 - n] != '"'
  {
    if |s| > 0 && s[|s| - 1] == '"' then 1 + QuoteSuffix(s[..|s| - 1]) else 0
  }

  /**
   * `trim_matches('"')`: every leading and trailing `"` removed, the middle
   * kept. The result is the slice of `s` after its leading quotes, followed in
   * `s` only by quotes, and neither starts nor ends with a quote.
   */
  function TrimQuotes(s: string): (r: string)
    ensures QuotePrefix(s) + |r| <= |s|
    ensures r == s[QuotePrefix(s)..QuotePrefix(s) + |r|]
    ensures forall k | QuotePrefix(s) + |r| <= k < |s| :: s[k] == '"'
    ensures r == [] || (r[0] != '"' && r[|r| - 1] != '"')
    ensures '"' !in s ==> r == s
  {
    var t := s[QuotePrefix(s)..];
    t[..|t| - QuoteSuffix(t)]
  }

  /** Trimming twice is trimming once. */
  lemma TrimQuotesIdempotent(s: string)
    ensures TrimQuotes(TrimQuotes(s)) == TrimQuotes(s)
  {
    var r := TrimQuotes(s);
    assert r == [] || (r[0] != '"' && r[|r| - 1] != '"');
  }

  /** Only the outer quotes go: an inner quote stays. */
  lemma TrimKeepsInnerQuote()
    ensures TrimQuotes("\"a\"b\"") == "a\"b"
  {
    var s := "\"a\"b\"";
    assert QuotePrefix(s[1..]) == 0;
    assert QuotePrefix(s) == 1;
  }

  /** A message field as the tracing event hands it to the visitor. */
  datatype FieldValue =
    | DebugValue(debugText: string)  // `record_debug`: the `{:?}` rendering of the value
    | StrValue(value: string)        // `record_str`

  datatype Field = Field(name: string, value: FieldValue)

  /** What `record_debug`/`record_str` leave in the visitor after one field. */
  function Record(captured: string, f: Field): string {
    if f.name != "message" then captured
    else match f.value
      case DebugValue(d) => TrimQuotes(d)
      case StrValue(v) => v
  }

  /** The visitor's text after visiting the fields from the start: the last `message` field wins. */
  function Captured(fields: seq<Field>): (captured: string)
    ensures (forall k | 0 <= k < |fields| :: fields[k].name != "message") ==> captured == ""
  {
    if fields == [] then "" else Record(Captured(fields[..|fields| - 1]), fields[|fields| - 1])
  }

  /** The fields after the last `message` field do not change what is captured. */
  lemma {:induction false} CapturedIgnoresOtherFields(fields: seq<Field>, rest: seq<Field>)
    requires forall k | 0 <= k < |rest| :: rest[k].name != "message"
    ensures Captured(fields + rest) == Captured(fields)
    decreases |rest|
  {
    if rest == [] {
      assert fields + rest == fields;
    } else {
      var all := fields + rest;
      var last := rest[|rest| - 1];
      assert all[..|all| - 1] == fields + rest[..|rest| - 1];
      assert all[|all| - 1] == last;
      assert last.name != "message";
      assert Captured(all) == Record(Captured(all[..|all| - 1]), last);
      CapturedIgnoresOtherFields(fields, rest[..|rest| - 1]);
    }
  }

  /** `MessageVisitor`, whose one piece of state is the captured text. */
  class MessageVisitor {
    var captured: string

    constructor ()
      ensures captured == ""
    {
      captured := "";
    }

    /** `event.record(&mut visitor)`: the fields are visited in order. */
    method RecordAll(fields: seq<Field>)
      requires captured == ""
      modifies this
      ensures captured == Captured(fields)
    {
      for k := 0 to |fields|
        invariant captured == Captured(fields[..k])
      {
        assert fields[..k + 1][..k] == fields[..k];
        captured := Record(captured, fields[k]);
      }
      assert fields[..|fields|] == fields;
    }
  }

  /**
   * The line `on_event` adds to the capture: `[HH:MM:SS] LEVEL ` followed by
   * the captured message, or by the event's own debug rendering when the
   * visitor captured nothing. The wall clock is a parameter.
   */
  function EventLine(clock: string, level: string, captured: string, eventDebug: string): (line: string)
    ensures var prefix := "[" + clock + "] " + level + " ";
            |prefix| <= |line| && line[..|prefix|] == prefix
            && line[|prefix|..] == (if captured == "" then eventDebug else captured)
  {
    "[" + clock + "] " + level + " " + (if captured == "" then eventDebug else captured)
  }

  /** The clock text: `%H:%M:%S` of hours, minutes and seconds. */
  function ClockText(h: nat, m: nat, s: nat): (t: string)
    requires h < 24 && m < 60 && s < 60
    ensures |t| == 8 && t[2] == ':' && t[5] == ':'
  {
    Pad2(h) + ":" + Pad2(m) + ":" + Pad2(s)
  }
}
