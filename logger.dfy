/**
 * `src/node/logger.rs`: the earlier log capture buffer, without a version
 * counter. It shares the push-then-evict rule of the newer one.
 */
module Logger {
  import opened BoundedLog

  class LogCapture {
    var logs: seq<string>
    const maxLogs: nat

    predicate Valid()
      reads this
    {
      |logs| <= maxLogs
    }

    /** `LogCapture::new(max_logs)`: an empty buffer bounded by `max_logs`. */
    constructor (maxLogs: nat)
      ensures Valid()
      ensures this.maxLogs == maxLogs && logs == []
    {
      this.maxLogs := maxLogs;
      logs := [];
    }

    /** `add_log`: append at the back, then drop the front once if over the bound. */
    method AddLog(line: string)
      requires Valid()
      modifies this
      ensures Valid()
      ensures logs == Pushed(old(logs), line, maxLogs)
    {
      PushedKeepsBound(logs, line, maxLogs);
      logs := Pushed(logs, line, maxLogs);
    }

    /** `get_logs`: an ordered copy of the buffer; changes nothing. */
    method GetLogs() returns (lines: seq<string>)
      requires Valid()
      ensures lines == logs && |lines| <= maxLogs
    {
      lines := logs;
    }

    /** `clear`: the buffer becomes empty. */
    method Clear()
      requires Valid()
      modifies this
      ensures Valid() && logs == []
    {
      logs := [];
    }
  }
}
