/**
 * Decisions shared by the node views (`src/node/statistics/view.rs`,
 * `src/node/interface/overview/view.rs` and
 * `src/node/interface/container/overview.rs`): which control buttons get a
 * message, what the metrics show without statistics, the IBD progress
 * ratio, and how log lines are coloured and rendered.
 */
module ViewCommon {
  import opened Common
  import opened Colors
  import Util
  import Message
  import Statistics
  import Control
  import OverviewStyle

  // ---------------------------------------------------------------------------
  // Control buttons

  /** The message a control button sends when pressed. */
  function ButtonMessage(button: OverviewStyle.ControlButton): Message.NodeMessage {
    match button
    case Start => Message.Start
    case Restart => Message.Restart
    case Shutdown => Message.Shutdown
  }

  /**
   * `control_button_with_disable_logic`'s `should_enable`: Start while the
   * node is inactive or failed, Restart and Shutdown while it runs. It is
   * exactly the complement of the style's disabling table.
   */
  function ShouldEnable(status: Control.NodeStatus, button: OverviewStyle.ControlButton): (enabled: bool)
    ensures enabled <==> !OverviewStyle.ShouldDisable(status, button)
  {
    match (status, button)
    case (Running, Restart) => true
    case (Running, Shutdown) => true
    case (Inactive, Start) => true
    case (Failed(_), Start) => true
    case _ => false
  }

  /** The `on_press` message of a control button: present exactly when the button is enabled. */
  function ControlPress(status: Control.NodeStatus, button: OverviewStyle.ControlButton): (press: Option<Message.NodeMessage>)
    ensures press.Some? <==> !OverviewStyle.ShouldDisable(status, button)
    ensures press.Some? ==> press.value == ButtonMessage(button)
  {
    if ShouldEnable(status, button) then Some(ButtonMessage(button)) else None
  }

  // ---------------------------------------------------------------------------
  // Metrics

  /** The metrics a view shows; the uptime is already formatted. */
  datatype Metrics = Metrics(inIbd: bool, headers: nat, blocks: nat, userAgent: string, peerCount: nat, uptime: string)

  /** The metrics of the stored snapshot, with the fallbacks used when there is none. */
  function MetricsOf(stats: Option<Statistics.NodeStatistics>): (m: Metrics)
    ensures stats.None? ==> m == Metrics(true, 0, 0, "NULL", 0, "00h 00m 00s")
    ensures stats.Some? ==>
      && m.inIbd == stats.value.inIbd && m.headers == stats.value.headers
      && m.blocks == stats.value.blocks && m.userAgent == stats.value.userAgent
      && m.peerCount == |stats.value.peerInformations|
      && m.uptime == Util.FormatDuration(stats.value.uptimeSecs)
  {
    match stats
    case None => Metrics(true, 0, 0, "NULL", 0, "00h 00m 00s")
    case Some(s) =>
      Metrics(s.inIbd, s.headers, s.blocks, s.userAgent, |s.peerInformations|, Util.FormatDuration(s.uptimeSecs))
  }

  /** The fallback uptime text is what a zero uptime formats to. */
  lemma DefaultUptimeIsZero()
    ensures MetricsOf(None).uptime == Util.FormatDuration(0)
  {
    assert Util.SplitDuration(0) == (0, 0, 0);
    assert Pad2(0) == "00";
  }

  /** `calculate_progress`: validated blocks as a percentage of headers, 0 without headers (exact, not `f64`). */
  function Progress(blocks: nat, headers: nat): (p: real)
    ensures headers == 0 ==> p == 0.0
    ensures 0.0 <= p
    ensures blocks <= headers ==> p <= 100.0
    ensures headers > 0 && blocks == headers ==> p == 100.0
  {
    if headers > 0 then (blocks as real / headers as real) * 100.0 else 0.0
  }

  // ---------------------------------------------------------------------------
  // Log lines

  /**
   * The colour of a log line: the first of `ERROR`, `WARN`, `INFO`, `DEBUG`
   * that it contains decides, otherwise off-white. The colour for `INFO`
   * differs between views.
   */
  function LogColor(line: string, infoColor: Color): (c: Color)
    ensures Contains(line, "ERROR") ==> c == Red
    ensures !Contains(line, "ERROR") && Contains(line, "WARN") ==> c == Orange
    ensures !Contains(line, "ERROR") && !Contains(line, "WARN") && Contains(line, "INFO") ==> c == infoColor
    ensures (!Contains(line, "ERROR") && !Contains(line, "WARN") && !Contains(line, "INFO")
             && Contains(line, "DEBUG")) ==> c == Blue
    ensures (!Contains(line, "ERROR") && !Contains(line, "WARN") && !Contains(line, "INFO")
             && !Contains(line, "DEBUG")) ==> c == OffWhite
  {
    if Contains(line, "ERROR") then Red
    else if Contains(line, "WARN") then Orange
    else if Contains(line, "INFO") then infoColor
    else if Contains(line, "DEBUG") then Blue
    else OffWhite
  }

  /** A line mentioning both an error and a warning is shown as an error. */
  lemma ErrorOutranksWarn(line: string, infoColor: Color)
    requires Contains(line, "ERROR") && Contains(line, "WARN")
    ensures LogColor(line, infoColor) == Red
  {
  }

  /** A rendered log line: its text, and its colour (`None`: the theme's default). */
  datatype LogRow = LogRow(text: string, color: Option<Color>)

  /** The rows for a window of lines, one per line, in order. */
  function Rows(lines: seq<string>, infoColor: Color): (rows: seq<LogRow>)
    ensures |rows| == |lines|
    ensures forall i | 0 <= i < |lines| :: rows[i] == LogRow(lines[i], Some(LogColor(lines[i], infoColor)))
  {
    seq(|lines|, i requires 0 <= i < |lines| => LogRow(lines[i], Some(LogColor(lines[i], infoColor))))
  }

  /** The loop that pushes one coloured text per line onto the log column. */
  method PushRows(lines: seq<string>, infoColor: Color) returns (column: seq<LogRow>)
    ensures column == Rows(lines, infoColor)
  {
    column := [];
    for k := 0 to |lines|
      invariant column == Rows(lines[..k], infoColor)
    {
      assert lines[..k + 1] == lines[..k] + [lines[k]];
      column := column + [LogRow(lines[k], Some(LogColor(lines[k], infoColor)))];
    }
    assert lines[..|lines|] == lines;
  }

  /** The last `keep` lines (`skip(len.saturating_sub(keep))`). */
  function LastLines(logs: seq<string>, keep: nat): (window: seq<string>)
    ensures |window| == Min(|logs|, keep)
    ensures window == logs[|logs| - |window|..]
  {
    logs[SaturatingSub(|logs|, keep)..]
  }

  /** The first `keep` lines (`take(keep)`). */
  function FirstLines(logs: seq<string>, keep: nat): (window: seq<string>)
    ensures |window| == Min(|logs|, keep)
    ensures window == logs[..|window|]
  {
    logs[..Min(|logs|, keep)]
  }
}
