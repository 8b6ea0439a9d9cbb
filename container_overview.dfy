/**
 * `src/node/interface/container/overview.rs`: an earlier overview page with a
 * single control button chosen by the status, an inline uptime computation,
 * and a log panel showing the first 100 lines of the buffer.
 *
 * Its snapshot names the heights `chain_height` and `validated_height`; they
 * are the `headers` and `blocks` of the snapshot here.
 */
module ContainerOverview {
  import opened Common
  import opened Colors
  import Util
  import Message
  import Statistics
  import Control
  import OverviewStyle
  import opened ViewCommon

  /** Lines of log the panel renders at most. */
  const LOG_WINDOW: nat := 100

  /** A button: its label and the message it sends, if any. */
  datatype ControlWidget = ControlWidget(caption: string, press: Option<Message.NodeMessage>)

  /** The one control button for each status. */
  function StatusControl(status: Control.NodeStatus): (w: ControlWidget)
    ensures w.press.Some? <==> status.Running? || status.Inactive? || status.Failed?
    ensures status.Running? ==> w == ControlWidget("SHUTDOWN", Some(Message.Shutdown))
    ensures status.Inactive? || status.Failed? ==> w == ControlWidget("START", Some(Message.Start))
    ensures status.Starting? || status.ShuttingDown? ==> w.caption == Control.StatusDisplay(status)
  {
    match status
    case Running => ControlWidget("SHUTDOWN", Some(Message.Shutdown))
    case Inactive => ControlWidget("START", Some(Message.Start))
    case Failed(_) => ControlWidget("START", Some(Message.Start))
    case ShuttingDown => ControlWidget("SHUTTING DOWN", None)
    case Starting => ControlWidget("STARTING", None)
  }

  /** The button's message, when there is one, is what the enable table allows for that button. */
  lemma StatusControlAgreesWithTable(status: Control.NodeStatus)
    ensures StatusControl(status).press.Some? ==>
      exists b :: ControlPress(status, b) == StatusControl(status).press
  {
    if status.Running? {
      assert ControlPress(status, OverviewStyle.Shutdown) == StatusControl(status).press;
    } else if status.Inactive? || status.Failed? {
      assert ControlPress(status, OverviewStyle.Start) == StatusControl(status).press;
    }
  }

  /** The uptime text, computed inline from the snapshot's uptime in seconds. */
  function InlineUptime(stats: Option<Statistics.NodeStatistics>): (text: string)
    ensures stats.None? ==> text == "00h 00m 00s"
    ensures |text| >= 11 && text[|text| - 1] == 's'
  {
    match stats
    case None => "00h 00m 00s"
    case Some(s) =>
      var total := s.uptimeSecs;
      Pad2(total / 3600) + "h " + Pad2((total % 3600) / 60) + "m " + Pad2(total % 60) + "s"
  }

  /** The inline computation is `format_duration`, and so is its fallback. */
  lemma InlineUptimeIsFormatDuration(stats: Option<Statistics.NodeStatistics>)
    ensures stats.Some? ==> InlineUptime(stats) == Util.FormatDuration(stats.value.uptimeSecs)
    ensures stats.None? ==> InlineUptime(stats) == Util.FormatDuration(0)
  {
    DefaultUptimeIsZero();
  }

  /** The progress shown: validated height over chain height, 0 without statistics or chain height. */
  function ContainerProgress(stats: Option<Statistics.NodeStatistics>): (p: real)
    ensures stats.None? ==> p == 0.0
    ensures stats.Some? && stats.value.headers == 0 ==> p == 0.0
  {
    var chainHeight := if stats.Some? then stats.value.headers else 0;
    var validatedHeight := if stats.Some? then stats.value.blocks else 0;
    Progress(validatedHeight, chainHeight)
  }

  /**
   * The log panel: `No logs yet...` when there are none, otherwise the
   * first 100 lines (the oldest in the buffer), in order, each coloured by its level.
   */
  method RenderLogs(logs: seq<string>) returns (column: seq<LogRow>)
    ensures logs == [] ==> column == [LogRow("No logs yet...", None)]
    ensures logs != [] ==> |column| == Min(|logs|, LOG_WINDOW)
    ensures logs != [] ==> forall i | 0 <= i < |column| ::
      column[i] == LogRow(logs[i], Some(LogColor(logs[i], Green)))
  {
    if logs == [] {
      column := [LogRow("No logs yet...", None)];
    } else {
      column := PushRows(FirstLines(logs, LOG_WINDOW), Green);
    }
  }
}
