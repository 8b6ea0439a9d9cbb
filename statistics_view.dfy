/**
 * `src/node/statistics/view.rs`: the statistics tab's log panel, which keeps
 * the most recent 5000 lines and colours `INFO` lines shamrock green. Its
 * control buttons and metrics use the shared rules of `ViewCommon`.
 */
module StatisticsView {
  import opened Common
  import opened Colors
  import opened ViewCommon

  /** Lines of log the panel renders at most. */
  const LOG_WINDOW: nat := 5000

  /**
   * The log panel: one empty text when there are no logs, otherwise the last
   * 5000 lines in their original order, each coloured by its level.
   */
  method RenderLogs(logs: seq<string>) returns (column: seq<LogRow>)
    ensures logs == [] ==> column == [LogRow("", None)]
    ensures logs != [] ==> |column| == Min(|logs|, LOG_WINDOW)
    ensures logs != [] ==> forall i | 0 <= i < |column| ::
      column[i] == LogRow(logs[|logs| - |column| + i], Some(LogColor(logs[|logs| - |column| + i], GreenShamrock)))
  {
    if logs == [] {
      column := [LogRow("", None)];
    } else {
      column := PushRows(LastLines(logs, LOG_WINDOW), GreenShamrock);
    }
  }
}
