# bonsai node controller — a Dafny model

bonsai is a desktop shell, built on the iced GUI toolkit, around an embedded
Floresta node (a Utreexo-based Bitcoin node). This project models the parts of
bonsai that make decisions:

- the node lifecycle controller (`Node::update`, `subscribe`, `stop_node`) and
  the application's close path and tab routing;
- the two bounded log buffers, with the log visitor's quote trimming;
- how peers and statistics are shaped: user-agent classification, peer records,
  fallbacks when a read fails, service-flag names, transport labels and GeoIP
  texts;
- the decision tables and pure helpers inside the views: the control-button
  table, the log windows and colours, `format_duration` and `format_thousands`,
  the block subsidy schedule, height stepping, Utreexo root placement, and the
  settings buttons.

Each source file is one module, and each module takes the source's own form:

- `Node` and `Bonsai` are classes. Their `Update` methods are proved to move to
  `Next(old state, message)`, and lemmas about `Next` state the behaviour of
  each message.
- Both `LogCapture`s are classes whose `logs` sequence is reassigned the way
  the `VecDeque` is mutated.
- Loops in the source are methods with loop invariants, proved against a
  specification function: `process_peer_infos`, `format_thousands`, the log
  rendering loops, the services list, the 16-row peer table, the root
  placement, the total-moved sum, the latest-blocks list and the transaction
  rows.
- The rest is functions over datatypes.

Modules and files:

| module | file | source |
|---|---|---|
| `Common` | `common.dfy` | Rust's `Option`/`Result`, `str::contains`, `to_string`, `{:02}`, `{:016x}`, `parse::<u32>`, `replace(",", "")`, `join` |
| `Util` | `util.dfy` | `src/common/util.rs` |
| `Statistics` | `statistics.dfy` | `src/node/statistics.rs` |
| `Message` | `message.dfy` | `src/node/message.rs` |
| `Control` | `control.dfy` | `src/node/control.rs` |
| `BoundedLog` | `bounded_log.dfy` | the bounded-deque rule shared by both log buffers |
| `LogCapture` | `log_capture.dfy` | `src/node/log_capture.rs` |
| `Logger` | `logger.dfy` | `src/node/logger.rs` |
| `Colors` | `colors.dfy` | colour constants as tags |
| `OverviewStyle` | `overview_style.dfy` | `src/node/interface/overview/style.rs` |
| `ViewCommon` | `view_common.dfy` | the rules the two overview views share |
| `StatisticsView` | `statistics_view.dfy` | `src/node/statistics/view.rs` |
| `OverviewView` | `overview_view.dfy` | `src/node/interface/overview/view.rs` |
| `ContainerOverview` | `container_overview.dfy` | `src/node/interface/container/overview.rs` |
| `Bonsai` | `bonsai.dfy` | `src/bonsai.rs` |
| `GeoIp` | `geoip.dfy` | `src/node/geoip.rs` |
| `NetworkView` | `network_view.dfy` | `src/node/network/view.rs` |
| `UtreexoView` | `utreexo_view.dfy` | `src/node/utreexo/view.rs` |
| `BlocksView` | `blocks_view.dfy` | `src/node/interface/blocks/view.rs` |
| `SettingsView` | `settings_view.dfy` | `src/settings/view.rs` |

How the environment becomes parameters:

- Clocks become a `now: nat` parameter, in seconds.
- The shared node handle (`Arc<RwLock<FlorestaNode>>`) becomes a `Handle`
  value. `stop_node` takes the `Arc` strong count as a parameter.
- Asynchronous tasks become a `Task` value plus a continuation function. The
  continuation maps the task's outcome to the next message (`StartOutcome`,
  `StopOutcome`, `FetchOutcome`, `CloseAfterStop`).
- The node's read calls in `fetch_stats` become a record of optional results.
  `None` from `FetchStats` stands for the panic of an `unwrap` on a failed read.
- The GeoIP databases become maps from an address's text to the record found.
- Colours are tags with an alpha percentage.

The source files come from several iterations of the program, so each file is
modelled on its own terms:

- `statistics.rs` calls the peer list `peer_informations` and stores services as
  text. The network view reads a socket address and a `ServiceFlags` bitmask.
- The container overview reads `chain_height`, `validated_height` and
  `peer_info`. The model maps them to headers, blocks and the peer list.
- `message.rs` carries a `u32` in `BlockExplorerHeightUpdate`, while the blocks
  view passes `h as u64`. Both are a `nat` here.
- The views import statistics from a `stats_fetcher` path that the other files
  do not use.

Where the code and its documentation disagree, the model follows the code:

- `Error(e)` always sets `Failed(e)`, even during a shutdown.
- `ShutdownComplete` resets `is_shutting_down`, so a statistics message that
  arrives after it is applied (`Control.LateStatisticsAfterShutdownApplied`).
- `Node::update` has no `Restart` arm. `Control.Node.Update` therefore accepts
  only the ten messages that arm handles.

## Model

| member | source | states |
|---|---|---|
| Common.SaturatingSub | src/settings/view.rs:604-622 | `saturating_sub`: the difference when `b <= a`, else 0 |
| Common.NatToString | src/common/util.rs:14 | `to_string` of an unsigned integer: decimal digits without leading zeros and without commas |
| Common.NatToStringInjective | src/node/message.rs:62-65 | different numbers render differently, so a decimal payload identifies its number |
| Common.Pad2 | src/common/util.rs:10 | `{:02}`: at least two digits, exactly two below 100, denoting the number, and the plain digits from 10 up |
| Common.ParseU32 | src/node/interface/blocks/view.rs:129 | `parse::<u32>`: accepted iff what follows one optional `+` is a non-empty digit string denoting at most `u32::MAX`, and then the value is what the digits denote; any other non-digit character rejects the text |
| Common.WithoutPlus | src/node/interface/blocks/view.rs:129 | the text after one optional leading `+`: the input is that text, with or without the `+` |
| Common.ParseU32OfNatToString | src/node/interface/blocks/view.rs:129 | every `u32` parses back from its decimal text |
| Common.HexFixed | src/node/network/view.rs:116 | `{:016x}` digits: exactly `width` lower-case hex digits |
| Common.HexFixedValue | src/node/network/view.rs:116 | the fixed-width hex digits denote the number modulo `16^width` |
| Common.RemoveCommas | src/node/interface/blocks/view.rs:129 | `replace(",", "")`: the result has no comma and is no longer than the input |
| Common.RemoveCommasMembers | src/node/interface/blocks/view.rs:129 | removing commas keeps every other character of the input and adds none |
| Common.RemoveCommasAppend | src/node/interface/blocks/view.rs:129 | removing commas distributes over concatenation |
| Common.RemoveCommasNoop | src/node/interface/blocks/view.rs:129 | a text without commas is unchanged |
| Common.JoinStartsWithFirst | src/node/network/view.rs:55 | a non-empty `join` starts with its first line |
| Common.SplitOnJoin | src/node/network/view.rs:148 | splitting a `join` of lines that hold no separator gives the lines back |
| Common.NotContainsWithoutFirstChar | src/node/statistics.rs:66-71 | `contains` is false when the pattern's first character never occurs |
| Util.SplitDuration | src/common/util.rs:6-9 | minutes and seconds are below 60, and `h*3600 + m*60 + s` is the total |
| Util.FormatDurationRoundTrip | src/common/util.rs:5-11 | the formatted duration reads back, field by field, as the total number of seconds |
| Util.FormatDuration | src/common/util.rs:5-11 | `{:02}h {:02}m {:02}s`: at least 11 characters, `h ` and `m ` before the two-digit minutes and seconds, ending in `s` |
| Util.FormatThousands | src/common/util.rs:13-34 | the loop computes `Thousands(n)`; on a comma-free input, deleting the commas gives the input back |
| Util.Thousands | src/common/util.rs:13-34 | the grouped text is never shorter than the input and keeps a leading `-` in front |
| Util.GroupLength | src/common/util.rs:21-27 | grouping never shortens the text |
| Util.GroupRemoveCommas | src/common/util.rs:21-27 | grouping only inserts commas |
| Util.ThousandsRemoveCommas | src/common/util.rs:13-34 | `format_thousands` only inserts commas, sign included |
| Util.GroupWellGrouped | src/common/util.rs:22-27 | on digits, the first group has 1 to 3 digits and every later group exactly 3 |
| Util.WellGroupedEnds | src/common/util.rs:22-27 | a well-grouped text neither starts nor ends with a comma |
| Util.ThousandsNegative | src/common/util.rs:16-31 | a leading `-` is removed before grouping and put back in front |
| Util.ThousandsSplitsFraction | src/common/util.rs:22-25 | as written, `1234.56` becomes `1,234,.56` (see Findings) |
| Util.DotIndex | src/common/util.rs:22-25 | the position of the first `.`, or the length |
| Util.ThousandsDecimal | src/common/util.rs:13-34 | corrected grouping: the fraction after the first `.` is kept verbatim as a suffix |
| Util.ThousandsDecimalRemoveCommas | src/common/util.rs:13-34 | the corrected grouping only inserts commas, decimals included |
| Util.ThousandsDecimalAgreesOnIntegers | src/common/util.rs:13-34 | on texts without `.` the corrected grouping equals the original |
| Statistics.ImplDisplay | src/node/statistics.rs:25-35 | the display is non-empty and ends in a newline exactly for `Unknown` |
| Statistics.ImplDisplayInjective | src/node/statistics.rs:25-35 | each implementation has its own display text |
| Statistics.ClassifyUserAgent | src/node/statistics.rs:61-75 | one iff per tag: Knots for `Satoshi` then `Knots` without a newline between; Core for `Satoshi` otherwise; then `btcd`, `utreexod`, `floresta` in order; otherwise Unknown |
| Statistics.KnotsPatternContainsSatoshi | src/node/statistics.rs:62-65 | the Knots pattern is checked first because its matches also contain `Satoshi` |
| Statistics.KnotsUserAgentExample | src/node/statistics.rs:62-63 | a Knots user agent classifies as Knots, not Core |
| Statistics.CapitalFlorestaExample | src/node/statistics.rs:70-73 | matching is case-sensitive: `/Floresta:0.7.0/` is Unknown |
| Statistics.ToInformation | src/node/statistics.rs:80-89 | the record copies every field and sets the implementation to the user agent's class |
| Statistics.Processed | src/node/statistics.rs:77-94 | same length and order as the input; each record mirrors its raw peer |
| Statistics.ProcessPeerInfos | src/node/statistics.rs:77-94 | the push loop builds exactly `Processed(raws)` |
| Statistics.FetchStats | src/node/statistics.rs:96-130 | a snapshot exists iff the unwrapped reads succeed; the IBD flag, accumulator and user agent are the values read; failed heights give 0, no start time gives uptime 0, a failed peer read gives no peers, otherwise each peer is mirrored |
| Message.DebugLabel | src/node/message.rs:41-76 | every label is non-empty |
| Message.LabelClosesIffPayload | src/node/message.rs:55-72 | a label ends with `)` exactly for the variants that show their payload |
| Message.HiddenPayloads | src/node/message.rs:44-73 | `Running`, `Statistics` and `Error` labels do not depend on their payloads |
| Message.BlockFetchedLabels | src/node/message.rs:66-69 | a missing block shows `BlockFetched(Missing)`, a present one its hash |
| Message.DisconnectLabels | src/node/message.rs:58-59 | disconnect requests and confirmations are labelled `RemovePeer(a)` and `PeerRemoved(a)` |
| Message.StringPayloadVerbatim | src/node/message.rs:55-61 | string payloads appear verbatim between the parentheses |
| Message.NumericPayloadInjective | src/node/message.rs:65 | the `FetchBlock` label determines the height |
| Message.FixedLabelsIdentifyVariant | src/node/message.rs:44-73 | among fixed labels, equal labels mean the same variant |
| Control.StatusDisplay | src/node/control.rs:34-44 | every status has a non-empty display |
| Control.StatusDisplayDistinct | src/node/control.rs:34-44 | two statuses display alike iff they are equal or both `Failed` |
| Control.StartOutcome | src/node/control.rs:60-66 | a successful launch answers `Running(handle)`, a failed one `Error` |
| Control.StopOutcome | src/node/control.rs:93-98 | the stop task answers `ShutdownComplete` iff both the join and the shutdown succeed, else `Error` with the text |
| Control.FetchOutcome | src/node/control.rs:144-158 | a failed fetch join answers `Error("Failed to fetch stats")`, else the fetched message |
| Control.StopNodeResult | src/node/control.rs:243-254 | shutdown runs iff the caller is the sole holder; otherwise the error names the holder count |
| Control.RefusalTextInjective | src/node/control.rs:249-252 | the refusal text determines the reported count |
| Control.ClearPeers | src/node/control.rs:106-113 | `peer_info.clear()` empties exactly the peer list of a present snapshot |
| Control.Subscriptions | src/node/control.rs:167-180 | the 300 ms tick is always present; the statistics timer is present iff the subscription is active; nothing else |
| Control.Node.constructor | src/node/control.rs:46-55 | the default node is inactive, with no handle, snapshot or start time |
| Control.Node.Update | src/node/control.rs:58-165 | the new state is `Next(old state, message)` and the task is `NextTask(old state, message)` |
| Control.Next | src/node/control.rs:58-165 | the state after one message: Tick and GetStatistics change nothing; only Running acquires a new handle or turns the subscription on; only Error makes the node newly Failed |
| Control.NextTask | src/node/control.rs:58-165 | a task is issued exactly for Start, Shutdown, and GetStatistics while subscribed with a handle; Start launches the node |
| Control.Node.Subscribe | src/node/control.rs:167-180 | returns the subscriptions of the current state |
| Control.Node.Unsubscribe | src/node/control.rs:182-184 | only `subscription_active` changes, to false |
| Control.StartLaunches | src/node/control.rs:60-66 | `Start` only sets Starting and launches the node, with `Running`/`Error` as outcomes |
| Control.RunningStoresHandle | src/node/control.rs:72-79 | `Running(h)` stores h, sets Running, turns the subscription on, clears the shutting-down flag and records the start time |
| Control.ShutdownReleasesHandle | src/node/control.rs:80-103 | `Shutdown` gives ShuttingDown, subscription off, flag on, no start time and no handle; it stops the taken handle, or answers `ShutdownComplete` without one |
| Control.ShuttingDownClearsOnlyPeers | src/node/control.rs:104-114 | `ShuttingDown` empties the peer list and changes nothing else in the snapshot |
| Control.ShutdownCompleteIdempotent | src/node/control.rs:115-125 | `ShutdownComplete` gives Inactive with everything off and no peers; applying it twice equals applying it once |
| Control.StatisticsGated | src/node/control.rs:127-134 | `Statistics(s)` replaces the snapshot iff not shutting down, else nothing changes |
| Control.ErrorFails | src/node/control.rs:135-139 | `Error(e)` sets `Failed(e)` and turns the subscription off, nothing else |
| Control.GetStatisticsOnlyFetches | src/node/control.rs:140-163 | `GetStatistics` never changes state and fetches iff the subscription is active and a handle is present |
| Control.StopWithOtherHoldersFails | src/node/control.rs:243-254 | a stop refused because other holders remain ends in `Failed` with the refusal text, without a handle |
| Control.NormalLifecycle | src/node/control.rs:60-125 | start, run, then a sole-holder shutdown returns the node to its initial state |
| Control.LateStatisticsAfterShutdownApplied | src/node/control.rs:115-134 | statistics arriving after `ShutdownComplete` are applied; between `Shutdown` and completion they are dropped |
| BoundedLog.PushedKeepsBound | src/node/log_capture.rs:29-35 | a buffer within `max_logs` stays within it after a push |
| BoundedLog.PushedEndsWithLine | src/node/log_capture.rs:29-35 | with `max_logs >= 1` the new line is last |
| BoundedLog.PushedEvictsAtMostOldest | src/node/logger.rs:22-28 | a push evicts at most the oldest entry, keeping the rest in order |
| BoundedLog.PushedZeroBound | src/node/log_capture.rs:29-35 | with `max_logs == 0` nothing is kept |
| BoundedLog.PushAllKeepsMostRecent | src/node/log_capture.rs:29-35 | pushing lines one by one keeps the most recent `max_logs` of all lines, oldest first |
| BoundedLog.LastNAppend | src/node/log_capture.rs:29-35 | trimming early or late to the last n gives the same window |
| LogCapture.LogCapture.constructor | src/node/log_capture.rs:17-23 | a new capture is empty, with version 0 and the given bound |
| LogCapture.LogCapture.Version | src/node/log_capture.rs:25-27 | returns the counter and changes nothing |
| LogCapture.LogCapture.AddLog | src/node/log_capture.rs:29-39 | logs become `Pushed(old logs, line, max_logs)` and the version is incremented modulo `2^64` |
| LogCapture.LogCapture.GetLogs | src/node/log_capture.rs:41-43 | returns the contents, oldest first, within the bound, and changes nothing |
| LogCapture.LogCapture.Clear | src/node/log_capture.rs:45-50 | empties the buffer and increments the version by exactly 1 |
| LogCapture.QuotePrefix | src/node/log_capture.rs:94 | the length of the leading run of `"` |
| LogCapture.QuoteSuffix | src/node/log_capture.rs:94 | the length of the trailing run of `"` |
| LogCapture.TrimQuotes | src/node/log_capture.rs:94 | `trim_matches('"')`: the result is the slice of the input after its leading quotes, followed only by quotes, with no `"` at either end; texts without `"` are kept |
| LogCapture.TrimKeepsInnerQuote | src/node/log_capture.rs:94 | only the outer quotes go: `"a"b"` becomes `a"b` |
| LogCapture.TrimQuotesIdempotent | src/node/log_capture.rs:94 | trimming twice equals trimming once |
| LogCapture.Captured | src/node/log_capture.rs:90-102 | with no field named `message`, nothing is captured |
| LogCapture.CapturedIgnoresOtherFields | src/node/log_capture.rs:90-102 | fields with other names never change the captured text |
| LogCapture.MessageVisitor.constructor | src/node/log_capture.rs:88 | the visitor starts with an empty text |
| LogCapture.MessageVisitor.RecordAll | src/node/log_capture.rs:90-102 | visiting the fields in order captures `Captured(fields)` |
| LogCapture.EventLine | src/node/log_capture.rs:64-86 | the line is `[clock] level ` followed by the captured message, or the event's debug text if none was captured |
| LogCapture.ClockText | src/node/log_capture.rs:71 | `%H:%M:%S` is eight characters with colons at positions 2 and 5 |
| Logger.LogCapture.constructor | src/node/logger.rs:15-20 | a new capture is empty with the given bound |
| Logger.LogCapture.AddLog | src/node/logger.rs:22-28 | logs become `Pushed(old logs, line, max_logs)`, within the bound |
| Logger.LogCapture.GetLogs | src/node/logger.rs:30-33 | returns the contents in order and changes nothing |
| Logger.LogCapture.Clear | src/node/logger.rs:35-37 | the buffer becomes empty |
| Colors.ScaleAlpha | src/node/interface/overview/style.rs:74-88 | scaling alpha keeps the colour and, from opaque, sets the given alpha |
| OverviewStyle.ShouldDisable | src/node/interface/overview/style.rs:63-72 | enabled exactly for Start when Inactive or Failed and for Restart/Shutdown when Running; all disabled while Starting or ShuttingDown |
| OverviewStyle.BasePair | src/node/interface/overview/style.rs:46-59 | Start is opaque green, Restart opaque orange, Shutdown opaque red, each with opaque black text |
| OverviewStyle.ActionButtonPair | src/node/interface/overview/style.rs:74-88 | the colour is the button's own (green, orange, red) and the text black; disabled means colour and text dimmed; hovered or pressed dims only the colour; active keeps the base pair |
| OverviewStyle.UsableButtonCount | src/node/interface/overview/style.rs:63-72 | per status: only Start usable, or only Restart and Shutdown, or nothing |
| ViewCommon.ShouldEnable | src/node/statistics/view.rs:60-66 | the enable table is exactly the complement of the style's disable table |
| ViewCommon.ControlPress | src/node/interface/overview/view.rs:39-44 | a control button sends its message iff it is not disabled |
| ViewCommon.MetricsOf | src/node/statistics/view.rs:112-127 | without statistics: in IBD, 0 headers, 0 blocks, `NULL`, 0 peers, `00h 00m 00s`; otherwise the snapshot's values |
| ViewCommon.DefaultUptimeIsZero | src/node/interface/overview/view.rs:95-110 | the missing-statistics uptime is the formatting of 0 seconds |
| ViewCommon.Progress | src/node/statistics/view.rs:39-45 | progress is 0 without headers, between 0 and 100 when blocks do not exceed headers, and 100 when they are equal |
| ViewCommon.LogColor | src/node/statistics/view.rs:338-348 | the colour of the first of ERROR, WARN, INFO, DEBUG the line contains, else the default |
| ViewCommon.ErrorOutranksWarn | src/node/interface/overview/view.rs:287-297 | a line with both ERROR and WARN is red |
| ViewCommon.Rows | src/node/statistics/view.rs:334-348 | one coloured row per line, in order |
| ViewCommon.PushRows | src/node/statistics/view.rs:334-348 | the push loop builds exactly `Rows(lines)` |
| ViewCommon.LastLines | src/node/statistics/view.rs:334-337 | `skip(len - n)`: the last `min(len, n)` lines in order |
| ViewCommon.FirstLines | src/node/interface/container/overview.rs:181 | `take(n)`: the first `min(len, n)` lines in order |
| StatisticsView.RenderLogs | src/node/statistics/view.rs:329-350 | no logs render one empty line; otherwise the last 5000 lines, in order, each with its level colour |
| OverviewView.RenderLogs | src/node/interface/overview/view.rs:280-298 | no logs render one empty line; otherwise the last 500 lines, in order, each with its level colour |
| ContainerOverview.StatusControl | src/node/interface/container/overview.rs:33-54 | Running shows SHUTDOWN sending `Shutdown`; Inactive or Failed shows START sending `Start`; otherwise a label without action |
| ContainerOverview.StatusControlAgreesWithTable | src/node/interface/container/overview.rs:33-54 | every action it offers is one the control table enables |
| ContainerOverview.InlineUptimeIsFormatDuration | src/node/interface/container/overview.rs:65-73 | the inline uptime split equals `format_duration` |
| ContainerOverview.InlineUptime | src/node/interface/container/overview.rs:65-73 | `00h 00m 00s` without statistics, otherwise a duration text ending in `s` |
| ContainerOverview.ContainerProgress | src/node/interface/container/overview.rs:56-63 | progress is 0 without statistics or with a chain height of 0 |
| ContainerOverview.RenderLogs | src/node/interface/container/overview.rs:176-195 | no logs render `No logs yet...`; otherwise the first 100 lines, in order, each with its level colour |
| Bonsai.CloseAfterStop | src/bonsai.rs:284-292 | the window closes whatever the stop returned |
| Bonsai.Bonsai.constructor | src/bonsai.rs:371-382 | the app starts on the default tab with an initial node |
| Bonsai.Bonsai.Update | src/bonsai.rs:266-303 | the new state is `Step(old state, message)` and the task is `StepTask(old state, message)` |
| Bonsai.Step | src/bonsai.rs:266-303 | node messages leave the tab alone; other messages leave the node's status and statistics alone and can only drop its handle |
| Bonsai.StepTask | src/bonsai.rs:266-303 | a batch exactly for a close request with a running node; the close-window task exactly for CloseWindow; a controller task exactly for node messages |
| Bonsai.SelectTabOnlySwitches | src/bonsai.rs:268-271 | `SelectTab(t)` only sets the active tab and issues no task |
| Bonsai.CloseRequestedWithHandle | src/bonsai.rs:276-293 | with a handle: the handle is taken, the subscription turned off, `ShuttingDown` emitted, and the window closed after the stop |
| Bonsai.CloseRequestedWithoutHandle | src/bonsai.rs:294-296 | without a handle the window closes directly and nothing changes |
| Bonsai.NodeMessagesDelegated | src/bonsai.rs:301 | node messages go to the controller unchanged, with its task wrapped |
| Bonsai.StartupTasks | src/bonsai.rs:384-394 | with `START_NODE_AUTO` false no startup task is issued |
| Bonsai.Subscription | src/bonsai.rs:305-326 | close requests are always watched; wallet tabs add nothing; node tabs add the controller's timers |
| Bonsai.NodeTabFetchesIffActive | src/bonsai.rs:316-323 | on a node tab statistics are polled iff the subscription is active |
| Bonsai.SelectableTabsDraw | src/bonsai.rs:170-241 | the default tab and every sidebar-selectable tab can be drawn |
| Bonsai.StepTab | src/bonsai.rs:266-271 | one `update` moves the tab only on `SelectTab`, to the selected tab |
| Bonsai.RunTab | src/bonsai.rs:266-271 | after any run of `update` steps the tab is the last selection, or the starting tab |
| Bonsai.ActiveTabNeverPanics | src/bonsai.rs:170-241 | from the default tab, a run of `update` steps whose selections come only from the sidebar never reaches a tab whose view panics |
| Bonsai.TabAfterStaysSelectable | src/bonsai.rs:170-221 | the active tab stays selectable or default under any sidebar selections |
| Bonsai.HeaderStatusColor | src/bonsai.rs:89-93 | green iff Starting or Running, off-white iff Inactive, red iff ShuttingDown or Failed |
| Bonsai.HeaderHeight | src/bonsai.rs:94 | the height shown is the snapshot's blocks with thousands separators, or 0 |
| Bonsai.HeaderNetwork | src/bonsai.rs:95-100 | the header shows SIGNET in purple |
| Bonsai.NetworkColor | src/bonsai.rs:95-100 | Bitcoin orange, Signet purple, both testnets blue, regtest off-white, each an iff |
| Bonsai.NetworkText | src/bonsai.rs:137 | `to_uppercase` of the network name: non-empty, upper-case letters and digits only |
| Bonsai.NetworkTextInjective | src/bonsai.rs:137 | each network has its own header text |
| GeoIp.New | src/node/geoip.rs:18-50 | fails iff both databases fail to open; otherwise each reader is present iff its open succeeded |
| GeoIp.LookupAsn | src/node/geoip.rs:53-62 | an ASN is found iff the reader exists and the record has both number and organisation |
| GeoIp.LookupCity | src/node/geoip.rs:64-74 | a city record is found iff the reader exists and knows the address |
| GeoIp.LookupAll | src/node/geoip.rs:76-81 | exactly the pair of the two lookups |
| GeoIp.MissingDatabaseGivesNothing | src/node/geoip.rs:53-81 | a missing database never yields its part |
| GeoIp.AsnDisplayShowsNumber | src/node/geoip.rs:112-116 | `AS<n> - <org>`, with n readable back from the digits |
| GeoIp.AsnDisplay | src/node/geoip.rs:112-116 | starts with `AS` and ends with the organisation |
| GeoIp.CityDisplayIsJoin | src/node/geoip.rs:118-127 | city and country present, joined by `, `, or `Unknown` |
| GeoIp.CityDisplay | src/node/geoip.rs:118-127 | `Unknown` when neither name is known; starts with the city and ends with the country when present |
| GeoIp.CityDisplayIgnoresCode | src/node/geoip.rs:118-127 | the country code never shows |
| GeoIp.GeoInfoDisplayIsJoin | src/node/geoip.rs:129-138 | the ASN and city texts present, one per line, or `No information available` |
| GeoIp.GeoInfoDisplay | src/node/geoip.rs:129-138 | the notice when nothing is known; starts with the ASN text and ends with the city text when present |
| GeoIp.GeoInfoDisplayStartsWithAsn | src/node/geoip.rs:129-138 | with an ASN, the text starts with the ASN text |
| NetworkView.TooltipLines | src/node/network/view.rs:41-50 | `AS<n>` and the organisation when the ASN is known, then the city text, and no other line; empty iff neither is known |
| NetworkView.AsnTooltip | src/node/network/view.rs:34-59 | without a reader or lines the notice; otherwise the tooltip lines joined by newlines, starting with `AS<n>` when the ASN is known |
| NetworkView.AsnTooltipTexts | src/node/network/view.rs:34-59 | case by case: `AS<n>`, organisation and city on three lines; `AS<n>` and organisation; the city alone; or the notice |
| NetworkView.ImplIconPathInjective | src/node/network/view.rs:70-78 | each implementation has its own icon |
| NetworkView.ImplIconPath | src/node/network/view.rs:70-78 | every icon lies under `assets/icon/implementations/` |
| NetworkView.TransportLabel | src/node/network/view.rs:94-104 | V1 is `P2PV1`, V2 is `P2PV2` (the BIP 324 encrypted transport) |
| NetworkView.ServicesHex | src/node/network/view.rs:116 | `0x` and exactly 16 lower-case hex digits that denote the 64-bit bitmask |
| NetworkView.HexFixed64 | src/node/network/view.rs:116 | sixteen hex digits hold every 64-bit value exactly |
| NetworkView.FlagFilterMembers | src/node/network/view.rs:128-132 | a name is listed iff a flag of that name has its bit set |
| NetworkView.FilterFlags | src/node/network/view.rs:128-132 | the loop over the flag table collects exactly the names of the flags whose bit is set, in table order |
| NetworkView.KnownFlagFilter | src/node/network/view.rs:118-143 | the nine known flags are the seven table flags followed by the two Utreexo bits, 24 then 25 |
| NetworkView.ServiceNames | src/node/network/view.rs:118-143 | the filter and pushes give the set flags of bits 0, 1, 2, 3, 6, 10, 11 in that order, then bits 24 and 25 |
| NetworkView.ServiceNamesExact | src/node/network/view.rs:118-143 | the names listed are exactly those of the nine known flags that are set; no other bit is named |
| NetworkView.ServicesTextNone | src/node/network/view.rs:145-149 | the text is `NONE` iff none of the nine known bits is set |
| NetworkView.ServicesText | src/node/network/view.rs:145-149 | `NONE` for no names; otherwise the text starts with the first name, and splitting it at line breaks gives back every name in order (when no name holds a line break) |
| NetworkView.ServicesTextLines | src/node/network/view.rs:145-149 | for every bitmask, the tooltip's lines are exactly the names of the set known flags in order, or the single line `NONE` |
| NetworkView.FillRows | src/node/network/view.rs:258-330 | the `for i in 0..NUM_ROWS` loop: exactly n rows; row i is cell i when there is one, the blank row otherwise |
| NetworkView.PeerTable | src/node/network/view.rs:259-330 | always 16 rows; row i shows peer i (disconnect sends its socket, ban sends `Tick`) when there is one, blank otherwise |
| NetworkView.RowFor | src/node/network/view.rs:259-330 | each of the nine cells of a peer's row: its socket, address tooltip, implementation icon and display text, user agent, services hex and transport label; disconnect sends the socket and ban sends `Tick` |
| UtreexoView.NumLeaves | src/node/utreexo/view.rs:29-32 | `leaves as u32`: below `2^32` and congruent to the leaf count modulo `2^32` (its low 32 bits), 0 without statistics |
| UtreexoView.SizeText | src/node/utreexo/view.rs:33-35 | ends in ` BYTES`; without the commas the number is 32 times the root count |
| UtreexoView.Rank | src/node/utreexo/view.rs:41-48 | the number of set bits below a position is at most that position |
| UtreexoView.RootsInPosition | src/node/utreexo/view.rs:37-49 | 32 slots; without statistics all empty; otherwise slot i is the next root iff bit i of the leaf count is set and roots remain |
| UtreexoView.SlotOnlyAtSetBits | src/node/utreexo/view.rs:44-48 | a slot holds a root only at a set bit |
| UtreexoView.PresentIsPrefix | src/node/utreexo/view.rs:41-48 | read in slot order, the roots come out in their own order: the first `min(roots, set bits)` of them |
| UtreexoView.WellFormedFillsSetBits | src/node/utreexo/view.rs:41-48 | with one root per set bit, every set-bit slot holds its root |
| UtreexoView.MissingRootsLeaveHighSlotsEmpty | src/node/utreexo/view.rs:44-47 | with too few roots, the higher set-bit slots stay empty |
| UtreexoView.RootCell | src/node/utreexo/view.rs:178-195 | an empty slot shows `NULL`; a root shows its first 32 hex characters, a line break at index 32, then the rest of the hex, and removing the break gives the hex back |
| UtreexoView.RootsGrid | src/node/utreexo/view.rs:167-231 | 16 rows; row i shows slots i and i+16 with two-digit indices |
| BlocksView.GetBlockSubsidy | src/node/interface/blocks/view.rs:42-53 | 50 BTC in the first era, nothing from the 64th halving on, never more than 50 BTC |
| BlocksView.SubsidyAfterNext | src/node/interface/blocks/view.rs:52 | each halving halves the reward, rounding down |
| BlocksView.SubsidyAfterNonIncreasing | src/node/interface/blocks/view.rs:52 | later eras never pay more |
| BlocksView.SubsidyHalves | src/node/interface/blocks/view.rs:42-53 | one halving interval later the subsidy is half |
| BlocksView.SubsidyNonIncreasing | src/node/interface/blocks/view.rs:42-53 | the subsidy never grows with the height |
| BlocksView.SubsidyRunsOut | src/node/interface/blocks/view.rs:42-53 | from the 33rd halving on the subsidy is 0 |
| BlocksView.LastSatoshiEra | src/node/interface/blocks/view.rs:42-53 | in the 32nd era the subsidy is 1 satoshi |
| BlocksView.ParseHeight | src/node/interface/blocks/view.rs:129 | accepted iff the input without commas is an optional `+` and a non-empty digit string denoting at most `u32::MAX`, and then the value is what the digits denote; any character other than a digit, `,` or `+` rejects the input |
| BlocksView.ParseHeightAccepts | src/node/interface/blocks/view.rs:129 | `1,234` reads as 1234 |
| BlocksView.ParseHeightRejects | src/node/interface/blocks/view.rs:129 | `-1`, `12a` and the empty text are rejected |
| BlocksView.ParseFormattedHeight | src/node/interface/blocks/view.rs:129 | a height shown with thousands separators reads back as itself |
| BlocksView.PrevButton | src/node/interface/blocks/view.rs:141-145 | `<` exists iff the height parses and is at least 1, and sends h-1 |
| BlocksView.NextButton | src/node/interface/blocks/view.rs:168-172 | `>` exists iff the height parses and is below `u32::MAX`, and sends h+1 |
| BlocksView.StepsUndoEachOther | src/node/interface/blocks/view.rs:141-172 | stepping back then forward, or forward then back, returns to the height |
| BlocksView.SizeUnitMonotone | src/node/interface/blocks/view.rs:207-213 | a larger block never takes a smaller unit; BYTES below 1000, KB below 1,000,000, MB from there |
| BlocksView.SizeUnitOf | src/node/interface/blocks/view.rs:74-81 | BYTES iff below 1000, MB iff at least 1,000,000, KB in between |
| BlocksView.BytesText | src/node/interface/blocks/view.rs:207-208 | a size in bytes is shown as `<n> BYTES` exactly in the BYTES unit |
| BlocksView.MovedSumIsSumOfAllOutputs | src/node/interface/blocks/view.rs:224-228 | summing per transaction counts every output of the block exactly once |
| BlocksView.OutputSumAppend | src/node/interface/blocks/view.rs:226 | the output sum distributes over concatenation |
| BlocksView.TotalMoved | src/node/interface/blocks/view.rs:224-228 | the loop computes the sum of all output values |
| BlocksView.LatestEntries | src/node/interface/blocks/view.rs:69-111 | the first five blocks, in order, each with its height label, transaction count, size unit and press action |
| BlocksView.EntryFor | src/node/interface/blocks/view.rs:69-111 | the label starts with `BLOCK `; the count, the size unit and the press action are the block's |
| BlocksView.EntryLabelMatchesPress | src/node/interface/blocks/view.rs:72-108 | pressing an entry opens the height its label shows |
| BlocksView.TransactionRows | src/node/interface/blocks/view.rs:406-435 | one row per transaction, toggling its own index; a row is expanded iff it is the selected index; at most one is |
| BlocksView.ShownSubsidy | src/node/interface/blocks/view.rs:202-237 | a subsidy is shown iff a block is shown, and it is `get_block_subsidy` of the parsed typed height, or of 0 when the text does not parse |
| BlocksView.ShownSubsidyIgnoresBlock | src/node/interface/blocks/view.rs:220 | the subsidy does not depend on the block; a parsable typed height shows that height's subsidy, unparsable text shows 50 BTC |
| SettingsView.Effective | src/settings/view.rs:61-71 | each option, user agent and fixed peer included, is computed as configured when set and as its own default when unset, independently of the other options |
| SettingsView.EffectiveDefaultsAndExplicit | src/settings/view.rs:61-71 | unset options compute assume-utreexo, fraud proofs, backfill and v1 fallback on and DNS seeds enabled; explicit settings compute as set |
| SettingsView.BooleanButton | src/settings/view.rs:559-577 | the button sends its message iff its value differs from the active value |
| SettingsView.BooleanPairSwitches | src/settings/view.rs:90-112 | of a TRUE/FALSE pair exactly one can be pressed, and it switches to the other value |
| SettingsView.NetworkButton | src/settings/view.rs:496-513 | only the Signet button is pressable, and only while another network is active |
| SettingsView.AtMostOneNetworkButton | src/settings/view.rs:496-513 | at most one of the four network buttons is pressable, and it selects Signet |
| SettingsView.InlineStepper | src/settings/view.rs:251-268 | `-` exists iff the value is above the lower bound, `+` iff below the upper bound, each sending the neighbouring value as decimal text |
| SettingsView.InlineStepperStaysInBounds | src/settings/view.rs:251-268 | from inside the bounds, both buttons send a decimal value one away and still inside the bounds |
| SettingsView.BanscoreStepper | src/settings/view.rs:251-268 | `-` iff the ban score is above 0, `+` iff below 1000, sending the neighbouring value as decimal text |
| SettingsView.PeersStepper | src/settings/view.rs:295-312 | `-` iff the max-outbound (and, at 338-355, max-inflight) value is above 1, `+` iff below 100, sending the neighbouring value as decimal text |
| SettingsView.IntegerControl | src/settings/view.rs:592-629 | `-` iff above min, sending the difference, or 0 when the step exceeds the value; `+` iff below max, sending the sum, or `u32::MAX` when the sum exceeds it |
| SettingsView.IntegerControlStepOne | src/settings/view.rs:592-629 | with step 1 it sends what the inline steppers send |
| SettingsView.IntegerControlOvershoots | src/settings/view.rs:604-622 | the values are not clamped: a large step leaves `[min, max]` |
| SettingsView.SaveRow | src/settings/view.rs:365-394 | the notice and the save button appear iff there are unsaved changes |
| SettingsView.RestartRow | src/settings/view.rs:396-425 | the notice and the restart button appear iff a node restart is required |

## Left out

- `SettingsView.Effective`: of the ten computed values, assume-utreexo, DNS seeds, user agent and fixed
  peer are never displayed; the USER AGENT and FIXED PEER fields show separate input buffers
  (`user_agent_input`, `fixed_peer_input`), which are not modelled.
- Asynchronous plumbing is not modelled: launching the node (`start_node`, the
  Floresta builder), spawning on the Tokio runtime, iced's `Task` and
  `Subscription` machinery, and the actual `node.shutdown()`. Each becomes a
  value plus the message it answers with.
- The reads in `fetch_stats` are not modelled. They are inputs, each possibly
  failed.
- The mutexes around both log buffers are not modelled. Each buffer is a
  single-threaded object.
- `Control.Node.Update`: does not accept `Restart` and the other non-controller
  messages, because the `Node::update` shown has no arm for them.
- Floating point is not modelled. IBD progress is an exact real (`Progress`),
  not an `f64`. The KB/MB texts with two decimals, the BTC amounts
  (`to_btc`), and the sine-pulse alpha of the overview are left out.
- Colours are tags with an alpha percentage. Button styles in the settings view
  are not modelled.
- Foreign calls are not modelled:
  - the maxminddb lookups, replaced by maps;
  - `hex::encode`, since a root is its hex text;
  - block serialisation, the BIP 34 height, weight and txid, which become
    fields of `Block`;
  - `to_asm_string`;
  - the regex engine, replaced by string predicates;
  - the `chrono` clock and the tracing `on_event` formatting of levels.
- Layout, style and glue files are not part of this model:
  - fonts, shadows, containers and the sidebar;
  - the p2p and duplicate utreexo views under `src/node/interface`;
  - the wallet placeholders, `src/common/logger.rs`, `src/main.rs`,
    `src/node.rs` and the settings stub.
- `BonsaiMessage`'s wallet variants are not modelled, because the wallet
  message enums are empty.
- `BlocksView.GetBlockSubsidy`: the subsidy plus fees is shown in BTC. Fees are
  always 0 in the source, and the BTC conversion is floating point, so the
  model states the satoshi value.
- `BlocksView.TotalMoved`: does not model an overflow of the `u64` output sum.
  The sum is unbounded.
- The block weight (`to_wu() as u32`) and the header fields (version, time,
  bits, nonce) are not modelled. They come from the bitcoin crate.
- `LogCapture.LogCapture.Clear`: requires the counter to be below `usize::MAX`.
  At that value Rust's `+=` panics in debug builds and wraps in release builds.
- `Statistics.FetchStats`: a failed `unwrap` is the result `None`, not a panic.
  The uptime is a whole number of seconds.

## Findings

| source | as written | input that shows it | evidently intended | confidence | as-written member | corrected member |
|---|---|---|---|---|---|---|
| src/common/util.rs:22-25 | `format_thousands` groups by character count, so the fraction of a decimal text is grouped with the integer part | `"1234.56"` becomes `"1,234,.56"` (the total moved is formatted from `{:.2}` text at src/node/interface/blocks/view.rs:230-233) | group only the integer part and keep the fraction verbatim: `"1,234.56"` | high, not executed | Util.ThousandsSplitsFraction | Util.ThousandsDecimal |
