/**
 * The node lifecycle controller of `src/node/control.rs`: `Node::update`
 * as a state machine over `NodeStatus`, the subscription it asks for, and
 * the ownership check `stop_node` makes before shutting the node down.
 *
 * Asynchronous work is modelled by the task `update` returns: what it would
 * run and, as a function of the outcome of that work, the message it
 * eventually delivers back to `update`.
 */
module Control {
  import opened Common
  import opened Statistics
  import opened Message

  /** Seconds between statistics fetches (`FETCH_STATISTICS_TIME`). */
  const FETCH_STATISTICS_SECS: nat := 1
  /** Milliseconds between ticks. */
  const TICK_MILLIS: nat := 300

  datatype NodeStatus = Inactive | Starting | Running | ShuttingDown | Failed(error: NodeError)

  /** `Display for NodeStatus`. */
  function StatusDisplay(s: NodeStatus): (text: string)
    ensures |text| > 0
  {
    match s
    case Inactive => "INACTIVE"
    case Starting => "STARTING"
    case Running => "RUNNING"
    case ShuttingDown => "SHUTTING DOWN"
    case Failed(_) => "FAILED"
  }

  /** The five displayed statuses are pairwise distinct, and a failure hides its error. */
  lemma StatusDisplayDistinct(a: NodeStatus, b: NodeStatus)
    ensures StatusDisplay(a) == StatusDisplay(b) <==> (a.Failed? && b.Failed?) || a == b
  {
  }

  /** The controller's fields, as a value (the log buffer is never touched by `update`). */
  datatype NodeState = NodeState(
    handle: Option<Handle>,
    status: NodeStatus,
    statistics: Option<NodeStatistics>,
    subscriptionActive: bool,
    isShuttingDown: bool,
    startTime: Option<nat>)

  /** `Node::default()`. */
  const INITIAL: NodeState := NodeState(None, Inactive, None, false, false, None)

  /** What an `update` asks the runtime to do. */
  datatype Task =
    | NoTask                                  // `Task::none()`
    | Done(msg: NodeMessage)                  // `Task::done(msg)`
    | LaunchNode                              // `start_node()`, continued by `StartOutcome`
    | StopNode(handle: Handle)                // `stop_node(handle)` on the runtime, continued by `StopOutcome`
    | FetchStatistics(handle: Handle, startTime: Option<nat>)  // `fetch_stats`, continued by `FetchOutcome`

  /** The message a finished `start_node()` delivers. */
  function StartOutcome(res: Result<Handle, string>): (m: NodeMessage)
    ensures res.Ok? ==> m == NodeMessage.Running(res.value)
    ensures res.Err? ==> m == Error(Generic(res.error))
  {
    match res
    case Ok(h) => NodeMessage.Running(h)
    case Err(e) => Error(Generic(e))
  }

  /**
   * The message a spawned `stop_node` delivers: `joined` is `Err` when the
   * spawned task itself failed (its join error text), otherwise what `stop_node` returned.
   */
  function StopOutcome(joined: Result<Result<(), string>, string>): (m: NodeMessage)
    ensures m == ShutdownComplete <==> joined.Ok? && joined.value.Ok?
    ensures joined.Ok? && joined.value.Err? ==> m == Error(Generic(joined.value.error))
    ensures joined.Err? ==> m == Error(Generic(joined.error))
  {
    match joined
    case Ok(stopped) => if stopped.Ok? then ShutdownComplete else Error(Generic(stopped.error))
    case Err(e) => Error(Generic(e))
  }

  /** The message a spawned `fetch_stats` delivers: its own message, or an error when the task failed. */
  function FetchOutcome(joined: Option<NodeMessage>): (m: NodeMessage)
    ensures joined.None? ==> m == Error(Generic("Failed to fetch stats"))
    ensures joined.Some? ==> m == joined.value
  {
    match joined
    case Some(msg) => msg
    case None => Error(Generic("Failed to fetch stats"))
  }

  /** `stop_node`'s refusal text. */
  function RefusalText(count: nat): string {
    "Cannot shutdown: " + NatToString(count) + " references remain"
  }

  /**
   * `stop_node`: `Arc::try_unwrap` succeeds only for the sole holder, who then
   * shuts the node down and returns its result. Returns the result and
   * whether the shutdown was performed.
   */
  function StopNodeResult(holders: nat, shutdownResult: Result<(), string>): (r: (Result<(), string>, bool))
    requires holders >= 1
    ensures r.1 <==> holders == 1
    ensures holders == 1 ==> r.0 == shutdownResult
    ensures holders >= 2 ==> r.0 == Err(RefusalText(holders))
  {
    if holders == 1 then (shutdownResult, true) else (Err(RefusalText(holders)), false)
  }

  /** The refusal names the holder count, so different counts give different errors. */
  lemma RefusalTextInjective(a: nat, b: nat)
    requires RefusalText(a) == RefusalText(b)
    ensures a == b
  {
    var prefix := "Cannot shutdown: ";
    var suffix := " references remain";
    var ta, tb := RefusalText(a), RefusalText(b);
    assert |NatToString(a)| == |NatToString(b)|;
    assert ta[|prefix|..|ta| - |suffix|] == NatToString(a);
    assert tb[|prefix|..|tb| - |suffix|] == NatToString(b);
    NatToStringInjective(a, b);
  }

  /** The messages `Node::update` handles. */
  predicate IsControlMessage(m: NodeMessage) {
    m.Start? || m.Starting? || m.Running? || m.Shutdown? || m.ShuttingDown?
    || m.ShutdownComplete? || m.Tick? || m.Statistics? || m.Error? || m.GetStatistics?
  }

  /** The snapshot with its peer list emptied (`peer_info.clear()`), if there is one. */
  function ClearPeers(stats: Option<NodeStatistics>): (r: Option<NodeStatistics>)
    ensures r.Some? <==> stats.Some?
    ensures r.Some? ==> r.value == stats.value.(peerInformations := [])
  {
    match stats
    case Some(st) => Some(st.(peerInformations := []))
    case None => None
  }

  /** The controller's fields after `update(m)` at time `now`. */
  function Next(s: NodeState, m: NodeMessage, now: nat): (r: NodeState)
    requires IsControlMessage(m)
    ensures m.Tick? || m.GetStatistics? ==> r == s
    ensures r.handle.Some? && r.handle != s.handle ==> m.Running?
    ensures r.subscriptionActive && !s.subscriptionActive ==> m.Running?
    ensures r.status.Failed? && r.status != s.status ==> m.Error?
  {
    match m
    case Start => s.(status := NodeStatus.Starting)
    case Starting => s.(status := NodeStatus.Starting, subscriptionActive := false)
    case Running(h) =>
      s.(handle := Some(h), status := NodeStatus.Running, subscriptionActive := true,
         isShuttingDown := false, startTime := Some(now))
    case Shutdown =>
      s.(handle := None, status := NodeStatus.ShuttingDown, subscriptionActive := false,
         isShuttingDown := true, startTime := None)
    case ShuttingDown =>
      s.(status := NodeStatus.ShuttingDown, subscriptionActive := false, isShuttingDown := true,
         statistics := ClearPeers(s.statistics))
    case ShutdownComplete =>
      s.(status := Inactive, subscriptionActive := false, isShuttingDown := false,
         statistics := ClearPeers(s.statistics))
    case Tick => s
    case Statistics(st) => if !s.isShuttingDown then s.(statistics := Some(st)) else s
    case Error(e) => s.(status := Failed(e), subscriptionActive := false)
    case GetStatistics => s
  }

  /** The task `update(m)` returns. */
  function NextTask(s: NodeState, m: NodeMessage): (t: Task)
    requires IsControlMessage(m)
    ensures t.NoTask? <==> !(m.Start? || m.Shutdown? || (m.GetStatistics? && s.subscriptionActive && s.handle.Some?))
    ensures m.Start? ==> t == LaunchNode
  {
    match m
    case Start => LaunchNode
    case Shutdown =>
      (match s.handle
       case Some(h) => StopNode(h)
       case None => Done(ShutdownComplete))
    case GetStatistics =>
      if s.subscriptionActive && s.handle.Some? then FetchStatistics(s.handle.value, s.startTime)
      else NoTask
    case _ => NoTask
  }

  /** A periodic subscription: every `period` milliseconds, `msg`. */
  datatype Timer = Every(periodMillis: nat, msg: NodeMessage)

  /** `subscribe`: ticks always; statistics requests only while the subscription is active. */
  function Subscriptions(s: NodeState): (timers: seq<Timer>)
    ensures Every(TICK_MILLIS, Tick) in timers
    ensures (exists t | t in timers :: t.msg == GetStatistics) <==> s.subscriptionActive
    ensures forall t | t in timers :: t == Every(TICK_MILLIS, Tick)
              || t == Every(FETCH_STATISTICS_SECS * 1000, GetStatistics)
  {
    var tick := Every(TICK_MILLIS, Tick);
    if s.subscriptionActive then [Every(FETCH_STATISTICS_SECS * 1000, GetStatistics), tick] else [tick]
  }

  /** The controller (`Node`), updated in place by the application. */
  class Node {
    var handle: Option<Handle>
    var status: NodeStatus
    var statistics: Option<NodeStatistics>
    var subscriptionActive: bool
    var isShuttingDown: bool
    var startTime: Option<nat>

    function State(): NodeState
      reads this
    {
      NodeState(handle, status, statistics, subscriptionActive, isShuttingDown, startTime)
    }

    /** `Node::default()`. */
    constructor ()
      ensures State() == INITIAL
    {
      handle := None;
      status := Inactive;
      statistics := None;
      subscriptionActive := false;
      isShuttingDown := false;
      startTime := None;
    }

    /** `Node::update`: applies one message at time `now` and returns the follow-up task. */
    method Update(m: NodeMessage, now: nat) returns (task: Task)
      requires IsControlMessage(m)
      modifies this
      ensures State() == Next(old(State()), m, now)
      ensures task == NextTask(old(State()), m)
    {
      task := NoTask;
      match m {
        case Start =>
          status := NodeStatus.Starting;
          task := LaunchNode;
        case Starting =>
          status := NodeStatus.Starting;
          subscriptionActive := false;
        case Running(h) =>
          handle := Some(h);
          status := NodeStatus.Running;
          subscriptionActive := true;
          isShuttingDown := false;
          startTime := Some(now);
        case Shutdown =>
          status := NodeStatus.ShuttingDown;
          subscriptionActive := false;
          isShuttingDown := true;
          startTime := None;
          var taken := handle;
          handle := None;
          if taken.Some? {
            task := StopNode(taken.value);
          } else {
            task := Done(ShutdownComplete);
          }
        case ShuttingDown =>
          status := NodeStatus.ShuttingDown;
          subscriptionActive := false;
          isShuttingDown := true;
          statistics := ClearPeers(statistics);
        case ShutdownComplete =>
          status := Inactive;
          subscriptionActive := false;
          isShuttingDown := false;
          statistics := ClearPeers(statistics);
        case Tick =>
        case Statistics(st) =>
          if !isShuttingDown {
            statistics := Some(st);
          }
        case Error(e) =>
          status := Failed(e);
          subscriptionActive := false;
        case GetStatistics =>
          if subscriptionActive && handle.Some? {
            task := FetchStatistics(handle.value, startTime);
          }
      }
    }

    /** `subscribe`; changes nothing. */
    method Subscribe() returns (timers: seq<Timer>)
      ensures timers == Subscriptions(State())
    {
      timers := Subscriptions(State());
    }

    /** `unsubscribe`: turns the statistics subscription off and nothing else. */
    method Unsubscribe()
      modifies this
      ensures State() == old(State()).(subscriptionActive := false)
    {
      subscriptionActive := false;
    }
  }

  // ---------------------------------------------------------------------------
  // Properties of one message

  /** `Start` only marks the node as starting and launches it; the launch reports back `Running` or `Error`. */
  lemma StartLaunches(s: NodeState, now: nat, h: Handle, e: string)
    ensures Next(s, Start, now) == s.(status := NodeStatus.Starting)
    ensures NextTask(s, Start) == LaunchNode
    ensures StartOutcome(Ok(h)) == NodeMessage.Running(h) && StartOutcome(Err(e)) == Error(Generic(e))
  {
  }

  /** `Running(h)` stores the handle, turns the subscription on and records the start time. */
  lemma RunningStoresHandle(s: NodeState, h: Handle, now: nat)
    ensures var t := Next(s, NodeMessage.Running(h), now);
            t.handle == Some(h) && t.status == NodeStatus.Running && t.subscriptionActive
            && !t.isShuttingDown && t.startTime == Some(now) && t.statistics == s.statistics
  {
  }

  /**
   * `Shutdown` gives up the handle, turns everything off, and either stops the
   * node it held or, holding none, completes the shutdown at once.
   */
  lemma ShutdownReleasesHandle(s: NodeState, now: nat)
    ensures var t := Next(s, Shutdown, now);
            t.status == NodeStatus.ShuttingDown && !t.subscriptionActive && t.isShuttingDown
            && t.startTime.None? && t.handle.None? && t.statistics == s.statistics
    ensures s.handle.Some? ==> NextTask(s, Shutdown) == StopNode(s.handle.value)
    ensures s.handle.None? ==> NextTask(s, Shutdown) == Done(ShutdownComplete)
  {
  }

  /** `ShuttingDown` empties the stored peer list and leaves the rest of the snapshot alone. */
  lemma ShuttingDownClearsOnlyPeers(s: NodeState, now: nat)
    ensures var t := Next(s, NodeMessage.ShuttingDown, now);
            t.status == NodeStatus.ShuttingDown && t.isShuttingDown && !t.subscriptionActive
            && t.handle == s.handle && t.startTime == s.startTime
            && (t.statistics.Some? <==> s.statistics.Some?)
            && (s.statistics.Some? ==>
                  t.statistics.value.peerInformations == []
                  && t.statistics.value.(peerInformations := s.statistics.value.peerInformations)
                     == s.statistics.value)
  {
  }

  /** `ShutdownComplete` leaves the node inactive, and applying it again changes nothing. */
  lemma ShutdownCompleteIdempotent(s: NodeState, now: nat, later: nat)
    ensures var t := Next(s, ShutdownComplete, now);
            t.status == Inactive && !t.subscriptionActive && !t.isShuttingDown
            && (t.statistics.Some? ==> t.statistics.value.peerInformations == [])
            && Next(t, ShutdownComplete, later) == t
  {
  }

  /** A statistics snapshot replaces the stored one wholesale unless a shutdown is under way. */
  lemma StatisticsGated(s: NodeState, st: NodeStatistics, now: nat)
    ensures !s.isShuttingDown ==> Next(s, Statistics(st), now) == s.(statistics := Some(st))
    ensures s.isShuttingDown ==> Next(s, Statistics(st), now) == s
  {
  }

  /** An error always fails the node and stops the statistics subscription, whatever the status was. */
  lemma ErrorFails(s: NodeState, e: NodeError, now: nat)
    ensures Next(s, Error(e), now) == s.(status := Failed(e), subscriptionActive := false)
  {
  }

  /** `GetStatistics` changes nothing and fetches only with an active subscription and a handle. */
  lemma GetStatisticsOnlyFetches(s: NodeState, now: nat)
    ensures Next(s, GetStatistics, now) == s
    ensures NextTask(s, GetStatistics).FetchStatistics? <==> s.subscriptionActive && s.handle.Some?
    ensures NextTask(s, GetStatistics).FetchStatistics? ==>
              NextTask(s, GetStatistics) == FetchStatistics(s.handle.value, s.startTime)
  {
  }

  // ---------------------------------------------------------------------------
  // Runs of several messages

  /** The state after delivering `msgs` in order, all at time `now`. */
  function Run(s: NodeState, msgs: seq<NodeMessage>, now: nat): NodeState
    requires forall i | 0 <= i < |msgs| :: IsControlMessage(msgs[i])
    decreases |msgs|
  {
    if msgs == [] then s else Run(Next(s, msgs[0], now), msgs[1..], now)
  }

  /**
   * A stop that finds other holders of the handle (a fetch still in flight)
   * does not shut the node down, and the node ends up Failed with the
   * refusal naming the holder count.
   */
  lemma StopWithOtherHoldersFails(s: NodeState, holders: nat, shutdownResult: Result<(), string>, now: nat)
    requires s.handle.Some? && holders >= 2
    ensures var t := Next(s, Shutdown, now);
            var stop := StopNodeResult(holders, shutdownResult);
            var reply := StopOutcome(Ok(stop.0));
            !stop.1 && reply == Error(Generic(RefusalText(holders)))
            && Next(t, reply, now).status == Failed(Generic(RefusalText(holders)))
            && Next(t, reply, now).handle.None?
  {
  }

  /**
   * The normal life of the node: started, running, stopped by its sole holder.
   * It ends inactive, without a handle, subscription or start time.
   */
  lemma NormalLifecycle(h: Handle, t1: nat, t2: nat)
    ensures NextTask(INITIAL, Start) == LaunchNode
    ensures var running := Next(Next(INITIAL, Start, t1), StartOutcome(Ok(h)), t1);
            running.status == NodeStatus.Running && running.handle == Some(h)
            && NextTask(running, Shutdown) == StopNode(h)
            && var stopping := Next(running, Shutdown, t2);
               var reply := StopOutcome(Ok(StopNodeResult(1, Ok(())).0));
               reply == ShutdownComplete
               && Next(stopping, reply, t2) == INITIAL
  {
  }

  /**
   * `ShutdownComplete` clears the shutting-down flag, so a snapshot fetched
   * before the stop but delivered after it is still stored.
   */
  lemma {:induction false} LateStatisticsAfterShutdownApplied(s: NodeState, st: NodeStatistics, now: nat)
    ensures Run(s, [Shutdown, ShutdownComplete, Statistics(st)], now).statistics == Some(st)
    ensures Run(s, [Shutdown, Statistics(st)], now).statistics == s.statistics
  {
    var s1 := Next(s, Shutdown, now);
    var msgs := [Shutdown, ShutdownComplete, Statistics(st)];
    assert msgs[1..] == [ShutdownComplete, Statistics(st)];
    assert msgs[1..][1..] == [Statistics(st)];
    var s2 := Next(s1, ShutdownComplete, now);
    assert !s2.isShuttingDown;
    assert Run(s2, [Statistics(st)], now) == Run(Next(s2, Statistics(st), now), [], now);
    assert Run(s, msgs, now) == Run(s2, [Statistics(st)], now);
    var short := [Shutdown, Statistics(st)];
    assert short[1..] == [Statistics(st)];
    assert s1.isShuttingDown;
    assert Run(s1, [Statistics(st)], now) == Run(Next(s1, Statistics(st), now), [], now);
    assert Run(s, short, now) == Run(s1, [Statistics(st)], now);
  }
}
