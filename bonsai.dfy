/**
 * The application shell of `src/bonsai.rs`: tab selection, the close-window
 * path that stops the node first, delegation to the node controller, the
 * subscription each tab asks for, and the status header.
 *
 * The wallet messages are empty enums in this version, so the wallet
 * variants of `BonsaiMessage` cannot be built and are not modelled.
 */
module Bonsai {
  import opened Common
  import opened Colors
  import Util
  import Message
  import Control

  /** `START_NODE_AUTO`: the node is not started at launch. */
  const START_NODE_AUTO: bool := false

  datatype Tab =
    | BDKWallet | Phoenixd | Ark
    | NodeOverview | NodeP2P | NodeBlocks | NodeUtreexo | NodeMempool | NodeSettings
    | About

  /** `Tab::default()`. */
  const DEFAULT_TAB: Tab := NodeOverview

  predicate IsWalletTab(t: Tab) { t == BDKWallet || t == Phoenixd || t == Ark }

  predicate IsNodeTab(t: Tab) {
    t == NodeOverview || t == NodeP2P || t == NodeBlocks || t == NodeUtreexo
    || t == NodeMempool || t == NodeSettings
  }

  datatype BonsaiMessage =
    | SelectTab(tab: Tab)
    | CloseRequested
    | CloseWindow
    | Node(msg: Message.NodeMessage)

  /** What `Bonsai::update` asks the runtime to do. */
  datatype BonsaiTask =
    | NoTask
    | Done(msg: BonsaiMessage)
    | Batch(tasks: seq<BonsaiTask>)
    | StopThenClose(handle: Message.Handle)   // spawn `stop_node(handle)`, then `CloseAfterStop`
    | CloseOldestWindow                       // `window::oldest().and_then(window::close)`
    | NodeTask(task: Control.Task)            // a controller task, its messages wrapped in `Node`

  /** The message the stop-then-close task delivers: the window closes whatever the stop returned. */
  function CloseAfterStop(joined: Result<Result<(), string>, string>): (m: BonsaiMessage)
    ensures m == CloseWindow
  {
    CloseWindow
  }

  /** The modelled fields of the application: the active tab and the node controller. */
  datatype AppState = AppState(activeTab: Tab, node: Control.NodeState)

  /** A message the shell handles without failing: node messages must be ones the controller handles. */
  predicate Handled(m: BonsaiMessage) {
    m.Node? ==> Control.IsControlMessage(m.msg)
  }

  /** The state after `Bonsai::update(m)` at time `now`. */
  function Step(s: AppState, m: BonsaiMessage, now: nat): (r: AppState)
    requires Handled(m)
    ensures m.Node? ==> r.activeTab == s.activeTab
    ensures !m.Node? ==> r.node.status == s.node.status && r.node.statistics == s.node.statistics
    ensures !m.Node? ==> r.node.handle == s.node.handle || r.node.handle.None?
  {
    match m
    case SelectTab(t) => s.(activeTab := t)
    case CloseRequested =>
      if s.node.handle.Some? then s.(node := s.node.(subscriptionActive := false, handle := None)) else s
    case CloseWindow => s
    case Node(msg) => s.(node := Control.Next(s.node, msg, now))
  }

  /** The task `Bonsai::update(m)` returns. */
  function StepTask(s: AppState, m: BonsaiMessage): (t: BonsaiTask)
    requires Handled(m)
    ensures t.Batch? <==> m.CloseRequested? && s.node.handle.Some?
    ensures t == CloseOldestWindow <==> m.CloseWindow?
    ensures t.NodeTask? <==> m.Node?
  {
    match m
    case SelectTab(_) => NoTask
    case CloseRequested =>
      (match s.node.handle
       case Some(h) => Batch([Done(Node(Message.ShuttingDown)), StopThenClose(h)])
       case None => Done(CloseWindow))
    case CloseWindow => CloseOldestWindow
    case Node(msg) => NodeTask(Control.NextTask(s.node, msg))
  }

  class Bonsai {
    var activeTab: Tab
    const node: Control.Node

    function State(): AppState
      reads this, node
    {
      AppState(activeTab, node.State())
    }

    /** The application as `main` builds it: default tab, default node. */
    constructor ()
      ensures State() == AppState(DEFAULT_TAB, Control.INITIAL)
      ensures fresh(node)
    {
      activeTab := DEFAULT_TAB;
      node := new Control.Node();
    }

    /** `Bonsai::update`. */
    method Update(m: BonsaiMessage, now: nat) returns (task: BonsaiTask)
      requires Handled(m)
      modifies this, node
      ensures State() == Step(old(State()), m, now)
      ensures task == StepTask(old(State()), m)
    {
      match m {
        case SelectTab(t) =>
          activeTab := t;
          task := NoTask;
        case CloseRequested =>
          if node.handle.Some? {
            var stopping := Done(Node(Message.ShuttingDown));
            node.Unsubscribe();
            var h := node.handle.value;
            node.handle := None;
            task := Batch([stopping, StopThenClose(h)]);
          } else {
            task := Done(CloseWindow);
          }
        case CloseWindow =>
          task := CloseOldestWindow;
        case Node(msg) =>
          var t := node.Update(msg, now);
          task := NodeTask(t);
      }
    }
  }

  // ---------------------------------------------------------------------------
  // Properties of `update`

  /** Selecting a tab switches to it and does nothing else. */
  lemma SelectTabOnlySwitches(s: AppState, t: Tab, now: nat)
    ensures Step(s, SelectTab(t), now) == s.(activeTab := t)
    ensures StepTask(s, SelectTab(t)) == NoTask
  {
  }

  /**
   * Closing with a running node: the node is told it is shutting down, the
   * statistics subscription stops, the handle is handed to the stop task, and
   * the window closes after the stop whatever its result.
   */
  lemma CloseRequestedWithHandle(s: AppState, now: nat, stopResult: Result<Result<(), string>, string>)
    requires s.node.handle.Some?
    ensures var t := Step(s, CloseRequested, now);
            t.node.handle.None? && !t.node.subscriptionActive && t.activeTab == s.activeTab
            && t.node.status == s.node.status
    ensures StepTask(s, CloseRequested)
              == Batch([Done(Node(Message.ShuttingDown)), StopThenClose(s.node.handle.value)])
    ensures CloseAfterStop(stopResult) == CloseWindow
    ensures var t := Step(Step(s, CloseRequested, now), Node(Message.ShuttingDown), now);
            t.node.status == Control.NodeStatus.ShuttingDown && t.node.isShuttingDown
            && t.node.handle.None? && !t.node.subscriptionActive
  {
  }

  /** Closing with no node running closes the window straight away and changes nothing. */
  lemma CloseRequestedWithoutHandle(s: AppState, now: nat)
    requires s.node.handle.None?
    ensures Step(s, CloseRequested, now) == s
    ensures StepTask(s, CloseRequested) == Done(CloseWindow)
  {
  }

  /** Node messages reach the controller unchanged and leave the tab alone. */
  lemma NodeMessagesDelegated(s: AppState, msg: Message.NodeMessage, now: nat)
    requires Control.IsControlMessage(msg)
    ensures Step(s, Node(msg), now) == AppState(s.activeTab, Control.Next(s.node, msg, now))
    ensures StepTask(s, Node(msg)) == NodeTask(Control.NextTask(s.node, msg))
  {
  }

  // ---------------------------------------------------------------------------
  // Startup

  /** The tasks issued at launch. */
  function StartupTasks(): (t: BonsaiTask)
    ensures !START_NODE_AUTO ==> t == NoTask
  {
    if START_NODE_AUTO then
      Batch([Done(Node(Message.Starting)), NodeTask(Control.LaunchNode)])
    else NoTask
  }

  // ---------------------------------------------------------------------------
  // Subscription and views

  /** What the application listens to: window close requests, plus the node's timers on node tabs. */
  datatype AppSubscription = AppSubscription(closeRequests: bool, nodeTimers: seq<Control.Timer>)

  /** `Bonsai::subscription`; the About tab is `unimplemented!()`. */
  function Subscription(s: AppState): (sub: AppSubscription)
    requires s.activeTab != About
    ensures sub.closeRequests
    ensures IsWalletTab(s.activeTab) ==> sub.nodeTimers == []
    ensures IsNodeTab(s.activeTab) ==> sub.nodeTimers == Control.Subscriptions(s.node)
  {
    var timers := if IsWalletTab(s.activeTab) then [] else Control.Subscriptions(s.node);
    AppSubscription(true, timers)
  }

  /** On a node tab the statistics timer runs exactly while the controller's subscription is active. */
  lemma NodeTabFetchesIffActive(s: AppState)
    requires IsNodeTab(s.activeTab)
    ensures (exists t | t in Subscription(s).nodeTimers :: t.msg == Message.GetStatistics)
            <==> s.node.subscriptionActive
  {
    assert Subscription(s).nodeTimers == Control.Subscriptions(s.node);
  }

  /**
   * Whether drawing a tab's content panics: About is `unimplemented!()`, the
   * node's blocks, Utreexo and settings views are `unimplemented!()`, and the
   * mempool tab is unreachable in `view_tab`.
   */
  predicate ViewPanics(t: Tab) {
    t == About || t == NodeBlocks || t == NodeUtreexo || t == NodeSettings || t == NodeMempool
  }

  /** The tabs whose sidebar button sends `SelectTab`; the others have no `on_press`. */
  predicate SidebarSelectable(t: Tab) { t == BDKWallet || t == NodeOverview || t == NodeP2P }

  /** The default tab and every tab the sidebar can select can be drawn and subscribed to. */
  lemma SelectableTabsDraw(t: Tab)
    requires SidebarSelectable(t) || t == DEFAULT_TAB
    ensures !ViewPanics(t) && t != About
  {
  }

  /** The active tab after a run of messages whose tab selections all come from the sidebar. */
  function TabAfter(tab: Tab, msgs: seq<BonsaiMessage>): Tab
    decreases |msgs|
  {
    if msgs == [] then tab
    else TabAfter(if msgs[0].SelectTab? then msgs[0].tab else tab, msgs[1..])
  }

  /** `Bonsai::update` moves the tab only on `SelectTab`, to the selected tab. */
  lemma StepTab(s: AppState, m: BonsaiMessage, now: nat)
    requires Handled(m)
    ensures Step(s, m, now).activeTab == (if m.SelectTab? then m.tab else s.activeTab)
  {
  }

  /** The state after the shell handles `msgs` in turn at time `now`. */
  function Run(s: AppState, msgs: seq<BonsaiMessage>, now: nat): AppState
    requires forall i | 0 <= i < |msgs| :: Handled(msgs[i])
    decreases |msgs|
  {
    if msgs == [] then s else Run(Step(s, msgs[0], now), msgs[1..], now)
  }

  /** The tab after a run of the shell's own steps is the tab `TabAfter` computes. */
  lemma {:induction false} RunTab(s: AppState, msgs: seq<BonsaiMessage>, now: nat)
    requires forall i | 0 <= i < |msgs| :: Handled(msgs[i])
    ensures Run(s, msgs, now).activeTab == TabAfter(s.activeTab, msgs)
    decreases |msgs|
  {
    if msgs != [] {
      StepTab(s, msgs[0], now);
      RunTab(Step(s, msgs[0], now), msgs[1..], now);
    }
  }

  /**
   * Only sidebar selections move the tab, so the application, started on the
   * default tab, never lands on a panicking view.
   */
  lemma {:induction false} ActiveTabNeverPanics(s: AppState, msgs: seq<BonsaiMessage>, now: nat)
    requires s.activeTab == DEFAULT_TAB
    requires forall i | 0 <= i < |msgs| :: Handled(msgs[i])
    requires forall i | 0 <= i < |msgs| :: msgs[i].SelectTab? ==> SidebarSelectable(msgs[i].tab)
    ensures !ViewPanics(TabAfter(DEFAULT_TAB, msgs))
    ensures !ViewPanics(Run(s, msgs, now).activeTab)
  {
    TabAfterStaysSelectable(DEFAULT_TAB, msgs);
    RunTab(s, msgs, now);
  }

  lemma {:induction false} TabAfterStaysSelectable(tab: Tab, msgs: seq<BonsaiMessage>)
    requires SidebarSelectable(tab) || tab == DEFAULT_TAB
    requires forall i | 0 <= i < |msgs| :: msgs[i].SelectTab? ==> SidebarSelectable(msgs[i].tab)
    ensures SidebarSelectable(TabAfter(tab, msgs)) || TabAfter(tab, msgs) == DEFAULT_TAB
    decreases |msgs|
  {
    if msgs != [] {
      var next := if msgs[0].SelectTab? then msgs[0].tab else tab;
      assert forall i | 0 <= i < |msgs[1..]| :: msgs[1..][i] == msgs[i + 1];
      TabAfterStaysSelectable(next, msgs[1..]);
    }
  }

  // ---------------------------------------------------------------------------
  // Header

  /** The colour of the header's status text. */
  function HeaderStatusColor(status: Control.NodeStatus): (c: Color)
    ensures c == Green <==> status.Starting? || status.Running?
    ensures c == OffWhite <==> status.Inactive?
    ensures c == Red <==> status.ShuttingDown? || status.Failed?
  {
    match status
    case Starting => Green
    case Running => Green
    case Inactive => OffWhite
    case ShuttingDown => Red
    case Failed(_) => Red
  }

  /** The height the header shows: the validated block count, or 0 without statistics, grouped by thousands. */
  function HeaderHeight(s: Control.NodeState): (text: string)
    ensures s.statistics.None? ==> text == "0"
    ensures s.statistics.Some? ==> RemoveCommas(text) == NatToString(s.statistics.value.blocks)
  {
    var blocks := if s.statistics.Some? then s.statistics.value.blocks else 0;
    var digits := NatToString(blocks);
    Util.ThousandsRemoveCommas(digits);
    RemoveCommasNoop(digits);
    Util.Thousands(digits)
  }

  datatype Network = Bitcoin | Signet | Testnet | Testnet4 | Regtest

  /** `NETWORK`: the node runs on signet. */
  const NETWORK: Network := Signet

  /** The colour of the header's network text. */
  function NetworkColor(n: Network): (c: Color)
    ensures c == Orange <==> n == Bitcoin
    ensures c == Purple <==> n == Signet
    ensures c == Blue <==> n == Testnet || n == Testnet4
    ensures c == OffWhite <==> n == Regtest
  {
    match n
    case Bitcoin => Orange
    case Signet => Purple
    case Testnet => Blue
    case Testnet4 => Blue
    case Regtest => OffWhite
  }

  /** The network is shown in upper case, in purple for signet. */
  function NetworkText(n: Network): (t: string)
    ensures |t| > 0 && forall i | 0 <= i < |t| :: 'A' <= t[i] <= 'Z' || '0' <= t[i] <= '9'
  {
    match n
    case Bitcoin => "BITCOIN"
    case Signet => "SIGNET"
    case Testnet => "TESTNET"
    case Testnet4 => "TESTNET4"
    case Regtest => "REGTEST"
  }

  /** Every network has its own header text. */
  lemma NetworkTextInjective(a: Network, b: Network)
    requires NetworkText(a) == NetworkText(b)
    ensures a == b
  {
    assert NetworkText(a)[|NetworkText(a)| - 1] == NetworkText(b)[|NetworkText(b)| - 1];
  }

  lemma HeaderNetwork()
    ensures NetworkText(NETWORK) == "SIGNET" && NetworkColor(NETWORK) == Purple
  {
  }
}
