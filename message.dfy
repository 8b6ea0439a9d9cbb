/**
 * The node messages of `src/node/message.rs` and the labels their `Debug`
 * implementation writes into the log.
 */
module Message {
  import opened Common
  import opened Statistics

  /** `BonsaiNodeError`, kept as the text of a generic error. */
  datatype NodeError = Generic(msg: string)

  /** The shared node handle (`Arc<RwLock<FlorestaNode>>`), identified by a number. */
  datatype Handle = Handle(id: nat)

  /** A transaction, reduced to the values of its outputs in satoshis. */
  datatype Transaction = Transaction(outputs: seq<nat>)

  /**
   * A block: the hex text of its header hash, the height its coinbase
   * declares (BIP 34) if any, its serialised size in bytes and its transactions.
   */
  datatype Block = Block(hash: string, bip34Height: Option<nat>, sizeBytes: nat, txdata: seq<Transaction>)

  /** `NodeMessage`; socket addresses are carried as their display text. */
  datatype NodeMessage =
    | Start
    | Restart
    | Starting
    | Running(handle: Handle)
    | Shutdown
    | ShuttingDown
    | ShutdownComplete
    | Tick
    | GetStatistics
    | Statistics(stats: NodeStatistics)
    | ClearLogs
    | AddPeerInputChanged(input: string)
    | AddPeer
    | PeerConnected(peer: string)
    | DisconnectPeer(socket: string)
    | PeerDisconnected(socket: string)
    | CopyAccumulatorData
    | BlockHeightInputChanged(text: string)
    | BlockExplorerHeightUpdate(height: nat)
    | FetchBlock(height: nat)
    | BlockFetched(block: Option<Block>)
    | ToggleTransactionExpandedIdx(idx: nat)
    | Error(error: NodeError)

  /** The variants whose label shows their payload. */
  predicate ShowsPayload(m: NodeMessage) {
    m.AddPeerInputChanged? || m.PeerConnected? || m.DisconnectPeer? || m.PeerDisconnected?
    || m.BlockHeightInputChanged? || m.BlockExplorerHeightUpdate? || m.FetchBlock?
    || m.BlockFetched? || m.ToggleTransactionExpandedIdx?
  }

  /** `Debug for NodeMessage`. */
  function DebugLabel(m: NodeMessage): (l: string)
    ensures |l| > 0
  {
    match m
    case Start => "Start Node"
    case Restart => "Restart"
    case Starting => "Node Starting"
    case Running(_) => "Node Running"
    case Shutdown => "Stop Node"
    case ShuttingDown => "Node Shutting Down..."
    case ShutdownComplete => "Shutdown Complete"
    case Tick => "Tick"
    case GetStatistics => "Get Stats"
    case Statistics(_) => "Node Statistics"
    case ClearLogs => "Clear Logs"
    case AddPeerInputChanged(peer) => "AddPeerInputChanged(" + peer + ")"
    case AddPeer => "AddPeer"
    case PeerConnected(peer) => "PeerConnected(" + peer + ")"
    case DisconnectPeer(peer) => "RemovePeer(" + peer + ")"
    case PeerDisconnected(peer) => "PeerRemoved(" + peer + ")"
    case CopyAccumulatorData => "CopyAccumulatorData"
    case BlockHeightInputChanged(input) => "BlockHeightInputChanged(" + input + ")"
    case BlockExplorerHeightUpdate(height) => "BlockExplorerHeightUpdate(" + NatToString(height) + ")"
    case FetchBlock(height) => "FetchBlock(" + NatToString(height) + ")"
    case BlockFetched(block) =>
      (match block
       case Some(b) => "BlockFetched(" + b.hash + ")"
       case None => "BlockFetched(Missing)")
    case ToggleTransactionExpandedIdx(idx) => "ToggleTransactionExpandedIdx(" + NatToString(idx) + ")"
    case Error(_) => "Node Error"
  }

  /** Exactly the variants that show a payload have a label closing with `)`. */
  lemma LabelClosesIffPayload(m: NodeMessage)
    ensures DebugLabel(m)[|DebugLabel(m)| - 1] == ')' <==> ShowsPayload(m)
  {
    match m
    case AddPeerInputChanged(p) => ClosesWithParen("AddPeerInputChanged(" + p);
    case PeerConnected(p) => ClosesWithParen("PeerConnected(" + p);
    case DisconnectPeer(p) => ClosesWithParen("RemovePeer(" + p);
    case PeerDisconnected(p) => ClosesWithParen("PeerRemoved(" + p);
    case BlockHeightInputChanged(p) => ClosesWithParen("BlockHeightInputChanged(" + p);
    case BlockExplorerHeightUpdate(h) => ClosesWithParen("BlockExplorerHeightUpdate(" + NatToString(h));
    case FetchBlock(h) => ClosesWithParen("FetchBlock(" + NatToString(h));
    case BlockFetched(b) =>
      if b.Some? {
        ClosesWithParen("BlockFetched(" + b.value.hash);
      }
    case ToggleTransactionExpandedIdx(i) => ClosesWithParen("ToggleTransactionExpandedIdx(" + NatToString(i));
    case _ =>
  }

  lemma ClosesWithParen(open: string)
    ensures (open + ")")[|open + ")"| - 1] == ')'
  {
  }

  /** `Running`, `Statistics` and `Error` hide their payloads: the label does not depend on it. */
  lemma HiddenPayloads(h1: Handle, h2: Handle, s1: NodeStatistics, s2: NodeStatistics,
                       e1: NodeError, e2: NodeError)
    ensures DebugLabel(Running(h1)) == DebugLabel(Running(h2))
    ensures DebugLabel(Statistics(s1)) == DebugLabel(Statistics(s2))
    ensures DebugLabel(Error(e1)) == DebugLabel(Error(e2))
  {
  }

  /** A fresh block hash shows in its label; a missing block shows `Missing`. */
  lemma BlockFetchedLabels(b: Block)
    ensures DebugLabel(BlockFetched(None)) == "BlockFetched(Missing)"
    ensures DebugLabel(BlockFetched(Some(b))) == "BlockFetched(" + b.hash + ")"
  {
  }

  /** Disconnecting a peer and its confirmation are logged as removal. */
  lemma DisconnectLabels(a: string)
    ensures DebugLabel(DisconnectPeer(a)) == "RemovePeer(" + a + ")"
    ensures DebugLabel(PeerDisconnected(a)) == "PeerRemoved(" + a + ")"
  {
  }

  /** The text between a name's `(` and the final `)`. */
  function Inside(text: string, name: string): string
    requires |text| >= |name| + 2
  {
    text[|name| + 1..|text| - 1]
  }

  /**
   * String payloads are embedded verbatim: the text between the parentheses
   * of the label is the payload itself.
   */
  lemma StringPayloadVerbatim(p: string)
    ensures Inside(DebugLabel(AddPeerInputChanged(p)), "AddPeerInputChanged") == p
    ensures Inside(DebugLabel(PeerConnected(p)), "PeerConnected") == p
    ensures Inside(DebugLabel(DisconnectPeer(p)), "RemovePeer") == p
    ensures Inside(DebugLabel(PeerDisconnected(p)), "PeerRemoved") == p
    ensures Inside(DebugLabel(BlockHeightInputChanged(p)), "BlockHeightInputChanged") == p
  {
    assert Inside(DebugLabel(AddPeerInputChanged(p)), "AddPeerInputChanged") == p by {
      Wrapped("AddPeerInputChanged(", p);
    }
    assert Inside(DebugLabel(PeerConnected(p)), "PeerConnected") == p by {
      Wrapped("PeerConnected(", p);
    }
    assert Inside(DebugLabel(DisconnectPeer(p)), "RemovePeer") == p by {
      Wrapped("RemovePeer(", p);
    }
    assert Inside(DebugLabel(PeerDisconnected(p)), "PeerRemoved") == p by {
      Wrapped("PeerRemoved(", p);
    }
    assert Inside(DebugLabel(BlockHeightInputChanged(p)), "BlockHeightInputChanged") == p by {
      Wrapped("BlockHeightInputChanged(", p);
    }
  }

  /** The text between an opening prefix and a closing `)`. */
  lemma Wrapped(open: string, p: string)
    ensures (open + p + ")")[|open|..|open + p + ")"| - 1] == p
  {
  }

  /** Numeric payloads are written in decimal, so the label determines the number. */
  lemma NumericPayloadInjective(a: nat, b: nat)
    requires DebugLabel(FetchBlock(a)) == DebugLabel(FetchBlock(b))
    ensures a == b
  {
    var la, lb := DebugLabel(FetchBlock(a)), DebugLabel(FetchBlock(b));
    assert la[11..|la| - 1] == NatToString(a);
    assert lb[11..|lb| - 1] == NatToString(b);
    NatToStringInjective(a, b);
  }

  /** The variant index of a message. */
  function Kind(m: NodeMessage): nat {
    match m
    case Start => 0
    case Restart => 1
    case Starting => 2
    case Running(_) => 3
    case Shutdown => 4
    case ShuttingDown => 5
    case ShutdownComplete => 6
    case Tick => 7
    case GetStatistics => 8
    case Statistics(_) => 9
    case ClearLogs => 10
    case AddPeerInputChanged(_) => 11
    case AddPeer => 12
    case PeerConnected(_) => 13
    case DisconnectPeer(_) => 14
    case PeerDisconnected(_) => 15
    case CopyAccumulatorData => 16
    case BlockHeightInputChanged(_) => 17
    case BlockExplorerHeightUpdate(_) => 18
    case FetchBlock(_) => 19
    case BlockFetched(_) => 20
    case ToggleTransactionExpandedIdx(_) => 21
    case Error(_) => 22
  }

  /** Among the variants with a fixed label, the label identifies the variant. */
  lemma FixedLabelsIdentifyVariant(m1: NodeMessage, m2: NodeMessage)
    requires !ShowsPayload(m1) && !ShowsPayload(m2)
    ensures DebugLabel(m1) == DebugLabel(m2) <==> Kind(m1) == Kind(m2)
  {
  }
}
