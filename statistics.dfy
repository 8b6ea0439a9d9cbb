/**
 * Peer and node statistics of `src/node/statistics.rs`: the implementation
 * tag derived from a peer's user agent, the mapping of the node's raw peer
 * records, and the fallbacks `fetch_stats` applies when a read fails.
 */
module Statistics {
  import opened Common

  /** The implementation a peer runs, as guessed from its user agent. */
  datatype NodeImpl = Btcd | Core | Floresta | Utreexod | Knots | Unknown

  /** `NodeImpl::default()`. */
  const DEFAULT_IMPL: NodeImpl := Unknown

  /** `Display for NodeImpl`; `Unknown` is written with `writeln!`, so it ends in a newline. */
  function ImplDisplay(i: NodeImpl): (s: string)
    ensures |s| > 0
    ensures s[|s| - 1] == '\n' <==> i == Unknown
  {
    match i
    case Btcd => "btcd"
    case Core => "Bitcoin Core"
    case Floresta => "Floresta"
    case Utreexod => "Utreexod"
    case Knots => "Bitcoin Knots"
    case Unknown => "Unknown\n"
  }

  /** Different implementations display differently. */
  lemma ImplDisplayInjective(a: NodeImpl, b: NodeImpl)
    requires ImplDisplay(a) == ImplDisplay(b)
    ensures a == b
  {
  }

  /**
   * The regular expression `Satoshi.*Knots` matches: `Satoshi` occurs, and
   * `Knots` occurs later with no newline in between (`.` does not match `\n`).
   */
  predicate SatoshiThenKnots(ua: string) {
    exists i: nat, j: nat | i + 7 <= j <= |ua| ::
      OccursAt(ua, "Satoshi", i) && OccursAt(ua, "Knots", j) && '\n' !in ua[i + 7..j]
  }

  /**
   * `regex_user_agent`: the first rule that matches, in the order
   * Knots pattern, `Satoshi`, `btcd`, `utreexod`, `floresta` (all case-sensitive).
   */
  function ClassifyUserAgent(ua: string): (r: NodeImpl)
    ensures r == Knots <==> SatoshiThenKnots(ua)
    ensures r == Core <==> !SatoshiThenKnots(ua) && Contains(ua, "Satoshi")
    ensures r == Btcd <==> !Contains(ua, "Satoshi") && Contains(ua, "btcd")
    ensures r == Utreexod <==>
      !Contains(ua, "Satoshi") && !Contains(ua, "btcd") && Contains(ua, "utreexod")
    ensures r == Floresta <==>
      !Contains(ua, "Satoshi") && !Contains(ua, "btcd") && !Contains(ua, "utreexod")
      && Contains(ua, "floresta")
    ensures r == Unknown <==>
      !Contains(ua, "Satoshi") && !Contains(ua, "btcd") && !Contains(ua, "utreexod")
      && !Contains(ua, "floresta")
  {
    if SatoshiThenKnots(ua) then
      KnotsPatternContainsSatoshi(ua);
      Knots
    else if Contains(ua, "Satoshi") then Core
    else if Contains(ua, "btcd") then Btcd
    else if Contains(ua, "utreexod") then Utreexod
    else if Contains(ua, "floresta") then Floresta
    else Unknown
  }

  /**
   * A user agent the Knots pattern matches also contains `Satoshi`; checking
   * Knots first is what keeps such peers from being tagged Core.
   */
  lemma KnotsPatternContainsSatoshi(ua: string)
    requires SatoshiThenKnots(ua)
    ensures Contains(ua, "Satoshi")
  {
    var i: nat, j: nat :| i + 7 <= j <= |ua| && OccursAt(ua, "Satoshi", i)
      && OccursAt(ua, "Knots", j) && '\n' !in ua[i + 7..j];
    ContainsAt(ua, "Satoshi", i);
  }

  /** Bitcoin Knots' user agent (Satoshi first, Knots in a later comment) is tagged Knots. */
  lemma KnotsUserAgentExample()
    ensures ClassifyUserAgent("/Satoshi:27.1.0/Knots:20240801/") == Knots
  {
    var a, b, c := "/", ":27.1.0/", ":20240801/";
    var ua := a + "Satoshi" + b + "Knots" + c;
    assert ua == "/Satoshi:27.1.0/Knots:20240801/";
    assert ua[1..8] == "Satoshi";
    assert ua[16..21] == "Knots";
    assert OccursAt(ua, "Satoshi", 1);
    assert OccursAt(ua, "Knots", 16);
    assert '\n' !in ua[8..16];
  }

  /** Matching is case-sensitive: `Floresta` with a capital letter is not recognised. */
  lemma CapitalFlorestaExample()
    ensures ClassifyUserAgent("/Floresta:0.7.0/") == Unknown
  {
    var ua := "/Floresta:0.7.0/";
    NotContainsWithoutFirstChar(ua, "Satoshi");
    NotContainsWithoutFirstChar(ua, "btcd");
    NotContainsWithoutFirstChar(ua, "utreexod");
    NotContainsWithoutFirstChar(ua, "floresta");
  }

  // ---------------------------------------------------------------------------
  // Peer records

  /** The transport of a peer connection: BIP 324 v2 is the encrypted one. */
  datatype TransportProtocol = V1 | V2

  /** Floresta's peer state and connection kind, carried through unchanged. */
  datatype PeerStatus = PeerStatus(code: nat)
  datatype ConnectionKind = ConnectionKind(code: nat)

  /** A peer record as the node reports it (`PeerInfo`). */
  datatype RawPeer = RawPeer(
    address: string,
    services: string,
    userAgent: string,
    initialHeight: nat,
    state: PeerStatus,
    kind: ConnectionKind,
    transport: TransportProtocol)

  /** A peer record as the interface shows it (`PeerInformation`). */
  datatype PeerInformation = PeerInformation(
    address: string,
    services: string,
    userAgent: string,
    nodeImpl: NodeImpl,
    initialHeight: nat,
    peerStatus: PeerStatus,
    connectionKind: ConnectionKind,
    transportProtocol: TransportProtocol)

  /** `info` is `raw` with every field copied and the implementation tag derived from the user agent. */
  predicate Mirrors(info: PeerInformation, raw: RawPeer) {
    && info.address == raw.address
    && info.services == raw.services
    && info.userAgent == raw.userAgent
    && info.nodeImpl == ClassifyUserAgent(raw.userAgent)
    && info.initialHeight == raw.initialHeight
    && info.peerStatus == raw.state
    && info.connectionKind == raw.kind
    && info.transportProtocol == raw.transport
  }

  /** The record built for one raw peer. */
  function ToInformation(raw: RawPeer): (info: PeerInformation)
    ensures Mirrors(info, raw)
  {
    PeerInformation(raw.address, raw.services, raw.userAgent, ClassifyUserAgent(raw.userAgent),
                    raw.initialHeight, raw.state, raw.kind, raw.transport)
  }

  /** The list `process_peer_infos` returns, as a value. */
  function Processed(raws: seq<RawPeer>): (infos: seq<PeerInformation>)
    ensures |infos| == |raws|
    ensures forall i | 0 <= i < |raws| :: Mirrors(infos[i], raws[i])
  {
    seq(|raws|, i requires 0 <= i < |raws| => ToInformation(raws[i]))
  }

  /**
   * `process_peer_infos`: one record per raw peer, pushed in input order,
   * each mirroring its raw peer.
   */
  method ProcessPeerInfos(raws: seq<RawPeer>) returns (infos: seq<PeerInformation>)
    ensures |infos| == |raws|
    ensures forall i | 0 <= i < |raws| :: Mirrors(infos[i], raws[i])
    ensures infos == Processed(raws)
  {
    infos := [];
    for k := 0 to |raws|
      invariant |infos| == k
      invariant forall i | 0 <= i < k :: infos[i] == ToInformation(raws[i])
    {
      infos := infos + [ToInformation(raws[k])];
    }
  }

  // ---------------------------------------------------------------------------
  // Snapshot and the fallbacks of `fetch_stats`

  /** A Utreexo accumulator (`Stump`): its leaf count and its root hashes. */
  datatype Stump = Stump(leaves: nat, roots: seq<string>)

  /** `NodeStatistics`, with the uptime in whole seconds. */
  datatype NodeStatistics = NodeStatistics(
    inIbd: bool,
    headers: nat,
    blocks: nat,
    accumulator: Stump,
    userAgent: string,
    peerInformations: seq<PeerInformation>,
    uptimeSecs: nat)

  /** What the node's reads returned: `None` is a failed read. */
  datatype NodeReads = NodeReads(
    inIbd: Option<bool>,
    height: Option<nat>,
    validationHeight: Option<nat>,
    accumulator: Option<Stump>,
    configUserAgent: Option<string>,
    peerInfo: Option<seq<RawPeer>>)

  /**
   * The snapshot `fetch_stats` builds from the reads, the start time and the
   * current time (both in seconds). `None` stands for the task panicking:
   * the IBD flag, the accumulator and the configuration are unwrapped.
   */
  function FetchStats(got: NodeReads, startTime: Option<nat>, now: nat): (r: Option<NodeStatistics>)
    ensures r.Some? <==> got.inIbd.Some? && got.accumulator.Some? && got.configUserAgent.Some?
    ensures r.Some? ==> r.value.inIbd == got.inIbd.value
    ensures r.Some? ==> r.value.accumulator == got.accumulator.value
    ensures r.Some? ==> r.value.userAgent == got.configUserAgent.value
    ensures r.Some? ==> r.value.headers == (if got.height.Some? then got.height.value else 0)
    ensures r.Some? ==>
      r.value.blocks == (if got.validationHeight.Some? then got.validationHeight.value else 0)
    ensures r.Some? && startTime.None? ==> r.value.uptimeSecs == 0
    ensures r.Some? && startTime.Some? ==> r.value.uptimeSecs == SaturatingSub(now, startTime.value)
    ensures r.Some? && got.peerInfo.None? ==> r.value.peerInformations == []
    ensures r.Some? && got.peerInfo.Some? ==>
      |r.value.peerInformations| == |got.peerInfo.value|
      && forall i | 0 <= i < |got.peerInfo.value| ::
           Mirrors(r.value.peerInformations[i], got.peerInfo.value[i])
  {
    if got.inIbd.None? || got.accumulator.None? || got.configUserAgent.None? then None
    else
      var uptime := match startTime
        case Some(t) => SaturatingSub(now, t)
        case None => 0;
      Some(NodeStatistics(
        got.inIbd.value,
        got.height.GetOr(0),
        got.validationHeight.GetOr(0),
        got.accumulator.value,
        got.configUserAgent.value,
        Processed(got.peerInfo.GetOr([])),
        uptime))
  }
}
