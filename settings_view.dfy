/**
 * `src/settings/view.rs`: which settings buttons can be pressed and what they
 * send — the network and boolean option buttons, the `-`/`+` steppers of the
 * numeric options, the save and restart buttons — and the values shown for
 * options the configuration leaves unset.
 */
module SettingsView {
  import opened Common
  import Bonsai

  /** `BonsaiSettingsMessage`, as far as this view sends it. */
  datatype SettingsMessage =
    | NetworkChanged(network: Bonsai.Network)
    | AutoStartChanged(autoStart: bool)
    | PowFraudProofsChanged(powFraudProofs: bool)
    | BackfillChanged(backfill: bool)
    | AllowV1FallbackChanged(allowV1Fallback: bool)
    | UserAgentInputChanged(userAgent: string)
    | FixedPeerInputChanged(fixedPeer: string)
    | ProxyInputChanged(proxy: string)
    | MaxBanscoreChanged(banscore: string)
    | MaxOutboundChanged(outbound: string)
    | MaxInflightChanged(inflight: string)
    | SaveSettings
    | RestartNode

  // ---------------------------------------------------------------------------
  // Effective options

  /** The per-network node configuration; every option may be unset. */
  datatype NetworkConfig = NetworkConfig(
    useAssumeUtreexo: Option<bool>,
    powFraudProofs: Option<bool>,
    backfill: Option<bool>,
    allowV1Fallback: Option<bool>,
    disableDnsSeeds: Option<bool>,
    userAgent: Option<string>,
    fixedPeer: Option<string>,
    maxBanscore: Option<nat>,
    maxInflight: Option<nat>,
    maxOutbound: Option<nat>)

  /**
   * The values `view_settings` computes from the configuration. Not all are
   * displayed: the assume-utreexo and DNS-seed flags are never shown, and the
   * user-agent and fixed-peer fields show their own input buffers.
   */
  datatype Options = Options(
    useAssumeUtreexo: bool,
    powFraudProofs: bool,
    backfill: bool,
    allowV1Fallback: bool,
    disableDnsSeeds: bool,
    userAgent: string,
    fixedPeer: string,
    maxBanscore: nat,
    maxInflight: nat,
    maxOutbound: nat)

  /** What an entirely unset configuration computes. */
  const DEFAULT_OPTIONS: Options := Options(true, true, true, true, false, "", "", 0, 0, 0)

  /** Each option is computed as its configured value, or its default when unset. */
  function Effective(c: NetworkConfig): (o: Options)
    ensures c.useAssumeUtreexo.Some? ==> o.useAssumeUtreexo == c.useAssumeUtreexo.value
    ensures c.powFraudProofs.Some? ==> o.powFraudProofs == c.powFraudProofs.value
    ensures c.backfill.Some? ==> o.backfill == c.backfill.value
    ensures c.allowV1Fallback.Some? ==> o.allowV1Fallback == c.allowV1Fallback.value
    ensures c.disableDnsSeeds.Some? ==> o.disableDnsSeeds == c.disableDnsSeeds.value
    ensures c.maxBanscore.Some? ==> o.maxBanscore == c.maxBanscore.value
    ensures c.maxInflight.Some? ==> o.maxInflight == c.maxInflight.value
    ensures c.maxOutbound.Some? ==> o.maxOutbound == c.maxOutbound.value
    ensures c.userAgent.Some? ==> o.userAgent == c.userAgent.value
    ensures c.fixedPeer.Some? ==> o.fixedPeer == c.fixedPeer.value
    ensures c.useAssumeUtreexo.None? ==> o.useAssumeUtreexo == DEFAULT_OPTIONS.useAssumeUtreexo
    ensures c.powFraudProofs.None? ==> o.powFraudProofs == DEFAULT_OPTIONS.powFraudProofs
    ensures c.backfill.None? ==> o.backfill == DEFAULT_OPTIONS.backfill
    ensures c.allowV1Fallback.None? ==> o.allowV1Fallback == DEFAULT_OPTIONS.allowV1Fallback
    ensures c.disableDnsSeeds.None? ==> o.disableDnsSeeds == DEFAULT_OPTIONS.disableDnsSeeds
    ensures c.userAgent.None? ==> o.userAgent == DEFAULT_OPTIONS.userAgent
    ensures c.fixedPeer.None? ==> o.fixedPeer == DEFAULT_OPTIONS.fixedPeer
    ensures c.maxBanscore.None? ==> o.maxBanscore == DEFAULT_OPTIONS.maxBanscore
    ensures c.maxInflight.None? ==> o.maxInflight == DEFAULT_OPTIONS.maxInflight
    ensures c.maxOutbound.None? ==> o.maxOutbound == DEFAULT_OPTIONS.maxOutbound
  {
    Options(
      c.useAssumeUtreexo.GetOr(DEFAULT_OPTIONS.useAssumeUtreexo),
      c.powFraudProofs.GetOr(DEFAULT_OPTIONS.powFraudProofs),
      c.backfill.GetOr(DEFAULT_OPTIONS.backfill),
      c.allowV1Fallback.GetOr(DEFAULT_OPTIONS.allowV1Fallback),
      c.disableDnsSeeds.GetOr(DEFAULT_OPTIONS.disableDnsSeeds),
      c.userAgent.GetOr(DEFAULT_OPTIONS.userAgent),
      c.fixedPeer.GetOr(DEFAULT_OPTIONS.fixedPeer),
      c.maxBanscore.GetOr(DEFAULT_OPTIONS.maxBanscore),
      c.maxInflight.GetOr(DEFAULT_OPTIONS.maxInflight),
      c.maxOutbound.GetOr(DEFAULT_OPTIONS.maxOutbound))
  }

  /** The configuration that sets every option explicitly. */
  function Explicit(o: Options): NetworkConfig {
    NetworkConfig(Some(o.useAssumeUtreexo), Some(o.powFraudProofs), Some(o.backfill), Some(o.allowV1Fallback),
                  Some(o.disableDnsSeeds), Some(o.userAgent), Some(o.fixedPeer), Some(o.maxBanscore),
                  Some(o.maxInflight), Some(o.maxOutbound))
  }

  /**
   * Unset options compute the four feature switches on and DNS seeding
   * enabled; options that are set compute exactly what was set.
   */
  lemma EffectiveDefaultsAndExplicit(o: Options)
    ensures var none := NetworkConfig(None, None, None, None, None, None, None, None, None, None);
            Effective(none) == DEFAULT_OPTIONS
            && Effective(none).useAssumeUtreexo && Effective(none).powFraudProofs
            && Effective(none).backfill && Effective(none).allowV1Fallback && !Effective(none).disableDnsSeeds
    ensures Effective(Explicit(o)) == o
  {
  }

  // ---------------------------------------------------------------------------
  // Option buttons

  /** `boolean_button_with_disable_logic`: the button sends its message iff its value is not the active one. */
  function BooleanButton(buttonValue: bool, activeValue: bool, message: SettingsMessage): (press: Option<SettingsMessage>)
    ensures press.Some? <==> buttonValue != activeValue
    ensures press.Some? ==> press.value == message
  {
    if buttonValue != activeValue then Some(message) else None
  }

  /** Of a TRUE/FALSE pair exactly one button can be pressed, and it switches the option to the other value. */
  lemma BooleanPairSwitches(active: bool)
    ensures var t := BooleanButton(true, active, AutoStartChanged(true));
            var f := BooleanButton(false, active, AutoStartChanged(false));
            (t.Some? <==> !f.Some?)
            && (t.Some? ==> t.value.autoStart == !active)
            && (f.Some? ==> f.value.autoStart == !active)
  {
  }

  /** `network_button_with_disable_logic`: only the Signet button, and only while another network is active. */
  function NetworkButton(buttonNetwork: Bonsai.Network, active: Bonsai.Network): (press: Option<SettingsMessage>)
    ensures press.Some? <==> buttonNetwork == Bonsai.Signet && active != Bonsai.Signet
    ensures press.Some? ==> press.value == NetworkChanged(Bonsai.Signet)
  {
    if buttonNetwork != active && buttonNetwork == Bonsai.Signet then Some(NetworkChanged(buttonNetwork)) else None
  }

  /** The four network buttons, in order. */
  const NETWORK_BUTTONS: seq<Bonsai.Network> := [Bonsai.Bitcoin, Bonsai.Signet, Bonsai.Testnet4, Bonsai.Regtest]

  /** Whatever network is active, at most one network button can be pressed, and it leads to Signet. */
  lemma AtMostOneNetworkButton(active: Bonsai.Network, i: nat, j: nat)
    requires i < |NETWORK_BUTTONS| && j < |NETWORK_BUTTONS|
    requires NetworkButton(NETWORK_BUTTONS[i], active).Some? && NetworkButton(NETWORK_BUTTONS[j], active).Some?
    ensures i == j && NETWORK_BUTTONS[i] == Bonsai.Signet
  {
  }

  // ---------------------------------------------------------------------------
  // Numeric steppers

  /** The `-`/`+` buttons of a numeric option: each sends the neighbouring value as decimal text. */
  datatype Stepper = Stepper(minus: Option<string>, plus: Option<string>)

  /** The inline stepper of the ban score, outbound and inflight controls: `-` above `lo`, `+` below `hi`. */
  function InlineStepper(value: nat, lo: nat, hi: nat): (s: Stepper)
    ensures s.minus.Some? <==> value > lo
    ensures s.plus.Some? <==> value < hi
    ensures s.minus.Some? ==> s.minus.value == NatToString(value - 1)
    ensures s.plus.Some? ==> s.plus.value == NatToString(value + 1)
  {
    Stepper(if value > lo then Some(NatToString(value - 1)) else None,
            if value < hi then Some(NatToString(value + 1)) else None)
  }

  const BANSCORE_MIN: nat := 0
  const BANSCORE_MAX: nat := 1000
  const PEERS_MIN: nat := 1
  const PEERS_MAX: nat := 100

  /** The ban score stepper. */
  function BanscoreStepper(value: nat): (s: Stepper)
    ensures s.minus.Some? <==> value > 0
    ensures s.plus.Some? <==> value < 1000
    ensures s.minus.Some? ==> s.minus.value == NatToString(value - 1)
    ensures s.plus.Some? ==> s.plus.value == NatToString(value + 1)
  {
    InlineStepper(value, BANSCORE_MIN, BANSCORE_MAX)
  }

  /** The max-outbound stepper; the max-inflight stepper has the same bounds. */
  function PeersStepper(value: nat): (s: Stepper)
    ensures s.minus.Some? <==> value > 1
    ensures s.plus.Some? <==> value < 100
    ensures s.minus.Some? ==> s.minus.value == NatToString(value - 1)
    ensures s.plus.Some? ==> s.plus.value == NatToString(value + 1)
  {
    InlineStepper(value, PEERS_MIN, PEERS_MAX)
  }

  /**
   * A value inside its bounds stays inside them: whatever the inline stepper
   * sends reads back as a number one away from the value, within `[lo, hi]`.
   */
  lemma InlineStepperStaysInBounds(value: nat, lo: nat, hi: nat)
    requires lo <= value <= hi <= U32_MAX
    ensures var s := InlineStepper(value, lo, hi);
            (s.minus.Some? ==> ParseU32(s.minus.value) == Some(value - 1) && lo <= value - 1)
            && (s.plus.Some? ==> ParseU32(s.plus.value) == Some(value + 1) && value + 1 <= hi)
  {
    if value > lo {
      ParseU32OfNatToString(value - 1);
    }
    if value < hi {
      ParseU32OfNatToString(value + 1);
    }
  }

  /** The stepper of `integer_control`: the values its buttons send, as `u32` saturating arithmetic. */
  datatype IntStepper = IntStepper(minus: Option<nat>, plus: Option<nat>)

  /** `integer_control`: `-` above `min` sends `value.saturating_sub(step)`, `+` below `max` sends `value.saturating_add(step)`. */
  function IntegerControl(value: nat, step: nat, min: nat, max: nat): (s: IntStepper)
    requires value <= U32_MAX && step <= U32_MAX
    ensures s.minus.Some? <==> value > min
    ensures s.plus.Some? <==> value < max
    ensures s.minus.Some? ==> s.minus.value <= value && (step <= value ==> s.minus.value + step == value)
    ensures s.plus.Some? ==> value <= s.plus.value <= U32_MAX
    ensures s.plus.Some? && value + step <= U32_MAX ==> s.plus.value == value + step
    ensures s.minus.Some? && step > value ==> s.minus.value == 0
    ensures s.plus.Some? && value + step > U32_MAX ==> s.plus.value == U32_MAX
  {
    IntStepper(if value > min then Some(SaturatingSub(value, step)) else None,
               if value < max then Some(if value + step <= U32_MAX then value + step else U32_MAX) else None)
  }

  /** With a step of 1, `integer_control` sends the same numbers as the inline steppers. */
  lemma IntegerControlStepOne(value: nat, lo: nat, hi: nat)
    requires value <= U32_MAX && hi <= U32_MAX
    ensures var s := IntegerControl(value, 1, lo, hi);
            var t := InlineStepper(value, lo, hi);
            (s.minus.Some? <==> t.minus.Some?) && (s.plus.Some? <==> t.plus.Some?)
            && (s.minus.Some? ==> t.minus.value == NatToString(s.minus.value))
            && (s.plus.Some? ==> t.plus.value == NatToString(s.plus.value))
  {
  }

  /** The values `integer_control` sends are not clamped: a step larger than the room left overshoots the bounds. */
  lemma IntegerControlOvershoots()
    ensures IntegerControl(95, 10, 0, 100).plus == Some(105)
    ensures IntegerControl(5, 10, 1, 100).minus == Some(0)
  {
  }

  // ---------------------------------------------------------------------------
  // Save and restart

  /** A button guarded by a flag, with the notice shown beside it. */
  datatype ActionRow = ActionRow(notice: string, press: Option<SettingsMessage>)

  /** The save row: the notice and the button exactly when there are unsaved changes. */
  function SaveRow(unsavedChanges: bool): (r: ActionRow)
    ensures r.press.Some? <==> unsavedChanges
    ensures r.press.Some? ==> r.press.value == SaveSettings
    ensures r.notice != "" <==> unsavedChanges
  {
    if unsavedChanges then ActionRow("UNSAVED CHANGES", Some(SaveSettings)) else ActionRow("", None)
  }

  /** The restart row: the notice and the button exactly when a node restart is required. */
  function RestartRow(restartRequired: bool): (r: ActionRow)
    ensures r.press.Some? <==> restartRequired
    ensures r.press.Some? ==> r.press.value == RestartNode
    ensures r.notice != "" <==> restartRequired
  {
    if restartRequired then ActionRow("NODE RESTART REQUIRED\nTO APPLY SETTINGS", Some(RestartNode))
    else ActionRow("", None)
  }
}
