/**
 * The node control buttons of `src/node/interface/overview/style.rs`: which
 * of them a status disables, and the colours a button is drawn in.
 */
module OverviewStyle {
  import opened Colors
  import Control

  datatype ControlButton = Start | Restart | Shutdown

  /** iced's button interaction state. */
  datatype ButtonStatus = Active | Hovered | Pressed | Disabled

  /** Background colour and text colour of a button. */
  datatype Pair = Pair(color: Tint, text: Tint)

  /**
   * `should_disable`: the disabling table. Start is usable only when the node
   * is inactive or failed, Restart and Shutdown only while it runs.
   */
  function ShouldDisable(status: Control.NodeStatus, button: ControlButton): (disabled: bool)
    ensures !disabled <==>
      ((status.Inactive? || status.Failed?) && button == Start)
      || (status.Running? && (button == Restart || button == Shutdown))
    ensures status.Starting? || status.ShuttingDown? ==> disabled
  {
    match (status, button)
    case (Running, Start) => true
    case (Inactive, Restart) => true
    case (Inactive, Shutdown) => true
    case (Starting, _) => true
    case (ShuttingDown, _) => true
    case (Failed(_), Restart) => true
    case (Failed(_), Shutdown) => true
    case _ => false
  }

  /** The button's own colours: green, orange or red, always with black text. */
  function BasePair(button: ControlButton): (p: Pair)
    ensures p.text == Opaque(Black)
    ensures p.color.alphaPercent == 100
    ensures button == Start ==> p.color == Opaque(Green)
    ensures button == Restart ==> p.color == Opaque(Orange)
    ensures button == Shutdown ==> p.color == Opaque(Red)
  {
    match button
    case Start => Pair(Opaque(Green), Opaque(Black))
    case Restart => Pair(Opaque(Orange), Opaque(Black))
    case Shutdown => Pair(Opaque(Red), Opaque(Black))
  }

  /**
   * `action_button`'s colours: a button the table disables, or one iced reports
   * as disabled, is dimmed to half; a hovered or pressed one has only its
   * background at 80%; an active one keeps its colours.
   */
  function ActionButtonPair(status: Control.NodeStatus, button: ControlButton, interaction: ButtonStatus): (p: Pair)
    ensures p.color.color == BasePair(button).color.color && p.text.color == Black
    ensures p.color.color == (match button case Start => Green case Restart => Orange case Shutdown => Red)
    ensures ShouldDisable(status, button) || interaction == Disabled ==>
              p.color.alphaPercent == 50 && p.text.alphaPercent == 50
    ensures !ShouldDisable(status, button) && interaction == Active ==> p == BasePair(button)
    ensures !ShouldDisable(status, button) && (interaction == Hovered || interaction == Pressed) ==>
              p.color.alphaPercent == 80 && p.text == Opaque(Black)
  {
    var base := BasePair(button);
    if ShouldDisable(status, button) || interaction == Disabled then
      Pair(ScaleAlpha(base.color, 50), ScaleAlpha(base.text, 50))
    else
      match interaction
      case Active => base
      case Hovered => Pair(ScaleAlpha(base.color, 80), base.text)
      case Pressed => Pair(ScaleAlpha(base.color, 80), base.text)
      case Disabled => base
  }

  /**
   * Start alone is usable while the node is inactive or failed, Restart and
   * Shutdown while it runs, and no button while it starts or shuts down.
   */
  lemma UsableButtonCount(status: Control.NodeStatus)
    ensures status.Inactive? || status.Failed? ==>
      !ShouldDisable(status, Start) && ShouldDisable(status, Restart) && ShouldDisable(status, Shutdown)
    ensures status.Running? ==>
      ShouldDisable(status, Start) && !ShouldDisable(status, Restart) && !ShouldDisable(status, Shutdown)
    ensures status.Starting? || status.ShuttingDown? ==>
      ShouldDisable(status, Start) && ShouldDisable(status, Restart) && ShouldDisable(status, Shutdown)
  {
  }
}
