/** The status line above the battery: a fixed-threshold classification of
    the charge into one of four messages. */
module StatusMessage {

  import TimeRemaining

  const FULLY_CHARGED := "fully charged"
  const ALMOST_CHARGED := "almost charged"
  const CHARGING := "charging..."
  const LOW_BATTERY := "low battery"

  /** Thresholds checked from the top: 99, 80, 30. Each message holds on
      exactly one interval of charges, and the four intervals cover every
      integer. */
  function ChargingMessage(charge: int): (msg: string)
    ensures msg == FULLY_CHARGED <==> charge >= 99
    ensures msg == ALMOST_CHARGED <==> 80 <= charge < 99
    ensures msg == CHARGING <==> 30 <= charge < 80
    ensures msg == LOW_BATTERY <==> charge < 30
  {
    if charge >= 99 then FULLY_CHARGED
    else if charge >= 80 then ALMOST_CHARGED
    else if charge >= 30 then CHARGING
    else LOW_BATTERY
  }

  /** Position of a message on the scale from "low battery" (0) to
      "fully charged" (3); -1 for any other text. */
  function Level(msg: string): int
  {
    if msg == LOW_BATTERY then 0
    else if msg == CHARGING then 1
    else if msg == ALMOST_CHARGED then 2
    else if msg == FULLY_CHARGED then 3
    else -1
  }

  /** More charge never gives a lower message. */
  lemma ChargingMessageMonotone(a: int, b: int)
    requires a <= b
    ensures 0 <= Level(ChargingMessage(a)) <= Level(ChargingMessage(b))
  {
  }

  /** The status line and the time line agree on when the battery is full:
      both say "fully charged" for exactly the same charges. */
  lemma FullAgreesWithTimeLeft(charge: int)
    ensures TimeRemaining.TimeLeft(charge) == FULLY_CHARGED
        <==> ChargingMessage(charge) == FULLY_CHARGED
  {
  }

  lemma ChargingMessageExamples()
    ensures ChargingMessage(72) == "charging..."
    ensures ChargingMessage(85) == "almost charged"
    ensures ChargingMessage(100) == "fully charged"
    ensures ChargingMessage(10) == "low battery"
  {
  }

}
