/** The time-option card (whattime_example/components/time-option-card.tsx):
    the number of responses, the rounded share that is available, the colour
    of that figure, and the "Preferred" badge. */
module TimeOptionCard {
  import opened Wrappers
  import opened JsStrings

  datatype TimeOption = TimeOption(
    id: string,
    dateTime: string,
    availableCount: nat,
    unavailableCount: nat,
    noResponseCount: nat,
    isPreferred: bool)

  /** `totalResponses`: every participant is counted once, in one of the
      three columns. */
  function TotalResponses(option: TimeOption): (total: nat)
    ensures total >= option.availableCount
    ensures total == 0 <==> option.availableCount == 0 && option.unavailableCount == 0 && option.noResponseCount == 0
  {
    option.availableCount + option.unavailableCount + option.noResponseCount
  }

  /** `Math.round(available / total * 100)` on exact quotients: the nearest
      whole percent, halves rounded up. With no responses at all the
      quotient is `0 / 0`, i.e. `NaN` (`None`). */
  function AvailabilityPercentage(option: TimeOption): (p: Option<nat>)
    ensures p.None? <==> TotalResponses(option) == 0
    ensures p.Some? ==>
              var t := TotalResponses(option);
              200 * option.availableCount - t < 2 * t * p.value <= 200 * option.availableCount + t
  {
    var t := TotalResponses(option);
    if t == 0 then None else Some((200 * option.availableCount + t) / (2 * t))
  }

  /** The share is a percentage: 0 exactly when fewer than one in two
      hundred are available, 100 with everybody. */
  lemma PercentageBounds(option: TimeOption)
    requires TotalResponses(option) > 0
    ensures var p := AvailabilityPercentage(option).value;
            && p <= 100
            && (p == 0 <==> 200 * option.availableCount < TotalResponses(option))
            && (option.availableCount == TotalResponses(option) ==> p == 100)
  {
    var t := TotalResponses(option);
    var a := option.availableCount;
    var p := AvailabilityPercentage(option).value;
    if p > 100 {
      MulMonotone(2 * t, 101, p);
      assert false;
    }
    if 200 * a < t && p >= 1 {
      MulMonotone(2 * t, 1, p);
      assert false;
    }
    if a == t && p < 100 {
      MulMonotone(2 * t, p, 99);
      assert false;
    }
  }

  /** More available participants among the same number of responses never
      lowers the share. */
  lemma PercentageMonotone(x: TimeOption, y: TimeOption)
    requires TotalResponses(x) == TotalResponses(y) > 0
    requires x.availableCount <= y.availableCount
    ensures AvailabilityPercentage(x).value <= AvailabilityPercentage(y).value
  {
    var t := TotalResponses(x);
    var px := AvailabilityPercentage(x).value;
    var py := AvailabilityPercentage(y).value;
    if py < px {
      MulMonotone(2 * t, py + 1, px);
      assert false;
    }
  }

  lemma {:induction false} MulMonotone(k: nat, m: nat, n: nat)
    requires m <= n
    ensures k * m <= k * n
  {
    if k > 0 {
      MulMonotone(k - 1, m, n);
      assert k * m == (k - 1) * m + m;
      assert k * n == (k - 1) * n + n;
    }
  }

  const PercentGreen := "text-green-500"
  const PercentAmber := "text-amber-500"
  const PercentRed := "text-red-500"

  /** The figure's colour: green above 75, amber above 50, red otherwise,
      both thresholds strict; `NaN` compares false and is red. */
  function PercentageColor(p: Option<nat>): (c: string)
    ensures c == PercentGreen <==> p.Some? && p.value > 75
    ensures c == PercentAmber <==> p.Some? && 50 < p.value <= 75
    ensures c == PercentRed <==> p.None? || p.value <= 50
  {
    if p.Some? && p.value > 75 then PercentGreen
    else if p.Some? && p.value > 50 then PercentAmber
    else PercentRed
  }

  /** At exactly 75 and exactly 50 the figure takes the lower colour. */
  lemma ThresholdsAreStrict()
    ensures PercentageColor(Some(75)) == PercentAmber
    ensures PercentageColor(Some(50)) == PercentRed
    ensures PercentageColor(Some(76)) == PercentGreen
    ensures PercentageColor(Some(51)) == PercentAmber
  {
  }

  /** The text `${availabilityPercentage}%`. */
  function PercentageText(p: Option<nat>): (text: string)
    ensures p.None? ==> text == "NaN%"
    ensures p.Some? ==> text == NatToString(p.value) + "%"
  {
    match p
    case None => "NaN%"
    case Some(n) => NatToString(n) + "%"
  }

  /** `{option.isPreferred && <Badge>Preferred</Badge>}`. */
  function PreferredBadge(option: TimeOption): (badge: Option<string>)
    ensures badge.Some? <==> option.isPreferred
    ensures badge.Some? ==> badge.value == "Preferred"
  {
    if option.isPreferred then Some("Preferred") else None
  }

  /** A card everybody answered "available" to shows a green 100%. */
  lemma AllAvailableIsGreen(option: TimeOption)
    requires option.availableCount > 0 && option.unavailableCount == 0 && option.noResponseCount == 0
    ensures AvailabilityPercentage(option) == Some(100)
    ensures PercentageColor(AvailabilityPercentage(option)) == PercentGreen
  {
    PercentageBounds(option);
  }
}
