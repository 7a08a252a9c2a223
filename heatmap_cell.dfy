/** One heatmap cell (whattime_example/components/heatmap-cell.tsx): its
    background colour and whether it prints its percentage. */
module HeatmapCell {
  import opened Wrappers
  import opened JsStrings
  import opened SlotDisplay

  /** `getBackgroundColor`: a truthy `color` prop wins; otherwise the bands,
      whose upper bounds are inclusive. */
  function BackgroundColor(percentage: int, color: Option<string>): (c: string)
    ensures color.Some? && color.value != "" ==> c == color.value
    ensures color.None? || color.value == "" ==>
              && (c == AvailabilityRed <==> percentage <= 25)
              && (c == AvailabilityAmber <==> 25 < percentage <= 50)
              && (c == AvailabilityYellow <==> 50 < percentage <= 75)
              && (c == AvailabilityGreen <==> percentage > 75)
  {
    if color.Some? && color.value != "" then color.value
    else if percentage <= 25 then AvailabilityRed
    else if percentage <= 50 then AvailabilityAmber
    else if percentage <= 75 then AvailabilityYellow
    else AvailabilityGreen
  }

  /** The band of a percentage, from worst (0, red) to best (3, green). */
  function Rank(c: string): nat {
    if c == AvailabilityRed then 0
    else if c == AvailabilityAmber then 1
    else if c == AvailabilityYellow then 2
    else 3
  }

  /** Without an explicit colour, a higher percentage never gets a worse band. */
  lemma BandsMonotone(a: int, b: int)
    requires a <= b
    ensures Rank(BackgroundColor(a, None)) <= Rank(BackgroundColor(b, None))
  {
  }

  /** The cell's bands and the availability views' `getAvailabilityColor`
      use the same four colours but put the boundary values 25, 50 and 75 in
      different bands; everywhere else they agree. */
  lemma CellAndAvailabilityColor(percentage: int)
    ensures percentage != 25 && percentage != 50 && percentage != 75 ==>
              BackgroundColor(percentage, None) == GetAvailabilityColor(percentage)
    ensures BackgroundColor(75, None) == AvailabilityYellow && GetAvailabilityColor(75) == AvailabilityGreen
    ensures BackgroundColor(50, None) == AvailabilityAmber && GetAvailabilityColor(50) == AvailabilityYellow
    ensures BackgroundColor(25, None) == AvailabilityRed && GetAvailabilityColor(25) == AvailabilityAmber
  {
  }

  /** The `size` prop, "default" when it is not given. */
  datatype Size = Default | Small

  function SizeOf(size: Option<Size>): Size {
    if size.None? then Default else size.value
  }

  /** The percentage text `${percentage}%`, printed only at the default size. */
  function PercentageLabel(percentage: int, size: Option<Size>): (shown: Option<string>)
    ensures shown.Some? <==> SizeOf(size) == Default
    ensures shown.Some? ==> shown.value == IntToString(percentage) + "%"
  {
    if SizeOf(size) == Default then Some(IntToString(percentage) + "%") else None
  }

  /** The cell's box: "h-8 w-16" at the default size, "h-6 w-3" when small. */
  function SizeClass(size: Option<Size>): (cls: string)
    ensures cls == "h-8 w-16" <==> SizeOf(size) == Default
  {
    if SizeOf(size) == Default then "h-8 w-16" else "h-6 w-3"
  }
}
