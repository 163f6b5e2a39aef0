/** The width/height handling of `game_control`. */
module Controls {
  import opened Basics

  const MinDimension := 1
  const MaxWidth := 11
  const MaxHeight := 9

  /** The value brought into [lo, hi]: capped at `hi`, then raised to `lo`. */
  function Clamp(v: int, lo: int, hi: int): (r: int)
    requires lo <= hi
    ensures lo <= r <= hi
    ensures lo <= v <= hi ==> r == v
    ensures v < lo ==> r == lo
    ensures v > hi ==> r == hi
  {
    Max(lo, Min(v, hi))
  }

  /** Clamping twice is clamping once. */
  lemma ClampIdempotent(v: int, lo: int, hi: int)
    requires lo <= hi
    ensures Clamp(Clamp(v, lo, hi), lo, hi) == Clamp(v, lo, hi)
  {
  }

  datatype Dimensions = Dimensions(width: int, height: int)

  /** `game_control` for one tab. `width` and `height` are the results of
      `int(...)` on the two spinbox texts, None where that raised ValueError;
      then the handler returns without a result. Otherwise the width is
      clamped to [1, 11] and the height to [1, 9]. */
  function GameControl(width: Option<int>, height: Option<int>): (d: Option<Dimensions>)
    ensures d.Some? <==> width.Some? && height.Some?
    ensures d.Some? ==>
              && MinDimension <= d.value.width <= MaxWidth
              && MinDimension <= d.value.height <= MaxHeight
              && (MinDimension <= width.value <= MaxWidth ==> d.value.width == width.value)
              && (MinDimension <= height.value <= MaxHeight ==> d.value.height == height.value)
  {
    match (width, height)
    case (Some(w), Some(h)) => Some(Dimensions(Clamp(w, MinDimension, MaxWidth), Clamp(h, MinDimension, MaxHeight)))
    case _ => None
  }

  /** Feeding the clamped dimensions back in changes nothing. */
  lemma GameControlStable(width: int, height: int)
    ensures var d := GameControl(Some(width), Some(height)).value;
            GameControl(Some(d.width), Some(d.height)) == Some(d)
  {
    ClampIdempotent(width, MinDimension, MaxWidth);
    ClampIdempotent(height, MinDimension, MaxHeight);
  }
}
