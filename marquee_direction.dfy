/**
 * The sign and step rules of `initMarqueeScrollDirection`: the authored base
 * direction, the playback sign the scroll direction selects, the status
 * attribute, the start and end offsets of the scroll-scrubbed timeline, the
 * initial `xPercent` and the viewport step that picks the speed multiplier.
 */
module MarqueeDirection {
  import opened Wrappers

  const Normal := "normal"
  const Inverted := "inverted"

  /** `direction === "right" ? 1 : -1` on `data-marquee-direction` (missing reads as not "right"). */
  function BaseDirection(attr: Option<string>): (r: int)
    ensures r == 1 || r == -1
    ensures r == 1 <==> attr == Some("right")
  {
    if attr == Some("right") then 1 else -1
  }

  /** The viewport-width step function for the speed multiplier. */
  function SpeedMultiplier(innerWidth: int): (r: real)
    ensures r == 0.25 || r == 0.5 || r == 1.0
    ensures r == 0.25 <==> innerWidth < 479
    ensures r == 1.0 <==> innerWidth >= 991
  {
    if innerWidth < 479 then 0.25 else if innerWidth < 991 then 0.5 else 1.0
  }

  /** A wider viewport never gets a smaller multiplier. */
  lemma SpeedMultiplierMonotone(narrow: int, wide: int)
    requires narrow <= wide
    ensures SpeedMultiplier(narrow) <= SpeedMultiplier(wide)
  {
  }

  /** `onUpdate`: the playback rate for ScrollTrigger's `self.direction`. */
  function TimeScale(base: int, scrollDirection: int): (r: int)
    requires base == 1 || base == -1
    ensures r == 1 || r == -1
    ensures r == base <==> scrollDirection != 1
  {
    if scrollDirection == 1 then -base else base
  }

  /** `onUpdate`: the `data-marquee-status` text. */
  function Status(scrollDirection: int): (r: string)
    ensures r == Normal || r == Inverted
    ensures r == Normal <==> scrollDirection == 1
  {
    if scrollDirection == 1 then Normal else Inverted
  }

  /**
   * A change of scroll direction flips only the sign of playback; after an
   * update the status reads "normal" exactly when the marquee runs against
   * its authored direction.
   */
  lemma UpdateRules(base: int, d1: int, d2: int)
    requires base == 1 || base == -1
    ensures (d1 == 1) != (d2 == 1) ==> TimeScale(base, d1) == -TimeScale(base, d2)
    ensures (d1 == 1) == (d2 == 1) ==> TimeScale(base, d1) == TimeScale(base, d2)
    ensures Status(d1) == Normal <==> TimeScale(base, d1) == -base
  {
  }

  /** The timeline's start offset (in vw): against the base direction. */
  function ScrollStart(base: int, scrollSpeed: real): (r: real)
    requires base == 1 || base == -1
    ensures r == -(base as real) * scrollSpeed
  {
    if base == -1 then scrollSpeed else -scrollSpeed
  }

  /** The timeline's end offset (in vw): the mirror of the start. */
  function ScrollEnd(base: int, scrollSpeed: real): (r: real)
    requires base == 1 || base == -1
    ensures r == (base as real) * scrollSpeed
    ensures r + ScrollStart(base, scrollSpeed) == 0.0
  {
    -ScrollStart(base, scrollSpeed)
  }

  /** `gsap.set(items, { xPercent })` before playback: a full width on the base side. */
  function InitialXPercent(base: int): (r: int)
    requires base == 1 || base == -1
    ensures r == 100 * base
  {
    if base == 1 then 100 else -100
  }

  /** The scroll track's `marginLeft` and `width`, in percent of its parent. */
  datatype Track = Track(marginLeft: real, width: real)

  function TrackFor(scrollSpeed: real): (r: Track)
    ensures -r.marginLeft == scrollSpeed
    ensures r.marginLeft + r.width - 100.0 == scrollSpeed
  {
    Track(scrollSpeed * -1.0, scrollSpeed * 2.0 + 100.0)
  }

  /**
   * The track's margin and width are percentages of its parent's width,
   * while the timeline moves it by `vw`, percentages of the viewport's
   * width. In pixels, the track reaches equally far past both edges of the
   * parent, and for a positive `scrollSpeed` that overhang covers the
   * largest shift the timeline applies exactly when the parent is at least
   * as wide as the viewport (a full-width marquee never shows a gap).
   */
  lemma TrackCoversTimeline(base: int, scrollSpeed: real, parentWidth: real, viewportWidth: real)
    requires base == 1 || base == -1
    requires scrollSpeed >= 0.0 && parentWidth >= 0.0 && viewportWidth >= 0.0
    ensures var t := TrackFor(scrollSpeed);
      var leftOverhang := -t.marginLeft * parentWidth / 100.0;
      var rightOverhang := (t.marginLeft + t.width - 100.0) * parentWidth / 100.0;
      var largestShift := if ScrollStart(base, scrollSpeed) >= 0.0 then ScrollStart(base, scrollSpeed) else ScrollEnd(base, scrollSpeed);
      && leftOverhang == rightOverhang
      && (scrollSpeed > 0.0 ==> (leftOverhang >= largestShift * viewportWidth / 100.0 <==> parentWidth >= viewportWidth))
  {
    var t := TrackFor(scrollSpeed);
    var largestShift := if ScrollStart(base, scrollSpeed) >= 0.0 then ScrollStart(base, scrollSpeed) else ScrollEnd(base, scrollSpeed);
    assert largestShift == scrollSpeed;
    assert -t.marginLeft * parentWidth / 100.0 - largestShift * viewportWidth / 100.0
        == scrollSpeed * (parentWidth - viewportWidth) / 100.0;
    if scrollSpeed > 0.0 {
      if parentWidth >= viewportWidth {
        assert scrollSpeed * (parentWidth - viewportWidth) >= 0.0;
      } else {
        assert scrollSpeed * (viewportWidth - parentWidth) > 0.0;
      }
    }
  }

  /** One marquee's playback sign and status attribute. */
  class Marquee {
    const base: int
    var timeScale: int
    var status: string

    ghost predicate Valid()
      reads this
    {
      (base == 1 || base == -1) && (timeScale == base || timeScale == -base)
    }

    /** Start of playback: `timeScale(base)`, status "normal". */
    constructor (directionAttr: Option<string>)
      ensures Valid()
      ensures base == BaseDirection(directionAttr)
      ensures timeScale == base && status == Normal
    {
      base := BaseDirection(directionAttr);
      timeScale := BaseDirection(directionAttr);
      status := Normal;
    }

    /** The ScrollTrigger `onUpdate` callback. */
    method OnScrollUpdate(scrollDirection: int)
      requires Valid()
      modifies this
      ensures Valid()
      ensures timeScale == TimeScale(base, scrollDirection)
      ensures status == Status(scrollDirection)
    {
      var isInverted := scrollDirection == 1;
      var currentDirection := if isInverted then -base else base;
      timeScale := currentDirection;
      status := if isInverted then Normal else Inverted;
    }
  }
}
