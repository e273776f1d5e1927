/**
 * "Show more" pagination over the multi-reference list. At load every item
 * from index 5 on is hidden (`display: none`) and the items before it are
 * left as they are. Each click on the button sets `display: block` on every
 * item below the new limit (the old limit plus 5) and hides the button once
 * the limit reaches the number of items. With 5 items or fewer the button is
 * hidden at load.
 *
 * Each item is modelled by its inline `display` style.
 */
module ShowMore {

  const ItemsToShow := 5
  const Hidden := "none"
  const Shown := "block"

  /** Load: hide every item at index `limit` or beyond. */
  function HideFrom(displays: seq<string>, limit: int): (r: seq<string>)
  {
    seq(|displays|, i requires 0 <= i < |displays| => if i >= limit then Hidden else displays[i])
  }

  /** A click: show every item below `limit`. */
  function RevealBelow(displays: seq<string>, limit: int): (r: seq<string>)
  {
    seq(|displays|, i requires 0 <= i < |displays| => if i < limit then Shown else displays[i])
  }

  /** The limit after `clicks` clicks: `currentlyVisible`. */
  function Limit(clicks: nat): int
  {
    ItemsToShow + ItemsToShow * clicks
  }

  /**
   * The displays after the load pass and `clicks` clicks. After the load
   * pass the first 5 items are untouched and the rest hidden; after one or
   * more clicks exactly the items below the limit are shown and every other
   * item stays hidden.
   */
  function AfterClicks(displays: seq<string>, clicks: nat): (r: seq<string>)
    ensures |r| == |displays|
    ensures forall i :: 0 <= i < |displays| ==>
      r[i] == if i >= Limit(clicks) then Hidden else if clicks == 0 then displays[i] else Shown
  {
    if clicks == 0 then HideFrom(displays, ItemsToShow)
    else RevealBelow(AfterClicks(displays, clicks - 1), Limit(clicks))
  }

  /**
   * The button's display after the load pass and `clicks` clicks: hidden
   * exactly when the limit covers every item, otherwise as it started.
   */
  function ButtonAfter(itemCount: nat, initial: string, clicks: nat): (r: string)
    ensures r == if itemCount <= Limit(clicks) then Hidden else initial
  {
    if clicks == 0 then (if itemCount <= ItemsToShow then Hidden else initial)
    else if Limit(clicks) >= itemCount then Hidden
    else ButtonAfter(itemCount, initial, clicks - 1)
  }

  class ShowMoreList {
    /** The inline `display` of each `.multi-ref-list-wrapper .w-dyn-item`. */
    const items: array<string>
    /** Whether `.show-more-button` exists; its click listener is attached only then. */
    const hasButton: bool
    var buttonDisplay: string
    var currentlyVisible: int
    ghost const original: seq<string>
    ghost const originalButton: string
    ghost var clicks: nat

    ghost predicate Valid()
      reads this, items
    {
      && |original| == items.Length
      && currentlyVisible == Limit(clicks)
      && items[..] == AfterClicks(original, clicks)
      && (hasButton ==> buttonDisplay == ButtonAfter(items.Length, originalButton, clicks))
      && (!hasButton ==> buttonDisplay == originalButton && clicks == 0)
    }

    /** `initShowMore()`. */
    constructor (items: array<string>, hasButton: bool, buttonDisplay: string)
      modifies items
      ensures this.items == items && this.hasButton == hasButton && Valid() && clicks == 0
      ensures original == old(items[..]) && originalButton == buttonDisplay
      ensures items[..] == HideFrom(old(items[..]), ItemsToShow)
      ensures currentlyVisible == ItemsToShow
      ensures this.buttonDisplay == if hasButton && items.Length <= ItemsToShow then Hidden else buttonDisplay
    {
      this.items := items;
      this.hasButton := hasButton;
      original := items[..];
      originalButton := buttonDisplay;
      clicks := 0;
      currentlyVisible := ItemsToShow;
      this.buttonDisplay := buttonDisplay;
      new;
      for index := 0 to items.Length
        modifies items
        invariant forall j :: 0 <= j < index ==> items[j] == if j >= ItemsToShow then Hidden else original[j]
        invariant forall j :: index <= j < items.Length ==> items[j] == original[j]
      {
        if index >= ItemsToShow {
          items[index] := Hidden;
        }
      }
      if hasButton && items.Length <= ItemsToShow {
        this.buttonDisplay := Hidden;
      }
    }

    /** The button's click handler. */
    method Click()
      requires Valid() && hasButton
      modifies this, items
      ensures Valid() && clicks == old(clicks) + 1
      ensures currentlyVisible == old(currentlyVisible) + ItemsToShow
      ensures items[..] == RevealBelow(old(items[..]), currentlyVisible)
      ensures buttonDisplay == if currentlyVisible >= items.Length then Hidden else old(buttonDisplay)
    {
      var newLimit := currentlyVisible + ItemsToShow;
      for index := 0 to items.Length
        modifies items
        invariant forall j :: 0 <= j < index ==> items[j] == if j < newLimit then Shown else old(items[j])
        invariant forall j :: index <= j < items.Length ==> items[j] == old(items[j])
      {
        if index < newLimit {
          items[index] := Shown;
        }
      }
      currentlyVisible := newLimit;
      clicks := clicks + 1;
      if currentlyVisible >= items.Length {
        buttonDisplay := Hidden;
      }
    }
  }
}
