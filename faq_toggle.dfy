/**
 * The FAQ accordion: every `[data-click="faq"]` item shares one click
 * handler. Clicking a closed item first clicks every item that is open at
 * that moment (each of those clicks re-enters the handler, finds its item
 * open and removes `open`), then adds `open` to the clicked item. Clicking
 * an open item removes its own `open` only.
 *
 * Each item is modelled by its class set.
 */
module FaqToggle {

  const Open := "open"

  /** The indices of the open items in document order: `$('[data-click="faq"].open')`. */
  function OpenItems(items: seq<set<string>>): (r: seq<nat>)
    ensures forall k :: 0 <= k < |r| ==> r[k] < |items| && Open in items[r[k]]
    ensures forall j :: 0 <= j < |items| && Open in items[j] ==> j in r
    ensures forall k, m :: 0 <= k < m < |r| ==> r[k] < r[m]
  {
    if items == [] then []
    else
      var last := |items| - 1;
      OpenItems(items[..last]) + if Open in items[last] then [last] else []
  }

  /** The items with `open` removed from every index listed in `closed`. */
  function Closed(items: seq<set<string>>, closed: seq<nat>): (r: seq<set<string>>)
  {
    seq(|items|, j requires 0 <= j < |items| => if j in closed then items[j] - {Open} else items[j])
  }

  /**
   * The state after one click on item `i`, stated as a whole: a closed item
   * becomes the only open item; an open item closes and nothing else moves.
   * Classes other than `open` are never touched.
   */
  function AfterClick(items: seq<set<string>>, i: nat): (r: seq<set<string>>)
    requires i < |items|
    ensures |r| == |items|
    ensures forall j :: 0 <= j < |r| ==> r[j] - {Open} == items[j] - {Open}
    ensures Open !in items[i] ==> forall j :: 0 <= j < |r| ==> (Open in r[j] <==> j == i)
    ensures Open in items[i] ==> Open !in r[i] && forall j :: 0 <= j < |r| && j != i ==> r[j] == items[j]
  {
    if Open !in items[i] then
      seq(|items|, j requires 0 <= j < |items| => if j == i then items[j] + {Open} else items[j] - {Open})
    else
      items[i := items[i] - {Open}]
  }

  predicate AtMostOneOpen(items: seq<set<string>>)
  {
    forall j, k :: 0 <= j < |items| && 0 <= k < |items| && Open in items[j] && Open in items[k] ==> j == k
  }

  /** The items after a sequence of clicks, each on an existing item. */
  function Clicks(items: seq<set<string>>, clicks: seq<nat>): seq<set<string>>
    requires forall k :: 0 <= k < |clicks| ==> clicks[k] < |items|
    decreases |clicks|
  {
    if clicks == [] then items
    else Clicks(AfterClick(items, clicks[0]), clicks[1..])
  }

  /** Any sequence of clicks keeps "at most one item open". */
  lemma {:induction false} ClicksKeepAtMostOneOpen(items: seq<set<string>>, clicks: seq<nat>)
    requires AtMostOneOpen(items)
    requires forall k :: 0 <= k < |clicks| ==> clicks[k] < |items|
    ensures AtMostOneOpen(Clicks(items, clicks))
    ensures |Clicks(items, clicks)| == |items|
    decreases |clicks|
  {
    if clicks != [] {
      var next := AfterClick(items, clicks[0]);
      assert AtMostOneOpen(next);
      ClicksKeepAtMostOneOpen(next, clicks[1..]);
    }
  }

  /** With nothing open, clicking the same item twice opens it and closes it again. */
  lemma ClickTwiceRestores(items: seq<set<string>>, i: nat)
    requires i < |items|
    requires forall j :: 0 <= j < |items| ==> Open !in items[j]
    ensures AfterClick(AfterClick(items, i), i) == items
  {
    var once := AfterClick(items, i);
    var twice := AfterClick(once, i);
    forall j | 0 <= j < |items| ensures twice[j] == items[j] {
      assert items[j] - {Open} == items[j];
    }
  }

  class Accordion {
    /** The class set of each FAQ item, in document order. */
    const items: array<set<string>>

    constructor (initial: seq<set<string>>)
      ensures items[..] == initial && fresh(items)
    {
      items := new set<string>[|initial|](j requires 0 <= j < |initial| => initial[j]);
    }

    /** The click handler, re-entered through `item.click()` for each open item. */
    method Click(i: nat)
      requires i < items.Length
      modifies items
      decreases if Open in items[i] then 0 else 1
      ensures items[..] == AfterClick(old(items[..]), i)
    {
      if Open !in items[i] {
        ghost var before := items[..];
        var others := OpenItems(items[..]);
        var k := 0;
        while k < |others|
          invariant 0 <= k <= |others|
          invariant items[..] == Closed(before, others[..k])
          invariant forall m :: k <= m < |others| ==> Open in items[others[m]]
        {
          assert others[k] !in others[..k];
          Click(others[k]);
          assert items[..] == Closed(before, others[..k + 1]) by {
            assert forall j :: 0 <= j < items.Length ==> (j in others[..k + 1] <==> j in others[..k] || j == others[k]);
          }
          k := k + 1;
        }
        assert others[..k] == others;
        assert i !in others;
        items[i] := items[i] + {Open};
        forall j | 0 <= j < items.Length && j != i ensures items[j] == before[j] - {Open} {
          if j !in others {
            assert before[j] - {Open} == before[j];
          }
        }
      } else {
        items[i] := items[i] - {Open};
      }
    }
  }
}
