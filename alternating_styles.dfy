/**
 * Parity-driven classing: `handleSupervisorStyles` (supervisors at even
 * 1-based positions get the alternate look) and `initRoomsAlternating`
 * (rooms at even 1-based positions get reversed borders and tags).
 *
 * An element is modelled by its class set; an element that a
 * `querySelector` may not find is an `Option`.
 */
module AlternatingStyles {
  import opened Wrappers

  const EvenClass := "even"
  const White := "white"
  const DefaultTextColor := "default-text-color"
  const RichTextWhite := "rich-text-white"
  const RichText := "rich-text"
  const ButtonWhite := "button-secondary_red-white"
  const ButtonRed := "button-secondary_red"
  const ReverseBorder := "reverse-border"
  const Reverse := "reverse"

  /** `(index + 1) % 2 === 0` for a 0-based index. */
  predicate IsEvenPosition(index: nat)
  {
    (index + 1) % 2 == 0
  }

  /** `classList.toggle(c, force)`. */
  function Toggle(classes: set<string>, c: string, force: bool): (r: set<string>)
    ensures (c in r) == force
    ensures r - {c} == classes - {c}
  {
    if force then classes + {c} else classes - {c}
  }

  function ToggleIfPresent(element: Option<set<string>>, c: string, force: bool): (r: Option<set<string>>)
    ensures r.Some? == element.Some?
    ensures r.Some? ==> r.value == Toggle(element.value, c, force)
  {
    match element
    case None => None
    case Some(classes) => Some(Toggle(classes, c, force))
  }

  /** `classList.add(c)` on an element that may be missing. */
  function AddIfPresent(element: Option<set<string>>, c: string): (r: Option<set<string>>)
    ensures r.Some? == element.Some?
    ensures r.Some? ==> r.value == element.value + {c}
  {
    match element
    case None => None
    case Some(classes) => Some(classes + {c})
  }

  // ---------------------------------------------------------------------
  // Supervisors
  // ---------------------------------------------------------------------

  /**
   * A `.supervisor` and the descendants the handler restyles: its title,
   * `.h4` and label elements (`texts`), and the rich text, secondary button
   * and side wrapper, each possibly missing.
   */
  datatype Supervisor = Supervisor(
    classes: set<string>,
    texts: seq<set<string>>,
    richText: Option<set<string>>,
    button: Option<set<string>>,
    sideWrapper: Option<set<string>>)

  /** Exactly one class of the pair is set, and it is `onDesktop` exactly on desktop. */
  predicate OneOfPair(classes: set<string>, onDesktop: string, otherwise: string, isDesktop: bool)
  {
    (onDesktop in classes) == isDesktop && (otherwise in classes) == !isDesktop
  }

  predicate OptOneOfPair(element: Option<set<string>>, onDesktop: string, otherwise: string, isDesktop: bool)
  {
    element.Some? ==> OneOfPair(element.value, onDesktop, otherwise, isDesktop)
  }

  /**
   * `supervisor.querySelector(sel)` for the rich text and the button: their
   * selectors name `rich-text` and `button-secondary_red`, so the element is
   * found only while it still carries that class.
   */
  predicate Found(element: Option<set<string>>, selectorClass: string)
  {
    element.Some? && selectorClass in element.value
  }

  /** `toggle(onDesktop, isDesktop)` then `toggle(otherwise, !isDesktop)` on an element that may be missing. */
  function TogglePair(element: Option<set<string>>, onDesktop: string, otherwise: string, isDesktop: bool): (r: Option<set<string>>)
    requires onDesktop != otherwise
    ensures r.Some? == element.Some?
    ensures OptOneOfPair(r, onDesktop, otherwise, isDesktop)
    ensures r.Some? ==> r.value - {onDesktop, otherwise} == element.value - {onDesktop, otherwise}
  {
    ToggleIfPresent(ToggleIfPresent(element, onDesktop, isDesktop), otherwise, !isDesktop)
  }

  /**
   * The restyling the handler evidently intends for the supervisor at
   * 0-based `index`: every element it restyles is toggled on every run,
   * whatever the previous run left on it.
   */
  function StyleSupervisorIntended(s: Supervisor, index: nat, isDesktop: bool): (r: Supervisor)
    ensures EvenClass in r.classes <==> isDesktop && IsEvenPosition(index)
    ensures r.classes - {EvenClass} == s.classes - {EvenClass}
    ensures !IsEvenPosition(index) ==> r == s.(classes := r.classes)
    ensures IsEvenPosition(index) ==>
      && |r.texts| == |s.texts|
      && (forall k :: 0 <= k < |r.texts| ==> OneOfPair(r.texts[k], White, DefaultTextColor, isDesktop))
      && OptOneOfPair(r.richText, RichTextWhite, RichText, isDesktop)
      && OptOneOfPair(r.button, ButtonWhite, ButtonRed, isDesktop)
      && r.richText.Some? == s.richText.Some? && r.button.Some? == s.button.Some?
      && r.sideWrapper.Some? == s.sideWrapper.Some?
      && (r.sideWrapper.Some? ==> (ReverseBorder in r.sideWrapper.value <==> isDesktop))
    ensures IsEvenPosition(index) ==>
      && (forall k :: 0 <= k < |r.texts| ==> r.texts[k] - {White, DefaultTextColor} == s.texts[k] - {White, DefaultTextColor})
      && (r.richText.Some? ==> r.richText.value - {RichTextWhite, RichText} == s.richText.value - {RichTextWhite, RichText})
      && (r.button.Some? ==> r.button.value - {ButtonWhite, ButtonRed} == s.button.value - {ButtonWhite, ButtonRed})
      && (r.sideWrapper.Some? ==> r.sideWrapper.value - {ReverseBorder} == s.sideWrapper.value - {ReverseBorder})
  {
    var isEven := IsEvenPosition(index);
    var classes := Toggle(s.classes, EvenClass, isDesktop && isEven);
    if !isEven then s.(classes := classes)
    else
      Supervisor(
        classes,
        seq(|s.texts|, k requires 0 <= k < |s.texts| =>
          Toggle(Toggle(s.texts[k], White, isDesktop), DefaultTextColor, !isDesktop)),
        TogglePair(s.richText, RichTextWhite, RichText, isDesktop),
        TogglePair(s.button, ButtonWhite, ButtonRed, isDesktop),
        ToggleIfPresent(s.sideWrapper, ReverseBorder, isDesktop))
  }

  /**
   * The body of the `forEach` callback as written: the rich text and the
   * button are restyled only when their selectors still find them.
   */
  function StyleSupervisor(s: Supervisor, index: nat, isDesktop: bool): (r: Supervisor)
    ensures EvenClass in r.classes <==> isDesktop && IsEvenPosition(index)
    ensures r.classes - {EvenClass} == s.classes - {EvenClass}
    ensures !IsEvenPosition(index) ==> r == s.(classes := r.classes)
    ensures IsEvenPosition(index) ==>
      && |r.texts| == |s.texts|
      && (forall k :: 0 <= k < |r.texts| ==> OneOfPair(r.texts[k], White, DefaultTextColor, isDesktop))
      && r.sideWrapper.Some? == s.sideWrapper.Some?
      && (r.sideWrapper.Some? ==> (ReverseBorder in r.sideWrapper.value <==> isDesktop))
      && (Found(s.richText, RichText) ==> r.richText.Some? && OneOfPair(r.richText.value, RichTextWhite, RichText, isDesktop))
      && (!Found(s.richText, RichText) ==> r.richText == s.richText)
      && (Found(s.button, ButtonRed) ==> r.button.Some? && OneOfPair(r.button.value, ButtonWhite, ButtonRed, isDesktop))
      && (!Found(s.button, ButtonRed) ==> r.button == s.button)
    ensures IsEvenPosition(index) ==>
      && (forall k :: 0 <= k < |r.texts| ==> r.texts[k] - {White, DefaultTextColor} == s.texts[k] - {White, DefaultTextColor})
      && (r.richText.Some? ==> r.richText.value - {RichTextWhite, RichText} == s.richText.value - {RichTextWhite, RichText})
      && (r.button.Some? ==> r.button.value - {ButtonWhite, ButtonRed} == s.button.value - {ButtonWhite, ButtonRed})
      && (r.sideWrapper.Some? ==> r.sideWrapper.value - {ReverseBorder} == s.sideWrapper.value - {ReverseBorder})
  {
    var intended := StyleSupervisorIntended(s, index, isDesktop);
    if !IsEvenPosition(index) then intended
    else intended.(
      richText := if Found(s.richText, RichText) then intended.richText else s.richText,
      button := if Found(s.button, ButtonRed) then intended.button else s.button)
  }

  /**
   * The counterexample: an even supervisor styled on a desktop viewport and
   * then, after a resize, on a narrow one. As written, its rich text and
   * button keep the white desktop classes; as intended, they return to the
   * default ones.
   */
  lemma ResizeBackLeavesRichTextWhite()
    ensures var s := Supervisor({}, [], Some({RichText}), Some({ButtonRed}), None);
      var asWritten := StyleSupervisor(StyleSupervisor(s, 1, true), 1, false);
      var intended := StyleSupervisorIntended(StyleSupervisorIntended(s, 1, true), 1, false);
      && asWritten.richText == Some({RichTextWhite}) && asWritten.button == Some({ButtonWhite})
      && intended.richText == Some({RichText}) && intended.button == Some({ButtonRed})
  {
    var s := Supervisor({}, [], Some({RichText}), Some({ButtonRed}), None);
    var desktop := StyleSupervisor(s, 1, true);
    assert desktop.richText == Some({RichTextWhite});
    assert desktop.button == Some({ButtonWhite});
    var desktopIntended := StyleSupervisorIntended(s, 1, true);
    assert desktopIntended.richText == Some({RichTextWhite});
    assert desktopIntended.button == Some({ButtonWhite});
    var back := StyleSupervisorIntended(desktopIntended, 1, false);
    assert back.richText.value == {RichTextWhite} - {RichTextWhite} + {RichText};
    assert back.button.value == {ButtonWhite} - {ButtonWhite} + {ButtonRed};
    assert {RichTextWhite} - {RichTextWhite} + {RichText} == {RichText};
    assert {ButtonWhite} - {ButtonWhite} + {ButtonRed} == {ButtonRed};
  }

  /**
   * As intended, every class the handler writes is forced to a value, so a
   * later run overrides an earlier one completely.
   */
  lemma LaterRunWins(s: Supervisor, index: nat, first: bool, second: bool)
    ensures StyleSupervisorIntended(StyleSupervisorIntended(s, index, first), index, second)
         == StyleSupervisorIntended(s, index, second)
  {
    var once := StyleSupervisorIntended(s, index, first);
    var a := StyleSupervisorIntended(once, index, second);
    var b := StyleSupervisorIntended(s, index, second);
    assert a.classes == b.classes;
    if IsEvenPosition(index) {
      assert |a.texts| == |b.texts|;
      forall k | 0 <= k < |a.texts| ensures a.texts[k] == b.texts[k] {
        PairToggleWins(s.texts[k], White, DefaultTextColor, first, second);
      }
      if s.richText.Some? {
        PairToggleWins(s.richText.value, RichTextWhite, RichText, first, second);
      }
      if s.button.Some? {
        PairToggleWins(s.button.value, ButtonWhite, ButtonRed, first, second);
      }
      if s.sideWrapper.Some? {
        var w := s.sideWrapper.value;
        assert Toggle(Toggle(w, ReverseBorder, first), ReverseBorder, second) == Toggle(w, ReverseBorder, second);
      }
    }
  }

  /** Toggling a pair of classes with forced values twice leaves what the second toggle leaves. */
  lemma PairToggleWins(classes: set<string>, on: string, off: string, first: bool, second: bool)
    requires on != off
    ensures Toggle(Toggle(Toggle(Toggle(classes, on, first), off, !first), on, second), off, !second)
         == Toggle(Toggle(classes, on, second), off, !second)
  {
  }

  /** The evidently intended restyling after a run for each viewport of `runs` in turn. */
  function IntendedRuns(s: Supervisor, index: nat, runs: seq<bool>): Supervisor
    decreases |runs|
  {
    if runs == [] then s else IntendedRuns(StyleSupervisorIntended(s, index, runs[0]), index, runs[1..])
  }

  /** As intended, after any number of re-runs on resize only the last viewport matters. */
  lemma {:induction false} LastResizeDecides(s: Supervisor, index: nat, runs: seq<bool>)
    requires runs != []
    ensures IntendedRuns(s, index, runs) == StyleSupervisorIntended(s, index, runs[|runs| - 1])
    decreases |runs|
  {
    if |runs| > 1 {
      var once := StyleSupervisorIntended(s, index, runs[0]);
      LastResizeDecides(once, index, runs[1..]);
      LaterRunWins(s, index, runs[0], runs[|runs| - 1]);
    }
  }

  /** The supervisor after the handler, as written, has run for each viewport of `runs` in turn. */
  function StyleRuns(s: Supervisor, index: nat, runs: seq<bool>): Supervisor
    decreases |runs|
  {
    if runs == [] then s else StyleRuns(StyleSupervisor(s, index, runs[0]), index, runs[1..])
  }

  /**
   * What re-running the handler as written on every resize leaves: the
   * `even` class, the title/h4/label colours and the side wrapper follow the
   * last viewport; a rich text or button that was found at first follows the
   * viewports until the first desktop run and keeps the desktop look from
   * then on; one that was not found is never touched.
   */
  lemma {:induction false} ResizeRunsAsWritten(s: Supervisor, index: nat, runs: seq<bool>)
    requires runs != []
    ensures var r := StyleRuns(s, index, runs);
      var last := StyleSupervisorIntended(s, index, runs[|runs| - 1]);
      r.classes == last.classes && r.texts == last.texts && r.sideWrapper == last.sideWrapper
    ensures var r := StyleRuns(s, index, runs);
      if IsEvenPosition(index) && Found(s.richText, RichText)
      then r.richText == TogglePair(s.richText, RichTextWhite, RichText, true in runs)
      else r.richText == s.richText
    ensures var r := StyleRuns(s, index, runs);
      if IsEvenPosition(index) && Found(s.button, ButtonRed)
      then r.button == TogglePair(s.button, ButtonWhite, ButtonRed, true in runs)
      else r.button == s.button
    decreases |runs|
  {
    var first := StyleSupervisor(s, index, runs[0]);
    if |runs| > 1 {
      var rest := runs[1..];
      assert runs == [runs[0]] + rest;
      assert (true in runs) == (runs[0] || true in rest);
      ResizeRunsAsWritten(first, index, rest);
      var last := runs[|runs| - 1];
      assert rest[|rest| - 1] == last;
      var viaIntended := StyleSupervisorIntended(s, index, runs[0]);
      LaterRunWins(s, index, runs[0], last);
      assert StyleSupervisorIntended(first, index, last).classes == StyleSupervisorIntended(viaIntended, index, last).classes;
      assert StyleSupervisorIntended(first, index, last).texts == StyleSupervisorIntended(viaIntended, index, last).texts;
      assert StyleSupervisorIntended(first, index, last).sideWrapper == StyleSupervisorIntended(viaIntended, index, last).sideWrapper;
      if IsEvenPosition(index) && Found(s.richText, RichText) && !runs[0] {
        PairToggleWins(s.richText.value, RichTextWhite, RichText, false, true in rest);
      }
      if IsEvenPosition(index) && Found(s.button, ButtonRed) && !runs[0] {
        PairToggleWins(s.button.value, ButtonWhite, ButtonRed, false, true in rest);
      }
    } else {
      assert (true in runs) == runs[0];
    }
  }

  /** `handleSupervisorStyles()`; the result says whether the interactions engine is re-initialised. */
  method HandleSupervisorStyles(supervisors: array<Supervisor>, isDesktop: bool, webflowPresent: bool)
    returns (reinitialised: bool)
    modifies supervisors
    ensures forall i :: 0 <= i < supervisors.Length ==>
      supervisors[i] == StyleSupervisor(old(supervisors[i]), i, isDesktop)
    ensures reinitialised <==> webflowPresent && supervisors.Length >= 2
  {
    if supervisors.Length == 0 {
      return false;
    }
    var needsIxReinit := false;
    for index := 0 to supervisors.Length
      invariant forall j :: 0 <= j < index ==> supervisors[j] == StyleSupervisor(old(supervisors[j]), j, isDesktop)
      invariant forall j :: index <= j < supervisors.Length ==> supervisors[j] == old(supervisors[j])
      invariant needsIxReinit <==> index >= 2
    {
      supervisors[index] := StyleSupervisor(supervisors[index], index, isDesktop);
      if IsEvenPosition(index) {
        needsIxReinit := true;
      }
    }
    reinitialised := needsIxReinit && webflowPresent;
  }

  // ---------------------------------------------------------------------
  // Rooms
  // ---------------------------------------------------------------------

  /** A `.room` and its optional `.room-image-wrap` and `.room-tag`. */
  datatype Room = Room(imageWrap: Option<set<string>>, tag: Option<set<string>>)

  /** Reversing a room adds one class to each part it has and nothing else. */
  function ReverseRoom(room: Room): (r: Room)
    ensures r.imageWrap.Some? == room.imageWrap.Some? && r.tag.Some? == room.tag.Some?
    ensures r.imageWrap.Some? ==> ReverseBorder in r.imageWrap.value && r.imageWrap.value - {ReverseBorder} == room.imageWrap.value - {ReverseBorder}
    ensures r.tag.Some? ==> Reverse in r.tag.value && r.tag.value - {Reverse} == room.tag.value - {Reverse}
  {
    Room(AddIfPresent(room.imageWrap, ReverseBorder), AddIfPresent(room.tag, Reverse))
  }

  /**
   * `initRoomsAlternating()`: rooms at even 1-based positions get the
   * reversed border and tag, odd ones are untouched.
   */
  method InitRoomsAlternating(rooms: array<Room>)
    modifies rooms
    ensures forall i :: 0 <= i < rooms.Length ==>
      rooms[i] == if IsEvenPosition(i) then ReverseRoom(old(rooms[i])) else old(rooms[i])
  {
    for index := 0 to rooms.Length
      invariant forall j :: 0 <= j < index ==>
        rooms[j] == if IsEvenPosition(j) then ReverseRoom(old(rooms[j])) else old(rooms[j])
      invariant forall j :: index <= j < rooms.Length ==> rooms[j] == old(rooms[j])
    {
      if IsEvenPosition(index) {
        rooms[index] := ReverseRoom(rooms[index]);
      }
    }
  }

  /**
   * On rooms that did not carry the classes before, consecutive rooms
   * alternate: of two neighbours with a tag, exactly one is reversed.
   */
  lemma NeighboursAlternate(before: seq<Room>, after: seq<Room>, i: nat)
    requires |after| == |before| && i + 1 < |before|
    requires forall j :: 0 <= j < |before| ==>
      after[j] == if IsEvenPosition(j) then ReverseRoom(before[j]) else before[j]
    requires before[i].tag.Some? && before[i + 1].tag.Some?
    requires Reverse !in before[i].tag.value && Reverse !in before[i + 1].tag.value
    ensures after[i].tag.Some? && after[i + 1].tag.Some?
    ensures (Reverse in after[i].tag.value) != (Reverse in after[i + 1].tag.value)
  {
  }
}
