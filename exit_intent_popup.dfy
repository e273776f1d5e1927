/**
 * The exit-intent popup. At page load it is armed only when the popup
 * element exists and the `exitIntentShown` cookie is not set (a missing or
 * empty value both read as "not set"). Once armed, a 3-second timer and a
 * document `mouseout` listener both call `showPopup`, which a `shown` latch
 * makes one-shot: the first call shows the popup, records the cookie and
 * removes the listener; every later call returns at once.
 */
module ExitIntentPopup {
  import opened Wrappers
  import CookieService

  const CookieName := "exitIntentShown"
  /** `setCookie(name, true, 30)` stores the text of `true`. */
  const CookieValue := "true"
  const ShownDisplay := "flex"
  /** A mouse leaving through the top band of this many pixels counts as exit intent. */
  const TopBand := 10

  /**
   * The page-load guard: armed when the element exists and the cookie lookup
   * is falsy. In terms of the cookie's rows: the first row starting with
   * `exitIntentShown=`, if any, holds nothing before its end or its next "=".
   */
  function Armed(popupPresent: bool, cookie: string): (r: bool)
    ensures var rows := CookieService.Rows(cookie);
      r <==> popupPresent && forall k :: 0 <= k < |rows| && CookieService.FirstMatch(rows, CookieName, k) ==>
        CookieService.RowHoldsValue(rows[k], CookieName, "")
  {
    FalsyLookupMeansEmptyRow(cookie);
    popupPresent &&
    match CookieService.GetCookie(cookie, CookieName)
    case None => true
    case Some(v) => v == ""
  }

  lemma FalsyLookupMeansEmptyRow(cookie: string)
    ensures var rows := CookieService.Rows(cookie);
      var found := CookieService.GetCookie(cookie, CookieName);
      (found.None? || found.value == "") <==>
      forall k :: 0 <= k < |rows| && CookieService.FirstMatch(rows, CookieName, k) ==>
        CookieService.RowHoldsValue(rows[k], CookieName, "")
  {
    var rows := CookieService.Rows(cookie);
    var found := CookieService.GetCookie(cookie, CookieName);
    if found.Some? {
      assert '=' !in CookieName;
      var k0 :| 0 <= k0 < |rows| && CookieService.FirstMatch(rows, CookieName, k0) && CookieService.RowHoldsValue(rows[k0], CookieName, found.value);
      EmptyValueIffEmptyRow(rows, CookieName, found.value, k0);
    }
  }

  /** When the first matching row holds `v`, `v` is empty exactly when that row holds nothing. */
  lemma EmptyValueIffEmptyRow(rows: seq<string>, name: string, v: string, k0: nat)
    requires k0 < |rows| && CookieService.FirstMatch(rows, name, k0)
    requires CookieService.RowHoldsValue(rows[k0], name, v) && '=' !in v
    ensures v == "" <==> forall k :: 0 <= k < |rows| && CookieService.FirstMatch(rows, name, k) ==>
      CookieService.RowHoldsValue(rows[k], name, "")
  {
    forall k | 0 <= k < |rows| && CookieService.FirstMatch(rows, name, k) ensures k == k0 {
      FirstMatchUnique(rows, name, k, k0);
    }
    if v != "" {
      NonEmptyValueIsNotEmpty(rows[k0], name, v);
    }
  }

  lemma FirstMatchUnique(rows: seq<string>, name: string, j: nat, k: nat)
    requires j < |rows| && k < |rows|
    requires CookieService.FirstMatch(rows, name, j) && CookieService.FirstMatch(rows, name, k)
    ensures j == k
  {
  }

  lemma NonEmptyValueIsNotEmpty(row: string, name: string, v: string)
    requires v != "" && '=' !in v
    requires CookieService.RowHoldsValue(row, name, v)
    ensures !CookieService.RowHoldsValue(row, name, "")
  {
    var n := |name + CookieService.Equals|;
    assert (name + CookieService.Equals + v)[n] == v[0];
    assert row[n] == v[0];
  }

  /** The parts of a `mouseout` event the handler reads. */
  datatype MouseOut = MouseOut(hasToElement: bool, hasRelatedTarget: bool, clientY: int)

  predicate IsLeavingTop(e: MouseOut)
  {
    !e.hasToElement && !e.hasRelatedTarget && e.clientY < TopBand
  }

  datatype Event = TimerFired | MouseLeft(e: MouseOut)

  /**
   * The popup's observable state: the latch, the element's display, whether
   * the mouseout listener is still attached, and how many times the cookie
   * has been written.
   */
  datatype PopupState = PopupState(armed: bool, shown: bool, display: string, listening: bool, cookieWrites: nat)

  /** The state right after page load: the listener is attached only when armed. */
  function Init(armed: bool, display: string): PopupState
  {
    PopupState(armed, false, display, armed, 0)
  }

  /**
   * `showPopup()`: the first call shows the element, writes the cookie once
   * and detaches the listener; on a shown popup it changes nothing.
   */
  function Show(s: PopupState): (r: PopupState)
    ensures r.shown && r.armed == s.armed
    ensures s.shown ==> r == s
    ensures !s.shown ==> r.display == ShownDisplay && !r.listening && r.cookieWrites == s.cookieWrites + 1
    ensures Consistent(s) && s.armed ==> Consistent(r)
  {
    if s.shown then s
    else s.(shown := true, display := ShownDisplay, cookieWrites := s.cookieWrites + 1, listening := false)
  }

  /** One event. The timer exists only when armed; the handler runs only while attached. */
  function Step(s: PopupState, ev: Event): (r: PopupState)
    ensures r == s || r == Show(s)
    ensures r != s ==>
      !s.shown && ((ev.TimerFired? && s.armed) || (ev.MouseLeft? && s.listening && IsLeavingTop(ev.e)))
    ensures Consistent(s) ==> Consistent(r)
  {
    match ev
    case TimerFired => if s.armed then Show(s) else s
    case MouseLeft(e) => if s.listening && IsLeavingTop(e) then Show(s) else s
  }

  function Run(s: PopupState, evs: seq<Event>): PopupState
    decreases |evs|
  {
    if evs == [] then s else Run(Step(s, evs[0]), evs[1..])
  }

  /** An event that fires `showPopup` on an armed page. */
  predicate Triggers(ev: Event)
  {
    ev.TimerFired? || IsLeavingTop(ev.e)
  }

  /** What every reachable state satisfies. */
  predicate Consistent(s: PopupState)
  {
    && s.cookieWrites <= 1
    && (s.shown <==> s.cookieWrites == 1)
    && (s.shown ==> s.armed && s.display == ShownDisplay && !s.listening)
    && (!s.shown ==> s.listening == s.armed)
  }

  /**
   * However many times the timer and mouseout fire, the cookie is written at
   * most once, and exactly when the popup has been shown.
   */
  lemma {:induction false} RunKeepsConsistent(s: PopupState, evs: seq<Event>)
    requires Consistent(s)
    ensures Consistent(Run(s, evs))
    ensures Run(s, evs).cookieWrites <= 1
    decreases |evs|
  {
    if evs != [] {
      RunKeepsConsistent(Step(s, evs[0]), evs[1..]);
    }
  }

  /** On an armed page the popup ends up shown exactly when some event triggered it. */
  lemma {:induction false} ShownIffTriggered(armed: bool, display: string, evs: seq<Event>)
    ensures Run(Init(armed, display), evs).shown <==>
      armed && exists i :: 0 <= i < |evs| && Triggers(evs[i])
  {
    RunFrom(Init(armed, display), evs);
  }

  lemma {:induction false} RunFrom(s: PopupState, evs: seq<Event>)
    requires Consistent(s)
    ensures Run(s, evs).shown <==>
      s.shown || (s.armed && exists i :: 0 <= i < |evs| && Triggers(evs[i]))
    decreases |evs|
  {
    if evs != [] {
      var next := Step(s, evs[0]);
      RunFrom(next, evs[1..]);
      if exists i :: 0 <= i < |evs| && Triggers(evs[i]) {
        var i :| 0 <= i < |evs| && Triggers(evs[i]);
        if i > 0 { assert Triggers(evs[1..][i - 1]); }
      }
      if exists i :: 0 <= i < |evs[1..]| && Triggers(evs[1..][i]) {
        var i :| 0 <= i < |evs[1..]| && Triggers(evs[1..][i]);
        assert Triggers(evs[i + 1]);
      }
    }
  }

  /** Once shown, nothing that fires afterwards changes anything. */
  lemma {:induction false} ShownIsLatched(s: PopupState, evs: seq<Event>)
    requires s.shown
    ensures Run(s, evs) == s
    decreases |evs|
  {
    if evs != [] {
      ShownIsLatched(Step(s, evs[0]), evs[1..]);
    }
  }

  /** An unarmed page never shows the popup nor writes the cookie. */
  lemma {:induction false} UnarmedStaysIdle(display: string, evs: seq<Event>)
    ensures Run(Init(false, display), evs) == Init(false, display)
    decreases |evs|
  {
    if evs != [] {
      UnarmedStaysIdle(display, evs[1..]);
    }
  }

  /**
   * With the cookie the popup wrote present in the jar (under its plain
   * name), the next page load is not armed.
   */
  lemma RecordedCookieDisarms(jar: seq<CookieService.Cookie>, popupPresent: bool)
    requires forall i :: 0 <= i < |jar| ==> CookieService.PlainCookie(jar[i])
    requires CookieService.Lookup(jar, CookieName) == Some(CookieValue)
    ensures !Armed(popupPresent, CookieService.Serialize(jar))
  {
    CookieService.GetCookieOfSerialized(jar, CookieName);
  }

  /** Without any `exitIntentShown` cookie in the jar, a page with the element is armed. */
  lemma NoCookieArms(jar: seq<CookieService.Cookie>)
    requires forall i :: 0 <= i < |jar| ==> CookieService.PlainCookie(jar[i])
    requires forall i :: 0 <= i < |jar| ==> jar[i].name != CookieName
    ensures Armed(true, CookieService.Serialize(jar))
  {
    CookieService.GetCookieOfSerialized(jar, CookieName);
  }

  /**
   * A cookie stored with an empty value reads as not set, so a page with the
   * element is still armed.
   */
  lemma EmptyCookieArms(jar: seq<CookieService.Cookie>)
    requires forall i :: 0 <= i < |jar| ==> CookieService.PlainCookie(jar[i])
    requires CookieService.Lookup(jar, CookieName) == Some("")
    ensures Armed(true, CookieService.Serialize(jar))
  {
    CookieService.GetCookieOfSerialized(jar, CookieName);
  }

  /** The page's popup closure: the `shown` latch, the element, the listener and the cookie writes. */
  class ExitPopup {
    const armed: bool
    var shown: bool
    var display: string
    var listening: bool
    var cookieWrites: nat

    function State(): PopupState
      reads this
    {
      PopupState(armed, shown, display, listening, cookieWrites)
    }

    /** Page load: the guard, then the listener is attached when armed. */
    constructor (popupPresent: bool, cookie: string, display: string)
      ensures State() == Init(Armed(popupPresent, cookie), display)
      ensures Consistent(State())
    {
      armed := Armed(popupPresent, cookie);
      shown := false;
      this.display := display;
      listening := Armed(popupPresent, cookie);
      cookieWrites := 0;
    }

    /** `showPopup()`. */
    method ShowPopup()
      modifies this
      ensures State() == Show(old(State()))
    {
      if shown {
        return;
      }
      shown := true;
      display := ShownDisplay;
      cookieWrites := cookieWrites + 1;
      listening := false;
    }

    /** The 3-second timer, scheduled only on an armed page. */
    method TimerFires()
      modifies this
      ensures State() == Step(old(State()), TimerFired)
    {
      if armed {
        ShowPopup();
      }
    }

    /** `handleMouseOut(e)`, reached only while the listener is attached. */
    method HandleMouseOut(e: MouseOut)
      modifies this
      ensures State() == Step(old(State()), MouseLeft(e))
    {
      if listening {
        var isLeavingTop := !e.hasToElement && !e.hasRelatedTarget && e.clientY < TopBand;
        if isLeavingTop {
          ShowPopup();
        }
      }
    }
  }
}
