/** The page-transition veil: a full-viewport overlay whose class set drives
    the exit animation on an intercepted click and the reveal on load. */
module PageVeil {
  import opened Wrappers
  import opened Links

  const Enter := "enter"
  const Exit := "exit"
  const Show := "show"

  /** The delay, in milliseconds, between an intercepted click and the navigation. */
  const NavigationDelay: nat := 420
  /** The delay after the reveal before its classes are cleared. */
  const RevealClearDelay: nat := NavigationDelay + 80

  /** The click handler's update: `enter` removed, `exit` and `show` added,
      every other class kept. */
  function AfterExitStart(c: set<string>): (r: set<string>)
    ensures Exit in r && Show in r && Enter !in r
    ensures r - {Exit, Show} == c - {Enter, Exit, Show}
  {
    c - {Enter} + {Exit, Show}
  }

  /** The load reveal: `exit` removed, `enter` and `show` added, every other
      class kept. */
  function AfterReveal(c: set<string>): (r: set<string>)
    ensures Enter in r && Show in r && Exit !in r
    ensures r - {Enter, Show} == c - {Enter, Exit, Show}
  {
    c - {Exit} + {Enter, Show}
  }

  /** The timer after the reveal: `enter` and `show` removed, the rest kept. */
  function AfterRevealCleared(c: set<string>): (r: set<string>)
    ensures Enter !in r && Show !in r && r <= c
    ensures c - r <= {Enter, Show}
  {
    c - {Enter, Show}
  }

  /** The class sets the veil can hold when it starts with none. */
  function VeilStates(): set<set<string>> {
    {{}, {Exit}, {Exit, Show}, {Enter, Show}}
  }

  /** Every transition keeps the veil inside `VeilStates`. */
  lemma VeilStatesClosed(c: set<string>)
    requires c in VeilStates()
    ensures AfterExitStart(c) in VeilStates()
    ensures AfterReveal(c) in VeilStates()
    ensures AfterRevealCleared(c) in VeilStates()
  {
    if c == {} {
      assert AfterExitStart(c) == {Exit, Show};
      assert AfterReveal(c) == {Enter, Show};
      assert AfterRevealCleared(c) == {};
    } else if c == {Exit} {
      assert AfterExitStart(c) == {Exit, Show};
      assert AfterReveal(c) == {Enter, Show};
      assert AfterRevealCleared(c) == {Exit};
    } else if c == {Exit, Show} {
      assert AfterExitStart(c) == {Exit, Show};
      assert AfterReveal(c) == {Enter, Show};
      assert AfterRevealCleared(c) == {Exit};
    } else {
      assert AfterExitStart(c) == {Exit, Show};
      assert AfterReveal(c) == {Enter, Show};
      assert AfterRevealCleared(c) == {};
    }
  }

  /** The intended cycle: a hidden veil is revealed on load, cleared, and
      shown again by an intercepted click. */
  lemma RevealCycle()
    ensures AfterReveal({}) == {Enter, Show}
    ensures AfterRevealCleared({Enter, Show}) == {}
    ensures AfterExitStart({}) == {Exit, Show}
  {
  }

  /** A click inside the reveal window, before the clearing timer fires,
      leaves only `exit`: the clearing timer removes the `show` the click added. */
  lemma ClickDuringRevealLeavesExit()
    ensures AfterRevealCleared(AfterExitStart(AfterReveal({}))) == {Exit}
  {
  }

  /** A click's coordinate, or half the viewport extent when the event
      reports 0 (`e.clientX || window.innerWidth/2`). */
  function FxCoordinate(client: real, extent: real): (r: real)
    ensures client != 0.0 ==> r == client
    ensures client == 0.0 ==> r + r == extent
  {
    if client != 0.0 then client else extent / 2.0
  }

  class Veil {
    var classes: set<string>
    /** The `--fx-x` and `--fx-y` custom properties, in pixels. */
    var fxX: real
    var fxY: real

    constructor (classes: set<string>)
      ensures this.classes == classes && fxX == 0.0 && fxY == 0.0
    {
      this.classes := classes;
      fxX, fxY := 0.0, 0.0;
    }
  }

  /** A `setTimeout` that assigns `window.location.href`. */
  datatype ScheduledNavigation = ScheduledNavigation(href: string, delay: nat)

  datatype MouseClick = MouseClick(link: Option<Anchor>, clientX: real, clientY: real)

  class Transitions {
    /** The `#page-veil` element, if the page has one. */
    const veil: Veil?
    /** Navigations scheduled by intercepted clicks, in order. */
    var navigations: seq<ScheduledNavigation>

    constructor (veil: Veil?)
      ensures this.veil == veil && navigations == []
    {
      this.veil := veil;
      navigations := [];
    }

    /** `handleClick`: a click on an internal link with a target is
        intercepted; the veil, when present, starts the exit animation from
        the click point, and the navigation is scheduled whether or not the
        veil exists. Any other click changes nothing. */
    method HandleClick(e: MouseClick, origin: string, innerWidth: real, innerHeight: real)
      returns (prevented: bool)
      modifies this, veil
      ensures prevented <==> IsInternalHtmlLink(e.link, origin) && LinkTarget(e.link.value) != ""
      ensures navigations ==
        if prevented then old(navigations) + [ScheduledNavigation(LinkTarget(e.link.value), NavigationDelay)]
        else old(navigations)
      ensures veil != null && prevented ==>
        veil.classes == AfterExitStart(old(veil.classes))
        && veil.fxX == FxCoordinate(e.clientX, innerWidth)
        && veil.fxY == FxCoordinate(e.clientY, innerHeight)
      ensures veil != null && !prevented ==> unchanged(veil)
    {
      prevented := false;
      if e.link.None? || !IsInternalHtmlLink(e.link, origin) {
        return;
      }
      var href := LinkTarget(e.link.value);
      if href == "" {
        return;
      }
      prevented := true;
      if veil != null {
        veil.fxX := FxCoordinate(e.clientX, innerWidth);
        veil.fxY := FxCoordinate(e.clientY, innerHeight);
        veil.classes := AfterExitStart(veil.classes);
      }
      navigations := navigations + [ScheduledNavigation(href, NavigationDelay)];
    }

    /** The animation-frame callback of `onLoad`: the veil, when present,
        starts the reveal and `clearIn` is the delay of the timer that will
        clear it (`RevealCleared`); with no veil no timer is set. */
    method Reveal() returns (clearIn: Option<nat>)
      modifies veil
      ensures clearIn == if veil != null then Some(RevealClearDelay) else None
      ensures veil != null ==> veil.classes == AfterReveal(old(veil.classes))
                               && veil.fxX == old(veil.fxX) && veil.fxY == old(veil.fxY)
    {
      clearIn := None;
      if veil != null {
        veil.classes := AfterReveal(veil.classes);
        clearIn := Some(RevealClearDelay);
      }
    }

    /** The timer `RevealClearDelay` after the reveal: the veil is hidden again. */
    method RevealCleared()
      modifies veil
      ensures veil != null ==> veil.classes == AfterRevealCleared(old(veil.classes))
                               && veil.fxX == old(veil.fxX) && veil.fxY == old(veil.fxY)
    {
      if veil != null {
        veil.classes := AfterRevealCleared(veil.classes);
      }
    }
  }
}
