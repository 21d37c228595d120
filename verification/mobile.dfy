/** The mobile-breakpoint detector used to pick the video fallback: a width test against a fixed
    breakpoint, and a two-field state that is set up once in the browser and then follows the
    window's resize events. Whether there is a browser and the window's width are inputs. */
module Mobile {

  /** The Tailwind `md` breakpoint, in CSS pixels. */
  const MOBILE_BREAKPOINT := 768

  /** The module's state: whether the resize listener is installed, and the reactive flag. */
  datatype Detector = Detector(initialized: bool, mobileState: bool)

  /** The state when the module is loaded. */
  const INITIAL := Detector(false, false)

  /** `checkIsMobile`: a one-time test, false outside the browser; a width is mobile when it is
      strictly below the breakpoint. */
  function CheckIsMobile(isBrowser: bool, width: nat): (mobile: bool)
    ensures !isBrowser ==> !mobile
    ensures isBrowser && width <= MOBILE_BREAKPOINT - 1 ==> mobile
    ensures width >= MOBILE_BREAKPOINT ==> !mobile
  {
    if !isBrowser then false else width < MOBILE_BREAKPOINT
  }

  /** 767 pixels is mobile and 768 is not. */
  lemma BreakpointBoundary()
    ensures CheckIsMobile(true, 767) && !CheckIsMobile(true, 768)
  {
  }

  /** Narrowing the window never turns a mobile width into a desktop one. */
  lemma CheckIsMobileMonotone(isBrowser: bool, narrow: nat, wide: nat)
    requires narrow <= wide && CheckIsMobile(isBrowser, wide)
    ensures CheckIsMobile(isBrowser, narrow)
  {
  }

  /** `isMobile`: the reactive flag. */
  function IsMobile(d: Detector): bool {
    d.mobileState
  }

  /** `initMobileDetection` with the window `width` at the time of the call: outside the browser
      or once initialized it does nothing; otherwise it runs the check once and marks the
      detector initialized (which also installs the resize listener, see `OnResize`). */
  function InitMobileDetection(d: Detector, isBrowser: bool, width: nat): (d': Detector)
    ensures !isBrowser || d.initialized ==> d' == d
    ensures isBrowser ==> d'.initialized
    ensures isBrowser && !d.initialized ==> IsMobile(d') == CheckIsMobile(isBrowser, width)
  {
    if !isBrowser || d.initialized then d
    else Detector(true, width < MOBILE_BREAKPOINT)
  }

  /** A second call changes nothing, whatever the width then. */
  lemma InitIdempotent(d: Detector, isBrowser: bool, width: nat, later: nat)
    ensures var d1 := InitMobileDetection(d, isBrowser, width);
      InitMobileDetection(d1, isBrowser, later) == d1
  {
  }

  /** A `resize` event reaching the window: `checkMobile` runs with the new width, but only once
      the listener exists, that is once the detector is initialized. */
  function OnResize(d: Detector, width: nat): (d': Detector)
    ensures !d.initialized ==> d' == d
    ensures d.initialized ==> d'.initialized && IsMobile(d') == CheckIsMobile(true, width)
  {
    if d.initialized then Detector(true, width < MOBILE_BREAKPOINT) else d
  }

  /** What the page does: mount the component that calls `initMobileDetection`, or resize. */
  datatype Event = Mount | Resize(width: nat)

  /** The window's current width together with the detector. */
  datatype Page = Page(width: nat, detector: Detector)

  function Step(isBrowser: bool, p: Page, e: Event): Page {
    match e
    case Mount => Page(p.width, InitMobileDetection(p.detector, isBrowser, p.width))
    case Resize(w) => Page(w, OnResize(p.detector, w))
  }

  /** The events in order. */
  function Run(isBrowser: bool, p: Page, events: seq<Event>): Page
    decreases |events|
  {
    if events == [] then p else Run(isBrowser, Step(isBrowser, p, events[0]), events[1..])
  }

  /** The invariant of the detector: once initialized it agrees with a fresh `checkIsMobile` of
      the current width, and before that it reports not mobile. */
  predicate Consistent(isBrowser: bool, p: Page) {
    && (p.detector.initialized ==> isBrowser && IsMobile(p.detector) == CheckIsMobile(isBrowser, p.width))
    && (!p.detector.initialized ==> !IsMobile(p.detector))
  }

  lemma StepConsistent(isBrowser: bool, p: Page, e: Event)
    requires Consistent(isBrowser, p)
    ensures Consistent(isBrowser, Step(isBrowser, p, e))
  {
  }

  /** Every sequence of events from a consistent page keeps the detector consistent. */
  lemma {:induction false} RunConsistent(isBrowser: bool, p: Page, events: seq<Event>)
    requires Consistent(isBrowser, p)
    ensures Consistent(isBrowser, Run(isBrowser, p, events))
    decreases |events|
  {
    if events != [] {
      StepConsistent(isBrowser, p, events[0]);
      RunConsistent(isBrowser, Step(isBrowser, p, events[0]), events[1..]);
    }
  }

  /** The detector becomes initialized exactly when a mount happens in the browser. */
  lemma {:induction false} RunInitializedIff(isBrowser: bool, p: Page, events: seq<Event>)
    ensures Run(isBrowser, p, events).detector.initialized <==>
      p.detector.initialized || (isBrowser && Mount in events)
    decreases |events|
  {
    if events != [] {
      RunInitializedIff(isBrowser, Step(isBrowser, p, events[0]), events[1..]);
      assert events == [events[0]] + events[1..];
    }
  }

  /** From page load: the reported state always matches `checkIsMobile` for the current width
      once mounted in the browser, is false until then, and is always false during server
      rendering. */
  lemma FromLoad(isBrowser: bool, width: nat, events: seq<Event>)
    ensures var p := Run(isBrowser, Page(width, INITIAL), events);
      && (p.detector.initialized <==> isBrowser && Mount in events)
      && (isBrowser && Mount in events ==> IsMobile(p.detector) == CheckIsMobile(true, p.width))
      && (!(isBrowser && Mount in events) ==> !IsMobile(p.detector))
  {
    RunConsistent(isBrowser, Page(width, INITIAL), events);
    RunInitializedIff(isBrowser, Page(width, INITIAL), events);
  }
}
