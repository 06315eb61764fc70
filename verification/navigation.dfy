/**
 * The click-to-navigate guards of the work cards.
 *
 * `CardNavigator` is `handleCardClick` with its unmount cleanup, identical in
 * app/all-works/WorksClient.js and components/FetchLowerLayer/WorkOther.js:
 * the first click records the slug and sets `navigationInProgress`; its
 * `navigate` closure pushes the detail route unless its own
 * `navigationTriggered` flag is already set, and is called by three
 * triggers: the link's `animationend` (when the link element exists), a
 * 1500 ms timer, and immediately when the link element is absent.
 *
 * `GalleryNavigator` is the simpler pair `handleCardClick` /
 * `handleListClick` of components/SSG/Works/SwiperGallery.js, which push
 * from plain timers.
 *
 * DOM lookups, the animation itself and the clock are events: whether the
 * link element is present is an argument of the click, and `animationend`
 * and the timer's expiry are method calls.
 */
module Navigation {
  import opened Values
  import opened Works

  class CardNavigator {
    /** The `clickedWorkSlug` / `clickedSlug` state (None: null). */
    var clickedSlug: Option<string>
    var navigationInProgress: bool
    /** The slug captured by the accepted click's `navigate` closure. */
    var target: string
    /** That closure's `navigationTriggered` flag. */
    var triggered: bool
    /** The `animationend` listener is attached and has not fired (it is `once`). */
    var listening: bool
    /** `navigationTimeoutRef.current` is scheduled and has neither fired nor been cleared. */
    var timerPending: bool
    var mounted: bool
    /** The routes handed to `router.push`, in order. */
    var pushed: seq<string>

    ghost predicate Valid()
      reads this
    {
      && (triggered <==> pushed != [])
      && (pushed != [] ==> pushed == [DetailPath(target)])
      && (!navigationInProgress ==> clickedSlug.None? && !triggered && !listening && !timerPending)
      && (navigationInProgress ==> clickedSlug == Some(target))
      && (!mounted ==> !listening && !timerPending)
    }

    constructor()
      ensures Valid()
      ensures mounted && !navigationInProgress && clickedSlug == None && pushed == []
    {
      clickedSlug := None;
      navigationInProgress := false;
      target := "";
      triggered := false;
      listening := false;
      timerPending := false;
      mounted := true;
      pushed := [];
    }

    /** The guard `clickedSlug || navigationInProgress`, with the slug's truthiness. */
    predicate Busy()
      reads this
    {
      (clickedSlug.Some? && clickedSlug.value != "") || navigationInProgress
    }

    /** The accepted click's `navigate`: pushes once, then never again. */
    method Navigate()
      requires Valid() && navigationInProgress
      modifies this
      ensures Valid()
      ensures triggered && pushed == [DetailPath(target)]
      ensures old(triggered) ==> pushed == old(pushed)
      ensures clickedSlug == old(clickedSlug) && navigationInProgress == old(navigationInProgress)
      ensures target == old(target) && listening == old(listening)
      ensures timerPending == old(timerPending) && mounted == old(mounted)
    {
      if triggered {
        return;
      }
      triggered := true;
      pushed := pushed + [DetailPath(target)];
    }

    /**
     * `handleCardClick(e, slug)`: ignored while busy (and, the component being
     * gone, after unmount); otherwise records the slug, marks navigation in
     * progress, attaches the `animationend` listener when the link element
     * exists, schedules the 1500 ms timer, and navigates at once when the link
     * element is absent.
     */
    method Click(slug: string, linkPresent: bool)
      requires Valid()
      modifies this
      ensures Valid()
      ensures !old(mounted) || old(Busy()) ==>
        && clickedSlug == old(clickedSlug) && navigationInProgress == old(navigationInProgress)
        && target == old(target) && triggered == old(triggered) && listening == old(listening)
        && timerPending == old(timerPending) && mounted == old(mounted) && pushed == old(pushed)
      ensures old(mounted) && !old(Busy()) ==>
        && clickedSlug == Some(slug) && navigationInProgress && target == slug
        && listening == linkPresent && timerPending && mounted
        && (linkPresent ==> !triggered && pushed == [])
        && (!linkPresent ==> triggered && pushed == [DetailPath(slug)])
    {
      if !mounted || Busy() {
        return;
      }
      clickedSlug := Some(slug);
      navigationInProgress := true;
      target := slug;
      triggered := false;
      listening := linkPresent;
      timerPending := true;
      if !linkPresent {
        Navigate();
      }
    }

    /** The link's `animationend`: the listener fires once and calls `navigate`. */
    method AnimationEnd()
      requires Valid()
      modifies this
      ensures Valid()
      ensures !listening && mounted == old(mounted) && timerPending == old(timerPending)
      ensures clickedSlug == old(clickedSlug) && navigationInProgress == old(navigationInProgress)
      ensures target == old(target)
      ensures old(listening) ==> triggered && pushed == [DetailPath(target)]
      ensures old(triggered) || !old(listening) ==> pushed == old(pushed) && triggered == old(triggered)
    {
      if listening {
        listening := false;
        Navigate();
      }
    }

    /** The 1500 ms fallback timer expires and calls `navigate`. */
    method TimerElapsed()
      requires Valid()
      modifies this
      ensures Valid()
      ensures !timerPending && mounted == old(mounted) && listening == old(listening)
      ensures clickedSlug == old(clickedSlug) && navigationInProgress == old(navigationInProgress)
      ensures target == old(target)
      ensures old(timerPending) ==> triggered && pushed == [DetailPath(target)]
      ensures old(triggered) || !old(timerPending) ==> pushed == old(pushed) && triggered == old(triggered)
    {
      if timerPending {
        timerPending := false;
        Navigate();
      }
    }

    /** Unmount: the cleanup clears the pending timer, and the link element,
        with its listener, leaves the page. */
    method Unmount()
      requires Valid()
      modifies this
      ensures Valid()
      ensures !mounted && !timerPending && !listening
      ensures clickedSlug == old(clickedSlug) && navigationInProgress == old(navigationInProgress)
      ensures target == old(target) && triggered == old(triggered) && pushed == old(pushed)
    {
      mounted := false;
      timerPending := false;
      listening := false;
    }
  }

  datatype CardEvent =
    | Click(slug: string, linkPresent: bool)
    | AnimationEnd
    | TimerElapsed
    | Unmount

  /** No unmount among the events at positions lo .. hi-1. */
  predicate NoUnmountIn(evs: seq<CardEvent>, lo: int, hi: int) {
    forall j :: lo <= j < hi && 0 <= j < |evs| ==> !evs[j].Unmount?
  }

  /** Neither `animationend` nor the timer among the events at positions lo .. hi-1. */
  predicate NoTriggerIn(evs: seq<CardEvent>, lo: int, hi: int) {
    forall j :: lo <= j < hi && 0 <= j < |evs| ==> !evs[j].AnimationEnd? && !evs[j].TimerElapsed?
  }

  /** The click at `a` is the one accepted: the first click, with no unmount before it. */
  predicate AcceptedAt(evs: seq<CardEvent>, a: int) {
    && 0 <= a < |evs| && evs[a].Click?
    && forall j :: 0 <= j < a ==> !evs[j].Click? && !evs[j].Unmount?
  }

  /** The event at `b` reaches the accepted click's closure: it comes after the
      click, with no unmount in between. */
  predicate Reaches(evs: seq<CardEvent>, a: int, b: int) {
    0 <= a < b < |evs| && NoUnmountIn(evs, a + 1, b)
  }

  lemma AcceptedIsUnique(evs: seq<CardEvent>, a: int, a': int)
    requires AcceptedAt(evs, a) && AcceptedAt(evs, a')
    ensures a == a'
  {
  }

  /**
   * The guard over a whole run of events, on a freshly mounted card list:
   * at most one `router.push`, to the detail route of the accepted click's
   * slug, and none without an accepted click; the push happens for certain
   * when the link element was absent, when the timer expires before any
   * unmount, or when the animation ends before any unmount on a present link.
   */
  method Run(events: seq<CardEvent>) returns (pushes: seq<string>)
    ensures |pushes| <= 1
    ensures (forall a :: !AcceptedAt(events, a)) ==> pushes == []
    ensures forall a :: AcceptedAt(events, a) ==> pushes == [] || pushes == [DetailPath(events[a].slug)]
    ensures forall a :: AcceptedAt(events, a) && !events[a].linkPresent ==> pushes == [DetailPath(events[a].slug)]
    ensures forall a, b :: AcceptedAt(events, a) && Reaches(events, a, b) && events[b].TimerElapsed? ==>
              pushes == [DetailPath(events[a].slug)]
    ensures forall a, b ::
              AcceptedAt(events, a) && events[a].linkPresent && Reaches(events, a, b) && events[b].AnimationEnd?
              ==> pushes == [DetailPath(events[a].slug)]
    ensures forall a, u ::
              AcceptedAt(events, a) && events[a].linkPresent && a < u < |events| && events[u].Unmount?
              && NoTriggerIn(events, a + 1, u)
              ==> pushes == []
  {
    var nav := new CardNavigator();
    ghost var acc: Option<nat> := None;
    for i := 0 to |events|
      invariant nav.Valid()
      invariant nav.mounted <==> NoUnmountIn(events, 0, i)
      invariant acc.None? <==> !nav.navigationInProgress
      invariant acc.None? ==> forall a :: 0 <= a < i ==> !AcceptedAt(events, a)
      invariant acc.Some? ==> acc.value < i && AcceptedAt(events, acc.value)
                              && nav.target == events[acc.value].slug
      invariant acc.Some? && !events[acc.value].linkPresent ==> nav.triggered
      invariant acc.Some? && nav.mounted ==> nav.timerPending || nav.triggered
      invariant acc.Some? && nav.mounted && events[acc.value].linkPresent ==> nav.listening || nav.triggered
      invariant forall b :: acc.Some? && Reaches(events, acc.value, b) && b < i && events[b].TimerElapsed? ==> nav.triggered
      invariant forall b ::
                  acc.Some? && events[acc.value].linkPresent && Reaches(events, acc.value, b) && b < i
                  && events[b].AnimationEnd?
                  ==> nav.triggered
      invariant acc.None? ==> nav.pushed == []
      invariant acc.None? && nav.mounted ==> forall j :: 0 <= j < i ==> !events[j].Click?
      invariant acc.Some? && events[acc.value].linkPresent && NoTriggerIn(events, acc.value + 1, i) ==> !nav.triggered
      invariant forall u ::
                  acc.Some? && events[acc.value].linkPresent && acc.value < u < i && events[u].Unmount?
                  && NoTriggerIn(events, acc.value + 1, u)
                  ==> !nav.triggered
    {
      match events[i]
      case Click(slug, linkPresent) =>
        nav.Click(slug, linkPresent);
        if acc.None? && nav.navigationInProgress {
          acc := Some(i);
        }
      case AnimationEnd =>
        nav.AnimationEnd();
      case TimerElapsed =>
        nav.TimerElapsed();
      case Unmount =>
        nav.Unmount();
    }
    pushes := nav.pushed;
  }

  /** Two quick clicks on different cards: only the first navigates, once,
      although both the animation and the timer fire. */
  method DoubleClickScenario(s1: string, s2: string) returns (pushes: seq<string>)
    ensures pushes == [DetailPath(s1)]
  {
    var nav := new CardNavigator();
    nav.Click(s1, true);
    nav.Click(s2, true);
    nav.AnimationEnd();
    nav.TimerElapsed();
    pushes := nav.pushed;
  }

  /** A card without its link element navigates at once; the timer adds nothing. */
  method MissingLinkScenario(s: string) returns (pushes: seq<string>)
    ensures pushes == [DetailPath(s)]
  {
    var nav := new CardNavigator();
    nav.Click(s, false);
    nav.TimerElapsed();
    pushes := nav.pushed;
  }

  /** Leaving the page before the animation ends cancels the navigation. */
  method UnmountBeforeFireScenario(s: string) returns (pushes: seq<string>)
    ensures pushes == []
  {
    var nav := new CardNavigator();
    nav.Click(s, true);
    nav.Unmount();
    nav.TimerElapsed();
    nav.AnimationEnd();
    pushes := nav.pushed;
  }

  /** A navigation scheduled by the gallery: a card's (800 ms) or the list button's (500 ms). */
  datatype Timer = CardTimer(slug: string) | ListTimer

  /** The route a timer pushes when it fires. */
  function RouteOf(t: Timer): string {
    match t
    case CardTimer(slug) => DetailPath(slug)
    case ListTimer => "/all-works"
  }

  /** A timer navigates to a work's detail page exactly when it is a card's
      timer with a non-empty slug; the list button's leads back to the catalog. */
  lemma RouteOfCard(t: Timer)
    ensures IsCardRoute(RouteOf(t)) <==> t.CardTimer? && t.slug != ""
  {
    if t.CardTimer? {
      assert DetailPath(t.slug)[..11] == "/all-works/";
    }
  }

  /** A detail route with a non-empty slug. */
  predicate IsCardRoute(p: string) {
    |p| > 11 && p[..11] == "/all-works/"
  }

  /** 1 for a card's timer with a non-empty slug, 0 otherwise. */
  function Weight(t: Timer): nat {
    if t.CardTimer? && t.slug != "" then 1 else 0
  }

  /** How many of the timers navigate to a detail route with a non-empty slug. */
  function CardTimers(ts: seq<Timer>): nat
    decreases |ts|
  {
    if ts == [] then 0
    else CardTimers(ts[..|ts| - 1]) + Weight(ts[|ts| - 1])
  }

  /** How many of the routes are detail routes with a non-empty slug. */
  function CardRoutes(ps: seq<string>): nat
    decreases |ps|
  {
    if ps == [] then 0
    else CardRoutes(ps[..|ps| - 1]) + (if IsCardRoute(ps[|ps| - 1]) then 1 else 0)
  }

  lemma {:induction false} CardTimersAppend(a: seq<Timer>, b: seq<Timer>)
    ensures CardTimers(a + b) == CardTimers(a) + CardTimers(b)
    decreases |b|
  {
    if b == [] {
      assert a + b == a;
    } else {
      assert (a + b)[..|a + b| - 1] == a + b[..|b| - 1];
      CardTimersAppend(a, b[..|b| - 1]);
    }
  }

  lemma CardTimersPush(ts: seq<Timer>, t: Timer)
    ensures CardTimers(ts + [t]) == CardTimers(ts) + Weight(t)
  {
    assert (ts + [t])[..|ts|] == ts;
  }

  lemma CardTimersCons(t: Timer, ts: seq<Timer>)
    ensures CardTimers([t] + ts) == Weight(t) + CardTimers(ts)
  {
    CardTimersAppend([t], ts);
    CardTimersPush([], t);
    assert [] + [t] == [t];
  }

  /** Removing the timer at `k` takes its own contribution off the count. */
  lemma CardTimersRemove(ts: seq<Timer>, k: nat)
    requires k < |ts|
    ensures CardTimers(ts) == CardTimers(ts[..k] + ts[k + 1..]) + Weight(ts[k])
  {
    var pre, t, post := ts[..k], ts[k], ts[k + 1..];
    assert ts == pre + ([t] + post);
    CardTimersAppend(pre, [t] + post);
    CardTimersCons(t, post);
    CardTimersAppend(pre, post);
  }

  lemma CardRoutesPush(ps: seq<string>, p: string)
    ensures CardRoutes(ps + [p]) == CardRoutes(ps) + (if IsCardRoute(p) then 1 else 0)
  {
    assert (ps + [p])[..|ps|] == ps;
  }

  /**
   * The guard of components/SSG/Works/SwiperGallery.js: a card click is
   * ignored while `clickedWorkSlug` is truthy, and otherwise records the slug
   * and schedules the push of its detail route; the list button is ignored
   * under the same guard but does not set it, and schedules the push of the
   * catalog route. Timers are never cleared.
   */
  class GalleryNavigator {
    var clickedWorkSlug: Option<string>
    /** The scheduled timers that have not fired yet. */
    var pending: seq<Timer>
    /** The routes handed to `router.push`, in order. */
    var pushed: seq<string>

    /** `clickedWorkSlug` is truthy. */
    predicate Armed()
      reads this
    {
      clickedWorkSlug.Some? && clickedWorkSlug.value != ""
    }

    /** Exactly one card navigation, pending or done, once the guard is armed,
        and none before. */
    ghost predicate Valid()
      reads this
    {
      CardTimers(pending) + CardRoutes(pushed) == if Armed() then 1 else 0
    }

    constructor()
      ensures Valid()
      ensures clickedWorkSlug == None && pending == [] && pushed == []
    {
      clickedWorkSlug := None;
      pending := [];
      pushed := [];
    }

    /** `handleCardClick(e, work)`. */
    method CardClick(slug: string)
      requires Valid()
      modifies this
      ensures Valid()
      ensures old(Armed()) ==> clickedWorkSlug == old(clickedWorkSlug) && pending == old(pending)
      ensures !old(Armed()) ==> clickedWorkSlug == Some(slug) && pending == old(pending) + [CardTimer(slug)]
      ensures pushed == old(pushed)
    {
      if Armed() {
        return;
      }
      clickedWorkSlug := Some(slug);
      CardTimersPush(pending, CardTimer(slug));
      pending := pending + [CardTimer(slug)];
    }

    /** `handleListClick(e)`. */
    method ListClick()
      requires Valid()
      modifies this
      ensures Valid()
      ensures old(Armed()) ==> pending == old(pending)
      ensures !old(Armed()) ==> pending == old(pending) + [ListTimer]
      ensures clickedWorkSlug == old(clickedWorkSlug) && pushed == old(pushed)
    {
      if Armed() {
        return;
      }
      CardTimersPush(pending, ListTimer);
      pending := pending + [ListTimer];
    }

    /** The pending timer at `k` fires and pushes its route. */
    method Fire(k: nat)
      requires Valid() && k < |pending|
      modifies this
      ensures Valid()
      ensures pushed == old(pushed) + [RouteOf(old(pending[k]))]
      ensures pending == old(pending[..k] + pending[k + 1..])
      ensures clickedWorkSlug == old(clickedWorkSlug)
    {
      var t := pending[k];
      var route := RouteOf(t);
      RouteOfCard(t);
      assert (if IsCardRoute(route) then 1 else 0) == Weight(t);
      CardTimersRemove(pending, k);
      CardRoutesPush(pushed, route);
      var rest := pending[..k] + pending[k + 1..];
      assert CardTimers(rest) + CardRoutes(pushed + [route]) == CardTimers(pending) + CardRoutes(pushed);
      pushed := pushed + [route];
      pending := rest;
    }
  }

  datatype GalleryEvent = CardClicked(slug: string) | ListClicked | Fired(k: nat)

  /**
   * The gallery over a run of events (a `Fired(k)` with no k-th pending timer
   * is no event): however the clicks and the timers interleave, at most one
   * push goes to a work's detail route.
   */
  method RunGallery(events: seq<GalleryEvent>) returns (pushes: seq<string>)
    ensures CardRoutes(pushes) <= 1
    ensures |pushes| <= |events|
  {
    var nav := new GalleryNavigator();
    for i := 0 to |events|
      invariant nav.Valid()
      invariant |nav.pushed| <= i
    {
      match events[i]
      case CardClicked(slug) => nav.CardClick(slug);
      case ListClicked => nav.ListClick();
      case Fired(k) =>
        if k < |nav.pending| {
          nav.Fire(k);
        }
    }
    pushes := nav.pushed;
  }

  /** Once a card is clicked, neither another card nor the list button
      schedules anything: the card's route is the only push. */
  method GalleryCardFirstScenario(s: string, s2: string) returns (pushes: seq<string>)
    requires s != ""
    ensures pushes == [DetailPath(s)]
  {
    var nav := new GalleryNavigator();
    nav.CardClick(s);
    assert nav.Armed() && nav.pending == [CardTimer(s)];
    nav.CardClick(s2);
    nav.ListClick();
    assert nav.pending == [CardTimer(s)];
    nav.Fire(0);
    pushes := nav.pushed;
  }

  /** The list button does not arm the guard: a card clicked before its timer
      fires schedules a second navigation, and both routes are pushed. */
  method GalleryListThenCardScenario(s: string) returns (pushes: seq<string>)
    ensures pushes == ["/all-works", DetailPath(s)]
  {
    var nav := new GalleryNavigator();
    nav.ListClick();
    assert nav.pending == [ListTimer] && !nav.Armed();
    nav.CardClick(s);
    assert nav.pending == [ListTimer, CardTimer(s)];
    nav.Fire(0);
    assert nav.pushed == ["/all-works"];
    assert nav.pending == [CardTimer(s)];
    nav.Fire(0);
    pushes := nav.pushed;
  }
}
