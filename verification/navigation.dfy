/**
 * The client's turn-by-turn navigation service as a state machine.
 *
 * The service object holds a destination, a route, a navigating flag, a
 * progress callback and a position-watch subscription. Outside events drive
 * it: a request to start, position fixes delivered by the watch, a request to
 * stop, and the user acknowledging the arrival alert. Each event is a pure
 * transition here; what the platform answers (location permission, whether the
 * watch could be started) and the great-circle distance of a fix from the
 * destination are parameters of the event.
 *
 * Beside the service's own fields the state records which watches the
 * position provider still runs (`live`) and how many it has handed out
 * (`issued`), so that a watch the service forgets without removing it can be
 * seen.
 */
module Navigation {
  import opened Wrappers
  import opened JsText
  import opened Geo

  datatype Maneuver = Maneuver(kind: string, modifier: Option<string>)

  datatype NavigationStep = NavigationStep(instruction: string, distance: real, duration: real, maneuver: Maneuver)

  /** The route the caller hands over; the service stores it and never reads it. */
  datatype Route = Route(distance: real, duration: real, steps: seq<NavigationStep>)

  datatype NavigationProgress = NavigationProgress(
    distanceRemaining: real,
    durationRemaining: real,
    currentStepIndex: int,
    nextInstruction: Option<string>)

  datatype NavState = NavState(
    navigating: bool,
    destination: Option<Coord>,
    route: Option<Route>,
    callbackSet: bool,
    subscription: Option<nat>,
    live: set<nat>,
    issued: nat)

  /** A fresh service: nothing set, no watch ever requested. */
  const Initial: NavState := NavState(false, None, None, false, None, {}, 0)

  /** How the location-permission request ends. */
  datatype Permission = Granted | Denied | RequestFailed

  /** Closer than this many kilometres (20 metres) counts as arrived. */
  const ArrivalThresholdKm: real := 0.02

  /** The average city speed the duration estimate assumes, in km/h. */
  const CitySpeedKmh: real := 30.0

  /**
   * The fields agree with each other: navigating exactly when a destination,
   * a route and a callback are held; the held subscription is a watch still
   * running; every running watch was handed out.
   */
  ghost predicate Valid(s: NavState) {
    && (s.navigating <==> s.destination.Some?)
    && (s.navigating <==> s.route.Some?)
    && (s.navigating <==> s.callbackSet)
    && (s.subscription.Some? ==> s.subscription.value in s.live)
    && (forall id | id in s.live :: id < s.issued)
  }

  lemma InitialValid()
    ensures Valid(Initial)
    ensures !Initial.navigating && Initial.live == {}
  {
  }

  // ---------------------------------------------------------------------------
  // startNavigation
  // ---------------------------------------------------------------------------

  datatype StartOutcome = StartOutcome(state: NavState, started: bool, permissionAlert: bool)

  /**
   * `startNavigation`. A refused permission alerts and changes nothing; a
   * permission request that throws changes nothing silently. With permission
   * the fields are set before the watch is requested, so a watch that fails
   * to start leaves the service navigating with its old subscription. A new
   * watch replaces the held subscription without removing the old watch.
   */
  function Start(s: NavState, destination: Coord, route: Route, permission: Permission, watchStarted: bool): (o: StartOutcome)
    ensures o.started <==> permission == Granted && watchStarted
    ensures o.permissionAlert <==> permission == Denied
    ensures permission != Granted ==> o.state == s
    ensures permission == Granted ==>
      && o.state.navigating && o.state.destination == Some(destination)
      && o.state.route == Some(route) && o.state.callbackSet
    ensures !o.started ==> o.state.subscription == s.subscription && o.state.live == s.live
    ensures o.started ==> o.state.subscription == Some(s.issued) && o.state.live == s.live + {s.issued}
  {
    if permission != Granted then
      StartOutcome(s, false, permission == Denied)
    else
      var armed := s.(navigating := true, destination := Some(destination), route := Some(route), callbackSet := true);
      if !watchStarted then
        StartOutcome(armed, false, false)
      else
        StartOutcome(armed.(subscription := Some(s.issued), live := s.live + {s.issued}, issued := s.issued + 1), true, false)
  }

  lemma StartPreservesValid(s: NavState, destination: Coord, route: Route, permission: Permission, watchStarted: bool)
    requires Valid(s)
    ensures Valid(Start(s, destination, route, permission, watchStarted).state)
  {
  }

  /**
   * Starting again while a watch runs forgets the old watch without removing
   * it: it keeps running, and stopping afterwards does not remove it either.
   */
  lemma RestartLeaksWatch(s: NavState, destination: Coord, route: Route)
    requires Valid(s) && s.subscription.Some?
    ensures var t := Start(s, destination, route, Granted, true).state;
      && s.subscription.value in t.live
      && t.subscription != s.subscription
      && s.subscription.value in Stop(t).live
  {
  }

  // ---------------------------------------------------------------------------
  // stopNavigation
  // ---------------------------------------------------------------------------

  /**
   * `stopNavigation`: clear every field and remove the held watch, if any.
   * Only that one watch stops; every other running watch keeps running.
   */
  function Stop(s: NavState): (r: NavState)
    ensures !r.navigating && r.destination.None? && r.route.None? && !r.callbackSet && r.subscription.None?
    ensures r.live == if s.subscription.Some? then s.live - {s.subscription.value} else s.live
    ensures r.issued == s.issued
  {
    var cleared := s.(navigating := false, destination := None, route := None, callbackSet := false);
    match s.subscription
    case None => cleared
    case Some(id) => cleared.(subscription := None, live := s.live - {id})
  }

  lemma StopPreservesValid(s: NavState)
    requires Valid(s)
    ensures Valid(Stop(s))
  {
  }

  /** Stopping twice is stopping once, and stopping a fresh service changes nothing. */
  lemma StopIdempotent(s: NavState)
    ensures Stop(Stop(s)) == Stop(s)
    ensures Stop(Initial) == Initial
  {
  }

  // ---------------------------------------------------------------------------
  // handleLocationUpdate and its helpers
  // ---------------------------------------------------------------------------

  /**
   * `estimateDuration`: seconds to cover `distanceKm` at the city speed.
   */
  function EstimateDuration(distanceKm: real): (seconds: real)
    ensures seconds * CitySpeedKmh == distanceKm * 3600.0
  {
    distanceKm / CitySpeedKmh * 3600.0
  }

  /** A longer way never takes less time. */
  lemma EstimateDurationMonotone(a: real, b: real)
    requires a <= b
    ensures EstimateDuration(a) <= EstimateDuration(b)
  {
  }

  /** `getCurrentStepIndex`: the route geometry is not consulted; always the first step. */
  const CurrentStepIndex: int := 0

  /** `getNextInstruction`: the route steps are not consulted; always the same text. */
  const NextInstruction: string := "Continue straight"

  datatype UpdateOutcome = UpdateOutcome(state: NavState, progress: Option<NavigationProgress>, arrivalAlert: bool)

  /**
   * `handleLocationUpdate` for a fix `distanceKm` from the destination.
   * Nothing happens unless the service is navigating with a destination and
   * a callback. Within the arrival radius it raises the arrival alert and
   * leaves the state alone (the teardown waits for the acknowledgement);
   * otherwise it reports progress.
   */
  function Update(s: NavState, distanceKm: real): (o: UpdateOutcome)
    ensures o.state == s
    ensures !(o.progress.Some? && o.arrivalAlert)
    ensures o.arrivalAlert <==> s.navigating && s.destination.Some? && s.callbackSet && distanceKm < ArrivalThresholdKm
    ensures o.progress.Some? <==> s.navigating && s.destination.Some? && s.callbackSet && distanceKm >= ArrivalThresholdKm
    ensures o.progress.Some? ==>
      && o.progress.value.distanceRemaining == distanceKm
      && o.progress.value.durationRemaining * CitySpeedKmh == distanceKm * 3600.0
      && o.progress.value.currentStepIndex == 0
      && o.progress.value.nextInstruction == Some("Continue straight")
  {
    if !s.navigating || s.destination.None? || !s.callbackSet then
      UpdateOutcome(s, None, false)
    else if distanceKm < ArrivalThresholdKm then
      UpdateOutcome(s, None, true)
    else
      var progress := NavigationProgress(distanceKm, EstimateDuration(distanceKm), CurrentStepIndex, Some(NextInstruction));
      UpdateOutcome(s, Some(progress), false)
  }

  /** In a valid state the three guards collapse into the navigating flag. */
  lemma UpdateGuardIsNavigating(s: NavState, distanceKm: real)
    requires Valid(s)
    ensures Update(s, distanceKm).progress.Some? <==> s.navigating && distanceKm >= ArrivalThresholdKm
    ensures Update(s, distanceKm).arrivalAlert <==> s.navigating && distanceKm < ArrivalThresholdKm
  {
  }

  /**
   * `handleArrival`'s OK button: the teardown happens here, not on arrival.
   * It is `stopNavigation` exactly: every field cleared, the held watch (and
   * only it) removed, the count of handed-out watches untouched.
   */
  function ArrivalAck(s: NavState): (r: NavState)
    ensures !r.navigating && r.destination.None? && r.route.None? && !r.callbackSet && r.subscription.None?
    ensures r.live == if s.subscription.Some? then s.live - {s.subscription.value} else s.live
    ensures r.issued == s.issued
  {
    Stop(s)
  }

  // ---------------------------------------------------------------------------
  // Event sequences
  // ---------------------------------------------------------------------------

  /**
   * The outside events. A `PositionFix` comes from some watch in `live`;
   * every watch calls the same handler, so which one it was is not recorded.
   */
  datatype Event =
    | StartRequested(destination: Coord, route: Route, permission: Permission, watchStarted: bool)
    | PositionFix(distanceKm: real)
    | StopRequested
    | ArrivalAcknowledged

  /** What the outside world sees: a progress report to the callback, or an alert. */
  datatype Output = Progressed(progress: NavigationProgress) | ArrivalAlert | PermissionAlert

  function StepOutputs(o: UpdateOutcome): seq<Output> {
    (if o.progress.Some? then [Progressed(o.progress.value)] else [])
      + (if o.arrivalAlert then [ArrivalAlert] else [])
  }

  /** One event's transition and what it shows the outside world. */
  function Step(s: NavState, e: Event): (NavState, seq<Output>) {
    match e
    case StartRequested(d, r, p, w) =>
      var o := Start(s, d, r, p, w);
      (o.state, if o.permissionAlert then [PermissionAlert] else [])
    case PositionFix(km) =>
      var o := Update(s, km);
      (o.state, StepOutputs(o))
    case StopRequested => (Stop(s), [])
    case ArrivalAcknowledged => (ArrivalAck(s), [])
  }

  /** A run of events from a state: the final state and everything shown, in order. */
  function Run(s: NavState, events: seq<Event>): (NavState, seq<Output>)
    decreases |events|
  {
    if |events| == 0 then (s, [])
    else
      var step := Step(s, events[0]);
      var rest := Run(step.0, events[1..]);
      (rest.0, step.1 + rest.1)
  }

  lemma StepPreservesValid(s: NavState, e: Event)
    requires Valid(s)
    ensures Valid(Step(s, e).0)
  {
    match e
    case StartRequested(d, r, p, w) => StartPreservesValid(s, d, r, p, w);
    case PositionFix(km) =>
    case StopRequested => StopPreservesValid(s);
    case ArrivalAcknowledged => StopPreservesValid(s);
  }

  /** Every run keeps the fields consistent and the watch bookkeeping sound. */
  lemma {:induction false} RunPreservesValid(s: NavState, events: seq<Event>)
    requires Valid(s)
    ensures Valid(Run(s, events).0)
    decreases |events|
  {
    if |events| > 0 {
      StepPreservesValid(s, events[0]);
      RunPreservesValid(Step(s, events[0]).0, events[1..]);
    }
  }

  predicate NoStart(events: seq<Event>) {
    forall i | 0 <= i < |events| :: !events[i].StartRequested?
  }

  /**
   * Once stopped (by request or by acknowledging arrival) the service stays
   * silent and unchanged until it is started again, whatever fixes arrive.
   */
  lemma {:induction false} QuietAfterStop(s: NavState, events: seq<Event>)
    requires NoStart(events)
    ensures Run(Stop(s), events) == (Stop(s), [])
    decreases |events|
  {
    if |events| > 0 {
      StopIdempotent(s);
      assert Step(Stop(s), events[0]) == (Stop(s), []);
      assert NoStart(events[1..]) by {
        forall i | 0 <= i < |events[1..]|
          ensures !events[1..][i].StartRequested?
        {
          assert events[1..][i] == events[i + 1];
        }
      }
      QuietAfterStop(s, events[1..]);
      var step, rest := Step(Stop(s), events[0]), Run(Stop(s), events[1..]);
      assert Run(Stop(s), events) == (rest.0, step.1 + rest.1);
      assert step.1 + rest.1 == [];
    }
  }

  /** Acknowledging arrival ends all progress reports until the next start. */
  lemma NoProgressAfterArrival(s: NavState, events: seq<Event>)
    requires NoStart(events)
    ensures Run(ArrivalAck(s), events).1 == []
  {
    QuietAfterStop(s, events);
  }

  /**
   * Until the user acknowledges it, every fix inside the arrival radius
   * raises the arrival alert again.
   */
  lemma ArrivalAlertRepeats(s: NavState, a: real, b: real)
    requires Valid(s) && s.navigating
    requires a < ArrivalThresholdKm && b < ArrivalThresholdKm
    ensures Run(s, [PositionFix(a), PositionFix(b)]) == (s, [ArrivalAlert, ArrivalAlert])
  {
    AlertOnFix(s, a);
    AlertOnFix(s, b);
    RunFirst(s, PositionFix(b), []);
    assert [PositionFix(b)] + [] == [PositionFix(b)];
    assert [ArrivalAlert] + [] == [ArrivalAlert];
    RunFirst(s, PositionFix(a), [PositionFix(b)]);
    assert [PositionFix(a)] + [PositionFix(b)] == [PositionFix(a), PositionFix(b)];
    assert [ArrivalAlert] + [ArrivalAlert] == [ArrivalAlert, ArrivalAlert];
  }

  /** A run starts with its first event's step. */
  lemma RunFirst(s: NavState, e: Event, events: seq<Event>)
    ensures var step := Step(s, e);
      var rest := Run(step.0, events);
      Run(s, [e] + events) == (rest.0, step.1 + rest.1)
  {
    assert ([e] + events)[0] == e;
    assert ([e] + events)[1..] == events;
  }

  lemma AlertOnFix(s: NavState, km: real)
    requires Valid(s) && s.navigating && km < ArrivalThresholdKm
    ensures Step(s, PositionFix(km)) == (s, [ArrivalAlert])
  {
    var o := Update(s, km);
    assert o.arrivalAlert;
    assert o.progress.None?;
    assert o.state == s;
    assert StepOutputs(o) == [ArrivalAlert];
    assert Step(s, PositionFix(km)) == (o.state, StepOutputs(o));
  }

  /**
   * A watch that failed to start leaves the service navigating. Any watch
   * still running from before (every watch calls the same handler) goes on
   * running and delivering fixes, and each fix is reported as progress.
   */
  lemma FailedWatchStillNavigates(s: NavState, destination: Coord, route: Route, km: real, watch: nat)
    requires watch in s.live
    requires km >= ArrivalThresholdKm
    ensures var o := Start(s, destination, route, Granted, false);
      && !o.started
      && watch in o.state.live
      && Update(o.state, km).progress.Some?
  {
  }

  // ---------------------------------------------------------------------------
  // formatDistance and formatDuration
  // ---------------------------------------------------------------------------

  /** `Math.round`: halves round up. */
  function JsRound(x: real): int {
    (x + 0.5).Floor
  }

  /**
   * `formatDistance`: whole metres below one kilometre, otherwise kilometres
   * with one decimal. The one-decimal text of a number (`toFixed(1)`) is a
   * parameter. The text always ends in a unit; below a kilometre the unit
   * follows at most four digits, since rounding can reach 1000 but no more.
   */
  function FormatDistance(km: real, toFixed1: real -> string): (r: string)
    ensures |r| >= 2 && r[|r| - 1] == 'm'
    ensures 0.0 <= km < 1.0 ==> |r| <= 5 && AllDigits(r[..|r| - 1])
  {
    var n := JsRound(km * 1000.0);
    DecimalLength(if n < 0 then -n else n, 4);
    if km < 1.0 then IntToDecimal(n) + "m" else toFixed1(km) + "km"
  }

  /** Under a kilometre: the number of metres nearest the distance, halves rounded up. */
  lemma FormatDistanceMetres(km: real, toFixed1: real -> string, metres: int)
    requires 0.0 <= km < 1.0
    requires metres as real - 0.5 <= km * 1000.0 < metres as real + 0.5
    ensures 0 <= metres <= 1000
    ensures FormatDistance(km, toFixed1) == NatToDecimal(metres) + "m"
  {
  }

  /** From a kilometre on: the one-decimal text with a `km` unit. */
  lemma FormatDistanceKilometres(km: real, toFixed1: real -> string)
    requires km >= 1.0
    ensures FormatDistance(km, toFixed1) == toFixed1(km) + "km"
  {
  }

  /** The unit names the branch: the text ends in `km` exactly from one kilometre on. */
  lemma FormatDistanceUnit(km: real, toFixed1: real -> string)
    ensures var r := FormatDistance(km, toFixed1);
      |r| >= 2 && r[|r| - 2..] == "km" <==> km >= 1.0
  {
    var r := FormatDistance(km, toFixed1);
    if km < 1.0 {
      var n := JsRound(km * 1000.0);
      var digits := NatToDecimal(if n < 0 then -n else n);
      assert r[|r| - 2] == digits[|digits| - 1];
      assert IsDigit(digits[|digits| - 1]);
    }
  }

  /** `Math.trunc` */
  function Trunc(x: real): int {
    if x >= 0.0 then x.Floor else -((-x).Floor)
  }

  /** JavaScript's `%` on numbers: the remainder takes the sign of the dividend. */
  function JsRealRemainder(x: real, m: real): real
    requires m > 0.0
  {
    x - m * Trunc(x / m) as real
  }

  /**
   * `formatDuration`: whole hours and minutes, hours omitted when there are
   * none. The text always ends in minutes, and shows hours exactly from one
   * hour on.
   */
  function FormatDuration(seconds: real): (r: string)
    ensures |r| >= 2 && r[|r| - 1] == 'm'
    ensures 'h' in r <==> seconds >= 3600.0
  {
    var hours := (seconds / 3600.0).Floor;
    var minutes := (JsRealRemainder(seconds, 3600.0) / 60.0).Floor;
    if hours > 0 then IntToDecimal(hours) + "h " + IntToDecimal(minutes) + "m"
    else IntToDecimal(minutes) + "m"
  }

  /**
   * The text reads as the completed hours and minutes of the duration: for
   * the one split of `seconds` into `hours` whole hours, `minutes` whole
   * minutes under sixty and under a minute of rest, it shows exactly those.
   */
  lemma FormatDurationReads(seconds: real, hours: nat, minutes: nat)
    requires minutes < 60
    requires (hours * 3600 + minutes * 60) as real <= seconds < (hours * 3600 + minutes * 60 + 60) as real
    ensures FormatDuration(seconds) ==
      if hours > 0 then NatToDecimal(hours) + "h " + NatToDecimal(minutes) + "m"
      else NatToDecimal(minutes) + "m"
  {
    SplitIsFloors(seconds, hours, minutes);
  }

  /** The split is what the two floor expressions of `formatDuration` compute. */
  lemma SplitIsFloors(seconds: real, hours: nat, minutes: nat)
    requires minutes < 60
    requires (hours * 3600 + minutes * 60) as real <= seconds < (hours * 3600 + minutes * 60 + 60) as real
    ensures (seconds / 3600.0).Floor == hours
    ensures (JsRealRemainder(seconds, 3600.0) / 60.0).Floor == minutes
  {
    FloorIs(seconds / 3600.0, hours);
    var rem := JsRealRemainder(seconds, 3600.0);
    assert rem == seconds - (hours * 3600) as real;
    FloorIs(rem / 60.0, minutes);
  }

  /** The floor of `x` is the whole number at most one below it. */
  lemma FloorIs(x: real, n: int)
    requires n as real <= x < (n + 1) as real
    ensures x.Floor == n
  {
  }

  /** Every non-negative duration has such a split, so the lemma above covers them all. */
  lemma DurationSplits(seconds: real) returns (hours: nat, minutes: nat)
    requires seconds >= 0.0
    ensures minutes < 60
    ensures (hours * 3600 + minutes * 60) as real <= seconds < (hours * 3600 + minutes * 60 + 60) as real
  {
    hours := (seconds / 3600.0).Floor;
    var rest := seconds - (hours * 3600) as real;
    assert 0.0 <= rest < 3600.0;
    minutes := (rest / 60.0).Floor;
    assert minutes as real <= rest / 60.0 < (minutes + 1) as real;
  }
}
