/**
  * The connection to the signalling server: connection attempts, the reconnect timer with its
  * growing delay, and the one notification that the connection is gone.
  *
  * The environment is the WebSocket library. Its contract: each attempt ends in either the open
  * or the fail handler, and each opened connection ends in one call of the close handler.
  */
module Signal {
  import opened Helpers
  import Uri

  datatype ConState = Opening | Opened | Closing | Closed

  const NORMAL: nat := 1000
  const DEFAULT_URL := "wss://signal.peerapi.peerborough.com/hello"

  /**
    * The fields of a `Signal` object, what the environment owes it (an outcome for the attempt under
    * way, a close for the open connection), and what has happened since `Connect`.
    */
  datatype State = State(
    url: string, con: ConState, attempts: nat, made: nat, delay: nat, delayMax: nat, timer: bool,
    pending: bool, live: bool,
    dispatched: nat, signals: nat, timers: nat, waited: nat)

  // ----- Delays -----

  function RealPower(b: real, n: nat): real {
    if n == 0 then 1.0 else b * RealPower(b, n - 1)
  }

  function MinReal(a: real, b: real): real {
    if a < b then a else b
  }

  function Scaled(delay: nat, m: nat): real {
    delay as real * RealPower(1.5, m)
  }

  /** The delay before the next attempt, in milliseconds. */
  function NextDelay(delay: nat, delayMax: nat, made: nat): nat {
    var m := if made < 32 then made else 32;
    var d := MinReal(Scaled(delay, m), delayMax as real);
    ScaledBounds(delay, m, m);
    d.Floor
  }

  lemma {:induction false} RealPowerGrows(n: nat)
    ensures RealPower(1.5, n) >= 1.0
  {
    if n > 0 { RealPowerGrows(n - 1); }
  }

  lemma {:induction false} RealPowerMonotone(m: nat, n: nat)
    requires m <= n
    ensures RealPower(1.5, m) <= RealPower(1.5, n)
  {
    if m < n {
      RealPowerMonotone(m, n - 1);
      RealPowerGrows(n - 1);
    }
  }

  lemma ScaleMonotone(d: real, x: real, y: real)
    requires 0.0 <= d && x <= y
    ensures d * x <= d * y
  {
  }

  lemma ScaledBounds(delay: nat, m: nat, n: nat)
    requires m <= n
    ensures delay as real <= Scaled(delay, m) <= Scaled(delay, n)
  {
    hide RealPower;
    RealPowerGrows(m);
    RealPowerMonotone(m, n);
    ScaleMonotone(delay as real, 1.0, RealPower(1.5, m));
    ScaleMonotone(delay as real, RealPower(1.5, m), RealPower(1.5, n));
  }

  /** The delay lies between the configured delay and maximum, and never decreases from one attempt to the next. */
  lemma NextDelayBounds(delay: nat, delayMax: nat, m: nat, n: nat)
    requires delay <= delayMax && m <= n
    ensures delay <= NextDelay(delay, delayMax, m) <= NextDelay(delay, delayMax, n) <= delayMax
  {
    hide Scaled, MinReal;
    var m', n' := if m < 32 then m else 32, if n < 32 then n else 32;
    ScaledBounds(delay, m', n');
    CappedFloor(delay, delayMax, Scaled(delay, m'), Scaled(delay, n'));
  }

  lemma CappedFloor(delay: nat, delayMax: nat, x: real, y: real)
    requires delay <= delayMax && delay as real <= x <= y
    ensures delay <= MinReal(x, delayMax as real).Floor <= MinReal(y, delayMax as real).Floor <= delayMax
  {
  }

  function ThreeTo(n: nat): nat {
    if n == 0 then 1 else 3 * ThreeTo(n - 1)
  }

  lemma {:induction false} PowerOfHalves(m: nat)
    ensures TwoTo(m) as real * RealPower(1.5, m) == ThreeTo(m) as real
  {
    if m > 0 {
      PowerOfHalves(m - 1);
      Halves(TwoTo(m - 1) as real, RealPower(1.5, m - 1));
    }
  }

  lemma Halves(a: real, p: real)
    ensures (2.0 * a) * (1.5 * p) == 3.0 * (a * p)
  {
  }

  /**
    * The delay grows by half from one attempt to the next, up to the maximum and up to the 32nd: where
    * 2^m divides the configured delay, no rounding is involved.
    */
  lemma ExactDelays(unit: nat, delayMax: nat, m: nat)
    requires m <= 32
    ensures NextDelay(TwoTo(m) * unit, delayMax, m) == if ThreeTo(m) * unit <= delayMax then ThreeTo(m) * unit else delayMax
  {
    PowerOfHalves(m);
    hide RealPower, TwoTo, ThreeTo;
    Regroup(TwoTo(m), unit, RealPower(1.5, m), ThreeTo(m));
    assert Scaled(TwoTo(m) * unit, m) == (ThreeTo(m) * unit) as real;
  }

  lemma Regroup(a: nat, u: nat, p: real, b: nat)
    requires a as real * p == b as real
    ensures (a * u) as real * p == (b * u) as real
  {
    assert (a * u) as real == a as real * u as real && (b * u) as real == b as real * u as real;
    assert (a as real * u as real) * p == (a as real * p) * u as real;
  }

  lemma NoMoreGrowth(delay: nat, delayMax: nat, m: nat)
    requires m >= 32
    ensures NextDelay(delay, delayMax, m) == NextDelay(delay, delayMax, 32)
  {
  }

  /** The sum of the first `n` delays. */
  function TotalDelay(delay: nat, delayMax: nat, n: nat): nat {
    if n == 0 then 0 else TotalDelay(delay, delayMax, n - 1) + NextDelay(delay, delayMax, n - 1)
  }

  /** The delays with the built-in settings, in milliseconds. */
  lemma DefaultDelays(n: nat)
    ensures NextDelay(5000, 25000, 0) == 5000 && NextDelay(5000, 25000, 1) == 7500
    ensures NextDelay(5000, 25000, 2) == 11250 && NextDelay(5000, 25000, 3) == 16875
    ensures n >= 4 ==> NextDelay(5000, 25000, n) == 25000
  {
    assert RealPower(1.5, 1) == 1.5 && RealPower(1.5, 2) == 2.25 && RealPower(1.5, 3) == 3.375 && RealPower(1.5, 4) == 5.0625;
    assert NextDelay(5000, 25000, 4) == 25000;
    hide RealPower;
    if n >= 4 {
      NextDelayBounds(5000, 25000, 4, n);
    }
  }

  /** The setters, each of which repairs the order of the two delays. */
  datatype Setter = SetDelay(millis: nat) | SetDelayMax(millis: nat) | SetAttempts(n: nat)

  function Set(s: State, setter: Setter): State {
    match setter
    case SetDelay(millis) => s.(delay := millis, delayMax := if s.delayMax < millis then millis else s.delayMax)
    case SetDelayMax(millis) => s.(delayMax := millis, delay := if s.delay > millis then millis else s.delay)
    case SetAttempts(n) => s.(attempts := n)
  }

  function SetAll(s: State, setters: seq<Setter>): State
    decreases |setters|
  {
    if setters == [] then s else SetAll(Set(s, setters[0]), setters[1..])
  }

  /** The order of the delays survives any sequence of setter calls. */
  lemma {:induction false} DelaysStayOrdered(s: State, setters: seq<Setter>)
    requires s.delay <= s.delayMax
    ensures SetAll(s, setters).delay <= SetAll(s, setters).delayMax
    decreases |setters|
  {
    if setters != [] { DelaysStayOrdered(Set(s, setters[0]), setters[1..]); }
  }

  // ----- Handlers -----

  datatype Event =
    | OnOpen
    | OnFail(code: nat)
    | OnClose(code: nat)
    | Timeout(aborted: bool)
    | UserClose
    | UserConnect
    | UrlRejected

  /** The state right after `Connect` has dispatched the first attempt. */
  function Connected(s: State): State {
    s.(con := Opening, made := 0, timer := false, pending := true, live := false,
       dispatched := 1, signals := 0, timers := 0, waited := 0)
  }

  /** The WebSocket library makes a connection for this URL: it parses. */
  predicate Accepted(url: string) {
    Uri.Parse(url).Some?
  }

  /**
    * What the environment may do next: an attempt whose URL is accepted has an outcome, any other is
    * dropped. A repeated `Connect` that is not ignored starts a new story.
    */
  predicate Enabled(s: State, e: Event) {
    match e
    case OnOpen => s.pending && Accepted(s.url)
    case OnFail(_) => s.pending && Accepted(s.url)
    case OnClose(_) => s.live
    case Timeout(_) => s.timer
    case UserClose => true
    case UserConnect => s.con == Opening || s.con == Opened
    case UrlRejected => s.pending && !Accepted(s.url)
  }

  function Step(s: State, e: Event): State {
    match e
    case OnOpen =>
      s.(con := Opened, made := 0, pending := false, live := true)
    case OnFail(code) =>
      var t := s.(con := Closed, pending := false);
      if s.made < s.attempts then
        t.(timer := true, timers := s.timers + 1, waited := s.waited + NextDelay(s.delay, s.delayMax, s.made))
      else
        t.(signals := s.signals + 1)
    case OnClose(code) =>
      s.(con := Closed, live := false, signals := s.signals + if code == NORMAL then 0 else 1)
    case Timeout(aborted) =>
      if !aborted && s.con == Closed then
        s.(timer := false, con := Opening, made := s.made + 1, pending := true, dispatched := s.dispatched + 1)
      else
        s.(timer := false)
    case UserClose =>
      if s.con == Opened then s.(con := Closing) else s
    case UserConnect =>
      s.(timer := false)
    case UrlRejected =>
      s.(pending := false)
  }

  ghost predicate IsRun(s: State, events: seq<Event>) {
    events == [] || (IsRun(s, events[..|events| - 1]) && Enabled(After(s, events[..|events| - 1]), events[|events| - 1]))
  }

  function After(s: State, events: seq<Event>): State {
    if events == [] then s else Step(After(s, events[..|events| - 1]), events[|events| - 1])
  }

  /** The longest wait that `n` timers can make. */
  function Budget(n: nat, delayMax: nat): nat {
    n * delayMax
  }

  /** Holds from `Connect` on, whatever the environment and the user do. */
  ghost predicate Inv(s: State) {
    && s.delay <= s.delayMax
    && s.made <= s.attempts && s.made < s.dispatched <= s.attempts + 1
    && s.signals <= 1 && s.timers <= s.attempts && s.waited <= Budget(s.timers, s.delayMax)
    && match s.con
       case Opening => !s.timer && !s.live && s.signals == 0 && s.timers == s.made && s.dispatched == s.made + 1
       case Opened => s.live && !s.pending && !s.timer && s.signals == 0
       case Closing => s.live && !s.pending && !s.timer && s.signals == 0
       case Closed => !s.live && !s.pending
                      && (s.timer ==> s.signals == 0 && s.timers == s.made + 1 && s.dispatched == s.made + 1 && s.made < s.attempts)
  }

  lemma FailKeepsInv(s: State, code: nat)
    requires Inv(s) && s.pending
    ensures Inv(Step(s, OnFail(code)))
  {
    NextDelayBounds(s.delay, s.delayMax, s.made, s.made);
    BudgetGrows(s.timers, s.delayMax);
    hide NextDelay, Budget;
  }

  lemma TimeoutKeepsInv(s: State, aborted: bool)
    requires Inv(s) && s.timer
    ensures Inv(Step(s, Timeout(aborted)))
  {
    hide NextDelay, Budget;
  }

  lemma InvKept(s: State, e: Event)
    requires Inv(s) && Enabled(s, e)
    ensures Inv(Step(s, e))
  {
    hide NextDelay, Accepted, Budget;
    match e
    case OnFail(code) => FailKeepsInv(s, code);
    case Timeout(aborted) => TimeoutKeepsInv(s, aborted);
    case OnOpen =>
    case OnClose(_) =>
    case UserClose =>
    case UserConnect =>
    case UrlRejected =>
  }

  lemma BudgetGrows(n: nat, delayMax: nat)
    ensures Budget(n + 1, delayMax) == Budget(n, delayMax) + delayMax
  {
  }

  lemma {:induction false} InvHolds(s: State, events: seq<Event>)
    requires s.delay <= s.delayMax && IsRun(Connected(s), events)
    ensures Inv(After(Connected(s), events))
    ensures var t := After(Connected(s), events);
            t.attempts == s.attempts && t.delay == s.delay && t.delayMax == s.delayMax && t.url == s.url
  {
    hide Inv, Accepted;
    if events == [] {
      ConnectedInv(s);
    } else {
      var init := events[..|events| - 1];
      InvHolds(s, init);
      InvKept(After(Connected(s), init), events[|events| - 1]);
    }
  }

  lemma ConnectedInv(s: State)
    requires s.delay <= s.delayMax
    ensures Inv(Connected(s))
  {
  }

  /**
    * In every run after a `Connect`: at most one more attempt than the limit, at most one closed
    * signal, and a total wait of at most the limit times the maximal delay.
    */
  lemma AttemptsBounded(s: State, events: seq<Event>)
    requires s.delay <= s.delayMax && IsRun(Connected(s), events)
    ensures var t := After(Connected(s), events);
            && t.dispatched <= s.attempts + 1
            && t.signals <= 1
            && t.waited <= s.attempts * s.delayMax
  {
    InvHolds(s, events);
    hide After, IsRun, Step;
    var t := After(Connected(s), events);
    BudgetMonotone(t.timers, s.attempts, s.delayMax);
  }

  lemma BudgetMonotone(m: nat, n: nat, delayMax: nat)
    requires m <= n
    ensures Budget(m, delayMax) <= n * delayMax
  {
  }

  // ----- How a run ends -----

  /** The environment owes nothing any more. */
  predicate Settled(s: State) {
    !s.pending && !s.timer && !s.live
  }

  /** What ends the story without a signal: a normal close, or a timer that is cancelled. */
  predicate Quiet(e: Event) {
    e == OnClose(NORMAL) || e == Timeout(true)
  }

  ghost predicate EndsQuietly(events: seq<Event>) {
    exists i | 0 <= i < |events| :: Quiet(events[i])
  }

  lemma EndsQuietlyStep(events: seq<Event>)
    requires events != []
    ensures EndsQuietly(events) <==> EndsQuietly(events[..|events| - 1]) || Quiet(events[|events| - 1])
  {
    var init := events[..|events| - 1];
    if EndsQuietly(init) {
      var i :| 0 <= i < |init| && Quiet(init[i]);
      assert Quiet(events[i]);
    }
    if EndsQuietly(events) && !Quiet(events[|events| - 1]) {
      var i :| 0 <= i < |events| && Quiet(events[i]);
      assert Quiet(init[i]);
    }
  }

  lemma {:induction false} AcceptedProgress(s: State, events: seq<Event>)
    requires Accepted(s.url) && IsRun(Connected(s), events)
    ensures var t := After(Connected(s), events);
            && t.url == s.url && t.pending == (t.con == Opening) && t.live == (t.con == Opened || t.con == Closing)
            && (t.timer ==> t.con == Closed)
            && t.signals == (if t.con == Closed && !t.timer && !EndsQuietly(events) then 1 else 0)
            && (EndsQuietly(events) ==> t.con == Closed && !t.timer)
  {
    hide NextDelay, Accepted, EndsQuietly;
    if events == [] {
      NoEvents();
    } else {
      AcceptedProgress(s, events[..|events| - 1]);
      EndsQuietlyStep(events);
    }
  }

  lemma NoEvents()
    ensures !EndsQuietly([])
  {
  }

  /**
    * With an accepted URL, every run is over exactly when the state is closed and no timer is set; and
    * then the close was signalled, once, exactly when the run had no normal close and no cancelled
    * timer. No run signals anything before it is over.
    */
  lemma {:induction false} SignalledExactly(s: State, events: seq<Event>)
    requires Accepted(s.url) && IsRun(Connected(s), events)
    ensures var t := After(Connected(s), events);
            && (Settled(t) <==> t.con == Closed && !t.timer)
            && (Settled(t) ==> t.signals == if exists i | 0 <= i < |events| :: Quiet(events[i]) then 0 else 1)
            && (!Settled(t) ==> t.signals == 0)
  {
    hide After, IsRun, Accepted;
    AcceptedProgress(s, events);
  }

  /** With a rejected URL, every run stays at opening for good, after one attempt, and nothing is ever signalled. */
  lemma {:induction false} RejectedUrlSticks(s: State, events: seq<Event>)
    requires !Accepted(s.url) && IsRun(Connected(s), events)
    ensures var t := After(Connected(s), events);
            t.url == s.url && t.con == Opening && t.signals == 0 && t.dispatched == 1 && !t.timer && !t.live
  {
    hide Accepted, NextDelay;
    if events != [] {
      RejectedUrlSticks(s, events[..|events| - 1]);
    }
  }

  /** A run that is signalled exists exactly when the URL is accepted. */
  lemma SignalReachable(s: State)
    ensures (exists events :: IsRun(Connected(s), events) && After(Connected(s), events).signals == 1) <==> Accepted(s.url)
  {
    hide After, IsRun, Accepted;
    if Accepted(s.url) {
      FailEventsRun(s, s.attempts);
      assert IsRun(Connected(s), FailEvents(s.attempts)) && After(Connected(s), FailEvents(s.attempts)).signals == 1;
    } else {
      forall events | IsRun(Connected(s), events) ensures After(Connected(s), events).signals == 0 {
        RejectedUrlSticks(s, events);
      }
    }
  }

  /** Everything the library and the user may do does happen in some run with an accepted URL. */
  lemma EverythingHappens(s: State, code: nat)
    requires Accepted(s.url) && s.attempts > 0
    ensures var c := Connected(s);
            && IsRun(c, [] + [OnOpen] + [UserConnect] + [UserClose] + [OnClose(code)])
            && IsRun(c, [] + [OnFail(code)] + [Timeout(false)] + [OnFail(code)])
            && IsRun(c, [] + [OnFail(code)] + [Timeout(true)])
            && After(c, [] + [OnOpen] + [UserConnect] + [UserClose]).con == Closing
            && After(c, [] + [OnOpen] + [UserConnect] + [UserClose] + [OnClose(code)]).signals == if code == 1000 then 0 else 1
  {
    hide Accepted, NextDelay, IsRun, After;
    var c := Connected(s);
    NoEventsYet(c);
    RunGrows(c, [], OnOpen);
    RunGrows(c, [] + [OnOpen], UserConnect);
    RunGrows(c, [] + [OnOpen] + [UserConnect], UserClose);
    RunGrows(c, [] + [OnOpen] + [UserConnect] + [UserClose], OnClose(code));
    RunGrows(c, [], OnFail(code));
    RunGrows(c, [] + [OnFail(code)], Timeout(false));
    RunGrows(c, [] + [OnFail(code)], Timeout(true));
    RunGrows(c, [] + [OnFail(code)] + [Timeout(false)], OnFail(code));
  }

  // ----- Runs in which every attempt fails -----

  /** Every outcome is a failure and every timer runs out; the user may call `Close` and `Connect` in between. */
  ghost predicate AllFail(events: seq<Event>) {
    forall i | 0 <= i < |events| :: events[i].OnFail? || events[i] == Timeout(false) || events[i].UserClose? || events[i].UserConnect?
  }

  /** The number of failures and timeouts. */
  function Outcomes(events: seq<Event>): nat {
    if events == [] then 0
    else
      var e := events[|events| - 1];
      Outcomes(events[..|events| - 1]) + if e.OnFail? || e.Timeout? then 1 else 0
  }

  /** A failing run from `s` after `n` outcomes: two per attempt, and the signal comes with the last one. */
  ghost predicate Failing(s: State, t: State, n: nat) {
    && t.url == s.url && !t.live && t.attempts == s.attempts && t.made <= t.attempts && t.dispatched == t.made + 1
    && (t.con == Opening || t.con == Closed) && t.pending == (t.con == Opening)
    && n == 2 * t.made + (if t.con == Closed then 1 else 0)
    && t.timer == (t.con == Closed && t.made < t.attempts)
    && t.signals == (if t.con == Closed && t.made == t.attempts then 1 else 0)
    && t.delay == s.delay && t.delayMax == s.delayMax
    && t.waited == TotalDelay(s.delay, s.delayMax, t.made + if t.timer then 1 else 0)
  }

  lemma FailingStep(s: State, t: State, n: nat, e: Event)
    requires Failing(s, t, n) && Enabled(t, e)
    requires e.OnFail? || e == Timeout(false) || e.UserClose? || e.UserConnect?
    ensures Failing(s, Step(t, e), n + if e.OnFail? || e.Timeout? then 1 else 0)
  {
    hide NextDelay, Accepted;
    match e
    case OnFail(_) =>
    case Timeout(_) =>
    case _ =>
  }

  lemma {:induction false} FailingProgress(s: State, events: seq<Event>)
    requires IsRun(Connected(s), events) && AllFail(events)
    ensures Failing(s, After(Connected(s), events), Outcomes(events))
  {
    hide Failing, Enabled, Step;
    if events == [] {
      FailingStart(s);
    } else {
      var init := events[..|events| - 1];
      FailingProgress(s, init);
      FailingStep(s, After(Connected(s), init), Outcomes(init), events[|events| - 1]);
    }
  }

  lemma FailingStart(s: State)
    ensures Failing(s, Connected(s), 0)
  {
  }

  /**
    * When every attempt fails, the story ends after exactly `attempts + 1` attempts with exactly one
    * closed signal, and not before; the total wait is the sum of the scheduled delays. What the user
    * calls meanwhile makes no difference.
    */
  lemma FailingRun(s: State, events: seq<Event>)
    requires IsRun(Connected(s), events) && AllFail(events)
    ensures var t := After(Connected(s), events);
            && Outcomes(events) <= 2 * s.attempts + 1
            && (Settled(t) <==> Outcomes(events) == 2 * s.attempts + 1)
            && (Settled(t) ==> t.dispatched == s.attempts + 1 && t.signals == 1
                               && t.waited == TotalDelay(s.delay, s.delayMax, s.attempts))
            && (!Settled(t) ==> t.signals == 0)
  {
    hide After, IsRun, AllFail, TotalDelay;
    FailingProgress(s, events);
  }

  /** A first failure, then `n` times a timeout and another failure. */
  function FailEvents(n: nat): seq<Event> {
    if n == 0 then [OnFail(1006)] else FailEvents(n - 1) + [Timeout(false)] + [OnFail(1006)]
  }

  lemma {:induction false} FailEventsRun(s: State, n: nat)
    requires Accepted(s.url) && n <= s.attempts
    ensures IsRun(Connected(s), FailEvents(n))
    ensures var t := After(Connected(s), FailEvents(n));
            && t.con == Closed && t.made == n && t.attempts == s.attempts && t.url == s.url
            && t.timer == (n < s.attempts) && t.signals == if n < s.attempts then 0 else 1
  {
    hide Accepted, NextDelay, IsRun, After;
    NoEventsYet(Connected(s));
    if n == 0 {
      RunGrows(Connected(s), [], OnFail(1006));
    } else {
      FailEventsRun(s, n - 1);
      RunGrows(Connected(s), FailEvents(n - 1), Timeout(false));
      RunGrows(Connected(s), FailEvents(n - 1) + [Timeout(false)], OnFail(1006));
    }
  }

  lemma NoEventsYet(s: State)
    ensures IsRun(s, []) && After(s, []) == s && [OnFail(1006)] == [] + [OnFail(1006)]
  {
  }

  lemma RunGrows(s: State, events: seq<Event>, e: Event)
    requires IsRun(s, events) && Enabled(After(s, events), e)
    ensures IsRun(s, events + [e]) && After(s, events + [e]) == Step(After(s, events), e)
  {
    hide Enabled, Step;
    assert (events + [e])[..|events|] == events;
  }

  // ----- Runs in which an attempt succeeds -----

  /** A close handler call with this code is what raised, or did not raise, the signal. */
  ghost predicate ClosedBy(events: seq<Event>, i: nat, signals: nat) {
    && i < |events| && events[i].OnClose? && signals == (if events[i].code == NORMAL then 0 else 1)
    && forall j | 0 <= j < |events| && j != i :: !events[j].OnClose?
  }

  lemma OpenedStart(s: State)
    requires Inv(s) && s.pending
    ensures var t := Step(s, OnOpen);
            t.con == Opened && t.live && !t.pending && !t.timer && t.dispatched == s.dispatched && t.made == 0 && t.signals == 0
  {
  }

  lemma OpenedStep(t: State, e: Event)
    requires Enabled(t, e) && !t.pending && !t.timer && t.con != Opening && t.live == (t.con != Closed)
    ensures var u := Step(t, e);
            && !u.pending && !u.timer && u.con != Opening && u.live == (u.con != Closed)
            && u.dispatched == t.dispatched && u.made == t.made
            && (e.OnClose? <==> t.con != Closed && u.con == Closed) && (t.con == Closed ==> u.con == Closed)
            && u.signals == t.signals + if e.OnClose? && e.code != NORMAL then 1 else 0
  {
  }

  /**
    * Once an attempt has opened, no further attempt is made and no timer is set, the retry count is
    * back at zero, and the connection ends with one close, which raises the signal exactly when its
    * code is not the normal one.
    */
  lemma {:induction false} OpenedRun(s: State, events: seq<Event>)
    requires Inv(s) && s.pending && IsRun(Step(s, OnOpen), events)
    ensures var t := After(Step(s, OnOpen), events);
            && t.dispatched == s.dispatched && t.made == 0 && !t.pending && !t.timer && t.con != Opening
            && (if t.con == Closed then !t.live && exists i :: ClosedBy(events, i, t.signals)
                else t.live && t.signals == 0 && forall j | 0 <= j < |events| :: !events[j].OnClose?)
  {
    hide Step, Enabled, Inv;
    OpenedStart(s);
    if events != [] {
      var init, e := events[..|events| - 1], events[|events| - 1];
      OpenedRun(s, init);
      var t := After(Step(s, OnOpen), init);
      OpenedStep(t, e);
      if t.con == Closed {
        var i :| ClosedBy(init, i, t.signals);
        assert ClosedBy(events, i, t.signals);
      } else if e.OnClose? {
        assert ClosedBy(events, |events| - 1, After(Step(s, OnOpen), events).signals);
      }
    }
  }

  lemma {:induction false} RunPrefix(s: State, events: seq<Event>, k: nat)
    requires 0 < k <= |events| && IsRun(s, events)
    ensures IsRun(s, events[..k]) && Enabled(After(s, events[..k - 1]), events[k - 1])
    decreases |events|
  {
    hide Enabled;
    assert events[..k][..k - 1] == events[..k - 1];
    if k < |events| {
      var init := events[..|events| - 1];
      RunPrefix(s, init, k);
      assert init[..k] == events[..k] && init[..k - 1] == events[..k - 1];
    } else {
      assert events[..k] == events;
    }
  }

  // ----- The object -----

  class SignalConnection {
    const url: string
    var conState: ConState
    var reconnAttempts: nat
    var reconnMade: nat
    var reconnDelay: nat
    var reconnDelayMax: nat
    var reconnTimer: bool
    var networkThread: bool
    // What the environment owes, and the record of what has happened since the last accepted Connect.
    ghost var pending: bool
    ghost var live: bool
    ghost var dispatched: nat
    ghost var signals: nat
    ghost var timers: nat
    ghost var waited: nat

    ghost function View(): State
      reads this
    {
      State(url, conState, reconnAttempts, reconnMade, reconnDelay, reconnDelayMax, reconnTimer,
            pending, live, dispatched, signals, timers, waited)
    }

    constructor (url: string)
      ensures View() == State(if url == "" then "wss://signal.peerapi.peerborough.com/hello" else url, Closed, 3, 0, 5000, 25000, false, false, false, 0, 0, 0, 0)
      ensures !networkThread
    {
      this.url := if url == "" then DEFAULT_URL else url;
      conState := Closed;
      networkThread := false;
      reconnAttempts, reconnMade, reconnDelay, reconnDelayMax := 3, 0, 5000, 25000;
      reconnTimer, pending, live := false, false, false;
      dispatched, signals, timers, waited := 0, 0, 0, 0;
    }

    method SetReconnectAttempts(n: nat)
      modifies this
      ensures View() == Set(old(View()), SetAttempts(n)) == old(View()).(attempts := n) && networkThread == old(networkThread)
    {
      reconnAttempts := n;
    }

    method SetReconnectDelay(millis: nat)
      modifies this
      ensures View() == Set(old(View()), SetDelay(millis)) && networkThread == old(networkThread)
      ensures View() == old(View()).(delay := millis, delayMax := if old(reconnDelayMax) < millis then millis else old(reconnDelayMax))
    {
      reconnDelay := millis;
      if reconnDelayMax < millis {
        reconnDelayMax := millis;
      }
    }

    method SetReconnectDelayMax(millis: nat)
      modifies this
      ensures View() == Set(old(View()), SetDelayMax(millis)) && networkThread == old(networkThread)
      ensures View() == old(View()).(delayMax := millis, delay := if old(reconnDelay) > millis then millis else old(reconnDelay))
    {
      reconnDelayMax := millis;
      if reconnDelay > millis {
        reconnDelay := millis;
      }
    }

    /** The network thread carries out what the library still owes: one handler call after the other. */
    method Deliver(e: Event)
      requires Enabled(View(), e) && !e.UserClose? && !e.UserConnect?
      modifies this
      ensures View() == Step(old(View()), e) && networkThread == old(networkThread)
    {
      hide NextDelay, Accepted;
      match e {
        case OnOpen => HandleOpen();
        case OnFail(code) => HandleFail(code);
        case OnClose(code) => HandleClose(code);
        case Timeout(aborted) => TimeoutReconnect(aborted);
        case UrlRejected => ConnectInternal();
      }
    }

    /**
      * Joining the network thread returns when the library owes nothing any more. What it still
      * delivers until then is `owed`, a run of handler calls.
      */
    method Join(owed: seq<Event>)
      requires networkThread && IsRun(View(), owed) && Settled(After(View(), owed))
      requires forall i | 0 <= i < |owed| :: !owed[i].UserClose? && !owed[i].UserConnect?
      modifies this
      ensures !networkThread && View() == After(old(View()), owed)
    {
      hide Step, Enabled;
      ghost var start := View();
      for i := 0 to |owed|
        invariant View() == After(start, owed[..i])
      {
        RunPrefix(start, owed, i + 1);
        assert owed[..i + 1][..i] == owed[..i];
        Deliver(owed[i]);
      }
      assert owed[..|owed|] == owed;
      networkThread := false;
    }

    /**
      * Ignored while opening or opened; otherwise, joins the network thread of the last connection, if
      * there is one, and starts a fresh first attempt. A timer that is set is cancelled, unless it has
      * already run out: either is a run of what is owed.
      */
    method Connect(owed: seq<Event>)
      requires networkThread && (conState == Closing || conState == Closed) ==> IsRun(View(), owed) && Settled(After(View(), owed))
      requires forall i | 0 <= i < |owed| :: !owed[i].UserClose? && !owed[i].UserConnect?
      modifies this
      ensures networkThread
      ensures View() == if !old(networkThread) then Connected(old(View()))
                        else if old(conState) == Opening || old(conState) == Opened then Step(old(View()), UserConnect)
                        else Connected(After(old(View()), owed))
      ensures conState == (if old(networkThread) && old(conState) == Opened then Opened else Opening) && !reconnTimer
      ensures !old(networkThread) || old(conState) == Closing || old(conState) == Closed ==> reconnMade == 0 && pending && dispatched == 1
    {
      hide After, IsRun, Settled;
      if networkThread {
        if conState == Closing || conState == Closed {
          Join(owed);
        } else {
          reconnTimer := false;
          return;
        }
      }
      Dispatch();
    }

    /** The first attempt, on a new network thread. */
    method Dispatch()
      modifies this
      ensures networkThread && View() == Connected(old(View()))
      ensures View() == old(View()).(con := Opening, made := 0, timer := false, pending := true, live := false,
                                     dispatched := 1, signals := 0, timers := 0, waited := 0)
    {
      conState, reconnMade, reconnTimer := Opening, 0, false;
      RestartRecord();
      networkThread := true;
    }

    ghost method RestartRecord()
      modifies this`pending, this`live, this`dispatched, this`signals, this`timers, this`waited
      ensures pending && !live && dispatched == 1 && signals == 0 && timers == 0 && waited == 0
    {
      pending, live, dispatched, signals, timers, waited := true, false, 1, 0, 0, 0;
    }

    /** An attempt whose URL is rejected is dropped; otherwise the library will call a handler. */
    method ConnectInternal()
      requires pending
      modifies this
      ensures networkThread == old(networkThread)
      ensures View() == if Accepted(url) then old(View()) else Step(old(View()), UrlRejected)
      ensures View() == old(View()).(pending := Uri.Parse(url).Some?)
    {
      hide Uri.Parse;
      var con := Uri.ParseString(url);
      if con.None? {
        pending := false;
        return;
      }
    }

    method Close()
      modifies this
      ensures View() == Step(old(View()), UserClose) && networkThread == old(networkThread)
      ensures View() == old(View()).(con := if old(conState) == Opened then Closing else old(conState))
    {
      if conState != Opened {
        return;
      }
      conState := Closing;
    }

    /** Closes an opened connection and waits until the network thread is done. */
    method SyncClose(owed: seq<Event>)
      requires conState == Opened && networkThread ==> IsRun(Step(View(), UserClose), owed) && Settled(After(Step(View(), UserClose), owed))
      requires forall i | 0 <= i < |owed| :: !owed[i].UserClose? && !owed[i].UserConnect?
      modifies this
      ensures old(conState) != Opened ==> View() == old(View()) && networkThread == old(networkThread)
      ensures old(conState) == Opened ==> !networkThread
      ensures old(conState) == Opened ==> View() == var closing := Step(old(View()), UserClose);
                                                    if old(networkThread) then After(closing, owed) else closing
    {
      hide After, IsRun, Settled, NextDelay;
      if conState != Opened {
        return;
      }
      conState := Closing;
      if networkThread {
        Join(owed);
      }
    }

    method TimeoutReconnect(aborted: bool)
      requires Enabled(View(), Timeout(aborted))
      modifies this
      ensures View() == Step(old(View()), Timeout(aborted)) && networkThread == old(networkThread)
      ensures View() == if aborted || old(conState) != Closed then old(View()).(timer := false)
                        else old(View()).(timer := false, con := Opening, made := old(reconnMade) + 1, pending := true, dispatched := old(dispatched) + 1)
    {
      reconnTimer := false;
      if aborted {
        return;
      }
      if conState == Closed {
        conState := Opening;
        reconnMade := reconnMade + 1;
        dispatched, pending := dispatched + 1, true;
      }
    }

    method HandleOpen()
      requires Enabled(View(), OnOpen)
      modifies this
      ensures View() == Step(old(View()), OnOpen) && networkThread == old(networkThread)
      ensures View() == old(View()).(con := Opened, made := 0, pending := false, live := true)
    {
      conState := Opened;
      reconnMade := 0;
      pending, live := false, true;
    }

    method HandleClose(code: nat)
      requires Enabled(View(), OnClose(code))
      modifies this
      ensures View() == Step(old(View()), OnClose(code)) && networkThread == old(networkThread)
      ensures View() == old(View()).(con := Closed, live := false, signals := old(signals) + if code == 1000 then 0 else 1)
    {
      conState := Closed;
      live := false;
      if code != NORMAL {
        signals := signals + 1;
      }
    }

    method HandleFail(code: nat)
      requires Enabled(View(), OnFail(code))
      modifies this
      ensures View() == Step(old(View()), OnFail(code)) && networkThread == old(networkThread)
      ensures View() == if old(reconnMade) < old(reconnAttempts)
                        then old(View()).(con := Closed, pending := false, timer := true, timers := old(timers) + 1,
                                          waited := old(waited) + NextDelay(old(reconnDelay), old(reconnDelayMax), old(reconnMade)))
                        else old(View()).(con := Closed, pending := false, signals := old(signals) + 1)
    {
      hide NextDelay, Accepted, Enabled;
      conState, pending := Closed, false;
      if reconnMade < reconnAttempts {
        var delay := NextDelay(reconnDelay, reconnDelayMax, reconnMade);
        reconnTimer := true;
        timers, waited := timers + 1, waited + delay;
      } else {
        signals := signals + 1;
      }
    }
  }
}
