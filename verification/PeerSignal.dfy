/**
  * The user's peer and its connection to the signalling server together: each `Open` starts a new
  * connection, and each closed signal of the connection is posted as a close to every control.
  */
module PeerSignal {
  import opened Session
  import opened SessionRuns
  import Signal

  /**
    * Both state machines, whether the user is inside `Open`, and the record: the state in which the last
    * `Connect` was accepted and what has happened to the connection since, the steps of the session, the
    * number of accepted `Connect`s, of closed signals, and of those that were posted, altogether (`told`)
    * and since the last accepted `Connect` (`given`).
    */
  datatype Coupled = Coupled(
    signal: Signal.State, world: World, opening: bool,
    base: Signal.State, story: seq<Signal.Event>, trace: seq<WorldStep>,
    connects: nat, raised: nat, told: nat, given: nat)

  datatype CoupledStep =
    | InSession(st: WorldStep)      // any step of the session that is not about the signal connection
    | InNetwork(e: Signal.Event)    // a handler of the connection, its timer, or the user's close of it
    | OpenPeer                      // `Open`, up to connecting
    | ConnectSignal                 // connecting, once the last connection owes nothing any more

  function Initial(name: Id, handlers: set<Handler>, signal: Signal.State): Coupled {
    Coupled(signal, Unopened(name, handlers), false, signal, [], [], 0, 0, 0, 0)
  }

  /** A connection that has not been used. */
  ghost predicate Unused(s: Signal.State) {
    s.con == Signal.Closed && Signal.Settled(s) && s.signals == 0 && s.delay <= s.delayMax
  }

  /** What a closed signal makes of the message loops. */
  const SIGNAL_CLOSE := Post(MsgClose(SignalError))

  predicate Enabled(c: Coupled, step: CoupledStep) {
    match step
    case InSession(st) => !st.UserOpen? && !(st.Current? && st.step == SIGNAL_CLOSE) && !(st.Detached? && st.step == SIGNAL_CLOSE)
    case InNetwork(e) => !e.UserConnect? && Signal.Enabled(c.signal, e)
    case OpenPeer => !c.opening
    case ConnectSignal => c.opening && (c.signal.con == Signal.Closing || c.signal.con == Signal.Closed ==> Signal.Settled(c.signal))
  }

  /** The signal is connected to the current control and to the first `n` earlier ones. */
  function Broadcast(n: nat): seq<WorldStep> {
    if n == 0 then [Current(SIGNAL_CLOSE)] else Broadcast(n - 1) + [Detached(n - 1, SIGNAL_CLOSE)]
  }

  /** The controls ignore a signal that comes with the normal code. */
  predicate Telling(s: Signal.State, e: Signal.Event) {
    Signal.Step(s, e).signals > s.signals && !(e.OnFail? && e.code == Signal.NORMAL)
  }

  ghost function Advance(c: Coupled, steps: seq<WorldStep>): Coupled {
    c.(world := SessionRuns.Run(c.world, steps), trace := c.trace + steps)
  }

  ghost function CoupledNext(c: Coupled, step: CoupledStep): Coupled {
    match step
    case InSession(st) => Advance(c, [st])
    case InNetwork(e) =>
      var t := Signal.Step(c.signal, e);
      var telling := Telling(c.signal, e);
      var d := c.(signal := t, story := if c.connects == 0 then [] else c.story + [e],
                  raised := c.raised + t.signals - c.signal.signals,
                  told := c.told + (if telling then 1 else 0), given := c.given + (if telling then 1 else 0));
      if telling then Advance(d, Broadcast(|c.world.detached|)) else d
    case OpenPeer =>
      if c.world.crashed || c.world.current.registered then c
      else Advance(c, [UserOpen]).(opening := true)
    case ConnectSignal =>
      if c.signal.con == Signal.Opening || c.signal.con == Signal.Opened then
        c.(opening := false, signal := Signal.Step(c.signal, Signal.UserConnect), story := c.story + [Signal.UserConnect])
      else
        c.(opening := false, signal := Signal.Connected(c.signal), base := c.signal, story := [], connects := c.connects + 1, given := 0)
  }

  ghost predicate IsRun(c: Coupled, steps: seq<CoupledStep>) {
    steps == [] || (IsRun(c, steps[..|steps| - 1]) && Enabled(After(c, steps[..|steps| - 1]), steps[|steps| - 1]))
  }

  ghost function After(c: Coupled, steps: seq<CoupledStep>): Coupled {
    if steps == [] then c else CoupledNext(After(c, steps[..|steps| - 1]), steps[|steps| - 1])
  }

  // ----- The invariant of every run -----

  /** The closes that the trace posts to the control of the last open because of a signal. */
  function SignalCloses(trace: seq<WorldStep>): nat {
    if trace == [] then 0
    else SignalCloses(trace[..|trace| - 1]) + if trace[|trace| - 1] == Current(SIGNAL_CLOSE) then 1 else 0
  }

  /** The session has been through a run of its own. */
  ghost predicate SessionInv(c: Coupled, w: World) {
    c.world == SessionRuns.Run(w, c.trace) && SignalCloses(c.trace) == c.told
  }

  ghost predicate NormalFailure(story: seq<Signal.Event>) {
    Signal.OnFail(Signal.NORMAL) in story
  }

  /** Since the last accepted `Connect`, the connection has been through a run of its own. */
  ghost predicate NetworkInv(c: Coupled, url: string) {
    && c.signal.url == url && c.signal.delay <= c.signal.delayMax && c.told <= c.raised
    && (if c.connects == 0 then Unused(c.signal) && c.story == [] && c.raised == 0 && c.given == 0
        else
          && c.base.url == url && c.base.delay <= c.base.delayMax
          && Signal.IsRun(Signal.Connected(c.base), c.story) && c.signal == Signal.After(Signal.Connected(c.base), c.story)
          && c.raised + 1 <= c.connects + c.signal.signals
          && c.given <= c.signal.signals && (!NormalFailure(c.story) ==> c.given == c.signal.signals))
  }

  lemma {:induction false} RunConcat(w: World, a: seq<WorldStep>, b: seq<WorldStep>)
    ensures SessionRuns.Run(w, a + b) == SessionRuns.Run(SessionRuns.Run(w, a), b)
    ensures SignalCloses(a + b) == SignalCloses(a) + SignalCloses(b)
    decreases |b|
  {
    hide WorldNext;
    if b == [] {
      assert a + b == a;
    } else {
      var init := b[..|b| - 1];
      RunConcat(w, a, init);
      assert (a + b)[..|a + b| - 1] == a + init;
    }
  }

  lemma {:induction false} BroadcastTells(n: nat)
    ensures SignalCloses(Broadcast(n)) == 1
  {
    if n == 0 {
      assert [Current(SIGNAL_CLOSE)][..0] == [];
    } else {
      BroadcastTells(n - 1);
      assert Broadcast(n)[..|Broadcast(n)| - 1] == Broadcast(n - 1);
    }
  }

  lemma OneStep(st: WorldStep)
    ensures SignalCloses([st]) == if st == Current(SIGNAL_CLOSE) then 1 else 0
  {
    assert [st][..0] == [];
  }

  lemma SessionKept(c: Coupled, step: CoupledStep, w: World)
    requires SessionInv(c, w) && Enabled(c, step)
    ensures SessionInv(CoupledNext(c, step), w)
  {
    hide SessionRuns.Run, SignalCloses, Signal.Step, Signal.Enabled, Broadcast;
    match step
    case InSession(st) =>
      RunConcat(w, c.trace, [st]);
      OneStep(st);
    case InNetwork(e) =>
      if Telling(c.signal, e) {
        RunConcat(w, c.trace, Broadcast(|c.world.detached|));
        BroadcastTells(|c.world.detached|);
      }
    case OpenPeer =>
      RunConcat(w, c.trace, [UserOpen]);
      OneStep(UserOpen);
    case ConnectSignal =>
  }

  lemma SignalStep(s: Signal.State, e: Signal.Event)
    ensures var t := Signal.Step(s, e);
            && t.url == s.url && t.delay == s.delay && t.delayMax == s.delayMax && s.signals <= t.signals <= s.signals + 1
    ensures Telling(s, e) <==> Signal.Step(s, e).signals == s.signals + 1 && e != Signal.OnFail(Signal.NORMAL)
  {
    hide Signal.NextDelay;
  }

  lemma UnusedStep(s: Signal.State, e: Signal.Event)
    requires Unused(s) && Signal.Enabled(s, e) && !e.UserConnect?
    ensures Signal.Step(s, e) == s
  {
  }

  lemma NormalFailureGrows(story: seq<Signal.Event>, e: Signal.Event)
    ensures NormalFailure(story + [e]) <==> NormalFailure(story) || e == Signal.OnFail(Signal.NORMAL)
  {
  }

  lemma NetworkKept(c: Coupled, e: Signal.Event, url: string)
    requires NetworkInv(c, url) && Signal.Enabled(c.signal, e) && !e.UserConnect?
    ensures NetworkInv(CoupledNext(c, InNetwork(e)), url)
  {
    SignalStep(c.signal, e);
    if c.connects == 0 {
      UnusedStep(c.signal, e);
    } else {
      Signal.RunGrows(Signal.Connected(c.base), c.story, e);
      NormalFailureGrows(c.story, e);
    }
    hide Signal.Step, Signal.Enabled, Signal.IsRun, Signal.After, SessionRuns.Run, NormalFailure, Telling, Broadcast, Signal.Connected;
  }

  lemma ConnectKept(c: Coupled, url: string)
    requires NetworkInv(c, url) && Enabled(c, ConnectSignal)
    ensures NetworkInv(CoupledNext(c, ConnectSignal), url)
  {
    if c.connects > 0 {
      Signal.InvHolds(c.base, c.story);
      Signal.AttemptsBounded(c.base, c.story);
    }
    if c.signal.con == Signal.Opening || c.signal.con == Signal.Opened {
      SignalStep(c.signal, Signal.UserConnect);
      IgnoredConnect(c.signal);
      Signal.RunGrows(Signal.Connected(c.base), c.story, Signal.UserConnect);
      NormalFailureGrows(c.story, Signal.UserConnect);
      hide Signal.Step, Signal.IsRun, Signal.After, NormalFailure, Signal.Connected, Signal.Inv;
    } else {
      FreshStory(c.signal);
      hide Signal.Step, Signal.IsRun, Signal.After, Signal.Inv;
    }
  }

  lemma IgnoredConnect(s: Signal.State)
    ensures Signal.Step(s, Signal.UserConnect).signals == s.signals
  {
  }

  lemma FreshStory(s: Signal.State)
    ensures Signal.IsRun(Signal.Connected(s), []) && Signal.After(Signal.Connected(s), []) == Signal.Connected(s)
    ensures Signal.Connected(s).signals == 0
  {
  }

  lemma CoupledKept(c: Coupled, step: CoupledStep, url: string)
    requires NetworkInv(c, url) && Enabled(c, step)
    ensures NetworkInv(CoupledNext(c, step), url)
  {
    hide SessionRuns.Run, Signal.Step, Signal.IsRun, Signal.After, Signal.Enabled;
    match step
    case InNetwork(e) => NetworkKept(c, e, url);
    case ConnectSignal => ConnectKept(c, url);
    case InSession(_) =>
    case OpenPeer =>
  }

  lemma {:induction false} RunInv(name: Id, handlers: set<Handler>, signal: Signal.State, steps: seq<CoupledStep>)
    requires Unused(signal) && IsRun(Initial(name, handlers, signal), steps)
    ensures var c := After(Initial(name, handlers, signal), steps); SessionInv(c, Unopened(name, handlers)) && NetworkInv(c, signal.url)
  {
    hide CoupledNext, Enabled, NetworkInv;
    if steps == [] {
      InitialInv(name, handlers, signal);
    } else {
      var init, last := steps[..|steps| - 1], steps[|steps| - 1];
      RunInv(name, handlers, signal, init);
      var c := After(Initial(name, handlers, signal), init);
      SessionKept(c, last, Unopened(name, handlers));
      CoupledKept(c, last, signal.url);
    }
  }

  lemma InitialInv(name: Id, handlers: set<Handler>, signal: Signal.State)
    requires Unused(signal)
    ensures var c := Initial(name, handlers, signal); SessionInv(c, Unopened(name, handlers)) && NetworkInv(c, signal.url)
  {
  }

  // ----- What the user can count on -----

  /**
    * In every run there are at most as many closed signals as accepted `Connect`s, at most one of them
    * since the last; each is posted as a close at most once to the control that the user then has, and
    * nothing else posts such a close.
    */
  lemma {:induction false} OneCloseSignalPerConnect(name: Id, handlers: set<Handler>, signal: Signal.State, steps: seq<CoupledStep>)
    requires Unused(signal) && IsRun(Initial(name, handlers, signal), steps)
    ensures var c := After(Initial(name, handlers, signal), steps);
            SignalCloses(c.trace) == c.told <= c.raised <= c.connects && c.given <= c.signal.signals <= 1
  {
    hide IsRun, After, SessionRuns.Run, Signal.IsRun, Signal.After;
    RunInv(name, handlers, signal, steps);
    var c := After(Initial(name, handlers, signal), steps);
    if c.connects > 0 {
      Signal.AttemptsBounded(c.base, c.story);
    }
  }

  /**
    * In every run, what happens to the session is a run of `SessionRuns`; so everything that holds there
    * holds here, and between two opens the user is told of at most one local close, however often the
    * connection to the server fails and in whatever order the signals are handled.
    */
  lemma {:induction false} OneLocalClosePerOpen(name: Id, handlers: set<Handler>, signal: Signal.State, steps: seq<CoupledStep>)
    requires Unused(signal) && IsRun(Initial(name, handlers, signal), steps)
    requires OpenHandler in handlers && CloseHandler in handlers
    ensures var c := After(Initial(name, handlers, signal), steps);
            c.world == SessionRuns.Run(Unopened(name, handlers), c.trace) && Spaced(c.world.current.events, name)
  {
    hide IsRun, After, SessionRuns.Run, NetworkInv, Spaced, Remembers;
    RunInv(name, handlers, signal, steps);
    OneCloseBetweenOpens(name, handlers, After(Initial(name, handlers, signal), steps).trace);
  }

  /**
    * When a connection is over, exactly one close has been posted for it to every control that existed
    * then, unless it ended quietly, or failed with the normal code, which the controls ignore.
    */
  lemma {:induction false} EndIsTold(name: Id, handlers: set<Handler>, signal: Signal.State, steps: seq<CoupledStep>)
    requires Unused(signal) && IsRun(Initial(name, handlers, signal), steps)
    ensures var c := After(Initial(name, handlers, signal), steps);
            c.connects > 0 && Signal.Accepted(c.signal.url) && Signal.Settled(c.signal) && Signal.OnFail(Signal.NORMAL) !in c.story
            ==> c.given == if exists i | 0 <= i < |c.story| :: Signal.Quiet(c.story[i]) then 0 else 1
  {
    hide IsRun, After, SessionRuns.Run, Signal.IsRun, Signal.After, Signal.Accepted;
    RunInv(name, handlers, signal, steps);
    var c := After(Initial(name, handlers, signal), steps);
    if c.connects > 0 && Signal.Accepted(c.signal.url) {
      Signal.SignalledExactly(c.base, c.story);
    }
  }

  // ----- What a signal does -----

  /** A control with a close for the lost connection behind what it has queued, if it still exists. */
  function GivenClose(c: State): State {
    if c.registered || c.held > 0 then c.(queue := c.queue + [MsgClose(SignalError)]) else c
  }

  /** The same control, whoever the user is. */
  ghost predicate SameButUser(c: State, d: State) {
    c == d.(closeOnce := c.closeOnce, events := c.events)
  }

  /** Every control up to the first `n` earlier ones has been given a close. */
  ghost predicate Given(w: World, t: World, n: nat) {
    && !t.crashed && t.current == GivenClose(w.current) && |t.detached| == |w.detached|
    && forall i | 0 <= i < |w.detached| :: SameButUser(t.detached[i], if i < n then GivenClose(w.detached[i]) else w.detached[i])
  }

  lemma {:induction false} BroadcastGives(w: World, n: nat)
    requires WorldInv(w) && !w.crashed && n <= |w.detached|
    ensures WorldInv(SessionRuns.Run(w, Broadcast(n))) && Given(w, SessionRuns.Run(w, Broadcast(n)), n)
  {
    hide WorldInv, Given, WorldNext, SessionRuns.Run;
    if n == 0 {
      EmptyRun(w);
      SessionRuns.RunGrows(w, [], Current(SIGNAL_CLOSE));
      assert [] + [Current(SIGNAL_CLOSE)] == [Current(SIGNAL_CLOSE)];
      WorldNextInv(w, Current(SIGNAL_CLOSE));
      FirstGiven(w);
    } else {
      BroadcastGives(w, n - 1);
      SessionRuns.RunGrows(w, Broadcast(n - 1), Detached(n - 1, SIGNAL_CLOSE));
      WorldNextInv(SessionRuns.Run(w, Broadcast(n - 1)), Detached(n - 1, SIGNAL_CLOSE));
      NextGiven(w, SessionRuns.Run(w, Broadcast(n - 1)), n - 1);
    }
  }

  lemma FirstGiven(w: World)
    requires WorldInv(w) && !w.crashed
    ensures Given(w, WorldNext(w, Current(SIGNAL_CLOSE)), 0)
  {
    PostGives(w.current);
    hide Inv, Accounted, GivenClose, Next;
  }

  lemma NextGiven(w: World, t: World, i: nat)
    requires WorldInv(t) && Given(w, t, i) && i < |w.detached|
    ensures Given(w, WorldNext(t, Detached(i, SIGNAL_CLOSE)), i + 1)
  {
    var c, d := t.detached[i].(closeOnce := t.current.closeOnce, events := t.current.events), w.detached[i];
    DetachedEffect(t, i, SIGNAL_CLOSE);
    NotCrashed(t, i);
    PostGives(c);
    hide WorldInv, WorldNext, Next;
    assert SameButUser(t.detached[i], d);
    assert SameButUser(GivenClose(c).(closeOnce := false, events := []), GivenClose(d));
    hide GivenClose;
  }

  lemma NotCrashed(t: World, i: nat)
    requires WorldInv(t) && !t.crashed && i < |t.detached|
    ensures !t.detached[i].crashed
  {
    hide Inv;
  }

  lemma PostGives(c: State)
    requires !c.crashed
    ensures Next(c, SIGNAL_CLOSE) == GivenClose(c)
  {
  }

  /**
    * A handler call changes the connection. If it closes the connection for good, with another code than
    * the normal one, every control that exists is posted a close, behind what it has queued; otherwise
    * the session does not notice.
    */
  lemma HandlerEffect(c: Coupled, e: Signal.Event)
    requires WorldInv(c.world) && !c.world.crashed && Signal.Enabled(c.signal, e) && !e.UserConnect?
    ensures var d := CoupledNext(c, InNetwork(e));
            && d.signal == Signal.Step(c.signal, e) && d.opening == c.opening && d.connects == c.connects
            && d.raised == c.raised + (if (e.OnClose? && e.code != 1000) || (e.OnFail? && c.signal.made >= c.signal.attempts) then 1 else 0)
            && (if (e.OnClose? && e.code != 1000) || (e.OnFail? && e.code != 1000 && c.signal.made >= c.signal.attempts) then
                  && d.world.current == GivenClose(c.world.current) && |d.world.detached| == |c.world.detached|
                  && forall i | 0 <= i < |c.world.detached| :: SameButUser(d.world.detached[i], GivenClose(c.world.detached[i]))
                else d.world == c.world)
  {
    hide Signal.NextDelay, Signal.Accepted, SessionRuns.Run, WorldInv, GivenClose, Broadcast, SameButUser;
    BroadcastGives(c.world, |c.world.detached|);
  }

  /** `Open` gives the user a control, as far as that is not ignored, and connecting starts the connection, likewise. */
  lemma OpenEffects(c: Coupled)
    requires !c.world.crashed
    ensures var d := CoupledNext(c, OpenPeer);
            d.signal == c.signal && (if c.world.current.registered then d == c else d.opening && d.world == WorldNext(c.world, UserOpen))
    ensures var (d, s) := (CoupledNext(c, ConnectSignal), c.signal);
            && d.world == c.world && !d.opening && d.raised == c.raised
            && d.connects == (if s.con == Signal.Opening || s.con == Signal.Opened then c.connects else c.connects + 1)
            && d.signal == if s.con == Signal.Opening || s.con == Signal.Opened then s.(timer := false)
                           else s.(con := Signal.Opening, made := 0, timer := false, pending := true, live := false,
                                   dispatched := 1, signals := 0, timers := 0, waited := 0)
  {
    EmptyRun(c.world);
    SessionRuns.RunGrows(c.world, [], UserOpen);
    assert [] + [UserOpen] == [UserOpen];
    hide SessionRuns.Run, WorldNext;
  }

  /**
    * From end to end: the user opens the peer, the only attempt to reach the server fails, and the close
    * that is posted for it is handled. The user is told of one local close, and the control is let go.
    */
  lemma FailureReachesUser(name: Id, handlers: set<Handler>, signal: Signal.State)
    requires Unused(signal) && signal.attempts == 0 && Signal.Accepted(signal.url) && CloseHandler in handlers
    ensures var steps := [] + [OpenPeer] + [ConnectSignal] + [InNetwork(Signal.OnFail(1006))] + [InSession(Current(Deliver))];
            var c := After(Initial(name, handlers, signal), steps);
            && IsRun(Initial(name, handlers, signal), steps)
            && c.connects == 1 && c.raised == 1 && c.told == 1 && c.signal.con == Signal.Closed
            && c.world.current.events == [ClosedEvent(name, SignalError)] && !c.world.current.registered && !c.world.crashed
  {
    hide IsRun, After, CoupledNext, Enabled, Signal.Accepted, Signal.NextDelay;
    var c0 := Initial(name, handlers, signal);
    CoupledStarts(c0);
    CoupledGrows(c0, [], OpenPeer);
    CoupledGrows(c0, [] + [OpenPeer], ConnectSignal);
    CoupledGrows(c0, [] + [OpenPeer] + [ConnectSignal], InNetwork(Signal.OnFail(1006)));
    CoupledGrows(c0, [] + [OpenPeer] + [ConnectSignal] + [InNetwork(Signal.OnFail(1006))], InSession(Current(Deliver)));
    var c2 := OpenedOnce(name, handlers, signal);
    var c3 := FailedOnce(c2, name, handlers);
    ToldOnce(c3, name, handlers);
  }

  lemma CoupledStarts(c: Coupled)
    ensures IsRun(c, []) && After(c, []) == c
  {
  }

  lemma CoupledGrows(c: Coupled, steps: seq<CoupledStep>, step: CoupledStep)
    ensures IsRun(c, steps + [step]) <==> IsRun(c, steps) && Enabled(After(c, steps), step)
    ensures After(c, steps + [step]) == CoupledNext(After(c, steps), step)
  {
    hide Enabled, CoupledNext;
    assert (steps + [step])[..|steps|] == steps;
  }

  lemma OpenedOnce(name: Id, handlers: set<Handler>, signal: Signal.State) returns (c: Coupled)
    requires Unused(signal)
    ensures var c0 := Initial(name, handlers, signal);
            && Enabled(c0, OpenPeer) && Enabled(CoupledNext(c0, OpenPeer), ConnectSignal)
            && c == CoupledNext(CoupledNext(c0, OpenPeer), ConnectSignal)
    ensures c.connects == 1 && c.raised == 0 && c.told == 0 && c.signal == Signal.Connected(signal)
    ensures c.world == World(Start(name, handlers), [], false)
  {
    var c0 := Initial(name, handlers, signal);
    OpenEffects(c0);
    OpenEffect(c0.world);
    NothingYet(name, handlers);
    hide SessionRuns.Run, WorldNext, Unopened;
    c := CoupledNext(CoupledNext(c0, OpenPeer), ConnectSignal);
  }

  lemma FailedOnce(c: Coupled, name: Id, handlers: set<Handler>) returns (d: Coupled)
    requires c.world == World(Start(name, handlers), [], false) && c.connects == 1 && c.raised == 0 && c.told == 0
    requires c.signal.pending && c.signal.attempts == 0 && c.signal.made == 0 && Signal.Accepted(c.signal.url)
    ensures Enabled(c, InNetwork(Signal.OnFail(1006))) && d == CoupledNext(c, InNetwork(Signal.OnFail(1006)))
    ensures d.connects == 1 && d.raised == 1 && d.told == 1 && d.signal.con == Signal.Closed
    ensures d.world.current == Start(name, handlers).(queue := [MsgClose(SignalError)]) && !d.world.crashed
  {
    hide SessionRuns.Run, Signal.Accepted, Broadcast, Inv;
    FreshInv(c.world.current);
    BroadcastGives(c.world, 0);
    assert [] + [MsgClose(SignalError)] == [MsgClose(SignalError)];
    d := CoupledNext(c, InNetwork(Signal.OnFail(1006)));
  }

  lemma ToldOnce(c: Coupled, name: Id, handlers: set<Handler>)
    requires c.world.current == Start(name, handlers).(queue := [MsgClose(SignalError)]) && !c.world.crashed && CloseHandler in handlers
    ensures Enabled(c, InSession(Current(Deliver)))
    ensures var d := CoupledNext(c, InSession(Current(Deliver)));
            && d.connects == c.connects && d.raised == c.raised && d.told == c.told && d.signal == c.signal
            && d.world.current.events == [ClosedEvent(name, SignalError)] && !d.world.current.registered && !d.world.crashed
  {
    EmptyRun(c.world);
    SessionRuns.RunGrows(c.world, [], Current(Deliver));
    assert [] + [Current(Deliver)] == [Current(Deliver)];
    hide SessionRuns.Run, WorldNext;
    assert [MsgClose(SignalError)] == [MsgClose(SignalError)] + [];
    DeliversClose(c.world, SignalError, []);
    assert [] + [ClosedEvent(name, SignalError)] == [ClosedEvent(name, SignalError)];
  }
}
