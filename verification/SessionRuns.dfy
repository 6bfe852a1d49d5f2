/**
  * The user's peer over its whole lifetime: opening, closing and opening again, with calls by the user
  * and steps of every control it has had. A control that the peer has let go of lives on as long as
  * queued messages refer to it, and goes on handling them.
  */
module SessionRuns {
  import opened Session
  import opened SessionEffects
  import opened StringOrder

  /**
    * The control of the last `Open`, with the user's side of the peer; and the controls before it that
    * outlived the open after them, oldest first, each without the user's side, which they share.
    */
  datatype World = World(current: State, detached: seq<State>, crashed: bool)

  /** Calls of the user that go through the peer's pointer to its control, without a check. */
  datatype Call = CallClose(id: Id) | CallConnect(id: Id) | CallSend(id: Id)

  datatype WorldStep =
    | Current(step: Step)
    | Detached(i: nat, step: Step)
    | UserOpen
    | UserCall(call: Call)

  /** A peer that has not been opened yet has no control. */
  function Unopened(name: Id, handlers: set<Handler>): World {
    World(Start(name, handlers).(registered := false), [], false)
  }

  /** The control `c`, seen together with the user's side of `u`. */
  function WithUser(c: State, u: State): State {
    c.(closeOnce := u.closeOnce, events := u.events)
  }

  /** The control itself, without the user's side. */
  function Anonymous(c: State): State {
    c.(closeOnce := false, events := [])
  }

  /** A new control for the same user. */
  function Fresh(u: State): State {
    WithUser(Start(u.name, u.handlers), u)
  }

  /** What the message loop is given for a call to `Close`. */
  function CloseMessage(id: Id, name: Id): Message {
    if id == "" || id == name then MsgClose(Normal) else MsgClosePeer(id, Normal)
  }

  ghost function WorldNext(w: World, st: WorldStep): World {
    if w.crashed then w
    else
      match st
      case Current(step) =>
        var t := Next(w.current, step);
        w.(current := t, crashed := t.crashed)
      case Detached(i, step) =>
        if i >= |w.detached| then w
        else
          // Whatever this control reports would go to the same user.
          var t := Next(WithUser(w.detached[i], w.current), step);
          World(WithUser(w.current, t), w.detached[i := Anonymous(t)], t.crashed)
      case UserOpen =>
        if w.current.registered then w
        else World(Fresh(w.current), if Dead(w.current) then w.detached else w.detached + [Anonymous(w.current)], false)
      case UserCall(call) =>
        if !w.current.registered then w.(crashed := true)
        else
          match call
          case CallClose(id) => w.(current := Next(w.current, Post(CloseMessage(id, w.current.name))))
          case CallConnect(id) => w.(current := Log(w.current, Joined(id)))
          case CallSend(_) => w
  }

  ghost function Run(w: World, steps: seq<WorldStep>): World {
    if steps == [] then w else WorldNext(Run(w, steps[..|steps| - 1]), steps[|steps| - 1])
  }

  // ----- The invariant of every run -----

  ghost predicate GoodControl(c: State, crashed: bool) {
    Inv(c) && Accounted(c) && (!crashed ==> !c.crashed)
  }

  ghost predicate WorldInv(w: World) {
    && GoodControl(w.current, w.crashed)
    && forall i | 0 <= i < |w.detached| :: GoodControl(w.detached[i], w.crashed) && !w.detached[i].registered
  }

  lemma NextGood(c: State, step: Step)
    requires GoodControl(c, false)
    ensures GoodControl(Next(c, step), Next(c, step).crashed)
  {
    hide Inv, Next, Accounted;
    NextInv(c, step);
    NextAccounted(c, step);
  }

  lemma FreshGood(u: State)
    ensures GoodControl(Fresh(u), false)
  {
    FreshInv(Fresh(u));
    hide Inv;
  }

  lemma UserIrrelevant(c: State, u: State, crashed: bool)
    requires GoodControl(c, crashed)
    ensures GoodControl(WithUser(c, u), crashed) && GoodControl(Anonymous(c), crashed)
  {
    InvFrame(c, WithUser(c, u));
    InvFrame(c, Anonymous(c));
    hide Inv;
  }

  lemma GoodAnyway(c: State, crashed: bool)
    requires GoodControl(c, crashed)
    ensures GoodControl(c, true)
  {
  }

  /** A detached control steps for itself: it leaves the user and the other controls alone. */
  lemma DetachedAlone(w: World, i: nat, step: Step)
    requires WorldInv(w) && !w.crashed && i < |w.detached|
    ensures var (t, c) := (WorldNext(w, Detached(i, step)), WithUser(w.detached[i], w.current));
            && t.current == w.current && t.detached == w.detached[i := Anonymous(Next(c, step))] && t.crashed == Next(c, step).crashed
            && GoodControl(c, false) && GoodControl(Anonymous(Next(c, step)), t.crashed) && !Next(c, step).registered
  {
    var c := WithUser(w.detached[i], w.current);
    UserIrrelevant(w.detached[i], w.current, false);
    hide Inv, Next;
    NextGood(c, step);
    NextDetached(c, step);
    UserIrrelevant(Next(c, step), c, Next(c, step).crashed);
  }

  lemma WorldNextInv(w: World, st: WorldStep)
    requires WorldInv(w)
    ensures WorldInv(WorldNext(w, st))
  {
    hide GoodControl, Next;
    if !w.crashed {
      var t := WorldNext(w, st);
      if st.Detached? && st.i < |w.detached| {
        DetachedAlone(w, st.i, st.step);
      }
      GoodAnyway(w.current, false);
      forall i | 0 <= i < |w.detached| ensures GoodControl(w.detached[i], true) { GoodAnyway(w.detached[i], false); }
      match st
      case Current(step) => NextGood(w.current, step);
      case Detached(_, _) =>
      case UserOpen =>
        FreshGood(w.current);
        UserIrrelevant(w.current, w.current, false);
      case UserCall(call) =>
        if call.CallClose? {
          var post := Post(CloseMessage(call.id, w.current.name));
          NextGood(w.current, post);
          PostRuns(w.current, post.m);
        } else if call.CallConnect? {
          JoinGood(w.current, call.id);
        }
    }
  }

  lemma JoinGood(c: State, id: Id)
    requires GoodControl(c, false)
    ensures GoodControl(Log(c, Joined(id)), false)
  {
    RequestInv(c, Joined(id));
    hide Inv;
  }

  lemma PostRuns(c: State, m: Message)
    requires GoodControl(c, false)
    ensures !Next(c, Post(m)).crashed
  {
  }

  /**
    * In every run, every control the peer has or has had keeps the invariant of the session at message
    * boundaries; and the messages that keep a detached control alive are all in its queue.
    */
  lemma {:induction false} RunInv(name: Id, handlers: set<Handler>, steps: seq<WorldStep>)
    ensures WorldInv(Run(Unopened(name, handlers), steps))
    ensures var w := Run(Unopened(name, handlers), steps);
            && Inv(w.current) && Accounted(w.current)
            && forall i | 0 <= i < |w.detached| :: Inv(w.detached[i]) && Accounted(w.detached[i]) && !w.detached[i].registered
  {
    hide WorldNext, Inv, Accounted;
    if steps == [] {
      UnopenedInv(name, handlers);
    } else {
      RunInv(name, handlers, steps[..|steps| - 1]);
      WorldNextInv(Run(Unopened(name, handlers), steps[..|steps| - 1]), steps[|steps| - 1]);
    }
  }

  lemma UnopenedInv(name: Id, handlers: set<Handler>)
    ensures WorldInv(Unopened(name, handlers))
  {
    FreshInv(Unopened(name, handlers).current);
    hide Inv;
  }

  // ----- After the local close -----

  /**
    * From when the observer is gone until the user opens the peer again, nothing is reported to the
    * user, whatever any of the controls still has in its queue or is told by its peers.
    */
  lemma {:induction false} SilentUntilReopened(w: World, steps: seq<WorldStep>)
    requires WorldInv(w) && !w.current.registered && forall i | 0 <= i < |steps| :: !steps[i].UserOpen?
    ensures var t := Run(w, steps);
            WorldInv(t) && !t.current.registered && t.current.events == w.current.events && |t.detached| == |w.detached|
  {
    hide WorldInv, WorldNext;
    if steps != [] {
      var init, last := steps[..|steps| - 1], steps[|steps| - 1];
      SilentUntilReopened(w, init);
      WorldNextInv(Run(w, init), last);
      StepSilent(Run(w, init), last);
    }
  }

  lemma StepSilent(w: World, st: WorldStep)
    requires WorldInv(w) && !w.current.registered && !st.UserOpen?
    ensures var t := WorldNext(w, st);
            !t.current.registered && t.current.events == w.current.events && |t.detached| == |w.detached|
  {
    hide Inv, Next;
    if !w.crashed {
      match st
      case Current(step) => NextDetached(w.current, step);
      case Detached(i, step) => if i < |w.detached| { DetachedAlone(w, i, step); }
      case _ =>
    }
  }

  // ----- Null pointers -----

  /** A channel reply delivered to a control that lives on without its observer, or a call without a control. */
  ghost predicate FatalStep(w: World, st: WorldStep) {
    && !w.crashed
    && match st
       case Current(step) => FatalDelivery(w.current, step)
       case Detached(i, step) => i < |w.detached| && FatalDelivery(w.detached[i], step)
       case UserOpen => false
       case UserCall(_) => !w.current.registered
  }

  lemma StepCrashes(w: World, st: WorldStep)
    requires WorldInv(w)
    ensures WorldNext(w, st).crashed <==> w.crashed || FatalStep(w, st)
  {
    hide Inv, Accounted, Next, FatalDelivery;
    if !w.crashed {
      match st
      case Current(step) => NextCrashes(w.current, step);
      case Detached(i, step) =>
        if i < |w.detached| {
          var c := WithUser(w.detached[i], w.current);
          DetachedAlone(w, i, step);
          NextCrashes(c, step);
          FatalForAnyUser(w.detached[i], w.current, step);
        }
      case _ =>
    }
  }

  lemma FatalForAnyUser(c: State, u: State, step: Step)
    ensures FatalDelivery(WithUser(c, u), step) == FatalDelivery(c, step)
  {
  }

  ghost predicate SomeFatal(w: World, steps: seq<WorldStep>) {
    exists k | 0 <= k < |steps| :: FatalStep(Run(w, steps[..k]), steps[k])
  }

  lemma SomeFatalStep(w: World, steps: seq<WorldStep>)
    requires steps != []
    ensures var init := steps[..|steps| - 1];
            SomeFatal(w, steps) <==> SomeFatal(w, init) || FatalStep(Run(w, init), steps[|steps| - 1])
  {
    hide Run, FatalStep;
    var init := steps[..|steps| - 1];
    if SomeFatal(w, init) {
      var k :| 0 <= k < |init| && FatalStep(Run(w, init[..k]), init[k]);
      assert init[..k] == steps[..k] && init[k] == steps[k];
    }
    if SomeFatal(w, steps) {
      var k :| 0 <= k < |steps| && FatalStep(Run(w, steps[..k]), steps[k]);
      if k < |init| {
        assert init[..k] == steps[..k] && FatalStep(Run(w, init[..k]), init[k]);
      }
    }
  }

  lemma {:induction false} CrashProgress(name: Id, handlers: set<Handler>, steps: seq<WorldStep>)
    ensures Run(Unopened(name, handlers), steps).crashed <==> SomeFatal(Unopened(name, handlers), steps)
  {
    hide WorldInv, WorldNext, FatalStep, Unopened;
    if steps == [] {
      NotCrashed(name, handlers);
    } else {
      var init := steps[..|steps| - 1];
      CrashProgress(name, handlers, init);
      RunInv(name, handlers, init);
      StepCrashes(Run(Unopened(name, handlers), init), steps[|steps| - 1]);
      SomeFatalStep(Unopened(name, handlers), steps);
      hide SomeFatal;
    }
  }

  /**
    * A run goes through a null pointer exactly if it delivers a reply to a channel command to a control
    * that still exists but has no observer any more, be it the last control or an earlier one, or if the
    * user calls `Close`, `Connect` or `Send` before the first open, or between a close and the next open.
    */
  lemma {:induction false} RunCrashes(name: Id, handlers: set<Handler>, steps: seq<WorldStep>)
    ensures Run(Unopened(name, handlers), steps).crashed <==>
            exists k | 0 <= k < |steps| :: FatalStep(Run(Unopened(name, handlers), steps[..k]), steps[k])
  {
    hide Run, FatalStep, Unopened;
    CrashProgress(name, handlers, steps);
  }

  lemma NotCrashed(name: Id, handlers: set<Handler>)
    ensures !Unopened(name, handlers).crashed
  {
  }

  // ----- One local close per open -----

  lemma StepRemembers(w: World, st: WorldStep, name: Id)
    requires WorldInv(w) && Remembers(w.current, name)
    ensures Remembers(WorldNext(w, st).current, name)
  {
    hide Inv, Accounted, Next, Remembers;
    if !w.crashed {
      match st
      case Current(step) => NextRemembers(w.current, step, name);
      case Detached(i, step) => if i < |w.detached| { DetachedAlone(w, i, step); }
      case UserOpen => RemembersFrame(w.current, Fresh(w.current), name);
      case UserCall(call) =>
        match call
        case CallClose(id) => NextRemembers(w.current, Post(CloseMessage(id, w.current.name)), name);
        case CallConnect(id) => RemembersFrame(w.current, Log(w.current, Joined(id)), name);
        case CallSend(_) =>
    }
  }

  lemma {:induction false} CloseCounted(events: seq<UserEvent>, name: Id, i: nat)
    requires i < |events| && LocalClose(events[i], name) && forall k | i < k < |events| :: !events[k].Opened?
    ensures ClosesSinceOpen(events, name) >= 1
  {
    if i < |events| - 1 {
      CloseCounted(events[..|events| - 1], name, i);
    }
  }

  /** Between two reports of the local close there is an open event. */
  lemma {:induction false} SpacedMeans(events: seq<UserEvent>, name: Id, i: nat, j: nat)
    requires Spaced(events, name) && i < j < |events| && LocalClose(events[i], name) && LocalClose(events[j], name)
    ensures exists k :: i < k < j && events[k].Opened?
    decreases |events|
  {
    var init := events[..|events| - 1];
    if j < |events| - 1 {
      SpacedMeans(init, name, i, j);
      var k :| i < k < j && init[k].Opened?;
      assert events[k].Opened?;
    } else if forall k | i < k < j :: !events[k].Opened? {
      CloseCounted(init, name, i);
      assert false;
    }
  }

  /** In every run, through any number of openings, the local close is reported at most once between two opens. */
  lemma {:induction false} OneCloseBetweenOpens(name: Id, handlers: set<Handler>, steps: seq<WorldStep>)
    requires OpenHandler in handlers && CloseHandler in handlers
    ensures var c := Run(Unopened(name, handlers), steps).current; Remembers(c, name) && Spaced(c.events, name)
    ensures var events := Run(Unopened(name, handlers), steps).current.events;
            forall i, j | 0 <= i < j < |events| && events[i].ClosedEvent? && events[i].id == name && events[j].ClosedEvent? && events[j].id == name ::
              exists k :: i < k < j && events[k].Opened?
  {
    hide WorldNext, WorldInv, Spaced, ClosesSinceOpen;
    if steps == [] {
      NothingReported(name, handlers);
    } else {
      var w := Run(Unopened(name, handlers), steps[..|steps| - 1]);
      OneCloseBetweenOpens(name, handlers, steps[..|steps| - 1]);
      RunInv(name, handlers, steps[..|steps| - 1]);
      StepRemembers(w, steps[|steps| - 1], name);
    }
    var events := Run(Unopened(name, handlers), steps).current.events;
    RemembersSpaced(Run(Unopened(name, handlers), steps).current, name);
    forall i, j | 0 <= i < j < |events| && LocalClose(events[i], name) && LocalClose(events[j], name)
      ensures exists k :: i < k < j && events[k].Opened?
    {
      SpacedMeans(events, name, i, j);
    }
  }

  lemma RemembersSpaced(s: State, name: Id)
    requires Remembers(s, name)
    ensures Spaced(s.events, name)
  {
  }

  lemma NothingReported(name: Id, handlers: set<Handler>)
    requires OpenHandler in handlers && CloseHandler in handlers
    ensures Remembers(Unopened(name, handlers).current, name)
  {
  }

  // ----- Runs that go wrong -----

  lemma RunGrows(w: World, steps: seq<WorldStep>, st: WorldStep)
    ensures Run(w, steps + [st]) == WorldNext(Run(w, steps), st)
  {
    hide WorldNext;
    assert (steps + [st])[..|steps|] == steps;
  }

  /** The three kinds of steps that the runs below are made of, on a control that goes on. */
  lemma Opens(w: World)
    requires !w.crashed && !w.current.registered
    ensures WorldNext(w, UserOpen)
            == World(Fresh(w.current), if w.current.held == 0 then w.detached else w.detached + [Anonymous(w.current)], false)
  {
    hide Next;
  }

  lemma Posts(w: World, m: Message)
    requires !w.crashed && w.current.registered && !w.current.crashed
    ensures WorldNext(w, Current(Post(m))) == w.(current := w.current.(queue := w.current.queue + [m]))
  {
    hide Dispatch, ConnectedBoth, Notify;
  }

  lemma Delivers(w: World)
    requires !w.crashed && w.current.registered && !w.current.crashed && w.current.queue != []
    ensures var s := w.current;
            var t := Dispatch(s.(queue := s.queue[1..]), s.queue[0]);
            WorldNext(w, Current(Deliver)) == w.(current := t, crashed := t.crashed)
  {
    hide Dispatch, ConnectedBoth, Notify;
  }

  /** A close is the next message, for a control without peers that has not reported one. */
  lemma DeliversClose(w: World, code: CloseCode, rest: seq<Message>)
    requires !w.crashed && w.current.registered && !w.current.crashed && w.current.queue == [MsgClose(code)] + rest
    requires w.current.peers == map[]
    ensures var s := w.current.(queue := rest);
            WorldNext(w, Current(Deliver))
            == if s.closeOnce then w.(current := s)
               else w.(current := s.(closeOnce := true, registered := false, held := |rest|,
                                     events := if CloseHandler in s.handlers then s.events + [ClosedEvent(s.name, code)] else s.events))
  {
    Delivers(w);
    hide WorldNext, Close, OnCommand;
    assert w.current.queue[1..] == rest;
    CloseOfEmpty(w.current.(queue := rest), code);
  }

  lemma EmptyRun(w: World)
    ensures Run(w, []) == w
  {
    hide WorldNext;
  }

  /** The first open. */
  lemma FirstOpen(name: Id, handlers: set<Handler>)
    ensures Run(Unopened(name, handlers), [] + [UserOpen]) == World(Start(name, handlers), [], false)
  {
    var w := Unopened(name, handlers);
    EmptyRun(w);
    RunGrows(w, [], UserOpen);
    Opens(w);
  }

  /** Open, then a close message that is delivered. */
  function ClosedRun(code: CloseCode): seq<WorldStep> {
    [] + [UserOpen] + [Current(Post(MsgClose(code)))] + [Current(Deliver)]
  }

  /** The user's side after a local close has been reported to the handlers there are. */
  function ClosedUser(name: Id, handlers: set<Handler>, code: CloseCode): State {
    Start(name, handlers).(registered := false, closeOnce := true,
                           events := if CloseHandler in handlers then [ClosedEvent(name, code)] else [])
  }

  lemma OpenThenClose(name: Id, handlers: set<Handler>, code: CloseCode)
    ensures Run(Unopened(name, handlers), ClosedRun(code))
            == World(ClosedUser(name, handlers, code), [], false)
  {
    hide Run, WorldNext;
    var w, r1 := Unopened(name, handlers), [] + [UserOpen];
    FirstOpen(name, handlers);
    RunGrows(w, r1, Current(Post(MsgClose(code))));
    RunGrows(w, r1 + [Current(Post(MsgClose(code)))], Current(Deliver));
    Posts(Run(w, r1), MsgClose(code));
    assert [] + [MsgClose(code)] == [MsgClose(code)] + [];
    DeliversClose(Run(w, r1 + [Current(Post(MsgClose(code)))]), code, []);
    assert [] + [ClosedEvent(name, code)] == [ClosedEvent(name, code)];
  }

  /** The user calls `Close` again after the close. */
  lemma SecondCloseCrashes(name: Id, handlers: set<Handler>, code: CloseCode)
    ensures !Run(Unopened(name, handlers), ClosedRun(code)).crashed
    ensures Run(Unopened(name, handlers), ClosedRun(code) + [UserCall(CallClose(""))]).crashed
  {
    hide Run, ClosedRun;
    OpenThenClose(name, handlers, code);
    RunGrows(Unopened(name, handlers), ClosedRun(code), UserCall(CallClose("")));
  }

  /** Open, then a close message with a channel reply behind it; the close is delivered. */
  function StaleRun(name: Id, code: CloseCode): seq<WorldStep> {
    [] + [UserOpen] + [Current(Post(MsgClose(code)))] + [Current(Post(MsgCommand(ChannelCreate(Succeeded(name)))))] + [Current(Deliver)]
  }

  lemma CloseBeforeReply(name: Id, handlers: set<Handler>, code: CloseCode)
    ensures var m := MsgCommand(ChannelCreate(Succeeded(name)));
            Run(Unopened(name, handlers), StaleRun(name, code))
            == World(ClosedUser(name, handlers, code).(queue := [m], held := 1), [], false)
  {
    hide Run, WorldNext;
    var w, r1 := Unopened(name, handlers), [] + [UserOpen];
    var m := MsgCommand(ChannelCreate(Succeeded(name)));
    var r2 := r1 + [Current(Post(MsgClose(code)))];
    FirstOpen(name, handlers);
    RunGrows(w, r1, Current(Post(MsgClose(code))));
    RunGrows(w, r2, Current(Post(m)));
    RunGrows(w, r2 + [Current(Post(m))], Current(Deliver));
    Posts(Run(w, r1), MsgClose(code));
    Posts(Run(w, r2), m);
    assert [] + [MsgClose(code)] + [m] == [MsgClose(code)] + [m];
    DeliversClose(Run(w, r2 + [Current(Post(m))]), code, [m]);
    assert [] + [ClosedEvent(name, code)] == [ClosedEvent(name, code)];
  }

  /** A channel reply queued behind the close, delivered after the user has opened the peer again. */
  lemma StaleReplyCrashes(name: Id, handlers: set<Handler>, code: CloseCode)
    ensures var (w, reopened) := (Unopened(name, handlers), StaleRun(name, code) + [UserOpen]);
            && Run(w, reopened).current.registered && !Run(w, reopened).crashed
            && Run(w, reopened + [Detached(0, Deliver)]).crashed
  {
    hide Run, StaleRun, WorldNext;
    var w := Unopened(name, handlers);
    CloseBeforeReply(name, handlers, code);
    RunGrows(w, StaleRun(name, code), UserOpen);
    RunGrows(w, StaleRun(name, code) + [UserOpen], Detached(0, Deliver));
    Opens(Run(w, StaleRun(name, code)));
    DeliversReply(Run(w, StaleRun(name, code) + [UserOpen]), 0, Succeeded(name));
  }

  /** A detached control that still exists is given a channelcreate reply. */
  lemma DeliversReply(w: World, i: nat, reply: Reply)
    requires !w.crashed && i < |w.detached|
    requires var d := w.detached[i]; !d.registered && !d.crashed && d.held > 0 && d.queue != [] && d.queue[0] == MsgCommand(ChannelCreate(reply))
    ensures WorldNext(w, Detached(i, Deliver)).crashed
  {
    hide ConnectedBoth, Notify;
  }

  /**
    * A peer that was closed and opened again, and whose new connection goes down before the server
    * has confirmed the channel: the user is told nothing, and the control stays attached.
    */
  lemma ReopenedCloseIsLost(name: Id, handlers: set<Handler>, code: CloseCode)
    requires CloseHandler in handlers
    ensures var steps := ClosedRun(code) + [UserOpen] + [Current(Post(MsgClose(SignalError)))] + [Current(Deliver)];
            var c := Run(Unopened(name, handlers), steps).current;
            c.events == [ClosedEvent(name, code)] && c.registered && c.peers == map[] && c.queue == []
  {
    hide Run, ClosedRun, WorldNext;
    var w := Unopened(name, handlers);
    var r4 := ClosedRun(code) + [UserOpen];
    var r5 := r4 + [Current(Post(MsgClose(SignalError)))];
    OpenThenClose(name, handlers, code);
    RunGrows(w, ClosedRun(code), UserOpen);
    RunGrows(w, r4, Current(Post(MsgClose(SignalError))));
    RunGrows(w, r5, Current(Deliver));
    Opens(Run(w, ClosedRun(code)));
    Posts(Run(w, r4), MsgClose(SignalError));
    assert [] + [MsgClose(SignalError)] == [MsgClose(SignalError)] + [];
    DeliversClose(Run(w, r5), SignalError, []);
  }

  /** A createoffer command that lists the user's own name: then the next close is cut short. */
  lemma OwnNameIsMapped(name: Id, handlers: set<Handler>)
    ensures var offer := MsgCommand(CreateOffer([Entry(name, true)]));
            var c := Run(Unopened(name, handlers), [] + [UserOpen] + [Current(Post(offer))] + [Current(Deliver)]).current;
            name in c.peers && c.name == name && c.registered && !c.closeOnce
  {
    hide Run, WorldNext, Dispatch;
    var w, r1 := Unopened(name, handlers), [] + [UserOpen];
    var offer := MsgCommand(CreateOffer([Entry(name, true)]));
    var r2 := r1 + [Current(Post(offer))];
    FirstOpen(name, handlers);
    RunGrows(w, r1, Current(Post(offer)));
    RunGrows(w, r2, Current(Deliver));
    Posts(Run(w, r1), offer);
    assert [] + [offer] == [offer] && [offer][1..] == [];
    Delivers(Run(w, r2));
    OneOffer(Start(name, handlers), name);
  }

  lemma OneOffer(s: State, id: Id)
    ensures Dispatch(s, MsgCommand(CreateOffer([Entry(id, true)]))) == Insert(s, id)
  {
    hide Insert, Close;
    assert Offer(s, [Entry(id, true)]) == Offer(Insert(s, id), [Entry(id, true)][1..]);
  }

  // ----- What the calls of the user do -----

  /** Before the first open: nothing has been reported, and there is no control to call. */
  lemma NothingYet(name: Id, handlers: set<Handler>)
    ensures Unopened(name, handlers) == World(State(name, handlers, false, false, map[], [], 0, [], [], false), [], false)
  {
  }

  /**
    * An open while there is a control is ignored. Any other gives the user a new control, with an empty
    * map and an empty queue; what the user was told, and whether of a local close, stays. The control
    * before it goes on as long as a message holds it.
    */
  lemma OpenEffect(w: World)
    requires !w.crashed
    ensures var (t, c) := (WorldNext(w, UserOpen), w.current);
            if c.registered then t == w
            else
              && t.current == State(c.name, c.handlers, true, c.closeOnce, map[], [], 0, c.events, [], false) && !t.crashed
              && t.detached == (if c.held > 0 then w.detached + [c.(closeOnce := false, events := [])] else w.detached)
  {
    hide Next;
  }

  /** `Connect` asks the server for the peer's channel, and `Send` leaves the session as it is. */
  lemma OtherCalls(w: World, id: Id)
    requires !w.crashed && w.current.registered
    ensures WorldNext(w, UserCall(CallConnect(id))) == w.(current := w.current.(actions := w.current.actions + [Joined(id)]))
    ensures WorldNext(w, UserCall(CallSend(id))) == w
  {
    hide Next;
  }

  /** After a call and the delivery of the message it queued. */
  ghost function Handled(w: World, id: Id): World {
    WorldNext(WorldNext(w, UserCall(CallClose(id))), Current(Deliver))
  }

  lemma CallIsHandled(w: World, id: Id)
    requires WorldInv(w) && !w.crashed && w.current.registered && w.current.queue == []
    ensures var t := Dispatch(w.current, CloseMessage(id, w.current.name));
            Handled(w, id) == World(t, w.detached, false) && Inv(w.current) && t.crashed == false
  {
    hide Inv, Dispatch, CloseMessage;
    var m, queued := CloseMessage(id, w.current.name), w.current.(queue := [CloseMessage(id, w.current.name)]);
    CallQueues(w, id);
    assert w.current.queue + [m] == [m] && [m][1..] == [];
    Delivers(w.(current := queued));
    assert queued.(queue := []) == w.current;
    hide WorldNext;
    CrashExactly(w.current, m);
  }

  lemma CallQueues(w: World, id: Id)
    requires !w.crashed && w.current.registered && !w.current.crashed
    ensures WorldNext(w, UserCall(CallClose(id))) == w.(current := w.current.(queue := w.current.queue + [CloseMessage(id, w.current.name)]))
  {
    hide Dispatch, ConnectedBoth, Notify, CloseMessage;
  }

  /**
    * `Close` of the own name, or of none, once it has been handled: no peer is left, each has been
    * notified and left, in map order. An observer that had been told of a local close stays, any other
    * is gone; and the user, with a handler for it, is told as by `CloseReports`, with the normal code.
    */
  lemma UserClosesAll(w: World, id: Id)
    requires WorldInv(w) && !w.crashed && w.current.registered && w.current.queue == [] && (id == "" || id == w.current.name)
    ensures var (s, t, ids) := (w.current, Handled(w, id), Sorted(w.current.peers.Keys));
            && !t.crashed && t.detached == w.detached && t.current.queue == []
            && t.current.peers == map[] && t.current.actions == s.actions + CloseLog(ids)
            && t.current.registered == s.closeOnce && t.current.closeOnce
            && t.current.events == if CloseHandler !in s.handlers then s.events
                                   else s.events + CloseEvents(if s.closeOnce then Without(ids, s.name) else UpTo(ids + [s.name], s.name), Normal)
  {
    hide Inv, Dispatch, Handled, CloseLog, Sorted, UpTo, Without, CloseEvents;
    CallIsHandled(w, id);
    CloseExecuted(w.current, Normal);
    if CloseHandler in w.current.handlers {
      CloseDispatched(w.current, Normal);
      CloseReports(w.current, Normal);
    }
  }

  lemma CloseDispatched(s: State, code: CloseCode)
    ensures Dispatch(s, MsgClose(code)) == Close(s, code)
  {
    hide Close;
  }

  /**
    * `Close` of another peer, once it has been handled: exactly that entry is gone and has been notified
    * and left, the control stays attached, and the user is told of that peer's normal close, and of no
    * local close. If there is no such peer, nothing changes.
    */
  lemma UserClosesPeer(w: World, id: Id)
    requires WorldInv(w) && !w.crashed && w.current.registered && w.current.queue == [] && id != "" && id != w.current.name
    ensures var (s, t) := (w.current, Handled(w, id));
            if id !in s.peers then t == w
            else t == w.(current := s.(peers := s.peers - {id}, actions := s.actions + [Notified(id), Left(id)],
                                       events := if CloseHandler in s.handlers then s.events + [ClosedEvent(id, Normal)] else s.events))
  {
    hide Inv, Dispatch, Handled;
    CallIsHandled(w, id);
    OnePeerCloses(w.current, MsgClosePeer(id, Normal), id, Normal);
  }

  /** A step of an earlier control changes that control only. */
  lemma DetachedEffect(w: World, i: nat, step: Step)
    requires WorldInv(w) && !w.crashed && i < |w.detached|
    ensures var (t, c) := (WorldNext(w, Detached(i, step)), w.detached[i].(closeOnce := w.current.closeOnce, events := w.current.events));
            && t.current == w.current && t.crashed == Next(c, step).crashed
            && t.detached == w.detached[i := Next(c, step).(closeOnce := false, events := [])]
  {
    hide Next, Inv;
    DetachedAlone(w, i, step);
  }
}
