/**
  * The user's peer object over its lifetime, together with the controls that queued messages still
  * refer to. Each call of the user, and each message that is handled, is proved to be one step of a
  * run of `SessionRuns`; the null pointers of those runs are the preconditions here.
  */
module PeerObjects {
  import opened Session
  import opened SessionObjects
  import opened SessionRuns

  ghost predicate NoRepeats(all: seq<Control>) {
    forall i, j | 0 <= i < j < |all| :: all[i] != all[j]
  }

  lemma OneMoreControl(all: seq<Control>, kept: seq<Control>, c: Control)
    requires NoRepeats(all) && kept <= all && c !in all
    ensures NoRepeats(kept + [c])
  {
  }

  class Lifetime {
    const user: UserPeer
    // The control of the last open, and those before it that queued messages still refer to, oldest first.
    ghost var last: Control?
    ghost var past: seq<Control>

    /** The controls that exist, oldest first. */
    ghost function All(): (all: seq<Control>)
      reads this
      ensures |all| == |past| + (if last == null then 0 else 1) && all[..|past|] == past
      ensures last != null ==> all[|past|] == last
    {
      past + if last == null then [] else [last]
    }

    ghost function Connections(): set<PeerConnection>
      reads this, All()
    {
      set i, p | 0 <= i < |All()| && p in All()[i].peers.Values :: p
    }

    /** The controls share the user and nothing else. The user's peer points to the last one, or to none. */
    ghost predicate Valid()
      reads this, user, All()
    {
      && (last == null ==> past == [] && user.control == null)
      && (user.control == null || user.control == last)
      && (forall i | 0 <= i < |All()| :: All()[i].user == user && All()[i].Valid())
      && NoRepeats(All())
    }

    ghost function ViewOf(i: nat): State
      requires Valid() && i < |All()|
      reads this, user, All(), Connections()
    {
      assert forall p | p in All()[i].peers.Values :: p in Connections();
      All()[i].View()
    }

    /** Before the first open there is no control. */
    function NoControl(): State
      reads user
    {
      Start(user.peerId, user.handlers).(registered := false, closeOnce := user.closeOnce, events := user.events)
    }

    ghost function View(): World
      requires Valid()
      reads this, user, All(), Connections()
    {
      World(if last == null then NoControl() else ViewOf(|past|),
            seq(|past|, i requires 0 <= i < |past| && Valid() reads this, user, All(), Connections() => Anonymous(ViewOf(i))),
            false)
    }

    constructor (name: Id, handlers: set<Handler>)
      ensures Valid() && View() == Unopened(name, handlers)
    {
      user := new UserPeer(name, handlers);
      last, past := null, [];
      new;
      assert View().detached == [];
    }

    /** `Peer::Open`. A control that nothing refers to any more is forgotten. */
    method Open()
      requires Valid()
      modifies this, user`control
      ensures Valid() && View() == WorldNext(old(View()), UserOpen)
    {
      hide Next;
      if user.control != null {
        assert old(View()).current.registered;
        user.Open();
        assert View() == old(View());
        return;
      }
      ghost var w, kept := View(), if last != null && last.held > 0 then past + [last] else past;
      assert forall i | 0 <= i < |kept| :: kept[i] == All()[i];
      assert w.detached + [Anonymous(w.current)] == w.detached + [Anonymous(w.current)];
      ReplaceControl(kept);
      assert View().detached == if |kept| > |w.detached| then w.detached + [Anonymous(w.current)] else w.detached;
      OpenIsNext(w, View());
    }

    /** A new control takes over; some of the others stay. */
    method ReplaceControl(ghost kept: seq<Control>)
      requires Valid() && user.control == null && kept <= All()
      modifies this, user`control
      ensures Valid() && past == kept && View().current == Fresh(old(View()).current)
      ensures forall i | 0 <= i < |kept| :: ViewOf(i) == old(ViewOf(i))
    {
      ghost var start := View().current;
      FreshIs(start, user.peerId, user.handlers, user.closeOnce, user.events);
      assert forall i | 0 <= i < |kept| :: kept[i] == All()[i] && ViewOf(i) == kept[i].View();
      hide Fresh, Session.Start, NoRepeats, Anonymous;
      NewControl();
      OneMoreControl(All(), kept, user.control);
      assert forall i | 0 <= i < |kept| :: kept[i] == All()[i] && kept[i].View() == old(kept[i].View());
      TakeOver(kept, user.control);
    }

    ghost method TakeOver(kept: seq<Control>, c: Control)
      requires c.user == user && c.Valid() && user.control == c && NoRepeats(kept + [c])
      requires forall i | 0 <= i < |kept| :: kept[i].user == user && kept[i].Valid()
      modifies this`past, this`last
      ensures Valid() && past == kept && last == c && View().current == old(c.View())
      ensures forall i | 0 <= i < |kept| :: ViewOf(i) == old(kept[i].View())
    {
      hide NoRepeats;
      past, last := kept, c;
      assert forall i | 0 <= i < |kept| :: All()[i] == kept[i];
    }

    /** The others look as before. */
    method NewControl()
      requires Valid() && user.control == null
      modifies user`control
      ensures user.control != null && fresh(user.control) && user.control.user == user && user.control.Valid()
      ensures user.control.peers == map[] && fresh(user.control.peers.Values)
      ensures user.control.View() == Start(user.peerId, user.handlers).(closeOnce := user.closeOnce, events := user.events)
      ensures forall i | 0 <= i < |All()| :: All()[i].Valid() && All()[i].View() == old(All()[i].View())
    {
      hide Session.Start;
      user.Open();
      forall i | 0 <= i < |All()| ensures All()[i].Valid() && All()[i].View() == old(All()[i].View()) {
        assert All()[i].Peers() == old(All()[i].Peers());
      }
    }

    /** `Peer::Close`. Without a control it would go through a null pointer. */
    method Close(id: Id)
      requires Valid() && !FatalStep(View(), UserCall(CallClose(id)))
      modifies if user.control == null then {} else {user.control}
      ensures Valid() && View() == WorldNext(old(View()), UserCall(CallClose(id)))
    {
      ghost var w := View();
      assert All()[|past|] == last;
      user.Close(id);
      assert View().detached == w.detached;
      CloseIsNext(w, id, View());
    }

    /** `Peer::Connect` */
    method Connect(id: Id)
      requires Valid() && !FatalStep(View(), UserCall(CallConnect(id)))
      modifies if user.control == null then {} else {user.control}
      ensures Valid() && View() == WorldNext(old(View()), UserCall(CallConnect(id)))
    {
      ghost var w := View();
      assert All()[|past|] == last;
      user.Connect(id);
      assert View().detached == w.detached;
      ConnectIsNext(w, id, View());
    }

    /** `Peer::Send` */
    method Send(id: Id) returns (known: bool)
      requires Valid() && !FatalStep(View(), UserCall(CallSend(id)))
      ensures known <==> id in View().current.peers
      ensures View() == WorldNext(old(View()), UserCall(CallSend(id)))
    {
      known := user.Send(id);
    }

    /** The message loop hands the oldest message of a control to it: the last control, or an earlier one. */
    method OnMessage(c: Control, ghost i: nat)
      requires Valid() && WorldInv(View()) && i < |All()| && All()[i] == c && c.queue != [] && !Dead(c.View())
      requires !FatalStep(View(), DeliverTo(i))
      modifies c, user, c.peers.Values
      ensures Valid() && View() == WorldNext(old(View()), old(DeliverTo(i)))
    {
      hide Inv, Next;
      ghost var w := View();
      InvOf(i);
      Handle(c, i);
      assert View().detached == if i == |past| then w.detached else w.detached[i := Anonymous(ViewOf(i))];
      DeliverIsNext(w, i, |past|, ViewOf(i), View());
    }

    ghost function DeliverTo(i: nat): WorldStep
      reads this
    {
      if i == |past| then WorldStep.Current(Deliver) else Detached(i, Deliver)
    }

    lemma InvOf(i: nat)
      requires Valid() && WorldInv(View()) && i < |All()| && !FatalStep(View(), DeliverTo(i))
      ensures Inv(ViewOf(i)) && !FatalDelivery(ViewOf(i), Deliver)
    {
      hide Inv;
      if i < |past| {
        assert View().detached[i] == Anonymous(ViewOf(i));
        UserIrrelevant(View().detached[i], View().current, false);
        FatalForAnyUser(View().detached[i], View().current, Deliver);
      }
    }

    /** The other controls are not affected. */
    method Handle(c: Control, ghost i: nat)
      requires Valid() && i < |All()| && All()[i] == c && c.queue != [] && !Dead(ViewOf(i))
      requires Inv(ViewOf(i)) && !FatalDelivery(ViewOf(i), Deliver)
      modifies c, user, c.peers.Values
      ensures Valid() && ViewOf(i) == Next(old(ViewOf(i)), Deliver)
      ensures forall j: nat | j < |All()| && j != i :: Anonymous(ViewOf(j)) == old(Anonymous(ViewOf(j)))
    {
      hide Inv, Next, FatalDelivery;
      ghost var all := All();
      assert forall j | 0 <= j < |all| && j != i :: all[j] != c;
      hide NoRepeats;
      c.OnMessage();
      forall j: nat | j < |all| && j != i
        ensures all[j].Valid() && Anonymous(all[j].View()) == old(Anonymous(all[j].View()))
      {
        var d := all[j];
        assert d != c && forall p | p in d.peers.Values :: p.observer == d && p !in old(c.peers.Values);
        assert d.Peers() == old(d.Peers());
      }
    }
  }

  lemma FreshIs(s: State, name: Id, handlers: set<Handler>, closeOnce: bool, events: seq<UserEvent>)
    requires s.name == name && s.handlers == handlers && s.closeOnce == closeOnce && s.events == events
    ensures Fresh(s) == Start(name, handlers).(closeOnce := closeOnce, events := events)
  {
  }

  lemma OpenIsNext(w: World, t: World)
    requires !w.crashed && !t.crashed && !w.current.registered && t.current == Fresh(w.current)
    requires t.detached == if Dead(w.current) then w.detached else w.detached + [Anonymous(w.current)]
    ensures t == WorldNext(w, UserOpen)
  {
  }

  lemma CloseIsNext(w: World, id: Id, t: World)
    requires !w.crashed && w.current.registered && !w.current.crashed
    requires t == w.(current := w.current.(queue := w.current.queue + [CloseMessage(id, w.current.name)]))
    ensures t == WorldNext(w, UserCall(CallClose(id)))
  {
  }

  lemma ConnectIsNext(w: World, id: Id, t: World)
    requires !w.crashed && w.current.registered
    requires t == w.(current := w.current.(actions := w.current.actions + [Joined(id)]))
    ensures t == WorldNext(w, UserCall(CallConnect(id)))
  {
  }

  lemma DeliverIsNext(w: World, i: nat, n: nat, c: State, t: World)
    requires !w.crashed && !t.crashed && n == |w.detached| && i <= n && !c.crashed
    requires i == n ==> c == Next(w.current, Deliver) && t == w.(current := c)
    requires i < n ==> c == Next(WithUser(w.detached[i], w.current), Deliver)
                       && t == World(WithUser(w.current, c), w.detached[i := Anonymous(c)], false)
    ensures t == WorldNext(w, if i == n then Current(Deliver) else Detached(i, Deliver))
  {
    hide Next;
  }
}
