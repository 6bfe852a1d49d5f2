/**
  * What each message and each callback does to the session, said in terms of the map, the log, the
  * queue and what the user is told: one lemma or a few for every command, message and step.
  */
module SessionEffects {
  import opened Session
  import opened StringOrder

  // ----- What the user is told -----

  /** The user's side as it was. */
  ghost predicate UserAsBefore(s: State, t: State) {
    t.registered == s.registered && t.closeOnce == s.closeOnce && t.held == s.held && t.events == s.events
  }

  /**
    * The user's side when a close of `id` is reported. Without observer nothing happens. A close of
    * another peer calls the handler. A close of the user's own name does so once after an open, and
    * then the control has lost its observer, but is held by the messages that are queued.
    */
  ghost predicate CloseReported(s: State, t: State, id: Id, code: CloseCode) {
    if !s.registered || (id == s.name && s.closeOnce) then UserAsBefore(s, t)
    else
      && t.events == (if CloseHandler in s.handlers then s.events + [ClosedEvent(id, code)] else s.events)
      && (if id == s.name then t.closeOnce && !t.registered && t.held == |s.queue|
          else t.closeOnce == s.closeOnce && t.registered && t.held == s.held)
  }

  /** Everything but the user's side is as it was. */
  ghost predicate ControlAsBefore(s: State, t: State) {
    && t.name == s.name && t.handlers == s.handlers && t.queue == s.queue
    && t.peers == s.peers && t.actions == s.actions && t.crashed == s.crashed
  }

  lemma ObserverReports(s: State, id: Id, code: CloseCode)
    ensures ControlAsBefore(s, OnPeerClose(s, id, code)) && CloseReported(s, OnPeerClose(s, id, code), id, code)
  {
  }

  /** The messages that amount to a close of `id`, with this code. */
  ghost predicate IsCloseOf(s: State, m: Message, id: Id, code: CloseCode) {
    || m == MsgOnPeerClose(id, code)
    || (code == SignalError && id == s.name && (m == MsgCommand(ChannelCreate(NoResult)) || m == MsgCommand(ChannelCreate(NoName))))
    || (code == SignalError && id == "" && (m == MsgCommand(ChannelJoin(NoResult)) || m == MsgCommand(ChannelJoin(NoName))))
    || (code == SignalError && (m == MsgCommand(ChannelCreate(Failed(id))) || m == MsgCommand(ChannelJoin(Failed(id)))))
  }

  /** A channel that cannot be created or joined is reported to the observer as a close, and nothing else changes. */
  lemma RepliesAreCloses(s: State, m: Message, id: Id, code: CloseCode)
    requires IsCloseOf(s, m, id, code) && (m.MsgOnPeerClose? || s.registered)
    ensures ControlAsBefore(s, Dispatch(s, m)) && CloseReported(s, Dispatch(s, m), id, code)
  {
    hide Close, OnPeerClose;
    if m.MsgOnPeerClose? {
      ObserverReports(s, id, code);
    } else {
      RegisteredReports(s, id, code);
      hide PeerOnClose, PeerOnOpen;
    }
  }

  lemma RegisteredReports(s: State, id: Id, code: CloseCode)
    requires s.registered
    ensures ControlAsBefore(s, PeerOnClose(s, id, code)) && CloseReported(s, PeerOnClose(s, id, code), id, code)
  {
  }

  /** A created channel opens the peer: the handler is called, and the next local close will be reported again. */
  lemma CreatedOpens(s: State, name: Id)
    requires s.registered
    ensures Dispatch(s, MsgCommand(ChannelCreate(Succeeded(name))))
            == s.(closeOnce := false, events := if OpenHandler in s.handlers then s.events + [Opened(name)] else s.events)
  {
    hide Close, PeerOnClose;
  }

  /** Once the server has accepted the user, it is asked for the channel with the user's name. */
  lemma AcceptedAsks(s: State, success: bool)
    ensures Dispatch(s, MsgCommand(OpenReply(success))) == if success then s.(actions := s.actions + [Created(s.name)]) else s
  {
    hide Close;
  }

  /** A joined channel, an answer or a candidate, and the commands without effect leave the session as it is. */
  lemma NothingChanges(s: State, c: Command)
    requires Inv(s)
    requires (c.ChannelJoin? && c.reply.Succeeded?) || c.AnswerSdp? || c.IceCandidate? || c.NoEffect?
    ensures Dispatch(s, MsgCommand(c)) == s
  {
    hide Close, PeerOnClose, PeerOnOpen;
    if c.AnswerSdp? || c.IceCandidate? {
      if c.id in s.peers { assert GoodEntry(s.peers, c.id); }
    }
  }

  /** Any other reply about a channel, to a control without observer, is a null pointer and nothing else. */
  lemma UnobservedReply(s: State, c: Command)
    requires !s.registered && (c.ChannelCreate? || (c.ChannelJoin? && !c.reply.Succeeded?))
    ensures Dispatch(s, MsgCommand(c)) == s.(crashed := true)
  {
    hide Close, PeerOnClose, PeerOnOpen;
  }

  // ----- Closing one peer -----

  /** The two messages that close one peer, and how. */
  ghost predicate ClosesPeer(m: Message, id: Id, code: CloseCode) {
    m == MsgClosePeer(id, code) || (m == MsgCommand(PeerClosed(id)) && code == Normal)
  }

  /**
    * A mapped peer goes, with one notification and one leavechannel in the log, and its close is
    * reported; every other entry stays. A peer that is not mapped changes nothing.
    */
  lemma OnePeerCloses(s: State, m: Message, id: Id, code: CloseCode)
    requires Inv(s) && ClosesPeer(m, id, code)
    ensures var t := Dispatch(s, m);
            if id !in s.peers then t == s
            else
              && t.name == s.name && t.handlers == s.handlers && t.queue == s.queue && t.crashed == s.crashed
              && t.peers == s.peers - {id} && t.actions == s.actions + [Notified(id), Left(id)]
              && CloseReported(s, t, id, code)
  {
    hide Close, OnPeerClose, Inv;
    if id in s.peers {
      ClosePeerEffect(s, id, code);
      ObserverReports(s, id, code);
      hide ClosePeer;
    }
  }

  // ----- Closing everything -----

  /** Every listed peer is notified and then left, one after the other. */
  function CloseLog(ids: seq<Id>): seq<Action>
    decreases |ids|
  {
    if ids == [] then [] else [Notified(ids[0]), Left(ids[0])] + CloseLog(ids[1..])
  }

  lemma {:induction false} CloseAllLogs(s: State, ids: seq<Id>, code: CloseCode)
    requires Inv(s) && Distinct(ids) && forall i | 0 <= i < |ids| :: ids[i] in s.peers
    ensures CloseAll(s, ids, code).actions == s.actions + CloseLog(ids)
    ensures CloseHandler !in s.handlers ==> CloseAll(s, ids, code).events == s.events
    decreases |ids|
  {
    hide Inv, ClosePeer, OnPeerClose, Distinct;
    if ids != [] {
      var id, rest := ids[0], ids[1..];
      ClosePeerEffect(s, id, code);
      ClosePeerInv(s, id, code);
      ObserverReports(s, id, code);
      RestDistinct(ids);
      CloseAllLogs(ClosePeer(s, id, code), rest, code);
      LogGrows(s.actions, [Notified(id), Left(id)], CloseLog(rest));
    }
  }

  lemma LogGrows(a: seq<Action>, b: seq<Action>, c: seq<Action>)
    ensures (a + b) + c == a + (b + c)
  {
  }

  /** Which registration, flag and references the close loop leaves. */
  lemma {:induction false} CloseAllDetaches(s: State, ids: seq<Id>, code: CloseCode)
    requires Inv(s) && Distinct(ids) && forall i | 0 <= i < |ids| :: ids[i] in s.peers
    ensures var t := CloseAll(s, ids, code);
            if s.registered && !s.closeOnce && s.name in ids then !t.registered && t.closeOnce && t.held == |s.queue|
            else t.registered == s.registered && t.closeOnce == s.closeOnce && t.held == s.held
    decreases |ids|
  {
    hide Inv, ClosePeer, OnPeerClose, Distinct;
    if ids != [] {
      var id, rest := ids[0], ids[1..];
      ClosePeerEffect(s, id, code);
      ClosePeerInv(s, id, code);
      ObserverReports(s, id, code);
      RestDistinct(ids);
      CloseAllDetaches(ClosePeer(s, id, code), rest, code);
    }
  }

  /**
    * A close takes every peer out of the map, in map order, each with one notification and one
    * leavechannel. An observer that has been told of a local close before stays; any other is told of
    * one now, and is gone. `CloseReports` says what the user sees, if there is a handler for it.
    */
  lemma CloseExecuted(s: State, code: CloseCode)
    requires Inv(s)
    ensures var t := Dispatch(s, MsgClose(code));
            && t.name == s.name && t.handlers == s.handlers && t.queue == s.queue && t.crashed == s.crashed
            && t.peers == map[] && t.actions == s.actions + CloseLog(Sorted(s.peers.Keys))
            && (if s.registered && !s.closeOnce then !t.registered && t.closeOnce && t.held == |s.queue|
                else t.registered == s.registered && t.closeOnce == s.closeOnce && t.held == s.held)
            && (!s.registered || CloseHandler !in s.handlers ==> t.events == s.events)
  {
    hide Inv, CloseAll, RemoteIds, OnPeerClose, Sorted, CloseLog, OnCommand, ClosePeer;
    var ids := RemoteIds(s.peers);
    GoodPeersOf(s);
    RemoteIdsAreKeys(s.peers);
    assert forall i | 0 <= i < |ids| :: ids[i] in ids;
    CloseAllEmpties(s, ids, code);
    CloseAllLogs(s, ids, code);
    CloseAllDetaches(s, ids, code);
    CloseAllKeeps(s, ids, code);
    CloseEmpties(s, code);
    ObserverReports(CloseAll(s, ids, code), s.name, code);
  }

  // ----- New peers -----

  /** How many entries are well-formed and initialized before the first that is not. */
  function GoodPrefix(entries: seq<Entry>): (k: nat)
    ensures k <= |entries| && forall i | 0 <= i < k :: entries[i].Entry? && entries[i].initialized
    ensures k < |entries| ==> entries[k].BadEntry? || !entries[k].initialized
    decreases |entries|
  {
    if entries == [] || entries[0].BadEntry? || !entries[0].initialized then 0 else 1 + GoodPrefix(entries[1..])
  }

  /** The ids of the first `k` entries. */
  function PrefixIds(entries: seq<Entry>, k: nat): (ids: seq<Id>)
    requires k <= |entries| && forall i | 0 <= i < k :: entries[i].Entry?
    ensures |ids| == k && forall i | 0 <= i < k :: ids[i] == entries[i].id
  {
    seq(k, i requires 0 <= i < k => entries[i].id)
  }

  /** The ids that are not known yet, each once, in the order of their first occurrence. */
  function NewIds(ids: seq<Id>, known: set<Id>): (r: seq<Id>)
    ensures forall id :: id in r <==> id in ids && id !in known
    ensures forall i, j | 0 <= i < j < |r| :: r[i] != r[j]
    decreases |ids|
  {
    if ids == [] then []
    else if ids[0] in known then NewIds(ids[1..], known)
    else [ids[0]] + NewIds(ids[1..], known + {ids[0]})
  }

  function InsertLog(ids: seq<Id>): (log: seq<Action>)
    ensures |log| == |ids| && forall i | 0 <= i < |ids| :: log[i] == Inserted(ids[i])
  {
    seq(|ids|, i requires 0 <= i < |ids| => Inserted(ids[i]))
  }

  /** Older entries are unchanged, new ones are connecting, with a connection. */
  ghost predicate PeersAdded(before: map<Id, Remote>, after: map<Id, Remote>, ids: seq<Id>) {
    && (forall id :: id in after <==> id in before || id in ids)
    && (forall id | id in before :: id in after && after[id] == before[id])
    && (forall id | id in after && id !in before :: after[id] == Remote(id, Connecting, true))
  }

  /** The map and the log after an offer of peers with these ids, in this order. */
  ghost predicate Added(s: State, t: State, ids: seq<Id>) {
    && t.name == s.name && t.handlers == s.handlers && t.queue == s.queue && t.crashed == s.crashed
    && PeersAdded(s.peers, t.peers, ids) && t.actions == s.actions + InsertLog(NewIds(ids, s.peers.Keys))
  }

  lemma {:induction false} OfferAdds(s: State, entries: seq<Entry>)
    ensures Added(s, Offer(s, entries), PrefixIds(entries, GoodPrefix(entries)))
    decreases |entries|
  {
    hide OnPeerClose, Insert, Added, GoodPrefix;
    PrefixStep(entries);
    if entries == [] || entries[0].BadEntry? {
      NothingAdded(s, s);
    } else if entries[0].initialized {
      var u := Insert(s, entries[0].id);
      OfferAdds(u, entries[1..]);
      InsertAdds(s, entries[0].id, PrefixIds(entries[1..], GoodPrefix(entries[1..])), Offer(s, entries));
    } else {
      ObserverReports(s, entries[0].id, Abnormal);
      NothingAdded(s, OnPeerClose(s, entries[0].id, Abnormal));
    }
  }

  lemma PrefixStep(entries: seq<Entry>)
    ensures var k := GoodPrefix(entries);
            if entries == [] || entries[0].BadEntry? || !entries[0].initialized then k == 0 && PrefixIds(entries, k) == []
            else k == 1 + GoodPrefix(entries[1..])
                 && PrefixIds(entries, k) == [entries[0].id] + PrefixIds(entries[1..], GoodPrefix(entries[1..]))
  {
  }

  lemma NothingAdded(s: State, t: State)
    requires ControlAsBefore(s, t)
    ensures Added(s, t, [])
  {
    assert InsertLog(NewIds([], s.peers.Keys)) == [];
  }

  lemma InsertAdds(s: State, id: Id, rest: seq<Id>, t: State)
    requires Added(Insert(s, id), t, rest)
    ensures Added(s, t, [id] + rest)
  {
    hide NewIds, InsertLog;
    LogStep(id, rest, s.peers.Keys);
    var u := Insert(s, id);
    if id in s.peers {
      assert u == s;
    } else {
      assert u.peers.Keys == s.peers.Keys + {id} && u.actions == s.actions + [Inserted(id)];
      LogGrows(s.actions, [Inserted(id)], InsertLog(NewIds(rest, u.peers.Keys)));
    }
  }

  lemma LogStep(id: Id, rest: seq<Id>, known: set<Id>)
    ensures InsertLog(NewIds([id] + rest, known))
            == if id in known then InsertLog(NewIds(rest, known)) else [Inserted(id)] + InsertLog(NewIds(rest, known + {id}))
  {
    assert ([id] + rest)[1..] == rest;
  }

  lemma {:induction false} OfferTells(s: State, entries: seq<Entry>)
    ensures var (t, k) := (Offer(s, entries), GoodPrefix(entries));
            if k < |entries| && entries[k].Entry? then CloseReported(s, t, entries[k].id, Abnormal) else UserAsBefore(s, t)
    decreases |entries|
  {
    hide OnPeerClose, CloseReported, PrefixIds;
    if entries != [] && entries[0].Entry? {
      if entries[0].initialized {
        var u := Insert(s, entries[0].id);
        OfferTells(u, entries[1..]);
        forall id ensures CloseReported(u, Offer(s, entries), id, Abnormal) ==> CloseReported(s, Offer(s, entries), id, Abnormal) {
          SameUserSide(s, u, Offer(s, entries), id);
        }
      } else {
        ObserverReports(s, entries[0].id, Abnormal);
      }
    }
  }

  lemma SameUserSide(s: State, u: State, t: State, id: Id)
    requires UserAsBefore(s, u) && u.name == s.name && u.handlers == s.handlers && u.queue == s.queue
    ensures CloseReported(u, t, id, Abnormal) ==> CloseReported(s, t, id, Abnormal)
  {
  }

  /**
    * A createoffer command, for any list: the peers of the longest prefix of well-formed, initialized
    * entries enter the map unless their ids are taken, each logged once. If the entry after the prefix
    * is well-formed, its peer could not be initialized, and that is reported as an abnormal close.
    */
  lemma OffersAdded(s: State, entries: seq<Entry>)
    ensures var (t, k) := (Dispatch(s, MsgCommand(CreateOffer(entries))), GoodPrefix(entries));
            && Added(s, t, PrefixIds(entries, k))
            && (if k < |entries| && entries[k].Entry? then CloseReported(s, t, entries[k].id, Abnormal) else UserAsBefore(s, t))
  {
    hide Added, GoodPrefix, CloseReported, UserAsBefore;
    OfferAdds(s, entries);
    OfferTells(s, entries);
    OfferDispatched(s, entries);
  }

  lemma OfferDispatched(s: State, entries: seq<Entry>)
    ensures Dispatch(s, MsgCommand(CreateOffer(entries))) == Offer(s, entries)
  {
    hide Close, Offer;
  }

  /** Two new peers in one command: both enter the map, in order. */
  lemma TwoOffers(s: State, a: Id, b: Id)
    requires a != b && a !in s.peers && b !in s.peers
    ensures Dispatch(s, MsgCommand(CreateOffer([Entry(a, true), Entry(b, true)])))
            == s.(peers := s.peers[a := Remote(a, Connecting, true)][b := Remote(b, Connecting, true)],
                  actions := s.actions + [Inserted(a), Inserted(b)])
  {
    hide Close;
    var two := [Entry(a, true), Entry(b, true)];
    assert two[1..] == [Entry(b, true)] && two[1..][1..] == [];
    assert Offer(s, two) == Offer(Insert(s, a), two[1..]) == Offer(Insert(Insert(s, a), b), []) == Insert(Insert(s, a), b);
    OfferDispatched(s, two);
    hide Offer, Dispatch;
    assert s.actions + [Inserted(a)] + [Inserted(b)] == s.actions + [Inserted(a), Inserted(b)];
  }

  /** An offer from another peer adds that peer, or reports its close. */
  lemma OfferSdpAdded(s: State, id: Id, initialized: bool)
    ensures var t := Dispatch(s, MsgCommand(OfferSdp(id, initialized)));
            && t.name == s.name && t.handlers == s.handlers && t.queue == s.queue && t.crashed == s.crashed
            && t.peers == (if initialized && id !in s.peers then s.peers[id := Remote(id, Connecting, true)] else s.peers)
            && t.actions == (if initialized && id !in s.peers then s.actions + [Inserted(id)] else s.actions)
            && (if initialized then UserAsBefore(s, t) else CloseReported(s, t, id, Abnormal))
  {
    hide Close, OnPeerClose;
    ObserverReports(s, id, Abnormal);
    OneEntry(s, id, initialized);
    hide Offer;
  }

  lemma OneEntry(s: State, id: Id, initialized: bool)
    ensures Offer(s, [Entry(id, initialized)]) == if initialized then Insert(s, id) else OnPeerClose(s, id, Abnormal)
  {
    hide OnPeerClose, Insert;
    assert [Entry(id, initialized)][1..] == [];
    assert Offer(Insert(s, id), []) == Insert(s, id);
  }

  // ----- Callbacks and posts -----

  /** What calls of the handlers there are add to the user's events, if there is an observer. */
  function Heard(s: State, h: Handler, e: UserEvent): seq<UserEvent> {
    if s.registered && h in s.handlers then [e] else []
  }

  /** A control that is destroyed, or a session that has crashed, takes no step. */
  lemma NoStep(s: State, step: Step)
    requires s.crashed || (!s.registered && s.held == 0)
    ensures Next(s, step) == s
  {
  }

  /** A control that exists: what each step does, except for delivering a message. */
  lemma CallbackEffects(s: State, id: Id, m: Message)
    requires Inv(s) && !s.crashed && (s.registered || s.held > 0)
    ensures Next(s, Post(m)) == s.(queue := s.queue + [m])
    ensures Next(s, RemoteOpened(id))
            == if id !in s.peers then s
               else s.(peers := s.peers[id := Remote(id, Open, true)],
                       events := s.events + Heard(s, ConnectHandler, Connected(id)) + Heard(s, WritableHandler, Writable(s.name)))
    ensures Next(s, StrayOpened(id))
            == s.(events := s.events + Heard(s, ConnectHandler, Connected(id)) + Heard(s, WritableHandler, Writable(s.name)))
    ensures Next(s, RemoteDisconnected(id))
            == if id in s.peers then s.(queue := s.queue + [MsgClosePeer(id, GoingAway)]) else s
    ensures Next(s, RemoteMessage(id)) == s.(events := s.events + Heard(s, MessageHandler, Received(id)))
    ensures Next(s, RemoteWritable(id)) == s.(events := s.events + Heard(s, WritableHandler, Writable(id)))
  {
    hide Dispatch;
    if id in s.peers { assert GoodEntry(s.peers, id); }
    hide Inv;
  }

  /** Delivering the oldest message; without observer, this uses up one of the messages that hold the control. */
  lemma DeliverEffect(s: State)
    requires !s.crashed && (s.registered || s.held > 0)
    ensures s.queue == [] ==> Next(s, Deliver) == s
    ensures s.queue != [] ==>
              Next(s, Deliver) == Dispatch(s.(queue := s.queue[1..], held := if s.registered then s.held else s.held - 1), s.queue[0])
  {
    hide Dispatch;
  }
}
