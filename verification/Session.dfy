/**
  * The PeerApi session: a control object with its message queue and its map of remote peers, the
  * four-state machine of each peer connection, and the user's peer object that observes it.
  *
  * The state is a value and each handler a function on it; `SessionObjects` proves the mutable
  * objects of the library against these functions. This module is about one control; its steps are
  * callbacks from WebRTC and messages posted by any thread, in any order. `SessionRuns` is about the
  * user's peer over all the controls it has in its lifetime.
  */
module Session {
  import opened StringOrder

  type Id = string

  datatype CloseCode = Normal | GoingAway | Abnormal | ProtocolError | SignalError | Uninitialized(bits: nat)

  datatype PeerState = Connecting | Open | Closing | Closed

  /** A peer connection object, as far as the protocol looks at it. */
  datatype Remote = Remote(remoteId: Id, state: PeerState, hasConnection: bool)

  /** One entry of a createoffer command, with the outcome of initializing the connection for it. */
  datatype Entry = BadEntry | Entry(id: Id, initialized: bool)

  /** The answer of the signal server to a channel request. */
  datatype Reply = NoResult | NoName | Failed(name: Id) | Succeeded(name: Id)

  datatype Command =
    | OpenReply(success: bool)
    | ChannelCreate(reply: Reply)
    | ChannelJoin(reply: Reply)
    | PeerClosed(id: Id)
    | CreateOffer(entries: seq<Entry>)
    | OfferSdp(id: Id, initialized: bool)
    | AnswerSdp(id: Id)
    | IceCandidate(id: Id)
    | NoEffect

  /** Queued messages. A closed signal connection is queued like a close, with its own code. */
  datatype Message =
    | MsgCommand(command: Command)
    | MsgClose(code: CloseCode)
    | MsgClosePeer(id: Id, code: CloseCode)
    | MsgOnPeerClose(id: Id, code: CloseCode)

  datatype Handler = OpenHandler | CloseHandler | ConnectHandler | MessageHandler | WritableHandler

  /** Calls of the user's event handlers. */
  datatype UserEvent =
    | Opened(id: Id)
    | ClosedEvent(id: Id, code: CloseCode)
    | Connected(id: Id)
    | Received(id: Id)
    | Writable(id: Id)

  /** Peers entering the map, notifications from closing them, and what is asked of the server about channels. */
  datatype Action = Inserted(id: Id) | Notified(id: Id) | Left(id: Id) | Created(id: Id) | Joined(id: Id)

  /**
    * Every message that is queued while the observer is registered holds a reference to the control,
    * and so does the user's peer. Both kinds end with the registration; `held` counts the messages
    * that were queued before and are still to be delivered.
    */
  datatype State = State(
    name: Id,
    handlers: set<Handler>,
    registered: bool,
    closeOnce: bool,
    peers: map<Id, Remote>,
    queue: seq<Message>,
    held: nat,
    events: seq<UserEvent>,
    actions: seq<Action>,
    crashed: bool)

  function Start(name: Id, handlers: set<Handler>): State {
    State(name, handlers, true, false, map[], [], 0, [], [], false)
  }

  // ----- The user's peer object -----

  function Emit(s: State, h: Handler, e: UserEvent): State {
    if h in s.handlers then s.(events := s.events + [e]) else s
  }

  function PeerOnOpen(s: State, id: Id): State {
    Emit(s.(closeOnce := false), OpenHandler, Opened(id))
  }

  /** The local close is passed on once, and detaches the control; remote closes are always passed on. */
  function PeerOnClose(s: State, id: Id, code: CloseCode): State {
    if id == s.name then
      if s.closeOnce then s
      else Emit(s.(closeOnce := true), CloseHandler, ClosedEvent(id, code)).(registered := false, held := |s.queue|)
    else
      Emit(s, CloseHandler, ClosedEvent(id, code))
  }

  // ----- Control -----

  function OnPeerClose(s: State, id: Id, code: CloseCode): State {
    if s.registered then PeerOnClose(s, id, code) else s
  }

  function Log(s: State, a: Action): State {
    s.(actions := s.actions + [a])
  }

  /** `PeerControl::Close` on a peer that has just been taken out of the map. */
  function CloseRemote(s: State, r: Remote, code: CloseCode): State {
    if r.state == Closing || r.state == Closed then s
    else OnPeerClose(Log(s, Notified(r.remoteId)), r.remoteId, code)
  }

  function ClosePeer(s: State, id: Id, code: CloseCode): State {
    if id !in s.peers then s
    else Log(CloseRemote(s.(peers := s.peers - {id}), s.peers[id], code), Left(id))
  }

  function CloseAll(s: State, ids: seq<Id>, code: CloseCode): State
    decreases |ids|
  {
    if ids == [] then s else CloseAll(ClosePeer(s, ids[0], code), ids[1..], code)
  }

  /** The remote ids of all peers, in the order of the map. */
  ghost function RemoteIds(peers: map<Id, Remote>): (ids: seq<Id>)
    ensures |ids| == |peers|
  {
    var keys := Sorted(peers.Keys);
    seq(|keys|, i requires 0 <= i < |keys| => assert keys[i] in keys; peers[keys[i]].remoteId)
  }

  ghost function Close(s: State, code: CloseCode): State {
    var t := CloseAll(s, RemoteIds(s.peers), code);
    OnPeerClose(t, t.name, code)
  }

  /** A new peer; the map keeps an older entry for the same id. */
  function Insert(s: State, id: Id): State {
    if id in s.peers then s
    else Log(s.(peers := s.peers[id := Remote(id, Connecting, true)]), Inserted(id))
  }

  /** Creates peers one by one and stops at the first entry that is malformed or cannot be initialized. */
  function Offer(s: State, entries: seq<Entry>): State
    decreases |entries|
  {
    if entries == [] || entries[0].BadEntry? then s
    else if !entries[0].initialized then OnPeerClose(s, entries[0].id, Abnormal)
    else Offer(Insert(s, entries[0].id), entries[1..])
  }

  /** A call through a peer's connection pointer. */
  function UseConnection(s: State, id: Id): State {
    if id in s.peers && !s.peers[id].hasConnection then s.(crashed := true) else s
  }

  /** The observer pointer is used without a check here. */
  function OnChannelCreate(s: State, reply: Reply): State {
    if !s.registered then s.(crashed := true)
    else
      match reply
      case NoResult => PeerOnClose(s, s.name, SignalError)
      case NoName => PeerOnClose(s, s.name, SignalError)
      case Failed(name) => PeerOnClose(s, name, SignalError)
      case Succeeded(name) => PeerOnOpen(s, name)
  }

  function OnChannelJoin(s: State, reply: Reply): State {
    match reply
    case Succeeded(_) => s
    case _ =>
      if !s.registered then s.(crashed := true)
      else PeerOnClose(s, if reply.Failed? then reply.name else "", SignalError)
  }

  function OnCommand(s: State, c: Command): State {
    match c
    case OpenReply(success) => if success then Log(s, Created(s.name)) else s
    case ChannelCreate(reply) => OnChannelCreate(s, reply)
    case ChannelJoin(reply) => OnChannelJoin(s, reply)
    case PeerClosed(id) => ClosePeer(s, id, Normal)
    case CreateOffer(entries) => Offer(s, entries)
    case OfferSdp(id, initialized) => Offer(s, [Entry(id, initialized)])
    case AnswerSdp(id) => UseConnection(s, id)
    case IceCandidate(id) => UseConnection(s, id)
    case NoEffect => s
  }

  ghost function Dispatch(s: State, m: Message): State {
    match m
    case MsgCommand(c) => OnCommand(s, c)
    case MsgClose(code) => Close(s, code)
    case MsgClosePeer(id, code) => ClosePeer(s, id, code)
    case MsgOnPeerClose(id, code) => OnPeerClose(s, id, code)
  }

  // ----- Steps -----

  datatype Step =
    | Post(m: Message)          // any thread queues a message, at any time
    | Deliver                   // the message loop takes the oldest message
    | RemoteOpened(id: Id)      // both data channels of a mapped peer are open
    | StrayOpened(id: Id)       // the same for a peer that is not, or no longer, in the map
    | RemoteDisconnected(id: Id)
    | RemoteMessage(id: Id)
    | RemoteWritable(id: Id)

  function Notify(s: State, h: Handler, e: UserEvent): State {
    if s.registered then Emit(s, h, e) else s
  }

  function ConnectedBoth(s: State, id: Id): State {
    Notify(Notify(s, ConnectHandler, Connected(id)), WritableHandler, Writable(s.name))
  }

  /** Nothing refers to the control any more: it is destroyed, together with its peers. */
  predicate Dead(s: State) {
    !s.registered && s.held == 0
  }

  /** The oldest message is taken out of the queue. */
  function Taken(s: State): State
    requires s.queue != []
  {
    s.(queue := s.queue[1..], held := if s.registered || s.held == 0 then s.held else s.held - 1)
  }

  ghost function Next(s: State, step: Step): State {
    if s.crashed || Dead(s) then s
    else
      match step
      case Post(m) => s.(queue := s.queue + [m])
      case Deliver => if s.queue == [] then s else Dispatch(Taken(s), s.queue[0])
      case RemoteOpened(id) =>
        if id in s.peers then
          var r := s.peers[id];
          ConnectedBoth(s.(peers := s.peers[id := r.(state := Open)]), r.remoteId)
        else s
      case StrayOpened(id) => ConnectedBoth(s, id)
      case RemoteDisconnected(id) =>
        if id in s.peers && (s.peers[id].state == Connecting || s.peers[id].state == Open)
        then s.(queue := s.queue + [MsgClosePeer(s.peers[id].remoteId, GoingAway)])
        else s
      case RemoteMessage(id) => Notify(s, MessageHandler, Received(id))
      case RemoteWritable(id) => Notify(s, WritableHandler, Writable(id))
  }

  // ----- The invariant of every control -----

  ghost predicate GoodEntry(peers: map<Id, Remote>, id: Id)
    requires id in peers
  {
    peers[id].remoteId == id && peers[id].hasConnection && (peers[id].state == Connecting || peers[id].state == Open)
  }

  ghost predicate GoodPeers(peers: map<Id, Remote>) {
    forall id | id in peers :: GoodEntry(peers, id)
  }

  /** Every insertion is matched by one close notification and one leavechannel, or is still in the map. */
  ghost predicate Balanced(s: State, id: Id) {
    && multiset(s.actions)[Inserted(id)] == multiset(s.actions)[Notified(id)] + (if id in s.peers then 1 else 0)
    && multiset(s.actions)[Left(id)] == multiset(s.actions)[Notified(id)]
  }

  ghost predicate Inv(s: State) {
    GoodPeers(s.peers) && forall id :: Balanced(s, id)
  }

  /** What calls into the user's peer leave alone. */
  ghost predicate SameControl(s: State, t: State) {
    t.peers == s.peers && t.actions == s.actions && t.queue == s.queue && t.name == s.name && t.handlers == s.handlers
    && t.crashed == s.crashed
  }

  lemma ObserverCalls(s: State, id: Id, code: CloseCode)
    ensures SameControl(s, PeerOnOpen(s, id)) && SameControl(s, PeerOnClose(s, id, code)) && SameControl(s, OnPeerClose(s, id, code))
  {
    EmitOnly(s.(closeOnce := false), OpenHandler, Opened(id));
    EmitOnly(s.(closeOnce := true), CloseHandler, ClosedEvent(id, code));
    EmitOnly(s, CloseHandler, ClosedEvent(id, code));
    hide Emit;
  }

  lemma EmitOnly(s: State, h: Handler, e: UserEvent)
    ensures SameControl(s, Emit(s, h, e)) && Emit(s, h, e).closeOnce == s.closeOnce && Emit(s, h, e).registered == s.registered
  {
  }

  lemma InvFrame(s: State, t: State)
    requires Inv(s) && t.peers == s.peers && t.actions == s.actions
    ensures Inv(t)
  {
    forall id ensures Balanced(t, id) { assert Balanced(s, id); }
  }

  /** Closing a mapped peer, spelled out: one notification, one leavechannel, and the entry is gone. */
  lemma ClosePeerEffect(s: State, id: Id, code: CloseCode)
    requires Inv(s) && id in s.peers
    ensures var t := ClosePeer(s, id, code);
            && t.peers == s.peers - {id} && t.actions == s.actions + [Notified(id), Left(id)]
            && t.queue == s.queue && t.name == s.name && t.handlers == s.handlers && t.crashed == s.crashed
            && t.registered == OnPeerClose(s, id, code).registered && t.closeOnce == OnPeerClose(s, id, code).closeOnce
            && t.events == OnPeerClose(s, id, code).events && t.held == OnPeerClose(s, id, code).held
  {
    assert GoodEntry(s.peers, id);
    var u := Log(s.(peers := s.peers - {id}), Notified(id));
    ObserverCalls(u, id, code);
    ObserverView(s, u, id, code);
    hide OnPeerClose;
    assert s.actions + [Notified(id)] + [Left(id)] == s.actions + [Notified(id), Left(id)];
  }

  /** What the user sees of a close depends on the user's side of the state only. */
  lemma ObserverView(s: State, t: State, id: Id, code: CloseCode)
    requires s.name == t.name && s.handlers == t.handlers && s.registered == t.registered
    requires s.closeOnce == t.closeOnce && s.events == t.events && s.held == t.held && s.queue == t.queue
    ensures var (s', t') := (OnPeerClose(s, id, code), OnPeerClose(t, id, code));
            s'.registered == t'.registered && s'.closeOnce == t'.closeOnce && s'.events == t'.events && s'.held == t'.held
  {
  }

  lemma BalancedClose(s: State, t: State, id: Id)
    requires id in s.peers && t.peers == s.peers - {id} && t.actions == s.actions + [Notified(id), Left(id)]
    requires forall x :: Balanced(s, x)
    ensures forall x :: Balanced(t, x)
  {
    assert multiset(t.actions) == multiset(s.actions) + multiset{Notified(id), Left(id)};
    forall x ensures Balanced(t, x) { assert Balanced(s, x); }
  }

  lemma ClosePeerInv(s: State, id: Id, code: CloseCode)
    requires Inv(s)
    ensures Inv(ClosePeer(s, id, code))
  {
    if id in s.peers {
      ClosePeerEffect(s, id, code);
      var t := ClosePeer(s, id, code);
      BalancedClose(s, t, id);
      hide ClosePeer, OnPeerClose;
      forall x | x in t.peers ensures GoodEntry(t.peers, x) { assert GoodEntry(s.peers, x); }
    }
  }

  lemma {:induction false} CloseAllInv(s: State, ids: seq<Id>, code: CloseCode)
    requires Inv(s)
    ensures Inv(CloseAll(s, ids, code))
    decreases |ids|
  {
    hide Inv, ClosePeer;
    if ids != [] {
      ClosePeerInv(s, ids[0], code);
      CloseAllInv(ClosePeer(s, ids[0], code), ids[1..], code);
    }
  }

  lemma InsertInv(s: State, id: Id)
    requires Inv(s)
    ensures Inv(Insert(s, id))
  {
    var t := Insert(s, id);
    forall x ensures Balanced(t, x) { assert Balanced(s, x); }
    forall x | x in t.peers ensures GoodEntry(t.peers, x) {
      if x in s.peers { assert GoodEntry(s.peers, x); }
    }
  }

  lemma {:induction false} OfferInv(s: State, entries: seq<Entry>)
    requires Inv(s)
    ensures Inv(Offer(s, entries))
    decreases |entries|
  {
    hide Inv, Insert, OnPeerClose;
    if entries != [] && entries[0].Entry? {
      var id := entries[0].id;
      if entries[0].initialized {
        InsertInv(s, id);
        OfferInv(Insert(s, id), entries[1..]);
      } else {
        ObserverCalls(s, id, Abnormal);
        InvFrame(s, OnPeerClose(s, id, Abnormal));
      }
    }
  }

  /** Asking the server for a channel leaves the map and the balance alone. */
  lemma RequestInv(s: State, a: Action)
    requires Inv(s) && (a.Created? || a.Joined?)
    ensures Inv(Log(s, a))
  {
    var t := Log(s, a);
    forall id ensures Balanced(t, id) {
      assert Balanced(s, id);
      assert multiset(t.actions) == multiset(s.actions) + multiset{a};
    }
  }

  lemma OnCommandInv(s: State, c: Command)
    requires Inv(s)
    ensures Inv(OnCommand(s, c))
  {
    hide Inv, ClosePeer, Offer, PeerOnClose, PeerOnOpen;
    match c
    case OpenReply(_) => RequestInv(s, Created(s.name));
    case PeerClosed(id) => ClosePeerInv(s, id, Normal);
    case CreateOffer(entries) => OfferInv(s, entries);
    case OfferSdp(id, initialized) => OfferInv(s, [Entry(id, initialized)]);
    case ChannelCreate(reply) =>
      ObserverCalls(s, s.name, SignalError);
      if reply.Failed? || reply.Succeeded? { ObserverCalls(s, reply.name, SignalError); }
      InvFrame(s, OnCommand(s, c));
    case ChannelJoin(reply) =>
      ObserverCalls(s, if reply.Failed? then reply.name else "", SignalError);
      InvFrame(s, OnCommand(s, c));
    case _ => InvFrame(s, OnCommand(s, c));
  }

  lemma DispatchInv(s: State, m: Message)
    requires Inv(s)
    ensures Inv(Dispatch(s, m))
  {
    hide Inv, ClosePeer, OnCommand, OnPeerClose, CloseAll, RemoteIds;
    match m
    case MsgCommand(c) => OnCommandInv(s, c);
    case MsgClose(code) =>
      var t := CloseAll(s, RemoteIds(s.peers), code);
      CloseAllInv(s, RemoteIds(s.peers), code);
      ObserverCalls(t, t.name, code);
      InvFrame(t, OnPeerClose(t, t.name, code));
    case MsgClosePeer(id, code) => ClosePeerInv(s, id, code);
    case MsgOnPeerClose(id, code) =>
      ObserverCalls(s, id, code);
      InvFrame(s, OnPeerClose(s, id, code));
  }

  lemma RemoteOpenedInv(s: State, id: Id)
    requires Inv(s) && id in s.peers
    ensures Inv(s.(peers := s.peers[id := s.peers[id].(state := Open)]))
  {
    var t := s.(peers := s.peers[id := s.peers[id].(state := Open)]);
    assert GoodEntry(s.peers, id);
    forall x | x in t.peers ensures GoodEntry(t.peers, x) { assert GoodEntry(s.peers, x); }
    forall x ensures Balanced(t, x) { assert Balanced(s, x); }
  }

  lemma FreshInv(s: State)
    requires s.peers == map[] && s.actions == []
    ensures Inv(s)
  {
    forall x ensures Balanced(s, x) {}
  }

  lemma NotifyOnly(s: State, h: Handler, e: UserEvent, id: Id)
    ensures SameControl(s, Notify(s, h, e)) && SameControl(s, ConnectedBoth(s, id))
  {
    EmitOnly(s, h, e);
    EmitOnly(s, ConnectHandler, Connected(id));
    var t := Notify(s, ConnectHandler, Connected(id));
    EmitOnly(t, WritableHandler, Writable(s.name));
    hide Emit;
  }

  lemma NextInv(s: State, step: Step)
    requires Inv(s)
    ensures Inv(Next(s, step))
  {
    hide Inv, Dispatch, ConnectedBoth, Notify;
    if !s.crashed && !Dead(s) {
      match step
      case Post(m) => InvFrame(s, Next(s, step));
      case Deliver =>
        if s.queue != [] {
          InvFrame(s, Taken(s));
          DispatchInv(Taken(s), s.queue[0]);
        }
      case RemoteOpened(id) =>
        if id in s.peers {
          RemoteOpenedInv(s, id);
          var t := s.(peers := s.peers[id := s.peers[id].(state := Open)]);
          NotifyOnly(t, OpenHandler, Opened(id), s.peers[id].remoteId);
          InvFrame(t, ConnectedBoth(t, s.peers[id].remoteId));
        }
      case StrayOpened(id) =>
        NotifyOnly(s, OpenHandler, Opened(id), id);
        InvFrame(s, Next(s, step));
      case RemoteDisconnected(id) => InvFrame(s, Next(s, step));
      case RemoteMessage(id) =>
        NotifyOnly(s, MessageHandler, Received(id), id);
        InvFrame(s, Next(s, step));
      case RemoteWritable(id) =>
        NotifyOnly(s, WritableHandler, Writable(id), id);
        InvFrame(s, Next(s, step));
    }
  }

  // ----- Closing everything -----

  function CloseEvents(ids: seq<Id>, code: CloseCode): (es: seq<UserEvent>)
    ensures |es| == |ids|
    decreases |ids|
  {
    if ids == [] then [] else [ClosedEvent(ids[0], code)] + CloseEvents(ids[1..], code)
  }

  ghost predicate Distinct(ids: seq<Id>) {
    forall i, j | 0 <= i < j < |ids| :: ids[i] != ids[j]
  }

  lemma RemoteIdsAreKeys(peers: map<Id, Remote>)
    requires GoodPeers(peers)
    ensures RemoteIds(peers) == Sorted(peers.Keys) && Distinct(RemoteIds(peers))
    ensures forall id :: id in RemoteIds(peers) <==> id in peers
  {
    var keys := Sorted(peers.Keys);
    forall i | 0 <= i < |keys| ensures RemoteIds(peers)[i] == keys[i] {
      assert keys[i] in keys;
      assert GoodEntry(peers, keys[i]);
    }
    forall i, j | 0 <= i < j < |keys| ensures keys[i] != keys[j] { SortedDistinct(peers.Keys, i, j); }
  }

  /** The close loop takes all listed peers out of the map. */
  lemma {:induction false} CloseAllEmpties(s: State, ids: seq<Id>, code: CloseCode)
    requires Inv(s)
    ensures var t := CloseAll(s, ids, code);
            && t.peers == s.peers - (set id | id in ids)
            && t.queue == s.queue && t.name == s.name && t.handlers == s.handlers && t.crashed == s.crashed
    decreases |ids|
  {
    hide Inv, OnPeerClose;
    if ids == [] {
      assert s.peers - (set id | id in ids) == s.peers;
    } else {
      var id, rest := ids[0], ids[1..];
      if id in s.peers { ClosePeerEffect(s, id, code); }
      ClosePeerInv(s, id, code);
      var u := ClosePeer(s, id, code);
      assert u.peers == s.peers - {id};
      hide ClosePeer;
      CloseAllEmpties(u, rest, code);
      assert (set x | x in ids) == {id} + (set x | x in rest);
    }
  }

  lemma RemoteCloseSeen(s: State, id: Id, code: CloseCode)
    requires s.registered && CloseHandler in s.handlers && id != s.name
    ensures OnPeerClose(s, id, code) == s.(events := s.events + [ClosedEvent(id, code)])
  {
  }

  /** The ids up to the first `name`, included. */
  function UpTo(ids: seq<Id>, name: Id): (r: seq<Id>)
    ensures r <= ids && (name in ids ==> r != [] && r[|r| - 1] == name && name !in r[..|r| - 1])
    ensures name !in ids ==> r == ids
    decreases |ids|
  {
    if ids == [] then []
    else if ids[0] == name then [name]
    else
      var rest := UpTo(ids[1..], name);
      assert rest != [] ==> ([ids[0]] + rest)[..|rest|] == [ids[0]] + rest[..|rest| - 1];
      [ids[0]] + rest
  }

  /** The ids other than `name`. */
  function Without(ids: seq<Id>, name: Id): (r: seq<Id>)
    ensures |r| <= |ids| && name !in r && (forall id :: id in r <==> id in ids && id != name)
    ensures name !in ids ==> r == ids
    decreases |ids|
  {
    if ids == [] then []
    else if ids[0] == name then Without(ids[1..], name)
    else [ids[0]] + Without(ids[1..], name)
  }

  lemma LocalCloseSeen(s: State, code: CloseCode)
    requires s.registered && CloseHandler in s.handlers
    ensures var t := OnPeerClose(s, s.name, code);
            if s.closeOnce then t == s else !t.registered && t.events == s.events + [ClosedEvent(s.name, code)]
  {
  }

  lemma EventsCons(events: seq<UserEvent>, id: Id, rest: seq<Id>, code: CloseCode)
    ensures events + CloseEvents([id] + rest, code) == events + [ClosedEvent(id, code)] + CloseEvents(rest, code)
  {
    assert ([id] + rest)[1..] == rest;
  }

  lemma NoReports(code: CloseCode)
    ensures CloseEvents([], code) == []
  {
  }

  lemma RestDistinct(ids: seq<Id>)
    requires ids != [] && Distinct(ids)
    ensures Distinct(ids[1..]) && forall i | 0 <= i < |ids| - 1 :: ids[1..][i] == ids[i + 1] != ids[0]
  {
  }

  lemma OwnNameFirst(s: State, ids: seq<Id>, code: CloseCode)
    requires Inv(s) && s.registered && CloseHandler in s.handlers && !s.closeOnce
    requires ids != [] && ids[0] == s.name && s.name in s.peers
    ensures var t := CloseAll(s, ids, code); !t.registered && t.events == s.events + CloseEvents(UpTo(ids, s.name), code)
  {
    hide Inv, ClosePeer, OnPeerClose, CloseEvents;
    ClosePeerEffect(s, s.name, code);
    LocalCloseSeen(s, code);
    CloseAllKeeps(ClosePeer(s, s.name, code), ids[1..], code);
    EventsCons(s.events, s.name, [], code);
    NoReports(code);
    assert [s.name] + [] == [s.name];
  }

  /**
    * What the user sees of the close loop: every listed peer once, in order. A peer with the user's own
    * name counts as the local close: it ends the reports, or is left out if that was reported before.
    */
  lemma {:induction false} CloseAllReports(s: State, ids: seq<Id>, code: CloseCode)
    requires Inv(s) && s.registered && CloseHandler in s.handlers
    requires Distinct(ids) && forall i | 0 <= i < |ids| :: ids[i] in s.peers
    ensures var t := CloseAll(s, ids, code);
            if s.closeOnce then t.registered && t.closeOnce && t.events == s.events + CloseEvents(Without(ids, s.name), code)
            else if s.name in ids then !t.registered && t.events == s.events + CloseEvents(UpTo(ids, s.name), code)
            else t.registered && !t.closeOnce && t.events == s.events + CloseEvents(ids, code)
    decreases |ids|
  {
    hide Inv, ClosePeer, OnPeerClose, CloseEvents;
    if ids == [] {
      NoReports(code);
    } else {
      var id, rest := ids[0], ids[1..];
      ClosePeerEffect(s, id, code);
      ClosePeerInv(s, id, code);
      var u := ClosePeer(s, id, code);
      RestDistinct(ids);
      hide Distinct;
      if id == s.name && !s.closeOnce {
        OwnNameFirst(s, ids, code);
      } else {
        if id == s.name {
          LocalCloseSeen(s, code);
        } else {
          RemoteCloseSeen(s, id, code);
          EventsCons(s.events, id, rest, code);
          EventsCons(s.events, id, UpTo(rest, s.name), code);
          EventsCons(s.events, id, Without(rest, s.name), code);
        }
        CloseAllReports(u, rest, code);
        assert ids == [id] + rest;
      }
    }
  }

  /** Executing a close empties the map, whatever the user's side looks like. */
  lemma CloseEmpties(s: State, code: CloseCode)
    requires Inv(s)
    ensures Close(s, code).peers == map[]
  {
    hide Inv, CloseAll, OnPeerClose, RemoteIds;
    var ids := RemoteIds(s.peers);
    GoodPeersOf(s);
    RemoteIdsAreKeys(s.peers);
    CloseAllEmpties(s, ids, code);
    var t := CloseAll(s, ids, code);
    ObserverCalls(t, t.name, code);
    assert t.peers.Keys == {};
  }

  lemma GoodPeersOf(s: State)
    requires Inv(s)
    ensures GoodPeers(s.peers)
  {
  }

  lemma {:induction false} EventsSnoc(ids: seq<Id>, id: Id, code: CloseCode)
    ensures CloseEvents(ids + [id], code) == CloseEvents(ids, code) + [ClosedEvent(id, code)]
    decreases |ids|
  {
    if ids == [] {
      assert [] + [id] == [id] && [id][1..] == [];
    } else {
      assert (ids + [id])[1..] == ids[1..] + [id];
      EventsSnoc(ids[1..], id, code);
    }
  }

  lemma {:induction false} OwnNameLast(ids: seq<Id>, name: Id)
    ensures UpTo(ids + [name], name) == if name in ids then UpTo(ids, name) else ids + [name]
    decreases |ids|
  {
    if ids == [] {
      assert [] + [name] == [name];
    } else {
      assert (ids + [name])[1..] == ids[1..] + [name];
      OwnNameLast(ids[1..], name);
    }
  }

  /** The ids that a close is reported for, the user's own name standing for the local close. */
  function Reported(ids: seq<Id>, name: Id, closeOnce: bool): seq<Id> {
    if closeOnce then Without(ids, name) else UpTo(ids + [name], name)
  }

  lemma CompleteReports(events: seq<UserEvent>, ids: seq<Id>, name: Id, closeOnce: bool, code: CloseCode)
    ensures events + CloseEvents(Reported(ids, name, closeOnce), code) == events + CloseEvents(ids + [name], code)
            <==> name !in ids && !closeOnce
  {
    hide CloseEvents, UpTo, Without;
    OwnNameLast(ids, name);
    var some, all := CloseEvents(Reported(ids, name, closeOnce), code), CloseEvents(ids + [name], code);
    assert |events + some| == |events| + |Reported(ids, name, closeOnce)| && |events + all| == |events| + |ids| + 1;
  }

  lemma CloseIsSeen(s: State, ids: seq<Id>, code: CloseCode)
    requires Inv(s) && s.registered && CloseHandler in s.handlers
    requires Distinct(ids) && forall i | 0 <= i < |ids| :: ids[i] in s.peers
    ensures var t := OnPeerClose(CloseAll(s, ids, code), s.name, code);
            t.registered == s.closeOnce && t.events == s.events + CloseEvents(Reported(ids, s.name, s.closeOnce), code)
  {
    hide Inv, CloseAll, CloseEvents, OnPeerClose, UpTo, Without, Distinct;
    CloseAllReports(s, ids, code);
    var t := CloseAll(s, ids, code);
    CloseAllUser(s, ids, code);
    OwnNameLast(ids, s.name);
    if s.closeOnce {
      LocalCloseSeen(t, code);
    } else if s.name in ids {
      UnobservedClose(t, code);
    } else {
      LocalCloseSeen(t, code);
      EventsSnoc(ids, s.name, code);
      Append(s.events, CloseEvents(ids, code), [ClosedEvent(s.name, code)]);
    }
  }

  lemma CloseAllUser(s: State, ids: seq<Id>, code: CloseCode)
    requires Inv(s)
    ensures CloseAll(s, ids, code).name == s.name && CloseAll(s, ids, code).handlers == s.handlers
  {
    CloseAllEmpties(s, ids, code);
  }

  lemma UnobservedClose(s: State, code: CloseCode)
    requires !s.registered
    ensures OnPeerClose(s, s.name, code) == s
  {
  }

  lemma Append(a: seq<UserEvent>, b: seq<UserEvent>, c: seq<UserEvent>)
    ensures a + b + c == a + (b + c)
  {
  }

  /**
    * What the user sees of executing a close, with a registered observer: every mapped peer once, with
    * the given code and in map order, and then the local close. A peer with the user's own name ends
    * the reports early. If a local close was reported since the last open, none is reported now, such
    * a peer is left out, and the observer stays registered. So the reports are complete exactly when
    * no mapped peer has the user's own name and no local close was reported since the last open.
    */
  lemma CloseReports(s: State, code: CloseCode)
    requires Inv(s) && s.registered && CloseHandler in s.handlers
    ensures var t, ids := Close(s, code), Sorted(s.peers.Keys);
            && t.registered == s.closeOnce
            && (!s.closeOnce ==> t.events == s.events + CloseEvents(UpTo(ids + [s.name], s.name), code))
            && (s.closeOnce ==> t.events == s.events + CloseEvents(Without(ids, s.name), code))
            && (t.events == s.events + CloseEvents(ids + [s.name], code) <==> s.name !in s.peers && !s.closeOnce)
  {
    hide Inv, CloseAll, RemoteIds, CloseEvents, OnPeerClose, Sorted, UpTo, Without;
    var ids := RemoteIds(s.peers);
    GoodPeersOf(s);
    RemoteIdsAreKeys(s.peers);
    assert forall i | 0 <= i < |ids| :: ids[i] in ids;
    CloseAllEmpties(s, ids, code);
    CloseIsSeen(s, ids, code);
    CompleteReports(s.events, ids, s.name, s.closeOnce, code);
  }

  lemma CloseOfEmpty(s: State, code: CloseCode)
    requires s.peers == map[] && s.registered
    ensures Close(s, code)
            == if s.closeOnce then s
               else s.(closeOnce := true, registered := false, held := |s.queue|,
                       events := if CloseHandler in s.handlers then s.events + [ClosedEvent(s.name, code)] else s.events)
  {
    assert RemoteIds(s.peers) == [];
  }

  // ----- After the local close -----

  /** The queue stays. A local close leaves the queued messages holding the control; without observer nothing is reported. */
  ghost predicate Keeps(s: State, t: State) {
    && t.queue == s.queue
    && (s.registered ==> t.registered || t.held == |s.queue|)
    && (!s.registered ==> !t.registered && t.held == s.held && t.events == s.events && t.closeOnce == s.closeOnce)
  }

  lemma ObserverKeeps(s: State, id: Id, code: CloseCode)
    ensures Keeps(s, OnPeerClose(s, id, code))
    ensures s.registered ==> Keeps(s, PeerOnClose(s, id, code)) && Keeps(s, PeerOnOpen(s, id))
  {
  }

  lemma ClosePeerKeeps(s: State, id: Id, code: CloseCode)
    ensures Keeps(s, ClosePeer(s, id, code))
  {
    if id in s.peers {
      ObserverKeeps(Log(s.(peers := s.peers - {id}), Notified(s.peers[id].remoteId)), s.peers[id].remoteId, code);
      hide OnPeerClose;
    }
  }

  lemma {:induction false} CloseAllKeeps(s: State, ids: seq<Id>, code: CloseCode)
    ensures Keeps(s, CloseAll(s, ids, code))
    decreases |ids|
  {
    hide ClosePeer;
    if ids != [] {
      ClosePeerKeeps(s, ids[0], code);
      CloseAllKeeps(ClosePeer(s, ids[0], code), ids[1..], code);
    }
  }

  lemma {:induction false} OfferKeeps(s: State, entries: seq<Entry>)
    ensures Keeps(s, Offer(s, entries))
    decreases |entries|
  {
    hide OnPeerClose;
    if entries != [] && entries[0].Entry? {
      ObserverKeeps(s, entries[0].id, Abnormal);
      if entries[0].initialized {
        OfferKeeps(Insert(s, entries[0].id), entries[1..]);
      }
    }
  }

  lemma OnCommandKeeps(s: State, c: Command)
    ensures Keeps(s, OnCommand(s, c))
  {
    hide ClosePeer, Offer, PeerOnClose, PeerOnOpen;
    match c
    case PeerClosed(id) => ClosePeerKeeps(s, id, Normal);
    case CreateOffer(entries) => OfferKeeps(s, entries);
    case OfferSdp(id, initialized) => OfferKeeps(s, [Entry(id, initialized)]);
    case ChannelCreate(reply) =>
      ObserverKeeps(s, s.name, SignalError);
      if reply.Failed? || reply.Succeeded? { ObserverKeeps(s, reply.name, SignalError); }
    case ChannelJoin(reply) => ObserverKeeps(s, if reply.Failed? then reply.name else "", SignalError);
    case _ =>
  }

  lemma DispatchKeeps(s: State, m: Message)
    ensures Keeps(s, Dispatch(s, m))
  {
    hide CloseAll, RemoteIds, OnCommand, OnPeerClose, ClosePeer;
    match m
    case MsgCommand(c) => OnCommandKeeps(s, c);
    case MsgClose(code) =>
      var t := CloseAll(s, RemoteIds(s.peers), code);
      CloseAllKeeps(s, RemoteIds(s.peers), code);
      ObserverKeeps(t, t.name, code);
    case MsgClosePeer(id, code) => ClosePeerKeeps(s, id, code);
    case MsgOnPeerClose(id, code) => ObserverKeeps(s, id, code);
  }

  /** The messages that hold a detached control are in its queue. */
  ghost predicate Accounted(s: State) {
    s.registered || s.held <= |s.queue|
  }

  /** Passing on an event changes nothing but the user's events, and those only with an observer. */
  ghost predicate OnlyEvents(s: State, t: State) {
    t.registered == s.registered && t.held == s.held && t.queue == s.queue && t.closeOnce == s.closeOnce && (!s.registered ==> t == s)
  }

  lemma NotifyEvents(s: State, h: Handler, e: UserEvent, id: Id)
    ensures OnlyEvents(s, Notify(s, h, e)) && OnlyEvents(s, ConnectedBoth(s, id))
  {
  }

  /** What a step leaves of the registration and of the messages that hold the control. */
  lemma NextKeeps(s: State, step: Step)
    requires !s.crashed && !Dead(s)
    ensures var t := Next(s, step);
            if step.Deliver? then (s.queue == [] ==> t == s) && (s.queue != [] ==> Keeps(Taken(s), t))
            else t.registered == s.registered && t.held == s.held && s.queue <= t.queue
                 && (!s.registered ==> t.events == s.events && t.closeOnce == s.closeOnce)
  {
    hide Dispatch, Notify, ConnectedBoth, Keeps;
    match step
    case Deliver => if s.queue != [] { DispatchKeeps(Taken(s), s.queue[0]); }
    case RemoteOpened(id) =>
      if id in s.peers {
        NotifyEvents(s.(peers := s.peers[id := s.peers[id].(state := Open)]), OpenHandler, Opened(id), s.peers[id].remoteId);
      }
    case StrayOpened(id) => NotifyEvents(s, OpenHandler, Opened(id), id);
    case RemoteMessage(id) => NotifyEvents(s, MessageHandler, Received(id), id);
    case RemoteWritable(id) => NotifyEvents(s, WritableHandler, Writable(id), id);
    case _ =>
  }

  lemma NextAccounted(s: State, step: Step)
    requires Accounted(s)
    ensures Accounted(Next(s, step))
  {
    hide Next;
    if s.crashed || Dead(s) {
      NextStops(s, step);
    } else {
      NextKeeps(s, step);
    }
  }

  lemma NextStops(s: State, step: Step)
    requires s.crashed || Dead(s)
    ensures Next(s, step) == s
  {
  }

  /**
    * A detached control reports nothing to the user, whatever is still queued or arrives, and is not
    * attached again. Each delivery uses up one of the messages that hold it, and nothing adds one.
    */
  lemma NextDetached(s: State, step: Step)
    requires !s.registered && Accounted(s)
    ensures var t := Next(s, step);
            && !t.registered && t.events == s.events && t.closeOnce == s.closeOnce
            && t.held == if step.Deliver? && !s.crashed && s.held > 0 then s.held - 1 else s.held
  {
    hide Next;
    if s.crashed || Dead(s) {
      NextStops(s, step);
    } else {
      NextKeeps(s, step);
    }
  }

  // ----- Null pointers -----

  /** A channel reply that is about to be reported to an observer that is gone. */
  ghost predicate Fatal(s: State, m: Message) {
    && !s.registered && m.MsgCommand?
    && (m.command.ChannelCreate? || (m.command.ChannelJoin? && !m.command.reply.Succeeded?))
  }

  lemma {:induction false} OfferKeepsRunning(s: State, entries: seq<Entry>)
    ensures Offer(s, entries).crashed == s.crashed
    decreases |entries|
  {
    if entries != [] && entries[0].Entry? && entries[0].initialized {
      OfferKeepsRunning(Insert(s, entries[0].id), entries[1..]);
    }
  }

  /** Handling a message goes through a null pointer exactly when it is such a reply; peers never cause it. */
  lemma CrashExactly(s: State, m: Message)
    requires Inv(s) && !s.crashed
    ensures Dispatch(s, m).crashed <==> Fatal(s, m)
  {
    hide CloseAll, RemoteIds, Offer;
    match m
    case MsgClose(code) =>
      CloseAllEmpties(s, RemoteIds(s.peers), code);
    case MsgCommand(c) =>
      if c.CreateOffer? { OfferKeepsRunning(s, c.entries); }
      if c.OfferSdp? { OfferKeepsRunning(s, [Entry(c.id, c.initialized)]); }
      if (c.AnswerSdp? || c.IceCandidate?) && c.id in s.peers { assert GoodEntry(s.peers, c.id); }
    case MsgClosePeer(id, code) =>
      if id in s.peers { ClosePeerEffect(s, id, code); }
    case MsgOnPeerClose(id, code) =>
      ObserverCalls(s, id, code);
  }

  /** Delivering such a reply to a control that still exists. */
  ghost predicate FatalDelivery(s: State, step: Step) {
    !s.crashed && !Dead(s) && step.Deliver? && s.queue != [] && Fatal(Taken(s), s.queue[0])
  }

  /** A step of a control goes through a null pointer exactly when it is such a delivery. */
  lemma NextCrashes(s: State, step: Step)
    requires Inv(s)
    ensures Next(s, step).crashed <==> s.crashed || FatalDelivery(s, step)
  {
    hide Dispatch, Inv, ConnectedBoth, Notify;
    if !s.crashed && !Dead(s) {
      match step
      case Deliver =>
        if s.queue != [] {
          InvFrame(s, Taken(s));
          CrashExactly(Taken(s), s.queue[0]);
        }
      case RemoteOpened(id) =>
        if id in s.peers {
          NotifyOnly(s.(peers := s.peers[id := s.peers[id].(state := Open)]), OpenHandler, Opened(id), s.peers[id].remoteId);
        }
      case StrayOpened(id) => NotifyOnly(s, OpenHandler, Opened(id), id);
      case RemoteMessage(id) => NotifyOnly(s, MessageHandler, Received(id), id);
      case RemoteWritable(id) => NotifyOnly(s, WritableHandler, Writable(id), id);
      case _ =>
    }
  }

  // ----- One local close per open -----

  predicate LocalClose(e: UserEvent, name: Id) {
    e.ClosedEvent? && e.id == name
  }

  /** The number of local close events since the last open event. */
  function ClosesSinceOpen(events: seq<UserEvent>, name: Id): nat {
    if events == [] || events[|events| - 1].Opened? then 0
    else ClosesSinceOpen(events[..|events| - 1], name) + if LocalClose(events[|events| - 1], name) then 1 else 0
  }

  /** Whenever a local close is reported, none was reported since the last open. */
  ghost predicate Spaced(events: seq<UserEvent>, name: Id) {
    events != [] ==>
      var init, last := events[..|events| - 1], events[|events| - 1];
      Spaced(init, name) && (LocalClose(last, name) ==> ClosesSinceOpen(init, name) == 0)
  }

  ghost predicate Remembers(s: State, name: Id) {
    && s.name == name && OpenHandler in s.handlers && CloseHandler in s.handlers
    && Spaced(s.events, name)
    && ClosesSinceOpen(s.events, name) == if s.closeOnce then 1 else 0
  }

  ghost predicate SameUser(s: State, t: State) {
    t.name == s.name && t.handlers == s.handlers && t.events == s.events && t.closeOnce == s.closeOnce
  }

  lemma RemembersFrame(s: State, t: State, name: Id)
    requires Remembers(s, name) && SameUser(s, t)
    ensures Remembers(t, name)
  {
  }

  lemma EmitRemembers(s: State, h: Handler, e: UserEvent, name: Id)
    requires Remembers(s, name) && !e.Opened? && !LocalClose(e, name)
    ensures Remembers(Emit(s, h, e), name)
  {
    assert (s.events + [e])[..|s.events|] == s.events;
  }

  lemma PeerRemembers(s: State, id: Id, code: CloseCode, name: Id)
    requires Remembers(s, name)
    ensures Remembers(PeerOnClose(s, id, code), name) && Remembers(PeerOnOpen(s, id), name) && Remembers(OnPeerClose(s, id, code), name)
  {
    hide ClosesSinceOpen, Spaced;
    LocalCloseCounts(s.events, id, code, name);
    OpenResets(s.events, id, name);
  }

  lemma LocalCloseCounts(events: seq<UserEvent>, id: Id, code: CloseCode, name: Id)
    requires Spaced(events, name)
    ensures var e := events + [ClosedEvent(id, code)];
            && ClosesSinceOpen(e, name) == ClosesSinceOpen(events, name) + (if id == name then 1 else 0)
            && (id != name || ClosesSinceOpen(events, name) == 0 ==> Spaced(e, name))
  {
    assert (events + [ClosedEvent(id, code)])[..|events|] == events;
  }

  lemma OpenResets(events: seq<UserEvent>, id: Id, name: Id)
    requires Spaced(events, name)
    ensures ClosesSinceOpen(events + [Opened(id)], name) == 0 && Spaced(events + [Opened(id)], name)
  {
    assert (events + [Opened(id)])[..|events|] == events;
  }

  lemma ClosePeerRemembers(s: State, id: Id, code: CloseCode, name: Id)
    requires Remembers(s, name)
    ensures Remembers(ClosePeer(s, id, code), name)
  {
    hide Remembers, OnPeerClose;
    if id in s.peers {
      var r := s.peers[id];
      var u := s.(peers := s.peers - {id});
      var v := Log(u, Notified(r.remoteId));
      RemembersFrame(s, u, name);
      RemembersFrame(s, v, name);
      PeerRemembers(v, r.remoteId, code, name);
      var w := CloseRemote(u, r, code);
      RemembersFrame(w, Log(w, Left(id)), name);
    }
  }

  lemma {:induction false} CloseAllRemembers(s: State, ids: seq<Id>, code: CloseCode, name: Id)
    requires Remembers(s, name)
    ensures Remembers(CloseAll(s, ids, code), name)
    decreases |ids|
  {
    hide Remembers, ClosePeer;
    if ids != [] {
      ClosePeerRemembers(s, ids[0], code, name);
      CloseAllRemembers(ClosePeer(s, ids[0], code), ids[1..], code, name);
    }
  }

  lemma {:induction false} OfferRemembers(s: State, entries: seq<Entry>, name: Id)
    requires Remembers(s, name)
    ensures Remembers(Offer(s, entries), name)
    decreases |entries|
  {
    hide Remembers, OnPeerClose;
    if entries != [] && entries[0].Entry? {
      if entries[0].initialized {
        RemembersFrame(s, Insert(s, entries[0].id), name);
        OfferRemembers(Insert(s, entries[0].id), entries[1..], name);
      } else {
        PeerRemembers(s, entries[0].id, Abnormal, name);
      }
    }
  }

  lemma OnCommandRemembers(s: State, c: Command, name: Id)
    requires Remembers(s, name)
    ensures Remembers(OnCommand(s, c), name)
  {
    hide Remembers, ClosePeer, Offer, PeerOnClose, PeerOnOpen;
    match c
    case PeerClosed(id) => ClosePeerRemembers(s, id, Normal, name);
    case CreateOffer(entries) => OfferRemembers(s, entries, name);
    case OfferSdp(id, initialized) => OfferRemembers(s, [Entry(id, initialized)], name);
    case ChannelCreate(reply) =>
      RemembersFrame(s, s.(crashed := true), name);
      PeerRemembers(s, s.name, SignalError, name);
      if reply.Failed? || reply.Succeeded? { PeerRemembers(s, reply.name, SignalError, name); }
    case ChannelJoin(reply) =>
      RemembersFrame(s, s.(crashed := true), name);
      PeerRemembers(s, if reply.Failed? then reply.name else "", SignalError, name);
    case _ => RemembersFrame(s, OnCommand(s, c), name);
  }

  lemma DispatchRemembers(s: State, m: Message, name: Id)
    requires Remembers(s, name)
    ensures Remembers(Dispatch(s, m), name)
  {
    hide Remembers, ClosePeer, OnCommand, OnPeerClose, CloseAll, RemoteIds;
    match m
    case MsgCommand(c) => OnCommandRemembers(s, c, name);
    case MsgClose(code) =>
      var t := CloseAll(s, RemoteIds(s.peers), code);
      CloseAllRemembers(s, RemoteIds(s.peers), code, name);
      PeerRemembers(t, t.name, code, name);
    case MsgClosePeer(id, code) => ClosePeerRemembers(s, id, code, name);
    case MsgOnPeerClose(id, code) => PeerRemembers(s, id, code, name);
  }

  lemma NotifyRemembers(s: State, id: Id, name: Id)
    requires Remembers(s, name)
    ensures Remembers(ConnectedBoth(s, id), name)
    ensures Remembers(Notify(s, MessageHandler, Received(id)), name) && Remembers(Notify(s, WritableHandler, Writable(id)), name)
  {
    hide Remembers, Emit;
    EmitRemembers(s, MessageHandler, Received(id), name);
    EmitRemembers(s, WritableHandler, Writable(id), name);
    EmitRemembers(s, ConnectHandler, Connected(id), name);
    EmitRemembers(Notify(s, ConnectHandler, Connected(id)), WritableHandler, Writable(s.name), name);
  }

  lemma NextRemembers(s: State, step: Step, name: Id)
    requires Remembers(s, name)
    ensures Remembers(Next(s, step), name)
  {
    hide Remembers, Dispatch, ConnectedBoth, Notify;
    if !s.crashed && !Dead(s) {
      match step
      case Deliver =>
        if s.queue != [] {
          RemembersFrame(s, Taken(s), name);
          DispatchRemembers(Taken(s), s.queue[0], name);
        }
      case RemoteOpened(id) =>
        if id in s.peers {
          var t := s.(peers := s.peers[id := s.peers[id].(state := Open)]);
          RemembersFrame(s, t, name);
          NotifyRemembers(t, s.peers[id].remoteId, name);
        }
      case StrayOpened(id) => NotifyRemembers(s, id, name);
      case RemoteMessage(id) => NotifyRemembers(s, id, name);
      case RemoteWritable(id) => NotifyRemembers(s, id, name);
      case _ => RemembersFrame(s, Next(s, step), name);
    }
  }
}
