/**
  * The objects of the session: the user's peer, the control with its map of peer connections and
  * its message queue, and the peer connections. Each method is proved to do to the state of the
  * objects what the function of the same name in `Session` does.
  */
module SessionObjects {
  import opened Session
  import opened SessionRuns
  import opened StringOrder

  /** `PeerControl` */
  class PeerConnection {
    const remoteId: Id
    const observer: Control
    var state: PeerState
    var connection: bool

    function View(): Remote
      reads this
    {
      Remote(remoteId, state, connection)
    }

    constructor (remoteId: Id, observer: Control)
      ensures View() == Remote(remoteId, Closed, false) && this.observer == observer
    {
      this.remoteId, this.observer := remoteId, observer;
      state, connection := Closed, false;
    }

    /** The peer connection and its data channel are created; if the latter fails, the former is dropped again. */
    method Initialize(connectionMade: bool, channelMade: bool) returns (ok: bool)
      modifies this
      ensures ok == (connectionMade && channelMade)
      ensures View() == old(View()).(hasConnection := ok)
    {
      connection := connectionMade;
      if !connectionMade {
        return false;
      }
      if !channelMade {
        connection := false;
        return false;
      }
      return true;
    }

    /** Goes through the connection pointer. */
    method CreateOffer()
      requires connection
      modifies this
      ensures View() == old(View()).(state := Connecting)
    {
      state := Connecting;
    }

    /** Drops the connection; true if the control is to be notified. */
    method Close() returns (notify: bool)
      modifies this
      ensures notify <==> old(state) != Closing && old(state) != Closed
      ensures View() == if notify then Remote(remoteId, Closed, false) else old(View())
    {
      if state == Closing || state == Closed {
        return false;
      }
      state := Closing;
      if connection {
        connection := false;
      }
      state := Closed;
      return true;
    }
  }

  /** `Peer`, the user's side, with its pointer to the control of the last open. */
  class UserPeer {
    const peerId: Id
    const handlers: set<Handler>
    var control: Control?
    var closeOnce: bool
    var events: seq<UserEvent>

    constructor (peerId: Id, handlers: set<Handler>)
      ensures this.peerId == peerId && this.handlers == handlers && control == null && !closeOnce && events == []
    {
      this.peerId, this.handlers := peerId, handlers;
      control, closeOnce, events := null, false, [];
    }

    method CallEventHandler(h: Handler, e: UserEvent)
      modifies this`events
      ensures events == if h in handlers then old(events) + [e] else old(events)
    {
      if h in handlers {
        events := events + [e];
      }
    }

    method OnOpen(id: Id)
      modifies this`closeOnce, this`events
      ensures !closeOnce && events == if OpenHandler in handlers then old(events) + [Opened(id)] else old(events)
    {
      closeOnce := false;
      CallEventHandler(OpenHandler, Opened(id));
    }

    /** Called by a control that observes for this peer. The first local close lets go of it. */
    method OnClose(id: Id, code: CloseCode)
      requires control != null
      modifies this, control`registered, control`held
      ensures closeOnce == (old(closeOnce) || id == peerId)
      ensures events == if (id == peerId && old(closeOnce)) || CloseHandler !in handlers then old(events)
                        else old(events) + [ClosedEvent(id, code)]
      ensures if id == peerId && !old(closeOnce)
              then control == null && !old(control).registered && old(control).held == |old(control).queue|
              else control == old(control) && control.registered == old(control.registered) && control.held == old(control.held)
    {
      if id == peerId {
        if closeOnce {
          return;
        }
        closeOnce := true;
        CallEventHandler(CloseHandler, ClosedEvent(id, code));
        control.UnregisterObserver();
        control := null;
      } else {
        CallEventHandler(CloseHandler, ClosedEvent(id, code));
      }
    }

    /** Ignored while there is a control. */
    method Open()
      modifies this`control
      ensures control != null
      ensures if old(control) != null then control == old(control)
              else fresh(control) && control.user == this && control.Valid() && control.peers == map[]
                   && control.View() == Start(peerId, handlers).(closeOnce := closeOnce, events := events)
    {
      if control != null {
        return;
      }
      control := new Control(this);
      control.RegisterObserver();
    }

    /** The pointer to the control is used without a check, here and in the next two calls. */
    method Close(id: Id)
      requires control != null && control.Valid()
      modifies control`queue
      ensures control.Valid() && control.peers == old(control.peers)
      ensures control.View() == old(control.View()).(queue := old(control.queue) + [CloseMessage(id, peerId)])
    {
      if id == "" || id == peerId {
        control.Post(MsgClose(Normal));
      } else {
        control.Post(MsgClosePeer(id, Normal));
      }
    }

    /** Asks the server for the channel; nothing else changes until it replies. */
    method Connect(id: Id)
      requires control != null && control.Valid()
      modifies control`actions
      ensures control.Valid() && control.peers == old(control.peers)
      ensures control.View() == old(control.View()).(actions := old(control.actions) + [Joined(id)])
    {
      control.JoinChannel(id);
    }

    /** Whether the message goes to a peer at all. */
    method Send(id: Id) returns (known: bool)
      requires control != null
      ensures known <==> id in control.peers
    {
      known := control.Send(id);
    }
  }

  class Control {
    const user: UserPeer
    var registered: bool
    var peers: map<Id, PeerConnection>
    var queue: seq<Message>
    // The references that queued messages hold to a detached control, and what has been done so far.
    ghost var held: nat
    ghost var actions: seq<Action>

    /** The objects in the map differ because their ids do, and belong to no other control. The control observes for the peer that points to it. */
    ghost predicate Valid()
      reads this, user
    {
      && (forall id | id in peers :: peers[id].remoteId == id && peers[id].observer == this)
      && (registered <==> user.control == this)
    }

    ghost function Peers(): (m: map<Id, Remote>)
      reads this, peers.Values
      ensures m.Keys == peers.Keys
    {
      map id | id in peers :: peers[id].View()
    }

    ghost function View(): State
      reads this, user, peers.Values
    {
      State(user.peerId, user.handlers, registered, user.closeOnce, Peers(), queue, held, user.events, actions, false)
    }

    constructor (user: UserPeer)
      ensures this.user == user && peers == map[] && fresh(peers.Values)
      ensures View() == Start(user.peerId, user.handlers).(registered := false, closeOnce := user.closeOnce, events := user.events)
    {
      this.user := user;
      registered, peers, queue, held, actions := false, map[], [], 0, [];
    }

    /** The user's peer already points to this control. */
    method RegisterObserver()
      modifies this`registered
      ensures peers == old(peers) && View() == old(View()).(registered := true)
    {
      registered := true;
      assert Peers() == old(Peers());
    }

    /** From now on only the messages that are already queued hold the control. */
    method UnregisterObserver()
      modifies this`registered, this`held
      ensures !registered && held == |queue|
    {
      registered, held := false, |queue|;
    }

    /** What goes out to the server is recorded. */
    method JoinChannel(id: Id)
      requires Valid()
      modifies this`actions
      ensures Valid() && peers == old(peers) && View() == old(View()).(actions := old(actions) + [Joined(id)])
    {
      Record(Joined(id));
    }

    method CreateChannel(id: Id)
      requires Valid()
      modifies this`actions
      ensures Valid() && peers == old(peers) && View() == old(View()).(actions := old(actions) + [Created(id)])
    {
      Record(Created(id));
    }

    method OnOpen(success: bool)
      requires Valid()
      modifies this`actions
      ensures Valid() && peers == old(peers)
      ensures View() == if success then old(View()).(actions := old(actions) + [Created(user.peerId)]) else old(View())
    {
      if success {
        CreateChannel(user.peerId);
      }
    }

    method Send(id: Id) returns (known: bool)
      ensures known <==> id in peers
    {
      known := id in peers;
    }

    method OnPeerClose(id: Id, code: CloseCode)
      requires Valid()
      modifies this`registered, this`held, user
      ensures Valid() && peers == old(peers)
      ensures View() == Session.OnPeerClose(old(View()), id, code)
      ensures user.control == if registered == old(registered) then old(user.control) else null
    {
      if !registered {
        return;
      }
      user.OnClose(id, code);
      assert Peers() == old(Peers());
    }

    /** Takes a peer out of the map and closes it; true if it wants the control to be notified. */
    method EraseAndClose(id: Id) returns (notify: bool)
      requires Valid() && id in peers
      modifies this`peers, peers[id]
      ensures Valid() && peers == old(peers) - {id}
      ensures View() == old(View()).(peers := old(View()).peers - {id})
      ensures notify <==> old(peers[id].state) != Closing && old(peers[id].state) != Closed
    {
      var item := peers[id];
      peers := peers - {id};
      notify := item.Close();
      assert Peers() == old(Peers()) - {id};
    }

    method ClosePeer(id: Id, code: CloseCode)
      requires Valid()
      modifies this, user, peers.Values
      ensures Valid() && peers == old(peers) - {id}
      ensures View() == Session.ClosePeer(old(View()), id, code)
      ensures user.control == if registered == old(registered) then old(user.control) else null
    {
      hide Session.OnPeerClose;
      if id !in peers {
        return;
      }
      ghost var r := peers[id].View();
      assert old(View()).peers[id] == r && r.remoteId == id;
      var notify := EraseAndClose(id);
      if notify {
        Record(Notified(id));
        OnPeerClose(id, code);
      }
      Record(Left(id));
    }

    ghost method Record(a: Action)
      modifies this`actions
      ensures View() == Log(old(View()), a)
    {
      actions := actions + [a];
      assert Peers() == old(Peers());
    }

    /** Reads the remote ids off the map, in the order in which an ordered map is walked. */
    method CollectIds() returns (ids: seq<Id>)
      requires Valid()
      ensures ids == RemoteIds(Peers())
    {
      hide Sorted;
      var keys := Walk(peers.Keys);
      ids := [];
      for i := 0 to |keys|
        invariant |ids| == i && forall j | 0 <= j < i :: keys[j] in peers && ids[j] == peers[keys[j]].remoteId
      {
        assert keys[i] in keys;
        ids := ids + [peers[keys[i]].remoteId];
      }
    }

    method CloseEach(ids: seq<Id>, code: CloseCode)
      requires Valid()
      modifies this, user, peers.Values
      ensures Valid() && View() == CloseAll(old(View()), ids, code)
      ensures user.control == if registered == old(registered) then old(user.control) else null
      ensures peers.Values <= old(peers.Values)
    {
      hide Session.ClosePeer;
      ghost var start := View();
      for i := 0 to |ids|
        invariant Valid() && CloseAll(View(), ids[i..], code) == CloseAll(start, ids, code)
        invariant forall k | k in peers :: k in old(peers) && peers[k] == old(peers)[k]
        invariant user.control == if registered == old(registered) then old(user.control) else null
      {
        assert ids[i..][0] == ids[i] && ids[i..][1..] == ids[i + 1..];
        ClosePeer(ids[i], code);
      }
    }

    method Close(code: CloseCode)
      requires Valid()
      modifies this, user, peers.Values
      ensures Valid() && peers.Values <= old(peers.Values)
      ensures View() == Session.Close(old(View()), code)
      ensures user.control == if registered == old(registered) then old(user.control) else null
    {
      hide CloseAll, RemoteIds, Session.OnPeerClose, Session.Close, Sorted;
      ghost var start := View();
      var ids := CollectIds();
      CloseEach(ids, code);
      CloseInTwo(start, ids, code);
      OnPeerClose(user.peerId, code);
    }

    /** Puts a new peer into the map unless the id is taken, and starts connecting it either way. */
    method InsertPeer(id: Id)
      requires Valid()
      modifies this`peers, this`actions
      ensures Valid() && fresh(peers.Values - old(peers.Values))
      ensures View() == Insert(old(View()), id)
    {
      hide Insert;
      var peer := new PeerConnection(id, this);
      var ok := peer.Initialize(true, true);
      assert Peers() == old(Peers());
      KeepFirst(id, peer);
    }

    /** `insert` on the map, and the offer. */
    method KeepFirst(id: Id, peer: PeerConnection)
      requires Valid() && peer !in peers.Values && peer.connection && peer.remoteId == id && peer.observer == this
      modifies this`peers, this`actions, peer
      ensures Valid() && peers.Values <= old(peers.Values) + {peer}
      ensures View() == Insert(old(View()), id)
    {
      if id !in peers {
        peers := peers[id := peer];
        actions := actions + [Inserted(id)];
      }
      peer.CreateOffer();
      if id in old(peers) {
        assert Peers() == old(Peers());
      } else {
        assert Peers() == old(Peers())[id := Remote(id, Connecting, true)];
      }
    }

    method CreateOffer(entries: seq<Entry>)
      requires Valid()
      modifies this, user
      ensures Valid() && fresh(peers.Values - old(peers.Values))
      ensures View() == Offer(old(View()), entries)
      ensures user.control == if registered == old(registered) then old(user.control) else null
    {
      hide Insert, Session.OnPeerClose;
      ghost var start := View();
      for i := 0 to |entries|
        invariant Valid() && fresh(peers.Values - old(peers.Values))
        invariant user.control == if registered == old(registered) then old(user.control) else null
        invariant Offer(View(), entries[i..]) == Offer(start, entries)
      {
        assert entries[i..][0] == entries[i] && entries[i..][1..] == entries[i + 1..];
        if entries[i].BadEntry? {
          return;
        }
        if !entries[i].initialized {
          OnPeerClose(entries[i].id, Abnormal);
          return;
        }
        InsertPeer(entries[i].id);
      }
    }

    method Post(m: Message)
      requires Valid()
      modifies this`queue
      ensures Valid() && peers == old(peers) && View() == old(View()).(queue := old(queue) + [m])
    {
      queue := queue + [m];
      assert Peers() == old(Peers());
    }

    /** Tells the user that the channel is open; goes through the observer pointer. */
    method ObserverOpen(id: Id)
      requires Valid() && registered
      modifies user
      ensures Valid() && peers == old(peers) && View() == PeerOnOpen(old(View()), id)
      ensures user.control == if registered == old(registered) then old(user.control) else null
    {
      user.OnOpen(id);
      assert Peers() == old(Peers());
    }

    /** A reply about a channel, to an observer that must still be there. */
    method OnChannelReply(c: Command)
      requires Valid() && registered && (c.ChannelCreate? || c.ChannelJoin?)
      modifies this`registered, this`held, user
      ensures Valid() && peers == old(peers) && View() == OnCommand(old(View()), c)
      ensures user.control == if registered == old(registered) then old(user.control) else null
    {
      hide PeerOnClose, PeerOnOpen;
      match c {
        case ChannelCreate(reply) =>
          match reply {
            case NoResult => OnPeerClose(user.peerId, SignalError);
            case NoName => OnPeerClose(user.peerId, SignalError);
            case Failed(name) => OnPeerClose(name, SignalError);
            case Succeeded(name) => ObserverOpen(name);
          }
        case ChannelJoin(reply) =>
          match reply {
            case NoResult => OnPeerClose("", SignalError);
            case NoName => OnPeerClose("", SignalError);
            case Failed(name) => OnPeerClose(name, SignalError);
            case Succeeded(_) =>
          }
      }
    }

    method OnCommandReceived(c: Command)
      requires Valid() && Inv(View()) && !Fatal(View(), MsgCommand(c))
      modifies this, user, peers.Values
      ensures Valid() && fresh(peers.Values - old(peers.Values))
      ensures View() == OnCommand(old(View()), c)
      ensures user.control == if registered == old(registered) then old(user.control) else null
    {
      hide OnChannelCreate, OnChannelJoin, Session.ClosePeer, Offer;
      match c {
        case OpenReply(success) => OnOpen(success);
        case ChannelCreate(_) => OnChannelReply(c);
        case ChannelJoin(_) =>
          if registered {
            OnChannelReply(c);
          } else {
            JoinedUnobserved(View(), c);
          }
        case PeerClosed(id) => ClosePeer(id, Normal);
        case CreateOffer(entries) => CreateOffer(entries);
        case OfferSdp(id, initialized) => CreateOffer([Entry(id, initialized)]);
        case AnswerSdp(id) => PeersAreConnected(View(), id);
        case IceCandidate(id) => PeersAreConnected(View(), id);
        case NoEffect =>
      }
    }

    /** The message loop: takes the oldest message and handles it. One step of the session. */
    method OnMessage()
      requires Valid() && Inv(View()) && queue != [] && !Dead(View()) && !FatalDelivery(View(), Deliver)
      modifies this, user, peers.Values
      ensures Valid() && Inv(View()) && fresh(peers.Values - old(peers.Values))
      ensures View() == Next(old(View()), Deliver)
      ensures user.control == if registered == old(registered) then old(user.control) else null
    {
      hide Inv, OnCommand, Session.Close, Session.ClosePeer, Session.OnPeerClose;
      NextInv(View(), Deliver);
      var msg := TakeMessage();
      InvFrame(old(View()), View());
      match msg {
        case MsgCommand(c) => OnCommandReceived(c);
        case MsgClose(code) => Close(code);
        case MsgClosePeer(id, code) => ClosePeer(id, code);
        case MsgOnPeerClose(id, code) => OnPeerClose(id, code);
      }
    }

    /** Passes an event of a peer on to the user, if there is one. */
    method NotifyUser(h: Handler, e: UserEvent)
      requires Valid()
      modifies user
      ensures Valid() && peers == old(peers) && View() == Notify(old(View()), h, e)
      ensures user.control == if registered == old(registered) then old(user.control) else null
    {
      if registered {
        user.CallEventHandler(h, e);
      }
      assert Peers() == old(Peers());
    }

    /** Both data channels of a peer in the map have opened. */
    method OnPeerOpened(id: Id)
      requires Valid() && id in peers && !Dead(View())
      modifies peers[id], user
      ensures Valid() && peers == old(peers) && View() == Next(old(View()), RemoteOpened(id))
      ensures user.control == if registered == old(registered) then old(user.control) else null
    {
      hide Notify;
      var peer := peers[id];
      peer.state := Open;
      assert Peers() == old(Peers())[id := peer.View()];
      NotifyUser(ConnectHandler, Connected(peer.remoteId));
      NotifyUser(WritableHandler, Writable(user.peerId));
    }

    /** The connection or a data channel of a peer in the map has gone; the close is queued. */
    method OnPeerDisconnected(id: Id)
      requires Valid() && id in peers && !Dead(View())
      modifies this`queue
      ensures Valid() && peers == old(peers) && View() == Next(old(View()), RemoteDisconnected(id))
    {
      var peer := peers[id];
      assert View().peers[id] == peer.View();
      if peer.state == Closed || peer.state == Closing {
        return;
      }
      Post(MsgClosePeer(peer.remoteId, GoingAway));
    }

    method TakeMessage() returns (m: Message)
      requires Valid() && queue != []
      modifies this`queue, this`held
      ensures Valid() && peers == old(peers)
      ensures m == old(queue)[0] && View() == Taken(old(View()))
    {
      m := queue[0];
      queue := queue[1..];
      if !registered && held > 0 {
        held := held - 1;
      }
      assert Peers() == old(Peers());
    }
  }

  lemma CloseInTwo(s: State, ids: seq<Id>, code: CloseCode)
    requires ids == RemoteIds(s.peers)
    ensures var t := CloseAll(s, ids, code); Session.Close(s, code) == Session.OnPeerClose(t, t.name, code)
  {
    hide CloseAll, RemoteIds, Session.OnPeerClose;
  }

  lemma PeersAreConnected(s: State, id: Id)
    requires Inv(s)
    ensures UseConnection(s, id) == s
  {
    if id in s.peers { assert GoodEntry(s.peers, id); }
  }

  lemma JoinedUnobserved(s: State, c: Command)
    requires !s.registered && c.ChannelJoin? && c.reply.Succeeded?
    ensures OnCommand(s, c) == s
  {
  }
}
