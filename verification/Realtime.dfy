/** The realtime hub and its clients: who is subscribed to what, bounded queues, and eviction of slow clients. */
module Realtime {
  import opened Wrappers
  import opened Domain
  import opened Subscriptions

  const OUTBOUND_QUEUE_SIZE: nat := 64
  const MAX_SUBSCRIPTIONS: nat := 100

  datatype Message =
    | Subscribed(roomID: RoomId)
    | Unsubscribed(roomID: RoomId)
    | TooManySubscriptions
    | Payload(text: string)

  class Client {
    const hub: Hub
    const user: UserId
    var send: seq<Message>
    var subscribed: set<RoomId>
    var closed: bool

    constructor (hub: Hub, user: UserId)
      ensures this.hub == hub && this.user == user && send == [] && subscribed == {} && !closed
    {
      this.hub, this.user := hub, user;
      send, subscribed, closed := [], {}, false;
    }

    predicate HasRoom()
      reads this
    {
      !closed && |send| < OUTBOUND_QUEUE_SIZE
    }

    twostate predicate SameSubscriptions()
      reads this
    {
      subscribed == old(subscribed) && closed == old(closed)
    }

    twostate predicate Untouched()
      reads this
    {
      SameSubscriptions() && send == old(send)
    }

    twostate predicate Received(m: Message)
      reads this
    {
      SameSubscriptions() && send == old(send) + [m]
    }

    // What was queued stays queued, nothing is added.
    twostate predicate Evicted()
      reads this
    {
      closed && subscribed == {} && send == old(send)
    }

    method Run()
      requires hub.Consistent() && this !in hub.clients
      requires send == [] && subscribed == {} && !closed
      modifies hub
      ensures hub.Consistent() && hub.clients == old(hub.clients) + {this}
      ensures old(hub.NoneLeft()) ==> hub.NoneLeft()
      ensures hub.rooms == old(hub.rooms) && hub.gauge == old(hub.gauge)
    {
      hub.RegisterUser(user, this);
      hub.clients := hub.clients + {this};
      hub.RoomsAfterRun(this);
      hub.UsersAfterRun(this);
    }

    // A full or closed queue takes nothing.
    method Enqueue(m: Message) returns (ok: bool)
      modifies this`send
      ensures ok == old(HasRoom())
      ensures send == if ok then old(send) + [m] else old(send)
    {
      ok := !closed && |send| < OUTBOUND_QUEUE_SIZE;
      if ok {
        send := send + [m];
      }
    }

    // The writer takes the oldest message off the queue; messages queued before a close are still delivered.
    method TakeOutbound() returns (m: Option<Message>)
      requires hub.Consistent() && this in hub.clients
      modifies this`send
      ensures hub.Consistent()
      ensures old(hub.NoneLeft()) ==> hub.NoneLeft()
      ensures old(send) == (if m.Some? then [m.value] else []) + send
      ensures m.None? ==> send == []
    {
      if send == [] {
        return None;
      }
      m := Some(send[0]);
      send := send[1..];
    }

    // Only the first close does anything.
    method Close()
      requires hub.Consistent() && this in hub.clients
      modifies this, hub
      ensures hub.Consistent() && hub.clients == old(hub.clients)
      ensures old(hub.NoneLeft()) ==> hub.NoneLeft()
      ensures old(closed) ==> Untouched() && hub.Unchanged()
      ensures !old(closed) ==>
        && Evicted()
        && hub.rooms == RemoveAll(old(hub.rooms), this)
        && hub.users == Remove(old(hub.users), user, this)
        && hub.gauge == old(hub.gauge) - |old(subscribed)|
    {
      if closed {
        return;
      }
      Detach();
      hub.RoomsAfterClose(this);
      hub.UsersAfterClose(this);
    }

    method Detach()
      requires !closed
      modifies this, hub
      ensures Evicted()
      ensures hub.clients == old(hub.clients)
      ensures hub.rooms == RemoveAll(old(hub.rooms), this)
      ensures hub.users == Remove(old(hub.users), user, this)
      ensures hub.gauge == old(hub.gauge) - |old(subscribed)|
    {
      var remaining := |subscribed|;
      subscribed := {};
      if remaining > 0 {
        hub.gauge := hub.gauge - remaining;
      }
      hub.UnsubscribeAll(this);
      hub.UnregisterUser(user, this);
      closed := true;
    }

    method SendServerMessage(m: Message)
      requires hub.Consistent() && this in hub.clients
      modifies this, hub
      ensures hub.Consistent() && hub.clients == old(hub.clients)
      ensures old(hub.NoneLeft()) ==> hub.NoneLeft()
      ensures old(closed) ==> Untouched() && hub.Unchanged()
      ensures old(HasRoom()) ==> Received(m) && hub.Unchanged()
      ensures !old(closed) && !old(HasRoom()) ==> Evicted()
    {
      var ok := Enqueue(m);
      if !ok {
        Close();
      }
    }

    twostate lemma RoomsAfterSubscribe(r: RoomId)
      requires old(hub.RoomsAgree()) && hub.clients == old(hub.clients) && this in hub.clients && hub.OnlyChanged(this)
      requires r !in old(subscribed) && subscribed == old(subscribed) + {r}
      requires hub.rooms == Add(old(hub.rooms), r, this) && hub.gauge == old(hub.gauge) + 1
      ensures hub.RoomsAgree()
    {
      AddLinks(old(hub.rooms), r, this);
      assert !Linked(old(hub.rooms), r, this);
      OneMore(old(hub.rooms), hub.rooms, r, this);
    }

    twostate lemma RoomsAfterUnsubscribe(r: RoomId)
      requires old(hub.RoomsAgree()) && hub.clients == old(hub.clients) && this in hub.clients && hub.OnlyChanged(this)
      requires r in old(subscribed) && subscribed == old(subscribed) - {r}
      requires hub.rooms == Remove(old(hub.rooms), r, this) && hub.gauge == old(hub.gauge) - 1
      ensures hub.RoomsAgree()
    {
      RemoveUnlinks(old(hub.rooms), r, this);
      assert Linked(old(hub.rooms), r, this);
      OneMore(hub.rooms, old(hub.rooms), r, this);
    }

    // What a subscription does to an open client, and to one that was closed before it came in.
    twostate predicate SubscribedTo(roomID: RoomId)
      reads this
    {
      if roomID in old(subscribed) then Untouched()
      else if old(closed) then
        && closed && send == old(send)
        && subscribed == if |old(subscribed)| < MAX_SUBSCRIPTIONS then old(subscribed) + {roomID} else old(subscribed)
      else if !old(HasRoom()) then Evicted()
      else if |old(subscribed)| >= MAX_SUBSCRIPTIONS then Received(TooManySubscriptions)
      else !closed && subscribed == old(subscribed) + {roomID} && send == old(send) + [Subscribed(roomID)]
    }

    // The two sides of the index always agree. A subscription that comes in after the close, though, puts the closed
    // client back into a room: if closed clients were out of all rooms, they stay so exactly when this one was open.
    method Subscribe(roomID: RoomId)
      requires hub.Consistent() && this in hub.clients
      modifies this, hub
      ensures hub.Consistent() && hub.clients == old(hub.clients)
      ensures SubscribedTo(roomID)
      ensures old(hub.NoneLeft()) ==> (hub.NoneLeft() <==> !old(closed))
      ensures subscribed == old(subscribed) + {roomID} && roomID !in old(subscribed) ==>
        hub.gauge == old(hub.gauge) + 1
    {
      if roomID in subscribed {
        return;
      }
      if |subscribed| >= MAX_SUBSCRIPTIONS {
        SendServerMessage(TooManySubscriptions);
        return;
      }
      AddSubscription(roomID);
      SendServerMessage(Subscribed(roomID));
    }

    method AddSubscription(roomID: RoomId)
      requires hub.Consistent() && this in hub.clients
      requires roomID !in subscribed && |subscribed| < MAX_SUBSCRIPTIONS
      modifies this`subscribed, hub
      ensures hub.Consistent() && hub.clients == old(hub.clients)
      ensures subscribed == old(subscribed) + {roomID} && hub.gauge == old(hub.gauge) + 1
      ensures old(hub.NoneLeft()) && !closed ==> hub.NoneLeft()
    {
      subscribed := subscribed + {roomID};
      hub.gauge := hub.gauge + 1;
      hub.Subscribe(roomID, this);
      RoomsAfterSubscribe(roomID);
      hub.UsersUndisturbed(this);
    }

    // What takes a room off a client's list, on a closed client too.
    twostate predicate UnsubscribedFrom(roomID: RoomId)
      reads this
    {
      if roomID !in old(subscribed) then Untouched()
      else if old(closed) then closed && send == old(send) && subscribed == old(subscribed) - {roomID}
      else if !old(HasRoom()) then Evicted()
      else !closed && subscribed == old(subscribed) - {roomID} && send == old(send) + [Unsubscribed(roomID)]
    }

    method Unsubscribe(roomID: RoomId)
      requires hub.Consistent() && this in hub.clients
      modifies this, hub
      ensures hub.Consistent() && hub.clients == old(hub.clients)
      ensures UnsubscribedFrom(roomID)
      ensures old(hub.NoneLeft()) ==> hub.NoneLeft()
      ensures subscribed == old(subscribed) - {roomID} && roomID in old(subscribed) && (old(closed) || !closed) ==>
        hub.gauge == old(hub.gauge) - 1
    {
      if roomID !in subscribed {
        return;
      }
      DropSubscription(roomID);
      SendServerMessage(Unsubscribed(roomID));
    }

    method DropSubscription(roomID: RoomId)
      requires hub.Consistent() && this in hub.clients && roomID in subscribed
      modifies this`subscribed, hub
      ensures hub.Consistent() && hub.clients == old(hub.clients)
      ensures subscribed == old(subscribed) - {roomID} && hub.gauge == old(hub.gauge) - 1
      ensures old(hub.NoneLeft()) ==> hub.NoneLeft()
    {
      subscribed := subscribed - {roomID};
      hub.gauge := hub.gauge - 1;
      hub.Unsubscribe(roomID, this);
      RoomsAfterUnsubscribe(roomID);
      hub.UsersUndisturbed(this);
    }
  }

  // What the hub and its clients are asked to do; clients are numbered in the order in which they connect.
  datatype Ask =
    | Connect(user: UserId)
    | SubscribeClient(client: nat, roomID: RoomId)
    | UnsubscribeClient(client: nat, roomID: RoomId)
    | CloseClient(client: nat)
    | WriteOut(client: nat)
    | BroadcastTo(roomID: RoomId, m: Message)
    | SendTo(user: UserId, m: Message)

  // An ask that names a client.
  predicate OfClient(ask: Ask) {
    ask.SubscribeClient? || ask.UnsubscribeClient? || ask.CloseClient? || ask.WriteOut?
  }

  // One more client, of the given user, that has nothing yet.
  twostate predicate Connected(all: seq<Client>, new now: seq<Client>, user: UserId)
    reads now
  {
    && |now| == |all| + 1 && now[..|all|] == all && fresh(now[|all|])
    && now[|all|].user == user && !now[|all|].closed && now[|all|].send == [] && now[|all|].subscribed == {}
  }

  // One request. late says that it subscribed a client that was closed already.
  method Carry(hub: Hub, all: seq<Client>, ask: Ask) returns (now: seq<Client>, ghost late: bool)
    requires hub.Consistent() && hub.clients == set c | c in all
    modifies hub, hub.clients
    ensures hub.Consistent() && hub.clients == (set c | c in now) && all <= now
    ensures fresh(hub.clients - old(hub.clients))
    ensures old(hub.NoneLeft()) && !late ==> hub.NoneLeft()
    ensures late <==> ask.SubscribeClient? && ask.client < |all| && old(all[ask.client].closed)
    ensures if ask.Connect? then Connected(all, now, ask.user) else now == all
    ensures forall c | c in all && !(OfClient(ask) && ask.client < |all| && c == all[ask.client])
                       && !ask.BroadcastTo? && !ask.SendTo? :: c.Untouched()
    ensures ask.SubscribeClient? && ask.client < |all| ==> all[ask.client].SubscribedTo(ask.roomID)
    ensures ask.UnsubscribeClient? && ask.client < |all| ==> all[ask.client].UnsubscribedFrom(ask.roomID)
    ensures ask.CloseClient? && ask.client < |all| ==>
      if old(all[ask.client].closed) then all[ask.client].Untouched() else all[ask.client].Evicted()
    ensures ask.WriteOut? && ask.client < |all| ==>
      && all[ask.client].SameSubscriptions()
      && if old(all[ask.client].send) == [] then all[ask.client].send == []
         else all[ask.client].send == old(all[ask.client].send)[1..]
    ensures ask.BroadcastTo? ==> hub.Pushed(old(set c | c in hub.clients && ask.roomID in c.subscribed), ask.m)
    ensures ask.SendTo? ==> hub.Pushed(old(set c | c in hub.clients && c.user == ask.user && !c.closed), ask.m)
  {
    now, late := all, false;
    if OfClient(ask) {
      if ask.client < |all| {
        late := ask.SubscribeClient? && all[ask.client].closed;
        ToClient(hub, all[ask.client], ask);
      }
    } else if ask.Connect? {
      var c := new Client(hub, ask.user);
      c.Run();
      now := all + [c];
    } else if ask.BroadcastTo? {
      hub.Broadcast(ask.roomID, ask.m);
    } else {
      hub.SendToUser(ask.user, ask.m);
    }
  }

  method ToClient(hub: Hub, c: Client, ask: Ask)
    requires hub.Consistent() && c in hub.clients && OfClient(ask)
    modifies hub, c
    ensures hub.Consistent() && hub.clients == old(hub.clients)
    ensures old(hub.NoneLeft()) && !(ask.SubscribeClient? && old(c.closed)) ==> hub.NoneLeft()
    ensures ask.SubscribeClient? ==> c.SubscribedTo(ask.roomID)
    ensures ask.UnsubscribeClient? ==> c.UnsubscribedFrom(ask.roomID)
    ensures ask.CloseClient? ==> if old(c.closed) then c.Untouched() else c.Evicted()
    ensures ask.WriteOut? ==>
      c.SameSubscriptions() && if old(c.send) == [] then c.send == [] else c.send == old(c.send)[1..]
  {
    match ask
    case SubscribeClient(_, roomID) => c.Subscribe(roomID);
    case UnsubscribeClient(_, roomID) => c.Unsubscribe(roomID);
    case CloseClient(_) => c.Close();
    case WriteOut(_) => var _ := c.TakeOutbound();
  }

  // Any sequence of requests to a new hub: the indexes and the gauge agree after it, and closed clients are nowhere
  // unless a subscription came in late.
  method Session(asks: seq<Ask>) returns (hub: Hub, all: seq<Client>, ghost late: seq<bool>)
    ensures fresh(hub) && hub.Consistent() && hub.clients == set c | c in all
    ensures |late| == |asks| && ((forall k | 0 <= k < |asks| :: !late[k]) ==> hub.Valid())
    ensures forall k | 0 <= k < |asks| && late[k] :: asks[k].SubscribeClient?
  {
    hub := new Hub();
    all, late := [], [];
    for k := 0 to |asks|
      invariant fresh(hub) && fresh(hub.clients)
      invariant hub.Consistent() && hub.clients == set c | c in all
      invariant |late| == k && ((forall j | 0 <= j < k :: !late[j]) ==> hub.NoneLeft())
      invariant forall j | 0 <= j < k && late[j] :: asks[j].SubscribeClient?
    {
      ghost var wasLate;
      ghost var earlier, none := late, hub.NoneLeft();
      all, wasLate := Carry(hub, all, asks[k]);
      late := late + [wasLate];
      assert (forall j | 0 <= j <= k :: !late[j]) ==> !late[k] && forall j | 0 <= j < k :: earlier[j] == late[j];
    }
  }

  // A client that is run, closed and then subscribed is left in the room,
  method LateSubscription(hub: Hub, user: UserId, roomID: RoomId) returns (c: Client)
    requires hub.Valid()
    modifies hub
    ensures fresh(c) && c.hub == hub && hub.clients == old(hub.clients) + {c}
    ensures c.closed && c.subscribed == {roomID} && Linked(hub.rooms, roomID, c)
    ensures hub.Consistent() && !hub.NoneLeft()
  {
    c := ClosedClient(hub, user);
    c.Subscribe(roomID);
    hub.InRoomAsListed(c, roomID);
  }

  method ClosedClient(hub: Hub, user: UserId) returns (c: Client)
    requires hub.Valid()
    modifies hub
    ensures fresh(c) && c.hub == hub && c.closed && c.subscribed == {}
    ensures hub.clients == old(hub.clients) + {c} && hub.Valid()
  {
    c := new Client(hub, user);
    c.Run();
    c.Close();
  }

  // until an unsubscription, however late, takes it out.
  method LateUnsubscription(hub: Hub, user: UserId, roomID: RoomId) returns (c: Client)
    requires hub.Valid()
    modifies hub
    ensures fresh(c) && c in hub.clients && c.closed && !Linked(hub.rooms, roomID, c) && hub.Valid()
  {
    c := LateSubscription(hub, user, roomID);
    c.Unsubscribe(roomID);
    hub.InRoomAsListed(c, roomID);
  }

  class Hub {
    var rooms: map<RoomId, set<Client>>
    var users: map<UserId, set<Client>>
    // The exported gauge of subscriptions.
    var gauge: int
    // Every client that has been run.
    ghost var clients: set<Client>

    constructor ()
      ensures Valid() && clients == {} && rooms == map[] && users == map[] && gauge == 0
    {
      rooms, users, gauge, clients := map[], map[], 0, {};
    }

    ghost predicate Bounded()
      reads this, clients
    {
      forall c | c in clients ::
        && c.hub == this
        && |c.subscribed| <= MAX_SUBSCRIPTIONS && |c.send| <= OUTBOUND_QUEUE_SIZE
    }

    // A client is in a room's set exactly when the room is on the client's list, and the gauge counts the pairs.
    ghost predicate RoomsAgree()
      reads this, clients
    {
      && NoEmpty(rooms)
      && (forall r | r in rooms :: rooms[r] <= clients)
      && (forall r, c {:trigger Linked(rooms, r, c)} | c in clients :: Linked(rooms, r, c) <==> r in c.subscribed)
      && gauge == |Pairs(rooms)|
    }

    // A client can be reached under its own user, and only while it is open.
    ghost predicate UsersAgree()
      reads this, clients
    {
      && NoEmpty(users)
      && (forall u | u in users :: users[u] <= clients)
      && (forall u, c {:trigger Linked(users, u, c)} | c in clients ::
            Linked(users, u, c) <==> u == c.user && !c.closed)
    }

    // What every operation keeps, whenever it comes in.
    ghost predicate Consistent()
      reads this, clients
    {
      Bounded() && RoomsAgree() && UsersAgree()
    }

    // No closed client is left with a subscription.
    ghost predicate NoneLeft()
      reads this, clients
    {
      forall c | c in clients :: c.closed ==> c.subscribed == {}
    }

    // What every operation on an open client keeps.
    ghost predicate Valid()
      reads this, clients
    {
      Consistent() && NoneLeft()
    }

    twostate predicate Unchanged()
      reads this
    {
      rooms == old(rooms) && users == old(users) && gauge == old(gauge)
    }

    // Only c changed, and only among its own subscriptions.
    twostate predicate OnlyChanged(c: Client)
      requires old(clients) <= clients
      reads this, clients
    {
      forall d | d in old(clients) && d != c :: d.SameSubscriptions()
    }

    twostate lemma RoomsAfterRun(c: Client)
      requires old(RoomsAgree()) && clients == old(clients) + {c} && c !in old(clients)
      requires rooms == old(rooms) && gauge == old(gauge) && c.subscribed == {} && OnlyChanged(c)
      ensures RoomsAgree()
    {}

    twostate lemma UsersAfterRun(c: Client)
      requires old(UsersAgree()) && clients == old(clients) + {c} && c !in old(clients)
      requires users == Add(old(users), c.user, c) && !c.closed && OnlyChanged(c)
      ensures UsersAgree()
    {
      AddLinks(old(users), c.user, c);
    }

    twostate lemma RoomsAfterClose(c: Client)
      requires old(RoomsAgree()) && clients == old(clients) && c in clients && OnlyChanged(c)
      requires rooms == RemoveAll(old(rooms), c) && c.subscribed == {} && gauge == old(gauge) - |old(c.subscribed)|
      ensures RoomsAgree()
    {
      RemoveAllUnlinks(old(rooms), c);
      ManyFewer(old(rooms), rooms, old(c.subscribed), c);
    }

    twostate lemma UsersAfterClose(c: Client)
      requires old(UsersAgree()) && clients == old(clients) && c in clients && OnlyChanged(c)
      requires users == Remove(old(users), c.user, c) && c.closed
      ensures UsersAgree()
    {
      RemoveUnlinks(old(users), c.user, c);
    }

    twostate lemma UsersUndisturbed(c: Client)
      requires old(UsersAgree()) && clients == old(clients) && c in clients && OnlyChanged(c)
      requires users == old(users) && c.closed == old(c.closed)
      ensures UsersAgree()
    {}

    lemma InRoomAsListed(c: Client, r: RoomId)
      requires RoomsAgree() && c in clients
      ensures Linked(rooms, r, c) <==> r in c.subscribed
    {}

    // Closed clients are nowhere exactly when none is left with a subscription.
    lemma ClosedIsGone(c: Client, u: UserId)
      requires Consistent() && c in clients && c.closed
      ensures !Linked(users, u, c)
      ensures c.subscribed == {} <==> forall r :: !Linked(rooms, r, c)
    {
      if c.subscribed != {} {
        EmptyOrNot(c.subscribed);
        var r :| r in c.subscribed;
        assert Linked(rooms, r, c) <==> r in c.subscribed;
      }
    }

    // The gauge is the sum of the rooms' sizes, and the sum of the clients' numbers of subscriptions.
    lemma GaugeCountsBothWays()
      requires Consistent()
      ensures gauge == Total(rooms) == Total(map c | c in clients :: c.subscribed)
    {
      var byClient := map c | c in clients :: c.subscribed;
      forall r, c ensures Linked(rooms, r, c) <==> Linked(byClient, c, r) {
        if c in clients {
          assert Linked(rooms, r, c) <==> r in c.subscribed;
        }
      }
      SameTotal(rooms, byClient);
    }

    method Subscribe(roomID: RoomId, c: Client)
      modifies `rooms
      ensures rooms == Add(old(rooms), roomID, c)
    {
      var members := if roomID in rooms then rooms[roomID] else {};
      rooms := rooms[roomID := members + {c}];
    }

    method Unsubscribe(roomID: RoomId, c: Client)
      modifies `rooms
      ensures rooms == Remove(old(rooms), roomID, c)
    {
      if roomID !in rooms {
        return;
      }
      var members := rooms[roomID] - {c};
      rooms := rooms[roomID := members];
      if members == {} {
        rooms := rooms - {roomID};
      }
    }

    method UnsubscribeAll(c: Client)
      modifies `rooms
      ensures rooms == RemoveAll(old(rooms), c)
    {
      var rest := rooms.Keys;
      while rest != {}
        invariant rest <= old(rooms).Keys
        invariant rooms.Keys <= old(rooms).Keys
        invariant forall r | r in rest :: r in rooms && rooms[r] == old(rooms)[r]
        invariant forall r | r in old(rooms) && r !in rest ::
          (r in rooms <==> old(rooms)[r] - {c} != {}) && (r in rooms ==> rooms[r] == old(rooms)[r] - {c})
        decreases rest
      {
        EmptyOrNot(rest);
        var roomID :| roomID in rest;
        rest := rest - {roomID};
        var members := rooms[roomID] - {c};
        rooms := rooms[roomID := members];
        if members == {} {
          rooms := rooms - {roomID};
        }
      }
    }

    method RegisterUser(userID: UserId, c: Client)
      modifies `users
      ensures users == Add(old(users), userID, c)
    {
      var members := if userID in users then users[userID] else {};
      users := users[userID := members + {c}];
    }

    method UnregisterUser(userID: UserId, c: Client)
      modifies `users
      ensures users == Remove(old(users), userID, c)
    {
      if userID !in users {
        return;
      }
      var members := users[userID] - {c};
      users := users[userID := members];
      if members == {} {
        users := users - {userID};
      }
    }

    // Each open target gets the message once, at the tail of its queue, or is closed; nobody else notices.
    twostate predicate Pushed(targets: set<Client>, m: Message)
      requires old(clients) == clients
      reads this, clients
    {
      forall c | c in clients ::
        if c !in targets || old(c.closed) then c.Untouched()
        else if |old(c.send)| < OUTBOUND_QUEUE_SIZE then c.Received(m)
        else c.Evicted()
    }

    method Broadcast(roomID: RoomId, m: Message)
      requires Consistent()
      modifies this, clients
      ensures Consistent() && clients == old(clients)
      ensures old(NoneLeft()) ==> NoneLeft()
      ensures Pushed(old(set c | c in clients && roomID in c.subscribed), m)
    {
      var targets := if roomID in rooms then rooms[roomID] else {};
      assert targets == set c | c in clients && roomID in c.subscribed by {
        assert forall c | c in clients :: Linked(rooms, roomID, c) <==> roomID in c.subscribed;
      }
      Push(targets, m);
    }

    method SendToUser(userID: UserId, m: Message)
      requires Consistent()
      modifies this, clients
      ensures Consistent() && clients == old(clients)
      ensures old(NoneLeft()) ==> NoneLeft()
      ensures Pushed(old(set c | c in clients && c.user == userID && !c.closed), m)
    {
      var targets := if userID in users then users[userID] else {};
      assert targets == set c | c in clients && c.user == userID && !c.closed by {
        assert forall c | c in clients :: Linked(users, userID, c) <==> userID == c.user && !c.closed;
      }
      Push(targets, m);
    }

    method Push(targets: set<Client>, m: Message)
      requires Consistent() && targets <= clients
      modifies this, clients
      ensures Consistent() && clients == old(clients)
      ensures old(NoneLeft()) ==> NoneLeft()
      ensures Pushed(targets, m)
    {
      var slow := EnqueueAll(targets, m);
      CloseAll(slow);
    }

    method EnqueueAll(targets: set<Client>, m: Message) returns (slow: set<Client>)
      requires Consistent() && targets <= clients
      modifies clients
      ensures Consistent()
      ensures slow == old(set c | c in targets && !c.HasRoom())
      ensures forall c | c in clients :: if c in targets && c !in slow then c.Received(m) else c.Untouched()
    {
      slow := {};
      var rest := targets;
      while rest != {}
        invariant rest <= targets
        invariant slow == old(set c | c in targets && c !in rest && !c.HasRoom())
        invariant forall c | c in clients ::
          if c in targets && c !in rest && c !in slow then c.Received(m) else c.Untouched()
        decreases rest
      {
        EmptyOrNot(rest);
        var c :| c in rest;
        rest := rest - {c};
        var ok := c.Enqueue(m);
        if !ok {
          slow := slow + {c};
        }
      }
    }

    method CloseAll(slow: set<Client>)
      requires Consistent() && slow <= clients
      modifies this, clients
      ensures Consistent() && clients == old(clients)
      ensures forall c | c in clients :: if c in slow && !old(c.closed) then c.Evicted() else c.Untouched()
    {
      var rest := slow;
      while rest != {}
        invariant rest <= slow
        invariant Consistent() && clients == old(clients)
        invariant forall c | c in clients :: if c in slow - rest && !old(c.closed) then c.Evicted() else c.Untouched()
        decreases rest
      {
        EmptyOrNot(rest);
        var c :| c in rest;
        rest := rest - {c};
        CloseOne(c);
      }
    }

    method CloseOne(c: Client)
      requires Consistent() && c in clients
      modifies this, c
      ensures Consistent() && clients == old(clients)
      ensures if old(c.closed) then c.Untouched() else c.Evicted()
    {
      c.Close();
    }
  }
}
