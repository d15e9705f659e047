/** The server's objects. Who is in which channel is kept in three places: every channel's `users`, every
    user's `channels`, and the server's map of channels. `Valid` ties all three to one abstract relation,
    the membership of the ghost `model`, and every handler is proved to take one abstract step. */
module ChatServer {
  import opened Wrappers
  import opened Messages
  import opened ChatSpec
  import opened ChatHistory
  import opened ChatRuns
  import opened Handlers
  import WQ = WriteQueue
  import PT = PingTimer

  class ChatUser {
    const id: UserId
    const server: ChatServer

    var name: string
    var channels: set<ChatChannel>

    // the outbound queue; `writing` is the operating system's side of an outstanding write
    var posted: seq<Message>
    var writeMsgs: seq<Message>
    var writing: bool
    ghost var sent: seq<Message>
    ghost var writeFailed: bool

    // the ping timer; `pingArmed` tells whether a wait is outstanding
    var pongReceived: bool
    var currentPingRetries: nat
    var pingDeadline: int
    var pingArmed: bool

    // `closePosted` tells whether a handler that closes the socket is posted
    var socketOpen: bool
    var closePosted: bool

    constructor (server: ChatServer, id: UserId, now: int)
      ensures this.server == server && this.id == id
      ensures name == UNNAMED && channels == {} && socketOpen && !closePosted
      ensures Outbound() == WQ.Empty()
      ensures DeviceNow() == Fresh(now, false)
    {
      this.server, this.id := server, id;
      name, channels := UNNAMED, {};
      posted, writeMsgs, writing, sent, writeFailed := [], [], false, [], false;
      pongReceived, currentPingRetries, pingDeadline, pingArmed := false, 0, now + PT.PING_FREQUENCY, false;
      socketOpen, closePosted := true, false;
    }

    ghost function Outbound(): WQ.Queue<Message>
      reads this
    {
      WQ.Queue(posted, writeMsgs, writing, sent, writeFailed)
    }

    function Timer(): PT.Timer
      reads this
    {
      PT.Timer(pingDeadline, currentPingRetries, pongReceived, pingArmed)
    }

    /** The timer and the queue, but for its posted part. */
    ghost function DeviceNow(): Device
      reads this
    {
      Device(Timer(), writeMsgs, writing, sent, writeFailed)
    }

    /** `write`: post a handler that will queue the message. */
    method Write(msg: Message)
      modifies this`posted
      ensures posted == old(posted) + [msg]
    {
      posted := posted + [msg];
    }

    predicate IsJoined(c: ChatChannel)
      reads this
    {
      c in channels
    }

    /** Walks a snapshot of the user's channels while every `Leave` shrinks the live set. The live set is always
        what is left of the snapshot, so the final clearing changes nothing. Exactly the channels the user was
        alone in are gone from the map; nobody else's channels change. */
    method LeaveAllChannels()
      requires server.Valid() && this in server.everyone
      modifies this`channels, server.everyone`posted, server.channels.Values`users, server`channels, server`model
      ensures server.Valid() && channels == {}
      ensures server.model.names == old(server.model.names) && server.model.connected == old(server.model.connected)
      ensures old(server.model.history) <= server.model.history
      ensures LeaveEvents(server.model.history[|old(server.model.history)|..], server.model.names,
                          PairsOf(old(server.model.Membership()), {id}))
      ensures forall n | n in server.channels ::
                && n in old(server.channels) && server.channels[n] == old(server.channels)[n]
                && server.channels[n].users == old(server.channels[n].users) - {this}
      ensures forall n | n in old(server.channels) :: n in server.channels <==> old(server.channels[n].users) != {this}
    {
      hide ChatServer.Linked, ChatServer.JoinsAgree, Members, PairsOf, LeaveEvents, LeftBehind, Safe, Registered;
      server.JoinedPairs(this);
      server.JoinsKnown();
      var rest := channels;
      ghost var evs: seq<Event>, gone: Membership := [], {};
      NothingLeftYet(server.model.Membership(), {id}, server.model.names);
      while rest != {}
        invariant server.Valid()
        invariant channels == rest && rest <= old(channels)
        invariant server.model == old(server.model).(history := old(server.model.history) + evs)
        invariant LeftBehind(old(server.model.Membership()), server.model.Membership(), {id}, evs, server.model.names, gone)
        invariant forall n | n in server.channels :: n in old(server.channels) && server.channels[n] == old(server.channels)[n]
      {
        var c :| c in rest;
        LeaveOne(c, old(server.model), evs, gone);
        evs, gone, rest := evs + [Left(id, c.name, name)], gone + {(id, c.name)}, rest - {c};
      }
      server.JoinedPairs(this);
      NobodyIsLeft(old(server.model.Membership()), server.model.Membership(), {id}, evs, server.model.names, gone);
      assert server.model.history[|old(server.model.history)|..] == evs;
      server.JoinsKnown();
      server.OnlySoleChannelsGone(this);
      channels := {};
    }

    /** One round of the walk: one more pair of the user is left behind, and no channel but this one can be gone. */
    method LeaveOne(c: ChatChannel, ghost start: State, ghost evs: seq<Event>, ghost gone: Membership)
      requires server.Valid() && this in server.everyone && c in channels
      requires server.model == start.(history := start.history + evs)
      requires LeftBehind(start.Membership(), server.model.Membership(), {id}, evs, start.names, gone)
      modifies this`channels, server.everyone`posted, server.channels.Values`users, server`channels, server`model
      ensures server.Valid() && channels == old(channels) - {c}
      ensures server.model == start.(history := start.history + (evs + [Left(id, c.name, name)]))
      ensures LeftBehind(start.Membership(), server.model.Membership(), {id}, evs + [Left(id, c.name, name)], start.names,
                         gone + {(id, c.name)})
      ensures forall n | n in server.channels :: n in old(server.channels) && server.channels[n] == old(server.channels)[n]
      ensures forall n | n in old(server.channels) && n != c.name :: n in server.channels
    {
      hide ChatServer.Linked, Members, PairsOf, LeaveEvents, LeftBehind, Safe, Registered;
      server.JoinedPairs(this);
      LeaveOnePair(start.Membership(), server.model.Membership(), {id}, evs, start.names, gone, id, c.name);
      MembersSnoc(server.model.history, Left(id, c.name, name));
      assert start.history + evs + [Left(id, c.name, name)] == start.history + (evs + [Left(id, c.name, name)]);
      c.Leave(this);
    }

    /** Takes a new name of more than two characters; every channel of the user is told, under the old name. */
    method SetName(n: string)
      requires server.Valid() && this in server.everyone
      requires |n| > 2 ==> server.model.ValidId(n)
      modifies this`name, server.everyone`posted, server`model
      ensures server.Valid()
      ensures name == if |n| > 2 then n else old(name)
      ensures |n| <= 2 ==> server.model == old(server.model)
      ensures |n| > 2 ==>
                && server.model.names == old(server.model.names)[id := n]
                && server.model.connected == old(server.model.connected)
                && old(server.model.history) <= server.model.history
                && RenameEvents(server.model.history[|old(server.model.history)|..],
                                ChannelsOf(old(server.model.Membership()), id), old(name), n)
    {
      hide ChatServer.Linked, Members, ChannelsOf, RenameEvents, Safe;
      server.JoinedPairs(this);
      if |n| > 2 {
        AnnounceName(n);
        RenameKeepsSafe(old(server.model), id, n, server.model.history[|old(server.model.history)|..]);
        assert server.model.history == old(server.model.history) + server.model.history[|old(server.model.history)|..];
        label named:
        name := n;
        server.RecordName(id, n);
        server.AfterRename@named(this);
      }
    }

    /** Tells every channel of the user that it takes the name `n`. */
    method AnnounceName(n: string)
      requires server.Valid() && this in server.everyone
      modifies server.everyone`posted, server`model
      ensures server.Valid()
      ensures server.model == old(server.model).(history := server.model.history)
      ensures old(server.model.history) <= server.model.history
      ensures RenameEvents(server.model.history[|old(server.model.history)|..],
                           ChannelsOf(old(server.model.Membership()), id), name, n)
    {
      hide ChatServer.Linked, Members, ChannelsOf, RenameEvents, Safe, PairsOf, Registered, RenameNotice;
      server.JoinedPairs(this);
      ghost var start := server.model;
      ghost var evs: seq<Event>, done: set<string> := [], {};
      NoRenamesYet(name, n);
      var rest := channels;
      while rest != {}
        invariant server.Valid() && rest <= channels
        invariant server.model == start.(history := start.history + evs)
        invariant server.model.Membership() == start.Membership()
        invariant RenameEvents(evs, done, name, n) && done == set c | c in channels - rest :: c.name
      {
        var c :| c in rest;
        server.JoinedPairs(this);
        RenameEventsSnoc(evs, done, c.name, name, n);
        server.Announce(c, RenameNotice(c.name, name, n));
        evs, done, rest := evs + [Published(c.name, RenameNotice(c.name, name, n))], done + {c.name}, rest - {c};
      }
      assert server.model.history[|start.history|..] == evs;
      assert done == set c | c in channels :: c.name;
    }

    method Start()
      requires server.Valid() && this in server.everyone
      modifies this`posted, this`pingArmed, server`model, server`devices
      ensures server.Valid() && server.devices == old(server.devices)[id := Armed(old(DeviceNow()))]
      ensures server.model == old(server.model).(history := old(server.model.history) + [Told(id, ChatSpec.Ping(name))])
    {
      Ping();
    }

    /** Sends a ping and waits for the deadline. */
    method Ping()
      requires server.Valid() && this in server.everyone
      modifies this`posted, this`pingArmed, server`model, server`devices
      ensures server.Valid() && server.devices == old(server.devices)[id := Armed(old(DeviceNow()))]
      ensures server.model == old(server.model).(history := old(server.model.history) + [Told(id, ChatSpec.Ping(name))])
    {
      hide ChatServer.Linked, Safe, Members;
      server.NameKnown(this);
      server.Tell(this, ChatSpec.Ping(name));
      SetArmed(true);
    }

    /** The ping timer expired: the timer moves as `PingTimer` says; a user that is given up leaves all its
        channels and loses its socket. */
    method PingExpired()
      requires server.Valid() && this in server.everyone && pingArmed
      modifies this`pongReceived, this`currentPingRetries, this`pingDeadline, this`pingArmed, this`socketOpen
      modifies this`channels, server.everyone`posted, server.channels.Values`users, server`channels, server`model
      modifies server`devices
      ensures server.Valid()
      ensures server.devices == old(server.devices)[id := WithTimer(old(DeviceNow()), PT.Expire(old(Timer())))]
      ensures Step(old(server.model), if PT.GivesUp(old(Timer())) then Timeout(id) else PingAgain(id), server.model)
      ensures server.channels.Values <= old(server.channels.Values)
      ensures PT.GivesUp(old(Timer())) ==> channels == {} && !socketOpen
      ensures !PT.GivesUp(old(Timer())) ==> socketOpen == old(socketOpen)
    {
      hide ChatServer.Linked, Safe, Members, LeaveEvents, PairsOf, Registered, Step;
      server.NameKnown(this);
      if pongReceived || currentPingRetries < PT.PING_RETRY_MAX {
        PingExpiredAgain();
      } else {
        PingTimeout();
      }
    }

    /** The branch that gives the user up. */
    method PingTimeout()
      requires server.Valid() && this in server.everyone && pingArmed
      modifies this`pingArmed, this`socketOpen
      modifies this`channels, server.everyone`posted, server.channels.Values`users, server`channels, server`model
      modifies server`devices
      ensures server.Valid() && channels == {} && !socketOpen
      ensures server.devices == old(server.devices)[id := WithTimer(old(DeviceNow()), old(Timer()).(armed := false))]
      ensures Step(old(server.model), Timeout(id), server.model)
      ensures server.channels.Values <= old(server.channels.Values)
    {
      hide ChatServer.Linked, Safe, Members, LeaveEvents, PairsOf, Registered, Step, WQ.Queue.All, WQ.Queue.Good;
      server.NameKnown(this);
      LeaveAllChannels();
      server.NameKnown(this);
      TimeoutStep(old(server.model), id, server.model);
      SetArmed(false);
      server.NameKnown(this);
      label left:
      CloseSocket();
      server.StillValid@left();
    }

    /** The two branches of the expiry that wait once more: after a pong with a full period and no retries,
        without one with half a period and one more retry. */
    method PingExpiredAgain()
      requires server.Valid() && this in server.everyone && pingArmed && !PT.GivesUp(Timer())
      modifies this`pongReceived, this`currentPingRetries, this`pingDeadline, this`pingArmed
      modifies server.everyone`posted, server`model, server`devices
      ensures server.Valid()
      ensures server.devices == old(server.devices)[id := WithTimer(old(DeviceNow()), PT.Expire(old(Timer())))]
      ensures Step(old(server.model), PingAgain(id), server.model)
    {
      hide ChatServer.Linked, Safe, Members, Step;
      server.NameKnown(this);
      NextDeadline();
      server.NameKnown(this);
      Ping();
      PingStep(old(server.model), id, server.model);
    }

    /** What the two branches do before they ping. */
    method NextDeadline()
      requires server.Valid() && this in server.everyone && pingArmed && !PT.GivesUp(Timer())
      modifies this`pongReceived, this`currentPingRetries, this`pingDeadline, server`devices
      ensures server.Valid() && Timer() == PT.Expire(old(Timer()))
      ensures server.devices == old(server.devices)[id := WithTimer(old(DeviceNow()), Timer())]
    {
      hide ChatServer.Linked;
      server.NameKnown(this);
      if pongReceived {
        currentPingRetries := 0;
        pongReceived := false;
        pingDeadline := pingDeadline + PT.PING_FREQUENCY;
      } else {
        currentPingRetries := currentPingRetries + 1;
        pingDeadline := pingDeadline + PT.PING_FREQUENCY / 2;
      }
      server.RecordDevice(this);
      server.AfterDevice(this);
    }

    /** Leaves all channels and cancels the timer, too late for an expiry whose handler is already queued. The
        socket stays open and reading goes on. */
    method Stop(expiryQueued: bool)
      requires server.Valid() && this in server.everyone
      modifies this`pingArmed, server`devices
      modifies this`channels, server.everyone`posted, server.channels.Values`users, server`channels, server`model
      ensures server.Valid() && channels == {}
      ensures server.devices == old(server.devices)[id := Cancelled(old(DeviceNow()), expiryQueued)]
      ensures server.model.names == old(server.model.names) && server.model.connected == old(server.model.connected)
      ensures old(server.model.history) <= server.model.history
      ensures LeaveEvents(server.model.history[|old(server.model.history)|..], server.model.names,
                          PairsOf(old(server.model.Membership()), {id}))
      ensures server.channels.Values <= old(server.channels.Values)
    {
      hide ChatServer.Linked, Safe, Members, LeaveEvents, PairsOf, Registered;
      LeaveAllChannels();
      server.NameKnown(this);
      SetArmed(if expiryQueued then pingArmed else false);
    }

    /** The wait for the deadline begins or ends. */
    method SetArmed(armed: bool)
      requires server.Valid() && this in server.everyone
      modifies this`pingArmed, server`devices
      ensures server.Valid()
      ensures server.devices == old(server.devices)[id := WithTimer(old(DeviceNow()), old(Timer()).(armed := armed))]
    {
      hide ChatServer.Linked;
      server.NameKnown(this);
      pingArmed := armed;
      server.RecordDevice(this);
      server.AfterDevice(this);
    }

    /** The handler posted by `Write`: queues the message and starts a write only if the queue was empty. */
    method RunPostedWrite()
      requires server.Valid() && this in server.everyone && posted != []
      modifies this`posted, this`writeMsgs, this`writing, server`devices
      ensures server.Valid() && server.devices == old(server.devices)[id := DeviceNow()]
      ensures Timer() == old(Timer())
      ensures Outbound() == WQ.Next(old(Outbound()), WQ.RunPosted)
    {
      hide ChatServer.Linked, Registered, Members, Safe;
      server.NameKnown(this);
      WQ.NextKeepsGood(Outbound(), WQ.RunPosted);
      var writeInProgress := writeMsgs != [];
      writeMsgs := writeMsgs + [posted[0]];
      posted := posted[1..];
      if !writeInProgress {
        DoWrite();
      }
      server.RecordDevice(this);
      server.AfterDevice(this);
    }

    /** Starts the one outstanding write. */
    method DoWrite()
      requires !writing
      modifies this`writing
      ensures writing
    {
      writing := true;
    }

    /** A write completed without error: the front is popped and the next write is started, if there is one. */
    method WriteCompleted()
      requires server.Valid() && this in server.everyone && writing
      modifies this`writeMsgs, this`writing, this`sent, server`devices
      ensures server.Valid() && server.devices == old(server.devices)[id := DeviceNow()]
      ensures Timer() == old(Timer())
      ensures WQ.Enabled(old(Outbound()), WQ.Completed)
      ensures Outbound() == WQ.Next(old(Outbound()), WQ.Completed)
    {
      hide ChatServer.Linked, Registered, Members, Safe;
      server.NameKnown(this);
      WQ.NextKeepsGood(Outbound(), WQ.Completed);
      writing := false;
      sent := sent + [writeMsgs[0]];
      writeMsgs := writeMsgs[1..];
      if writeMsgs != [] {
        DoWrite();
      }
      server.RecordDevice(this);
      server.AfterDevice(this);
    }

    /** A write failed: the queue stays as it is and the user is stopped. */
    method WriteFailed(expiryQueued: bool)
      requires server.Valid() && this in server.everyone && writing
      modifies this`writing, this`writeFailed, this`pingArmed, server`devices
      modifies this`channels, server.everyone`posted, server.channels.Values`users, server`channels, server`model
      modifies server.manager`connections
      ensures server.Valid()
      ensures WQ.Enabled(old(Outbound()), WQ.Failed)
      ensures server.devices == old(server.devices)[id :=
                Cancelled(old(DeviceNow()).WithQueue(WQ.Next(old(Outbound()), WQ.Failed)), expiryQueued)]
      ensures Step(old(server.model), ChatSpec.Stop(id), server.model)
      ensures server.channels.Values <= old(server.channels.Values)
    {
      hide ChatServer.Linked, Step;
      server.NameKnown(this);
      WQ.NextKeepsGood(Outbound(), WQ.Failed);
      writing, writeFailed := false, true;
      server.RecordDevice(this);
      server.AfterDevice(this);
      server.manager.Stop(this, expiryQueued);
    }

    /** A message body arrived: `None` if it could not be decoded. */
    method ReadBody(body: Option<Message>)
      requires server.Valid() && this in server.everyone
      modifies this`pongReceived, this`name, this`channels, server`devices
      modifies server.everyone`posted, server.channels.Values`users, server`channels, server`model
      ensures server.Valid() && fresh(server.channels.Values - old(server.channels.Values))
      ensures body.Some? && body.value.kind == Status && body.value.content == "pong" ==>
                && server.model == old(server.model) && pongReceived
                && server.devices == old(server.devices)[id := WithTimer(old(DeviceNow()), old(Timer()).(pong := true))]
      ensures body.None? ==> server.model == old(server.model) && server.devices == old(server.devices)
      ensures body.Some? && !(body.value.kind == Status && body.value.content == "pong") ==>
                Step(old(server.model), Handle(id, body.value), server.model) && server.devices == old(server.devices)
    {
      hide ChatServer.Linked, Step;
      match body
      case None =>
      case Some(m) =>
        if IsPong(m) {
          ReceivePong();
        } else {
          server.HandleMessage(m, this);
        }
    }

    method ReceivePong()
      requires server.Valid() && this in server.everyone
      modifies this`pongReceived, server`devices
      ensures server.Valid() && pongReceived
      ensures server.devices == old(server.devices)[id := WithTimer(old(DeviceNow()), old(Timer()).(pong := true))]
    {
      hide ChatServer.Linked;
      server.NameKnown(this);
      pongReceived := true;
      server.RecordDevice(this);
      server.AfterDevice(this);
    }

    method PostClose()
      modifies this`closePosted
      ensures closePosted
    {
      closePosted := true;
    }

    /** The handler posted by `PostClose`. */
    method RunPostedClose()
      requires server.Valid() && this in server.everyone && closePosted
      modifies this`closePosted, this`socketOpen
      ensures server.Valid() && !socketOpen && !closePosted
    {
      hide ChatServer.Linked;
      server.NameKnown(this);
      closePosted := false;
      CloseSocket();
      server.StillValid();
    }

    method CloseSocket()
      modifies this`socketOpen
      ensures !socketOpen
    {
      if socketOpen {
        socketOpen := false;
      }
    }
  }

  class ChatChannel {
    const server: ChatServer
    const name: string
    var users: set<ChatUser>

    constructor (server: ChatServer, name: string)
      ensures this.server == server && this.name == name && users == {}
    {
      this.server, this.name, users := server, name, {};
    }

    /** Writes one copy to every member, and moves nobody's timer or queue otherwise. */
    method Publish(msg: Message)
      modifies users`posted
      ensures forall u | u in users :: u.posted == old(u.posted) + [msg]
      ensures forall u | u in server.everyone :: u.DeviceNow() == old(u.DeviceNow())
    {
      var rest := users;
      while rest != {}
        invariant rest <= users
        invariant forall u | u in rest :: u.posted == old(u.posted)
        invariant forall u | u in users - rest :: u.posted == old(u.posted) + [msg]
      {
        var u :| u in rest;
        u.Write(msg);
        rest := rest - {u};
      }
    }

    /** The user becomes a member, then all members are told. The channel may be a new, still empty one. */
    method Join(u: ChatUser)
      requires server.Linked(if users == {} then {name} else {})
      requires server.Owns(this) && u in server.everyone
      requires users == {} ==> server.model.ValidId(name)
      modifies this`users, u`channels, server.everyone`posted, server`model
      ensures server.Valid()
      ensures server.model == old(server.model).(history := old(server.model.history) + [Joined(u.id, name, u.name)])
    {
      hide ChatServer.Linked, WQ.Queue.All, WQ.Queue.Good;
      server.MembersKnown(this, if users == {} then {name} else {});
      Link(u, StatusMessage(name, u.name + " joined #" + name + "."));
      server.Record(Joined(u.id, name, u.name));
      server.AfterJoin(u, name);
    }

    /** Inserts both sides, then tells all members. */
    method Link(u: ChatUser, msg: Message)
      requires users <= server.everyone && u in server.everyone
      modifies this`users, u`channels, server.everyone`posted
      ensures u.channels == old(u.channels) + {this} && users == old(users) + {u}
      ensures server.WrittenTo(users, msg) && server.SameRoster() && server.OthersUnmoved(u, this)
    {
      u.channels := u.channels + {this};
      users := users + {u};
      Publish(msg);
    }

    /** All members are told, the user included; then it is no longer a member, and an empty channel takes
        itself out of the server's map. */
    method Leave(u: ChatUser)
      requires server.Valid() && server.Owns(this) && u in server.everyone && u.IsJoined(this)
      modifies this`users, u`channels, server.everyone`posted, server`channels, server`model
      ensures server.Valid()
      ensures server.model == old(server.model).(history := old(server.model.history) + [Left(u.id, name, u.name)])
      ensures u.channels == old(u.channels) - {this} && users == old(users) - {u}
      ensures server.channels == if users == {} then old(server.channels) - {name} else old(server.channels)
    {
      hide ChatServer.Linked, WQ.Queue.All, WQ.Queue.Good;
      server.MembersKnown(this, {});
      Unlink(u, StatusMessage(name, u.name + " left #" + name + "."));
      if users == {} {
        var _ := server.RemoveChannel(this);
      }
      server.Record(Left(u.id, name, u.name));
      server.AfterLeave(u, name);
    }

    /** Tells all members, then erases both sides. */
    method Unlink(u: ChatUser, msg: Message)
      requires users <= server.everyone && u in server.everyone
      modifies this`users, u`channels, server.everyone`posted
      ensures u.channels == old(u.channels) - {this} && users == old(users) - {u}
      ensures server.WrittenTo(old(users), msg) && server.SameRoster() && server.OthersUnmoved(u, this)
    {
      Publish(msg);
      u.channels := u.channels - {this};
      users := users - {u};
    }
  }

  class ChatUserManager {
    var connections: set<ChatUser>

    constructor ()
      ensures connections == {}
    {
      connections := {};
    }

    /** Some connected user of this name, if there is one. */
    method User(name: string) returns (found: ChatUser?)
      ensures found != null ==> found in connections && found.name == name
      ensures found == null ==> forall u | u in connections :: u.name != name
    {
      var rest := connections;
      while rest != {}
        invariant rest <= connections
        invariant forall u | u in connections - rest :: u.name != name
      {
        var u :| u in rest;
        if u.name == name {
          return u;
        }
        rest := rest - {u};
      }
      return null;
    }

    method UserExists(name: string) returns (r: bool)
      ensures r <==> exists u :: u in connections && u.name == name
    {
      var found := User(name);
      r := found != null;
    }

    /** Connects a user whose name no connected user and no channel has, and starts it. */
    method Start(u: ChatUser)
      requires u.server.Valid() && u in u.server.everyone && u.server.manager == this
      requires Safe(u.server.model.(connected := u.server.model.connected + {u.id}))
      modifies this`connections, u`posted, u`pingArmed, u.server`model, u.server`devices
      ensures u.server.Valid() && connections == old(connections) + {u}
      ensures u.server.devices == old(u.server.devices)[u.id := Armed(old(u.DeviceNow()))]
      ensures u.server.model == old(u.server.model).(connected := old(u.server.model.connected) + {u.id},
                history := old(u.server.model.history) + [Told(u.id, ChatSpec.Ping(u.name))])
    {
      hide ChatServer.Linked, Safe, Members;
      u.server.ConnectionsKnown();
      u.server.IdsDiffer(u);
      connections := connections + {u};
      u.server.RecordConnections(u.server.model.connected + {u.id});
      u.server.AfterConnections();
      u.Start();
    }

    /** Stops every connected user, then disconnects them all; `queued` holds the users whose ping expiry is
        already queued. */
    method StopAll(ghost server: ChatServer, queued: set<UserId>)
      requires server.Valid() && server.manager == this
      modifies this`connections, connections`channels, connections`pingArmed, server.everyone`posted
      modifies server.channels.Values`users, server`channels, server`model, server`devices
      ensures server.Valid() && connections == {}
      ensures Step(old(server.model), ChatSpec.StopAll, server.model)
      ensures AllCancelled(old(server.devices), server.devices, old(server.model.connected), queued)
      ensures server.channels.Values <= old(server.channels.Values)
    {
      hide ChatServer.Linked, Safe, Members, AllCancelled, AllGone, Step;
      ghost var start := server.model;
      ghost var evs := StopEach(server, queued);
      server.ConnectionsKnown();
      FewerConnectionsKeepSafe(server.model, {});
      StopAllStep(start, evs);
      label left:
      connections := {};
      server.RecordConnections({});
      server.AfterConnections@left();
    }

    /** The loop of `stop_all`: every connected user leaves its channels, in some order. */
    method StopEach(ghost server: ChatServer, queued: set<UserId>) returns (ghost evs: seq<Event>)
      requires server.Valid() && server.manager == this
      modifies connections`channels, connections`pingArmed, server.everyone`posted
      modifies server.channels.Values`users, server`channels, server`model, server`devices
      ensures server.Valid()
      ensures server.model == old(server.model).(history := old(server.model.history) + evs)
      ensures AllGone(old(server.model.Membership()), server.model.Membership(), old(server.model.connected), evs,
                      server.model.names)
      ensures AllCancelled(old(server.devices), server.devices, old(server.model.connected), queued)
      ensures server.channels.Values <= old(server.channels.Values)
    {
      hide ChatServer.Linked, Safe, Members, PairsOf, LeaveEvents, LeftBehind, AllCancelled, AllGone;
      ghost var start := server.model;
      ghost var stopped: set<UserId> := {};
      evs := [];
      var rest := connections;
      server.ConnectionsKnown();
      NobodyGone(start.Membership(), start.names);
      NothingCancelled(server.devices, queued);
      while rest != {}
        invariant server.Valid() && rest <= connections
        invariant server.model == start.(history := start.history + evs)
        invariant server.channels.Values <= old(server.channels.Values)
        invariant stopped == set u | u in connections - rest :: u.id
        invariant AllGone(start.Membership(), server.model.Membership(), stopped, evs, start.names)
        invariant AllCancelled(old(server.devices), server.devices, stopped, queued)
      {
        var c :| c in rest;
        server.ConnectionsKnown();
        server.IdsDiffer(c);
        evs := StopNext(server, c, queued, start, evs, stopped, old(server.devices));
        stopped, rest := stopped + {c.id}, rest - {c};
      }
      server.ConnectionsKnown();
      assert stopped == start.connected;
    }

    /** One round of the loop. */
    method StopNext(ghost server: ChatServer, c: ChatUser, queued: set<UserId>, ghost start: State, ghost evs: seq<Event>,
                    ghost stopped: set<UserId>, ghost devices: seq<Device>) returns (ghost evs': seq<Event>)
      requires server.Valid() && c in server.everyone && c.server == server && c.id !in stopped
      requires server.model == start.(history := start.history + evs)
      requires AllGone(start.Membership(), server.model.Membership(), stopped, evs, start.names)
      requires AllCancelled(devices, server.devices, stopped, queued)
      modifies c`channels, c`pingArmed, server.everyone`posted, server.channels.Values`users, server`channels
      modifies server`model, server`devices
      ensures server.Valid() && server.channels.Values <= old(server.channels.Values)
      ensures server.model == start.(history := start.history + evs')
      ensures AllGone(start.Membership(), server.model.Membership(), stopped + {c.id}, evs', start.names)
      ensures AllCancelled(devices, server.devices, stopped + {c.id}, queued)
    {
      hide ChatServer.Linked, Safe, Members, PairsOf, LeaveEvents, AllCancelled, AllGone;
      server.NameKnown(c);
      OneMoreCancelled(devices, server.devices, stopped, queued, c.id);
      c.Stop(c.id in queued);
      ghost var more := server.model.history[|start.history + evs|..];
      OneMoreGone(start, evs, more, stopped, c.id);
      evs' := evs + more;
      assert server.model.history == start.history + evs';
    }

    /** The user leaves all channels and is disconnected. */
    method Stop(u: ChatUser, expiryQueued: bool)
      requires u.server.Valid() && u in u.server.everyone && u.server.manager == this
      modifies this`connections, u`pingArmed, u.server`devices
      modifies u`channels, u.server.everyone`posted, u.server.channels.Values`users, u.server`channels, u.server`model
      ensures u.server.Valid() && connections == old(connections) - {u} && u.channels == {}
      ensures Step(old(u.server.model), ChatSpec.Stop(u.id), u.server.model)
      ensures u.server.devices == old(u.server.devices)[u.id := Cancelled(old(u.DeviceNow()), expiryQueued)]
      ensures u.server.channels.Values <= old(u.server.channels.Values)
    {
      hide ChatServer.Linked, Safe, Members, LeaveEvents, PairsOf;
      u.Stop(expiryQueued);
      u.server.ConnectionsKnown();
      u.server.IdsDiffer(u);
      FewerConnectionsKeepSafe(u.server.model, u.server.model.connected - {u.id});
      label left:
      connections := connections - {u};
      u.server.RecordConnections(u.server.model.connected - {u.id});
      u.server.AfterConnections@left();
    }
  }

  class ChatServer {
    const manager: ChatUserManager
    var channels: map<string, ChatChannel>

    /** Every user object ever constructed, by identity: the handlers that capture it keep it alive. */
    var userAt: seq<ChatUser>
    ghost var everyone: set<ChatUser>

    /** The abstract state this server is in. */
    ghost var model: State

    /** The timer and queue of every user, by identity. */
    ghost var devices: seq<Device>

    constructor ()
      ensures Valid() && model == START && devices == [] && everyone == {} && channels == map[]
      ensures fresh(manager) && manager.connections == {}
    {
      manager := new ChatUserManager();
      channels, userAt, everyone, model, devices := map[], [], {}, START, [];
    }

    predicate Owns(c: ChatChannel)
      reads this
    {
      c.name in channels && channels[c.name] == c
    }

    /** Identities, names and connections. */
    ghost predicate Roster()
      reads this, manager, everyone
    {
      && |userAt| == |model.names|
      && (forall i | 0 <= i < |userAt| :: userAt[i] in everyone && userAt[i].id == i)
      && (forall p | p in model.Membership() :: p.0 < |userAt|)
      && (forall u | u in everyone ::
            u.id < |userAt| && userAt[u.id] == u && u.server == this && u.name == model.names[u.id])
      && (forall u | u in manager.connections :: u in everyone && u.id in model.connected)
      && (forall u | u in everyone && u.id in model.connected :: u in manager.connections)
    }

    /** A channel is registered, under its own name, iff it has a member; those in `spare` have none yet. */
    ghost predicate Registry(spare: set<string>)
      reads this, channels.Values
    {
      && channels.Keys == Registered(model.Membership()) + spare
      && (forall n | n in channels :: channels[n].name == n && channels[n].server == this)
    }

    /** Every channel's users and every user's channels mirror the relation. */
    ghost predicate Mirror()
      reads this, everyone, channels.Values
    {
      && (forall n, u | n in channels && u in channels[n].users :: u in everyone && (u.id, n) in model.Membership())
      && (forall u, n | u in everyone && n in channels && (u.id, n) in model.Membership() ::
            u in channels[n].users && channels[n] in u.channels)
      && (forall u, c | u in everyone && c in u.channels :: Owns(c) && (u.id, c.name) in model.Membership())
    }

    /** What every user was sent is queued for it, in order. */
    ghost predicate Mail()
      reads this, everyone
    {
      forall u | u in everyone ::
        u.Outbound().Good() && u.Outbound().All() == Inbox(model.history, u.id)
    }

    /** Every user's timer and queue are those recorded for it. */
    ghost predicate Wired()
      reads this, everyone
    {
      |devices| == |userAt| && forall u | u in everyone :: u.id < |devices| && u.DeviceNow() == devices[u.id]
    }

    ghost predicate Linked(spare: set<string>)
      reads this, manager, everyone, channels.Values
    {
      Safe(model) && Roster() && Registry(spare) && Mirror() && Mail() && Wired()
    }

    ghost predicate Valid()
      reads this, manager, everyone, channels.Values
    {
      Linked({})
    }

    // -------------------------------------------------------------- coupling lemmas

    lemma MembersKnown(c: ChatChannel, spare: set<string>)
      requires Linked(spare) && Owns(c)
      ensures c.users <= everyone
      ensures c.name !in spare ==> c.name != ""
    {
    }

    lemma NameKnown(u: ChatUser)
      requires Valid() && u in everyone
      ensures Safe(model) && u.id < |model.names| && u.name == model.names[u.id] && u.server == this
      ensures u.Outbound().Good()
      ensures channels.Keys == Registered(model.Membership())
      ensures |devices| == |model.names| && u.DeviceNow() == devices[u.id]
    {
    }

    lemma MailKnown(u: ChatUser)
      requires Valid() && u in everyone
      ensures u.Outbound().Good() && u.Outbound().All() == Inbox(model.history, u.id)
    {
      hide Members, Inbox, Safe, Registered;
    }

    lemma ConnectionsKnown()
      requires Valid()
      ensures Safe(model) && manager.connections <= everyone && |userAt| == |model.names|
      ensures forall u | u in everyone :: u.server == this
      ensures forall u | u in everyone :: u in manager.connections <==> u.id in model.connected
      ensures model.connected == set u | u in manager.connections :: u.id
    {
      assert forall i | i in model.connected :: userAt[i] in manager.connections;
    }

    lemma IdentitiesKnown()
      requires Valid()
      ensures |userAt| == |model.names| == |devices|
      ensures forall i | 0 <= i < |userAt| :: userAt[i] in everyone && userAt[i].id == i
    {
    }

    lemma IdsDiffer(u: ChatUser)
      requires Valid() && u in everyone
      ensures forall v | v in everyone && v.id == u.id :: v == u
    {
    }

    /** The channels of a user are the registered channels of its pairs. */
    lemma JoinedPairs(u: ChatUser)
      requires Valid() && u in everyone
      ensures Safe(model) && u.id < |model.names| && u.name == model.names[u.id] && u.server == this
      ensures forall c | c in u.channels ::
                Owns(c) && u in c.users && c.server == this && (u.id, c.name) in model.Membership()
      ensures forall n | n in channels ::
                && channels[n].name == n && channels[n].server == this && channels[n].users != {}
                && (u in channels[n].users <==> channels[n] in u.channels)
      ensures forall n :: (u.id, n) in model.Membership() <==> n in channels && channels[n] in u.channels
      ensures PairsOf(model.Membership(), {u.id}) == set c | c in u.channels :: (u.id, c.name)
      ensures ChannelsOf(model.Membership(), u.id) == set c | c in u.channels :: c.name
    {
      forall c | c in u.channels
        ensures Owns(c) && u in c.users && c.server == this && (u.id, c.name) in model.Membership()
      {
        assert (u.id, c.name) in model.Membership();
      }
      forall n | n in channels
        ensures channels[n].users != {} && (u in channels[n].users <==> channels[n] in u.channels)
      {
        var p :| p in model.Membership() && p.1 == n;
        assert userAt[p.0] in channels[n].users;
      }
      forall p | p in model.Membership() && p.0 == u.id
        ensures p.1 in channels && channels[p.1] in u.channels && channels[p.1].name == p.1
      {
        assert p.1 in Registered(model.Membership());
      }
    }

    /** The users of a registered channel, never none, are those that have it among their channels. */
    ghost predicate JoinsAgree()
      reads this, everyone, channels.Values
    {
      && (forall n | n in channels :: channels[n].name == n && channels[n].users != {} && channels[n].users <= everyone)
      && (forall n, u | n in channels && u in everyone :: u in channels[n].users <==> channels[n] in u.channels)
      && (forall u, c | u in everyone && c in u.channels :: Owns(c))
    }

    lemma JoinsKnown()
      requires Valid()
      ensures JoinsAgree()
    {
      forall n | n in channels
        ensures channels[n].users != {}
      {
        var p :| p in model.Membership() && p.1 == n;
        assert userAt[p.0] in channels[n].users;
      }
    }

    /** If a user lost all its channels and nobody else lost or gained one, then exactly the channels it was
        alone in are gone from the map, and the others lost exactly this user. */
    twostate lemma OnlySoleChannelsGone(u: ChatUser)
      requires old(JoinsAgree()) && JoinsAgree() && u in everyone && everyone == old(everyone) && u.channels == {}
      requires forall v | v in everyone && v != u :: v.channels == old(v.channels)
      requires forall n | n in channels :: n in old(channels) && channels[n] == old(channels)[n]
      ensures forall n | n in old(channels) :: n in channels <==> old(channels[n].users) != {u}
      ensures forall n | n in channels :: channels[n].users == old(channels[n].users) - {u}
    {
      forall n | n in old(channels)
        ensures n in channels <==> old(channels[n].users) != {u}
        ensures n in channels ==> channels[n].users == old(channels[n].users) - {u}
      {
        var c := old(channels)[n];
        assert forall v | v in everyone && v != u :: v in old(c.users) <==> c in v.channels;
        if n in channels {
          assert c.users == old(c.users) - {u};
        } else {
          assert c.name == n && !Owns(c);
          assert old(c.users) == {u};
        }
      }
    }

    /** Every user in `recipients` was written `msg`, and nothing else was queued, sent or failed. */
    twostate predicate WrittenTo(new recipients: set<ChatUser>, msg: Message)
      reads this, everyone
    {
      && everyone == old(everyone)
      && forall u | u in everyone ::
           && u.DeviceNow() == old(u.DeviceNow())
           && u.posted == old(u.posted) + if u in recipients then [msg] else []
    }

    /** If exactly the users that `e` reaches were written its message, the queues match the inboxes again. */
    twostate lemma MailAfter(new e: Event, new recipients: set<ChatUser>)
      requires old(Mail()) && WrittenTo(recipients, Carried(e))
      requires model.history == old(model.history) + [e]
      requires forall u | u in everyone :: u in recipients <==> Reaches(Members(old(model.history)), e, u.id)
      ensures Mail()
    {
      forall u | u in everyone
        ensures u.Outbound().Good() && u.Outbound().All() == Inbox(model.history, u.id)
      {
        InboxSnoc(old(model.history), e, u.id);
        WQ.NextKeepsGood(old(u.Outbound()), WQ.Write(Carried(e)));
        assert old(u.posted) + [] == old(u.posted);
      }
    }

    twostate lemma WiredKept()
      requires old(Wired()) && everyone == old(everyone) && userAt == old(userAt) && devices == old(devices)
      requires forall u | u in everyone :: u.DeviceNow() == old(u.DeviceNow())
      ensures Wired()
    {
    }

    /** The users and channels other than `u` and `c` have the memberships they had. */
    twostate predicate OthersUnmoved(u: ChatUser, c: ChatChannel)
      reads this, everyone, channels.Values
    {
      && everyone == old(everyone) && userAt == old(userAt)
      && (forall v | v in everyone && v != u :: v.channels == old(v.channels))
      && (forall d | d in old(channels.Values) && d in channels.Values && d != c :: d.users == old(d.users))
    }

    /** Nobody was renamed, connected or disconnected. */
    twostate predicate SameRoster()
      reads this, manager, everyone
    {
      && everyone == old(everyone) && userAt == old(userAt) && manager.connections == old(manager.connections)
      && (forall v | v in everyone :: v.name == old(v.name))
    }

    /** Adding the user to the channel and the channel to the user is adding the pair to the relation. */
    twostate lemma MirrorAfterJoin(u: ChatUser, new name: string)
      requires u in everyone && name in channels && channels == old(channels) && OthersUnmoved(u, channels[name])
      requires old(Mirror()) && forall n | n in channels :: channels[n].name == n
      requires forall v | v in everyone && v.id == u.id :: v == u
      requires model.Membership() == old(model.Membership()) + {(u.id, name)}
      requires channels[name].users == old(channels[name].users) + {u}
      requires u.channels == old(u.channels) + {channels[name]}
      ensures Mirror()
    {
      hide Members;
    }

    twostate lemma AfterJoin(u: ChatUser, new name: string)
      requires u in everyone && name in channels && channels == old(channels)
      requires old(Linked(if channels[name].users == {} then {name} else {}))
      requires old(channels[name].users == {}) ==> old(model).ValidId(name)
      requires model == old(model).(history := old(model.history) + [Joined(u.id, name, u.name)])
      requires WrittenTo(channels[name].users, Carried(Joined(u.id, name, u.name)))
      requires SameRoster() && OthersUnmoved(u, channels[name]) && devices == old(devices)
      requires channels[name].users == old(channels[name].users) + {u}
      requires u.channels == old(u.channels) + {channels[name]}
      ensures Valid()
    {
      var e := Joined(u.id, name, u.name);
      MembersSnoc(old(model.history), e);
      EventKeepsSafe(old(model), e);
      RegisteredWith(old(model.Membership()), u.id, name);
      MirrorAfterJoin(u, name);
      MailAfter(e, channels[name].users);
      WiredKept();
    }

    /** Appends an event to the history. */
    ghost method Record(e: Event)
      modifies this`model
      ensures model == old(model).(history := old(model.history) + [e])
    {
      model := model.(history := model.history + [e]);
    }

    static lemma RegisteredWith(m: Membership, i: UserId, name: string)
      ensures Registered(m + {(i, name)}) == Registered(m) + {name}
    {
      var m' := m + {(i, name)};
      assert (i, name) in m';
      forall n | n in Registered(m)
        ensures n in Registered(m')
      {
        var p :| p in m && p.1 == n;
        assert p in m';
      }
    }

    /** Taking a pair away unregisters its channel if nobody else is in it. */
    static lemma RegisteredWithout(m: Membership, i: UserId, name: string)
      requires (i, name) in m
      ensures Registered(m - {(i, name)}) == if UsersOf(m, name) <= {i} then Registered(m) - {name} else Registered(m)
    {
      var m' := m - {(i, name)};
      forall n | n in Registered(m) && n != name
        ensures n in Registered(m')
      {
        var p :| p in m && p.1 == n;
        assert p in m';
      }
      assert (i, name) in m;
      if UsersOf(m, name) <= {i} {
        forall p | p in m'
          ensures p.1 != name
        {
          assert p.0 in UsersOf(m, p.1);
        }
      } else {
        var v :| v in UsersOf(m, name) && v != i;
        assert (v, name) in m';
      }
    }

    /** Removing the user from the channel and the channel from the user, and an emptied channel from the map,
        is removing the pair from the relation. */
    twostate predicate Removed(u: ChatUser, c: ChatChannel)
      reads this, u, c, everyone, channels.Values
    {
      && OthersUnmoved(u, c)
      && model.Membership() == old(model.Membership()) - {(u.id, c.name)}
      && c.users == old(c.users) - {u} && u.channels == old(u.channels) - {c}
      && channels == if c.users == {} then old(channels) - {c.name} else old(channels)
    }

    twostate lemma MirrorAfterLeave(u: ChatUser, new name: string)
      requires u in everyone && old(name in channels && channels[name].name == name) && Removed(u, old(channels[name]))
      requires old(Mirror()) && forall n | n in old(channels) :: old(channels)[n].name == n
      requires forall v | v in everyone && v.id == u.id :: v == u
      ensures Mirror()
    {
      var c := old(channels[name]);
      forall v, d | v in everyone && d in v.channels
        ensures Owns(d) && (v.id, d.name) in model.Membership()
      {
        assert old(Owns(d)) && (v.id, d.name) in old(model.Membership());
        if d == c {
          assert v in old(c.users) && v != u;
          assert v in c.users;
        } else {
          assert d.name != name;
        }
      }
    }

    twostate lemma RegistryAfterLeave(u: ChatUser, new name: string)
      requires u in everyone && old(name in channels && channels[name].name == name) && Removed(u, old(channels[name]))
      requires old(Roster() && Registry({}) && Mirror()) && (u.id, name) in old(model.Membership())
      ensures Registry({})
    {
      var m := old(model.Membership());
      var c := old(channels)[name];
      RegisteredWithout(m, u.id, name);
      assert c.users == {} <==> UsersOf(m, name) <= {u.id} by {
        if c.users == {} {
          forall i | i in UsersOf(m, name)
            ensures i == u.id
          {
            assert (i, name) in m;
            assert userAt[i] in old(c.users) && userAt[i] !in c.users;
            assert userAt[i].id == i;
          }
        } else {
          var v :| v in c.users;
          assert (v.id, name) in m && v.id != u.id;
        }
      }
    }

    twostate lemma AfterLeave(u: ChatUser, new name: string)
      requires u in everyone && old(name in channels && Valid() && channels[name] in u.channels)
      requires model == old(model).(history := old(model.history) + [Left(u.id, name, u.name)])
      requires WrittenTo(old(channels[name].users), Carried(Left(u.id, name, u.name)))
      requires SameRoster() && OthersUnmoved(u, old(channels)[name]) && devices == old(devices)
      requires var c := old(channels)[name];
               && c.users == old(c.users) - {u} && u.channels == old(u.channels) - {c}
               && channels == if c.users == {} then old(channels) - {name} else old(channels)
      ensures Valid()
    {
      var e := Left(u.id, name, u.name);
      MembersSnoc(old(model.history), e);
      EventKeepsSafe(old(model), e);
      assert Removed(u, old(channels[name]));
      RegistryAfterLeave(u, name);
      MirrorAfterLeave(u, name);
      MailAfter(e, old(channels[name].users));
      WiredKept();
    }

    /** No membership changed. */
    twostate predicate NobodyMoved()
      reads this, everyone, channels.Values
    {
      && everyone == old(everyone) && channels == old(channels)
      && (forall v | v in everyone :: v.channels == old(v.channels))
      && (forall n | n in channels :: channels[n].users == old(channels[n].users))
    }

    twostate lemma GraphKept()
      requires old(Registry({}) && Mirror()) && NobodyMoved() && model.Membership() == old(model.Membership())
      ensures Registry({}) && Mirror()
    {
    }

    twostate lemma RosterKept()
      requires old(Roster()) && SameRoster() && model.names == old(model.names)
      requires model.connected == old(model.connected) && model.Membership() <= old(model.Membership())
      ensures Roster()
    {
    }

    /** Queues whose contents did not change still match inboxes that did not change. */
    twostate lemma MailKept()
      requires old(Mail()) && everyone == old(everyone) && model.history == old(model.history)
      requires forall u | u in everyone ::
                 && (old(u.Outbound().Good()) ==> u.Outbound().Good())
                 && u.Outbound().All() == old(u.Outbound().All())
      ensures Mail()
    {
    }

    twostate lemma AfterMessage(new e: Event, new recipients: set<ChatUser>)
      requires old(Valid()) && (e.Told? || e.Published?) && (e.Told? ==> e.user < |model.names|)
      requires WrittenTo(recipients, Carried(e)) && NobodyMoved() && SameRoster() && devices == old(devices)
      requires model == old(model).(history := old(model.history) + [e])
      requires forall u | u in everyone :: u in recipients <==> Reaches(old(model.Membership()), e, u.id)
      ensures Valid() && model.Membership() == old(model.Membership())
    {
      MembersSnoc(old(model.history), e);
      EventKeepsSafe(old(model), e);
      MailAfter(e, recipients);
      WiredKept();
      hide ChatServer.Roster, ChatServer.Registry, ChatServer.Mirror, ChatServer.Mail, ChatServer.Wired, Safe;
      GraphKept();
      RosterKept();
    }

    /** The members of a registered channel are those the relation says. */
    lemma PublishReaches(c: ChatChannel, msg: Message)
      requires Valid() && Owns(c)
      ensures c.users <= everyone && c.server == this
      ensures forall u | u in everyone :: u in c.users <==> Reaches(model.Membership(), Published(c.name, msg), u.id)
    {
    }

    /** A publish to the channel, recorded in the history. */
    method Announce(c: ChatChannel, msg: Message)
      requires Valid() && Owns(c)
      modifies everyone`posted, this`model
      ensures Valid() && model.Membership() == old(model.Membership())
      ensures model == old(model).(history := old(model.history) + [Published(c.name, msg)])
    {
      hide ChatServer.Linked;
      PublishReaches(c, msg);
      c.Publish(msg);
      Record(Published(c.name, msg));
      AfterMessage(Published(c.name, msg), c.users);
    }

    /** A write to one user, recorded in the history. */
    method Tell(u: ChatUser, msg: Message)
      requires Valid() && u in everyone
      modifies u`posted, this`model
      ensures Valid() && model.Membership() == old(model.Membership())
      ensures model == old(model).(history := old(model.history) + [Told(u.id, msg)])
    {
      hide ChatServer.Linked, Safe, Members;
      NameKnown(u);
      IdsDiffer(u);
      u.Write(msg);
      Record(Told(u.id, msg));
      AfterMessage(Told(u.id, msg), {u});
    }

    ghost method RecordConnections(connected: set<UserId>)
      modifies this`model
      ensures model == old(model).(connected := connected)
    {
      model := model.(connected := connected);
    }

    /** Only connections changed, the same way in the manager and in the model. */
    twostate lemma AfterConnections()
      requires old(Valid()) && model == old(model).(connected := model.connected) && Safe(model)
      requires NobodyMoved() && userAt == old(userAt) && devices == old(devices)
      requires forall u | u in everyone ::
                 u.name == old(u.name) && u.Outbound() == old(u.Outbound()) && u.DeviceNow() == old(u.DeviceNow())
      requires forall u | u in manager.connections :: u in everyone
      requires forall u | u in everyone :: u in manager.connections <==> u.id in model.connected
      ensures Valid()
    {
      MailKept();
      WiredKept();
      GraphKept();
    }

    /** Only the timer and the queue of `u` moved, as recorded, and its queue holds the same messages. */
    twostate lemma AfterDevice(u: ChatUser)
      requires old(Valid()) && u in everyone && model == old(model) && NobodyMoved() && SameRoster()
      requires u.id < |old(devices)| && devices == old(devices)[u.id := u.DeviceNow()]
      requires old(u.Outbound().Good()) ==> u.Outbound().Good()
      requires u.Outbound().All() == old(u.Outbound().All())
      requires forall v | v in everyone && v != u :: v.Outbound() == old(v.Outbound()) && v.DeviceNow() == old(v.DeviceNow())
      ensures Valid()
    {
      MailKept();
      assert Wired();
      hide ChatServer.Roster, ChatServer.Registry, ChatServer.Mirror, ChatServer.Mail, ChatServer.Wired, Safe;
      GraphKept();
      RosterKept();
    }

    /** Nothing the invariant speaks of changed. */
    twostate lemma StillValid()
      requires old(Valid()) && model == old(model) && NobodyMoved() && SameRoster() && devices == old(devices)
      requires forall u | u in everyone :: u.Outbound() == old(u.Outbound()) && u.DeviceNow() == old(u.DeviceNow())
      ensures Valid()
    {
      MailKept();
      WiredKept();
      hide ChatServer.Roster, ChatServer.Registry, ChatServer.Mirror, ChatServer.Mail, ChatServer.Wired, Safe;
      GraphKept();
      RosterKept();
    }

    ghost method RecordDevice(u: ChatUser)
      requires u.id < |devices|
      modifies this`devices
      ensures devices == old(devices)[u.id := u.DeviceNow()]
    {
      devices := devices[u.id := u.DeviceNow()];
    }

    ghost method RecordName(i: UserId, n: string)
      requires i < |model.names|
      modifies this`model
      ensures model == old(model).(names := old(model.names)[i := n])
    {
      model := model.(names := model.names[i := n]);
    }

    twostate lemma AfterRename(u: ChatUser)
      requires old(Valid()) && u in everyone && Safe(model) && u.id < |old(model.names)|
      requires model == old(model).(names := old(model.names)[u.id := u.name])
      requires NobodyMoved() && devices == old(devices)
      requires forall v | v in everyone :: v.Outbound() == old(v.Outbound()) && v.DeviceNow() == old(v.DeviceNow())
      requires userAt == old(userAt) && manager.connections == old(manager.connections)
      requires forall v | v in everyone && v != u :: v.name == old(v.name)
      ensures Valid()
    {
      MailKept();
      WiredKept();
      GraphKept();
    }

    // -------------------------------------------------------------- the channel map

    /** Registers a new channel, unless the id is empty or taken. */
    method CreateChannel(id: string) returns (c: ChatChannel?)
      modifies this`channels
      ensures id == "" || id in old(channels) ==> c == null && channels == old(channels)
      ensures id != "" && id !in old(channels) ==>
                && c != null && fresh(c) && c.name == id && c.server == this && c.users == {}
                && channels == old(channels)[id := c]
    {
      c := null;
      if id != "" {
        if id !in channels {
          c := new ChatChannel(this, id);
          channels := channels[id := c];
        }
      }
    }

    method RemoveChannel(c: ChatChannel?) returns (r: bool)
      modifies this`channels
      ensures c == null ==> !r && channels == old(channels)
      ensures c != null ==> channels == if c.name == "" then old(channels) else old(channels) - {c.name}
      ensures c != null ==> (r <==> c.name == "" || c.name in old(channels))
    {
      if c == null {
        return false;
      }
      r := RemoveChannelNamed(c.name);
    }

    method RemoveChannelNamed(id: string) returns (r: bool)
      modifies this`channels
      ensures channels == if id == "" then old(channels) else old(channels) - {id}
      ensures r <==> id == "" || id in old(channels)
    {
      if id != "" {
        if id !in channels {
          assert channels - {id} == channels;
          return false;
        }
        channels := channels - {id};
      }
      return true;
    }

    /** The registered channel of this id. */
    function Channel(id: string): (c: ChatChannel?)
      reads this
    {
      if id in channels then channels[id] else null
    }

    /** `valid_id`: at least three ASCII letters and digits, a letter first, that no connected user and no channel
        has for its name. */
    method ValidId(id: string) returns (r: bool)
      requires Valid()
      ensures r <==> model.ValidId(id)
      ensures r <==>
                && |id| >= 3
                && ('a' <= id[0] <= 'z' || 'A' <= id[0] <= 'Z')
                && (forall i | 0 <= i < |id| :: 'a' <= id[i] <= 'z' || 'A' <= id[i] <= 'Z' || '0' <= id[i] <= '9')
                && (forall u | u in manager.connections :: u.name != id)
                && id !in channels
    {
      if id == "" {
        return false;
      }
      if !IsAlpha(id[0]) || exists i :: 0 <= i < |id| && !IsAlnum(id[i]) {
        return false;
      }
      var user := manager.UserExists(id);
      NameIsTakenIff(id);
      r := !(user || id in channels || |id| < 3);
    }

    /** The manager's connections hold a name exactly when the model says it is taken. */
    lemma NameIsTakenIff(id: string)
      requires Valid()
      ensures (exists u :: u in manager.connections && u.name == id) <==> model.NameTaken(id)
      ensures channels.Keys == Registered(model.Membership())
    {
      if model.NameTaken(id) {
        var v :| v in model.connected && v < |model.names| && model.names[v] == id;
        assert userAt[v] in manager.connections;
      }
    }

    /** Commands are executed; every other message goes to the target channel if the sender is in it, else to
        the connected user of that name, else back to the sender as an error. */
    method HandleMessage(msg: Message, user: ChatUser)
      requires Valid() && user in everyone
      modifies user`name, user`channels, everyone`posted, channels.Values`users, this`channels, this`model
      ensures Valid() && fresh(channels.Values - old(channels.Values))
      ensures Step(old(model), Handle(user.id, msg), model)
    {
      hide ChatServer.Linked, Safe, Members, Registered, StepEvents, Step, ParseCommand, PairsOf, ChannelsOf;
      JoinedPairs(user);
      if msg.kind == Command {
        DoCommand(msg, user);
      } else {
        var target := msg.target;
        var chan := Channel(target);
        var copy := NewMessage(user.name, target, msg.content, Text);
        if chan != null && user.IsJoined(chan) {
          Announce(chan, copy);
          StepOf(old(model), Handle(user.id, msg), model, [Published(target, copy)]);
          return;
        }
        var tellTarget := manager.User(target);
        NameIsTakenIff(target);
        ConnectionsKnown();
        if tellTarget != null {
          NameKnown(tellTarget);
          Tell(tellTarget, copy);
          StepOf(old(model), Handle(user.id, msg), model, [Told(tellTarget.id, copy)]);
          return;
        }
        var refusal := StatusMessage(user.name, "No channel or user with the name: " + target);
        Tell(user, refusal);
        StepOf(old(model), Handle(user.id, msg), model, [Told(user.id, refusal)]);
      }
    }

    method DoCommand(msg: Message, user: ChatUser)
      requires Valid() && user in everyone && msg.kind == Command
      modifies user`name, user`channels, everyone`posted, channels.Values`users, this`channels, this`model
      ensures Valid() && fresh(channels.Values - old(channels.Values))
      ensures Step(old(model), Handle(user.id, msg), model)
    {
      hide ChatServer.Linked, Safe, Members, Registered;
      NameKnown(user);
      var tokens := Split(msg.content);
      var command, arguments := tokens[0], tokens[1..];
      if command == "/join" || command == "/j" {
        if arguments == [] {
          TellStep(user, msg, "Arguments empty.");
          return;
        }
        JoinCommandStep(user, msg, arguments[0]);
        return;
      }
      if command == "/leave" {
        if arguments == [] {
          TellStep(user, msg, "Arguments empty.");
          return;
        }
        LeaveCommandStep(user, msg, arguments[0]);
        return;
      }
      if command == "/nick" {
        if arguments == [] {
          TellStep(user, msg, "Arguments empty.");
          return;
        }
        NickCommandStep(user, msg, arguments[0]);
        return;
      }
      TellStep(user, msg, " unknown command.");
    }

    /** A command answered with a status message. */
    method TellStep(user: ChatUser, ghost msg: Message, answer: string)
      requires Valid() && user in everyone && msg.kind == Command
      requires match ParseCommand(msg.content)
               case MissingArgument => answer == "Arguments empty."
               case UnknownCommand => answer == " unknown command."
               case NickCommand(n) => answer == "Name is not valid." && !model.ValidId(n)
               case _ => false
      modifies user`posted, this`model
      ensures Valid()
      ensures Step(old(model), Handle(user.id, msg), model)
    {
      hide ChatServer.Linked, Safe, Members, Registered;
      NameKnown(user);
      Tell(user, StatusMessage(user.name, answer));
      StepOf(old(model), Handle(user.id, msg), model, [Told(user.id, StatusMessage(user.name, answer))]);
    }

    method JoinCommandStep(user: ChatUser, ghost msg: Message, arg: string)
      requires Valid() && user in everyone && msg.kind == Command
      requires ParseCommand(msg.content) == JoinCommand(arg)
      modifies user`channels, everyone`posted, channels.Values`users, this`channels, this`model
      ensures Valid() && fresh(channels.Values - old(channels.Values))
      ensures Step(old(model), Handle(user.id, msg), model)
    {
      hide ChatServer.Linked, Safe, Members, Registered, ParseCommand, PairsOf, ChannelsOf;
      JoinedPairs(user);
      NameKnown(user);
      var chan := Channel(arg);
      ghost var e := Joined(user.id, arg, user.name);
      if chan != null {
        chan.Join(user);
        StepOf(old(model), Handle(user.id, msg), model, [e]);
      } else {
        var valid := ValidId(arg);
        if valid {
          JoinNew(user, arg);
          StepOf(old(model), Handle(user.id, msg), model, [e]);
        } else {
          StepOf(old(model), Handle(user.id, msg), model, []);
        }
      }
    }

    /** Creates the channel and enters it. */
    method JoinNew(user: ChatUser, arg: string)
      requires Valid() && user in everyone && model.ValidId(arg)
      modifies user`channels, everyone`posted, this`channels, this`model
      ensures Valid() && fresh(channels.Values - old(channels.Values))
      ensures model == old(model).(history := old(model.history) + [Joined(user.id, arg, user.name)])
    {
      hide ChatServer.Linked, Safe, Members, Registered;
      JoinedPairs(user);
      NameIsTakenIff(arg);
      var created := CreateChannel(arg);
      AfterCreate(arg);
      created.Join(user);
    }

    /** A channel just created is the one registered channel without a member. */
    twostate lemma AfterCreate(new id: string)
      requires old(Valid()) && model == old(model) && SameRoster() && id !in old(channels)
      requires id in channels && channels == old(channels)[id := channels[id]]
      requires channels[id].name == id && channels[id].server == this && channels[id].users == {}
      requires forall n | n in old(channels) :: channels[n].users == old(channels[n].users)
      requires devices == old(devices)
      requires forall u | u in everyone ::
                 u.channels == old(u.channels) && u.Outbound() == old(u.Outbound()) && u.DeviceNow() == old(u.DeviceNow())
      ensures Linked({id})
    {
      MailKept();
      WiredKept();
      RosterKept();
      GraphAfterCreate(id);
      hide ChatServer.Roster, ChatServer.Registry, ChatServer.Mirror, ChatServer.Mail, ChatServer.Wired, Safe;
    }

    twostate lemma GraphAfterCreate(new id: string)
      requires old(Registry({}) && Mirror()) && model == old(model) && everyone == old(everyone)
      requires id in channels && id !in old(channels) && channels == old(channels)[id := channels[id]]
      requires channels[id].name == id && channels[id].server == this && channels[id].users == {}
      requires forall n | n in old(channels) :: channels[n].users == old(channels[n].users)
      requires forall u | u in everyone :: u.channels == old(u.channels)
      ensures Registry({id}) && Mirror()
    {
      hide Members;
    }

    method LeaveCommandStep(user: ChatUser, ghost msg: Message, arg: string)
      requires Valid() && user in everyone && msg.kind == Command
      requires ParseCommand(msg.content) == LeaveCommand(arg)
      modifies user`channels, everyone`posted, channels.Values`users, this`channels, this`model
      ensures Valid() && fresh(channels.Values - old(channels.Values))
      ensures Step(old(model), Handle(user.id, msg), model)
    {
      hide ChatServer.Linked, Safe, Members, Registered;
      JoinedPairs(user);
      NameKnown(user);
      var chan := Channel(arg);
      if chan != null && user.IsJoined(chan) {
        chan.Leave(user);
        StepOf(old(model), Handle(user.id, msg), model, [Left(user.id, arg, user.name)]);
      } else {
        StepOf(old(model), Handle(user.id, msg), model, []);
      }
    }

    method NickCommandStep(user: ChatUser, ghost msg: Message, arg: string)
      requires Valid() && user in everyone && msg.kind == Command
      requires ParseCommand(msg.content) == NickCommand(arg)
      modifies user`name, everyone`posted, this`model
      ensures Valid()
      ensures Step(old(model), Handle(user.id, msg), model)
    {
      hide ChatServer.Linked, Safe, Members, Registered, RenameEvents;
      NameKnown(user);
      var valid := ValidId(arg);
      if valid {
        user.SetName(arg);
      } else {
        TellStep(user, msg, "Name is not valid.");
      }
    }

    // -------------------------------------------------------------- accepting and stopping

    ghost method RecordUser(u: ChatUser)
      modifies this`everyone, this`model, this`devices
      ensures everyone == old(everyone) + {u} && devices == old(devices) + [u.DeviceNow()]
      ensures model == old(model).(names := old(model.names) + [u.name])
    {
      everyone, devices, model := everyone + {u}, devices + [u.DeviceNow()], model.(names := model.names + [u.name]);
    }

    /** The user `u` was just constructed and recorded, and nothing else happened. */
    twostate predicate Constructed(new u: ChatUser)
      reads this, manager, everyone, u, channels.Values
    {
      && everyone == old(everyone) + {u} && userAt == old(userAt) + [u] && channels == old(channels)
      && manager.connections == old(manager.connections) && model == old(model).(names := old(model.names) + [u.name])
      && u !in old(everyone) && u.id == |old(userAt)| && u.server == this
      && u.channels == {} && u.Outbound() == WQ.Empty() && devices == old(devices) + [u.DeviceNow()]
      && (forall v | v in old(everyone) ::
            && v.name == old(v.name) && v.channels == old(v.channels)
            && v.Outbound() == old(v.Outbound()) && v.DeviceNow() == old(v.DeviceNow()))
      && (forall n | n in channels :: channels[n].users == old(channels[n].users))
    }

    twostate lemma RosterAfterConstruct(new u: ChatUser)
      requires old(Safe(model) && Roster()) && Constructed(u)
      ensures Roster()
    {
      hide Members;
    }

    twostate lemma GraphAfterConstruct(new u: ChatUser)
      requires old(Roster() && Registry({}) && Mirror()) && Constructed(u)
      ensures Registry({}) && Mirror()
    {
      hide Members, ChatUser.Outbound, ChatUser.DeviceNow;
    }

    twostate lemma WiredAfterConstruct(new u: ChatUser)
      requires old(Wired()) && Constructed(u)
      ensures Wired()
    {
      assert devices[u.id] == u.DeviceNow();
    }

    twostate lemma MailAfterConstruct(new u: ChatUser)
      requires old(Safe(model) && Roster() && Mail()) && Constructed(u)
      ensures Mail()
    {
      UnknownIsUntouched(old(model.history), |old(model.names)|);
      hide Safe, Members, Inbox, ChatServer.Roster;
    }

    /** A user just constructed is in no channel, is not connected and was sent nothing. */
    twostate lemma AfterConstruct(new u: ChatUser)
      requires old(Valid()) && Constructed(u)
      ensures Valid()
      ensures forall id :: model.ValidId(id) <==> old(model).ValidId(id)
    {
      UserKeepsSafe(old(model), u.name);
      hide Safe, Members, Inbox, State.ValidId;
      hide ChatServer.Roster, ChatServer.Registry, ChatServer.Mirror, ChatServer.Mail, ChatServer.Wired;
      RosterAfterConstruct(u);
      GraphAfterConstruct(u);
      WiredAfterConstruct(u);
      MailAfterConstruct(u);
    }

    /** The nickname of a new connection was read: under a valid name its user is connected and started,
        otherwise it is told so and a handler that closes its socket is posted. `now` is the time its user was
        constructed, when the server began to wait for a connection. */
    method AcceptNick(nick: string, now: int) returns (u: ChatUser)
      requires Valid()
      modifies this`userAt, this`everyone, this`model, this`devices, manager`connections, everyone`posted
      ensures Valid() && fresh(u) && everyone == old(everyone) + {u} && userAt == old(userAt) + [u]
      ensures Step(old(model), Accept(nick), model)
      ensures devices == old(devices) + [Fresh(now, old(model).ValidId(nick))]
      ensures if old(model).ValidId(nick) then u in manager.connections && u.name == nick
              else u !in manager.connections && u.name == UNNAMED && u.closePosted
    {
      hide ChatServer.Linked, Safe, Members, State.ValidId;
      ConnectionsKnown();
      u := new ChatUser(this, |userAt|, now);
      userAt := userAt + [u];
      RecordUser(u);
      AfterConstruct(u);
      NameKnown(u);
      var valid := ValidId(nick);
      if valid {
        Admit(u, nick, old(model));
      } else {
        Reject(u, nick, old(model));
      }
    }

    /** The other branch: the new user is told so and the closing of its socket is posted. */
    method Reject(u: ChatUser, nick: string, ghost start: State)
      requires Valid() && u in everyone && !start.ValidId(nick)
      requires u.id == |start.names| && model == start.(names := start.names + [UNNAMED])
      modifies this`model, u`posted, u`closePosted
      ensures Valid() && u.closePosted
      ensures Step(start, Accept(nick), model)
    {
      hide ChatServer.Linked, Safe, Members, State.ValidId;
      var refusal := StatusMessage("target", nick + " is not a valid name.");
      Tell(u, refusal);
      NameKnown(u);
      label told:
      u.PostClose();
      StillValid@told();
      StepOf(start, Accept(nick), model, [Told(u.id, refusal)]);
    }

    /** The valid branch: the new user takes its name, is told so, is connected and pinged. */
    method Admit(u: ChatUser, nick: string, ghost start: State)
      requires Valid() && u in everyone && Safe(start) && start.ValidId(nick) && model.ValidId(nick)
      requires u.id == |start.names| && u.name == UNNAMED && model == start.(names := start.names + [UNNAMED])
      requires u.channels == {}
      modifies this`model, this`devices, manager`connections, everyone`posted, u`name, u`pingArmed
      ensures Valid() && manager.connections == old(manager.connections) + {u} && u.name == nick
      ensures Step(start, Accept(nick), model)
      ensures devices == old(devices)[u.id := Armed(old(u.DeviceNow()))]
    {
      hide ChatServer.Linked, WQ.Queue.All, WQ.Queue.Good, Safe, Members, Step, State.ValidId;
      TakeFirstName(u, nick, start);
      Tell(u, StatusMessage(nick, "valid"));
      AdmittedIsSafe(start, nick);
      NameKnown(u);
      manager.Start(u);
      AdmitStep(start, nick, model);
    }

    /** A user in no channel takes its first name, and nobody is told. */
    method TakeFirstName(u: ChatUser, nick: string, ghost start: State)
      requires Valid() && u in everyone && model.ValidId(nick) && u.channels == {}
      requires u.id == |start.names| && u.name == UNNAMED && model == start.(names := start.names + [UNNAMED])
      modifies this`model, everyone`posted, u`name
      ensures Valid() && u.name == nick
      ensures model == start.(names := start.names + [nick])
    {
      hide ChatServer.Linked, Safe, Members, State.ValidId;
      NameKnown(u);
      ValidIdIsLong(model, nick);
      JoinedPairs(u);
      u.SetName(nick);
      NoChannelsNoRenames(model.history[|start.history|..], UNNAMED, nick);
    }

    /** Closes the acceptor and stops everybody. */
    method StopServer(queued: set<UserId>)
      requires Valid()
      modifies manager`connections, manager.connections`channels, manager.connections`pingArmed, everyone`posted
      modifies channels.Values`users, this`channels, this`model, this`devices
      ensures Valid() && manager.connections == {}
      ensures Step(old(model), ChatSpec.StopAll, model)
      ensures AllCancelled(old(devices), devices, old(model.connected), queued)
      ensures channels.Values <= old(channels.Values)
    {
      manager.StopAll(this, queued);
    }

    // -------------------------------------------------------------- what `Valid` means to a reader

    ghost function Repr(): set<object>
      reads this
    {
      {this, manager} + everyone + channels.Values
    }

    /** Connected users have distinct names that are not names of channels; these and the names of channels have at
        least three ASCII letters and digits, a letter first. */
    lemma NamesAreSafe(u: ChatUser, v: ChatUser, c: string)
      requires Valid() && u in manager.connections && v in manager.connections
      ensures u.name == v.name ==> u == v
      ensures u.name !in channels
      ensures |u.name| >= 3 && ('a' <= u.name[0] <= 'z' || 'A' <= u.name[0] <= 'Z')
      ensures forall i | 0 <= i < |u.name| ::
                'a' <= u.name[i] <= 'z' || 'A' <= u.name[i] <= 'Z' || '0' <= u.name[i] <= '9'
      ensures c in channels ==> |c| >= 3 && ('a' <= c[0] <= 'z' || 'A' <= c[0] <= 'Z')
      ensures c in channels ==>
                forall i | 0 <= i < |c| :: 'a' <= c[i] <= 'z' || 'A' <= c[i] <= 'Z' || '0' <= c[i] <= '9'
    {
    }

    /** Membership is one relation: a user is among a channel's users iff the channel is among the user's
        channels; every channel a user is in is the one registered under its name; so no two of them share a
        name, and only channels with members are registered. */
    lemma MembershipIsOneRelation(u: ChatUser, c: ChatChannel, v: ChatUser, d: ChatChannel)
      requires Valid() && u in everyone && v in everyone
      ensures c in u.channels <==> Owns(c) && u in c.users
      ensures c in u.channels ==> (u.id, c.name) in model.Membership()
      ensures c in u.channels && d in v.channels && c.name == d.name ==> c == d
      ensures Owns(c) ==> c.users != {}
    {
      JoinedPairs(u);
      JoinedPairs(v);
      if Owns(c) && u in c.users {
        assert channels[c.name] in u.channels;
      }
    }

    /** What went out on a user's socket is always the beginning of its inbox. */
    lemma SentIsPrefixOfInbox(u: ChatUser)
      requires Valid() && u in everyone
      ensures u.sent <= Inbox(model.history, u.id)
      ensures u.posted == [] && u.writeMsgs == [] ==> u.sent == Inbox(model.history, u.id)
      ensures |u.sent| <= |Deliveries(model.history, u.id)|
      ensures forall i | 0 <= i < |u.sent| ::
                var k := Deliveries(model.history, u.id)[i];
                k < |model.history| && u.sent[i] == Carried(model.history[k])
    {
      assert u.Outbound().All() == Inbox(model.history, u.id);
      InboxIsSubsequence(model.history, u.id);
    }
  }
}
