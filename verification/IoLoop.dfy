/** The io thread: handlers run one after the other, each as one atomic step. A handler that is not
    outstanding, or whose user does not exist, is not run. */
module IoLoop {
  import opened Wrappers
  import opened Messages
  import opened ChatSpec
  import opened Handlers
  import opened HandlerRuns
  import opened ChatServer
  import PT = PingTimer
  import WQ = WriteQueue

  /** The recorded device and the inbox make up the user's queue. */
  lemma DeviceHoldsQueue(server: ChatServer, u: ChatUser)
    requires server.Valid() && u in server.everyone
    ensures u.DeviceNow().Queue(Inbox(server.model.history, u.id)) == u.Outbound() && u.Outbound().Good()
  {
    hide ChatServer.Linked, Inbox, WQ.Queue.All, WQ.Queue.Good, Device.Queue;
    server.MailKnown(u);
    QueueOfInbox(u.DeviceNow(), u.Outbound(), Inbox(server.model.history, u.id));
  }

  /** One handler is the one step of the abstract server that it is meant to be, and moves every user's timer and
      queue as their machines say. A bad header counts as a failed read followed by an undecodable empty body. */
  method RunOne(server: ChatServer, h: Handler)
    requires server.Valid()
    modifies server.Repr()
    ensures server.Valid() && fresh(server.Repr() - old(server.Repr()))
    ensures HandlerStep(old(server.model), old(server.devices), h, server.model, server.devices)
  {
    hide ChatServer.Linked, HandlerStep;
    server.IdentitiesKnown();
    match h
    case NickRead(_, _) => OnNickRead(server, h);
    case Shutdown(_) => OnShutdown(server, h);
    case _ =>
      if h.user >= |server.userAt| {
        NothingHappens(server.model, server.devices, h);
      } else {
        RunForUser(server, server.userAt[h.user], h);
      }
  }

  lemma NothingHappens(s: State, devices: seq<Device>, h: Handler)
    requires !h.NickRead? && !h.Shutdown? && h.user >= |devices|
    ensures HandlerStep(s, devices, h, s, devices)
  {
    NoDeviceMoves(s, devices, h);
    InternalStep(s);
  }

  method OnNickRead(server: ChatServer, h: Handler)
    requires server.Valid() && h.NickRead?
    modifies server.Repr()
    ensures server.Valid() && fresh(server.Repr() - old(server.Repr()))
    ensures HandlerStep(old(server.model), old(server.devices), h, server.model, server.devices)
  {
    hide ChatServer.Linked, Step, State.ValidId, Members, Registered;
    server.ConnectionsKnown();
    var _ := server.AcceptNick(h.nick, h.constructed);
  }

  method OnShutdown(server: ChatServer, h: Handler)
    requires server.Valid() && h.Shutdown?
    modifies server.Repr()
    ensures server.Valid() && fresh(server.Repr() - old(server.Repr()))
    ensures HandlerStep(old(server.model), old(server.devices), h, server.model, server.devices)
  {
    hide ChatServer.Linked, Step, DevicesAfter, AllCancelled, Members, Registered;
    server.ConnectionsKnown();
    server.StopServer(h.queued);
    ShutdownMoves(old(server.model), old(server.devices), server.devices, h.queued);
  }

  lemma InternalStep(s: State)
    ensures Step(s, Internal, s)
  {
    assert s.history[|s.history|..] == [];
  }

  method RunForUser(server: ChatServer, u: ChatUser, h: Handler)
    requires server.Valid() && u in server.everyone && !h.NickRead? && !h.Shutdown? && h.user == u.id
    modifies server.Repr()
    ensures server.Valid() && fresh(server.Repr() - old(server.Repr()))
    ensures HandlerStep(old(server.model), old(server.devices), h, server.model, server.devices)
  {
    hide ChatServer.Linked, HandlerStep;
    match h
    case BodyRead(_, _, _) => OnBodyRead(server, u, h);
    case ReadFailed(_, _) => OnReadFailed(server, u, h);
    case PingDue(_) => OnPingDue(server, u, h);
    case PostedWrite(_) => OnPostedWrite(server, u, h);
    case WriteDone(_) => OnWriteDone(server, u, h);
    case WriteError(_, _) => OnWriteError(server, u, h);
    case PostedClose(_) => OnPostedClose(server, u, h);
  }

  method OnBodyRead(server: ChatServer, u: ChatUser, h: Handler)
    requires server.Valid() && u in server.everyone && h.BodyRead? && h.user == u.id
    modifies server.Repr()
    ensures server.Valid() && fresh(server.Repr() - old(server.Repr()))
    ensures HandlerStep(old(server.model), old(server.devices), h, server.model, server.devices)
  {
    hide ChatServer.Linked, Step, DevicesAfter, Inbox, Device.Queue, Members, Registered;
    server.NameKnown(u);
    InternalStep(server.model);
    BodyReadMoves(server.model, server.devices, u.id, h.body, h.at);
    u.ReadBody(h.body);
  }

  method OnReadFailed(server: ChatServer, u: ChatUser, h: Handler)
    requires server.Valid() && u in server.everyone && h.ReadFailed? && h.user == u.id
    modifies server.Repr()
    ensures server.Valid() && fresh(server.Repr() - old(server.Repr()))
    ensures HandlerStep(old(server.model), old(server.devices), h, server.model, server.devices)
  {
    hide ChatServer.Linked, Step, DevicesAfter, Inbox, Device.Queue, Members, Registered;
    server.NameKnown(u);
    InternalStep(server.model);
    ReadFailedMoves(server.model, server.devices, u.id, h.expiryQueued);
    server.manager.Stop(u, h.expiryQueued);
  }

  method OnPingDue(server: ChatServer, u: ChatUser, h: Handler)
    requires server.Valid() && u in server.everyone && h.PingDue? && h.user == u.id
    modifies server.Repr()
    ensures server.Valid() && fresh(server.Repr() - old(server.Repr()))
    ensures HandlerStep(old(server.model), old(server.devices), h, server.model, server.devices)
  {
    hide ChatServer.Linked, Step, DevicesAfter, Inbox, Device.Queue, Members, Registered;
    server.NameKnown(u);
    InternalStep(server.model);
    PingDueMoves(server.model, server.devices, u.id);
    if u.pingArmed {
      u.PingExpired();
    }
  }

  method OnPostedWrite(server: ChatServer, u: ChatUser, h: Handler)
    requires server.Valid() && u in server.everyone && h.PostedWrite? && h.user == u.id
    modifies server.Repr()
    ensures server.Valid() && fresh(server.Repr() - old(server.Repr()))
    ensures HandlerStep(old(server.model), old(server.devices), h, server.model, server.devices)
  {
    hide ChatServer.Linked, Step, DevicesAfter, Inbox, Device.Queue, WQ.Next, Members, Registered;
    server.NameKnown(u);
    InternalStep(server.model);
    DeviceHoldsQueue(server, u);
    PostedWriteMoves(server.model, server.devices, u.id, u.Outbound());
    if u.posted != [] {
      u.RunPostedWrite();
    }
  }

  method OnWriteDone(server: ChatServer, u: ChatUser, h: Handler)
    requires server.Valid() && u in server.everyone && h.WriteDone? && h.user == u.id
    modifies server.Repr()
    ensures server.Valid() && fresh(server.Repr() - old(server.Repr()))
    ensures HandlerStep(old(server.model), old(server.devices), h, server.model, server.devices)
  {
    hide ChatServer.Linked, Step, DevicesAfter, Inbox, Device.Queue, WQ.Next, Members, Registered;
    server.NameKnown(u);
    InternalStep(server.model);
    DeviceHoldsQueue(server, u);
    WriteDoneMoves(server.model, server.devices, u.id, u.Outbound());
    if u.writing {
      u.WriteCompleted();
    }
  }

  method OnWriteError(server: ChatServer, u: ChatUser, h: Handler)
    requires server.Valid() && u in server.everyone && h.WriteError? && h.user == u.id
    modifies server.Repr()
    ensures server.Valid() && fresh(server.Repr() - old(server.Repr()))
    ensures HandlerStep(old(server.model), old(server.devices), h, server.model, server.devices)
  {
    hide ChatServer.Linked, Step, DevicesAfter, Inbox, Device.Queue, WQ.Next, Members, Registered;
    server.NameKnown(u);
    InternalStep(server.model);
    DeviceHoldsQueue(server, u);
    WriteErrorMoves(server.model, server.devices, u.id, h.expiryQueued, u.Outbound());
    if u.writing {
      u.WriteFailed(h.expiryQueued);
    }
  }

  method OnPostedClose(server: ChatServer, u: ChatUser, h: Handler)
    requires server.Valid() && u in server.everyone && h.PostedClose? && h.user == u.id
    modifies server.Repr()
    ensures server.Valid() && fresh(server.Repr() - old(server.Repr()))
    ensures HandlerStep(old(server.model), old(server.devices), h, server.model, server.devices)
  {
    hide ChatServer.Linked, Step, DevicesAfter, Inbox, Device.Queue, Members, Registered;
    server.NameKnown(u);
    InternalStep(server.model);
    PostedCloseMoves(server.model, server.devices, u.id);
    if u.closePosted {
      u.RunPostedClose();
    }
  }

  /** Running any handlers in any order on a new server is a run in which every handler takes the step and moves
      the devices it is meant to; it ends in the state the objects mirror. */
  method RunHandlers(server: ChatServer, ready: seq<Handler>) returns (ghost r: ServerRun)
    requires server.Valid() && server.model == START && server.devices == []
    modifies server.Repr()
    ensures server.Valid()
    ensures r.Legal() && r.handlers == ready
    ensures r.states[|ready|] == server.model && r.devices[|ready|] == server.devices
  {
    hide HandlerStep, ChatServer.Linked;
    r := ServerRun([server.model], [server.devices], []);
    for i := 0 to |ready|
      invariant server.Valid() && fresh(server.Repr() - old(server.Repr()))
      invariant r.Legal() && r.handlers == ready[..i]
      invariant r.states[i] == server.model && r.devices[i] == server.devices
    {
      RunOne(server, ready[i]);
      LegalSnoc(r, ready[i], server.model, server.devices);
      r := ServerRun(r.states + [server.model], r.devices + [server.devices], r.handlers + [ready[i]]);
      assert ready[..i + 1] == ready[..i] + [ready[i]];
    }
    assert ready[..|ready|] == ready;
  }

  lemma LegalSnoc(r: ServerRun, h: Handler, s: State, devices: seq<Device>)
    requires r.Legal() && HandlerStep(r.states[|r.handlers|], r.devices[|r.handlers|], h, s, devices)
    ensures ServerRun(r.states + [s], r.devices + [devices], r.handlers + [h]).Legal()
  {
    hide HandlerStep;
    var r' := ServerRun(r.states + [s], r.devices + [devices], r.handlers + [h]);
    forall i | 0 <= i < |r'.handlers|
      ensures r'.StepAt(i)
    {
      if i < |r.handlers| {
        assert r.StepAt(i);
      }
    }
  }

  /** After such a run every user object is where the run left it: its timer moved by exactly the ticks since its
      birth, and its queue is the last state of the queue's own run. */
  lemma ObjectsFollowRun(server: ChatServer, r: ServerRun, p: nat, id: UserId)
    requires server.Valid() && BornAt(r, p, id)
    requires r.states[|r.handlers|] == server.model && r.devices[|r.handlers|] == server.devices
    ensures id < |server.userAt|
    ensures server.userAt[id].Timer() == PT.TickedAll(TimerAtBirth(r, p, id), Ticks(r, p + 1, |r.handlers|, id))
    ensures server.userAt[id].Outbound() == QueueOf(server.model, server.devices, id)
  {
    TimerIsTicked(r, p, |r.handlers|, id);
    server.IdentitiesKnown();
    var u := server.userAt[id];
    server.NameKnown(u);
    DeviceHoldsQueue(server, u);
  }
}
