/** The handlers of the io thread: what each is, which abstract step it takes, and what it makes of every user's
    ping timer and outbound queue. */
module Handlers {
  import opened Wrappers
  import opened Messages
  import opened ChatSpec
  import PT = PingTimer
  import WQ = WriteQueue

  /** `constructed` is the time the accepted user's object was constructed, `at` the time a body arrived;
      `expiryQueued` tells for a handler that stops users whether a ping expiry is already queued. */
  datatype Handler =
    | NickRead(nick: string, constructed: int)
    | BodyRead(user: UserId, body: Option<Message>, at: int)
    | ReadFailed(user: UserId, expiryQueued: bool)
    | PingDue(user: UserId)
    | PostedWrite(user: UserId)
    | WriteDone(user: UserId)
    | WriteError(user: UserId, expiryQueued: bool)
    | PostedClose(user: UserId)
    | Shutdown(queued: set<UserId>)

  /** A user's timer and its queue, but for the posted part, which is what its inbox holds beyond the rest. */
  datatype Device = Device(timer: PT.Timer, waiting: seq<Message>, writing: bool, sent: seq<Message>, failed: bool)
  {
    function Queue(inbox: seq<Message>): WQ.Queue<Message> {
      var taken := |sent| + |waiting|;
      WQ.Queue(if taken <= |inbox| then inbox[taken..] else [], waiting, writing, sent, failed)
    }

    function WithQueue(q: WQ.Queue<Message>): Device {
      Device(timer, q.waiting, q.writing, q.sent, q.failed)
    }
  }

  /** A queue is what its inbox holds beyond what was taken from it. */
  lemma QueueOfInbox(d: Device, q: WQ.Queue<Message>, inbox: seq<Message>)
    requires q.All() == inbox && d == d.WithQueue(q)
    ensures d.Queue(inbox) == q
  {
    assert inbox == q.sent + q.waiting + q.posted;
    assert inbox[|q.sent| + |q.waiting|..] == q.posted;
  }

  /** The device of a user just constructed, started or not. */
  function Fresh(constructed: int, started: bool): Device {
    Device(PT.Started(constructed).(armed := started), [], false, [], false)
  }

  /** What a handler does to the timer of user `id`. */
  function TickOf(h: Handler, id: UserId, d: Device, connected: bool): Option<PT.Tick> {
    match h
    case BodyRead(u, Some(m), at) => if u == id && IsPong(m) then Some(PT.Pong(at)) else None
    case PingDue(u) => if u == id then Some(PT.Expiry) else None
    case ReadFailed(u, queued) => if u == id then Some(PT.Cancel(queued)) else None
    case WriteError(u, queued) => if u == id && d.writing then Some(PT.Cancel(queued)) else None
    case Shutdown(queued) => if connected then Some(PT.Cancel(id in queued)) else None
    case _ => None
  }

  /** What a handler does to the queue of user `id`, besides writing to it. */
  function EventOf(h: Handler, id: UserId, q: WQ.Queue<Message>): Option<WQ.Event<Message>> {
    match h
    case PostedWrite(u) => if u == id && WQ.Enabled(q, WQ.RunPosted) then Some(WQ.RunPosted) else None
    case WriteDone(u) => if u == id && WQ.Enabled(q, WQ.Completed) then Some(WQ.Completed) else None
    case WriteError(u, _) => if u == id && WQ.Enabled(q, WQ.Failed) then Some(WQ.Failed) else None
    case _ => None
  }

  function Ticked(t: PT.Timer, tick: Option<PT.Tick>): PT.Timer {
    if tick.Some? then PT.Ticked(t, tick.value) else t
  }

  function DeviceAfter(h: Handler, id: UserId, d: Device, connected: bool, inbox: seq<Message>): Device {
    var q := d.Queue(inbox);
    var e := EventOf(h, id, q);
    var moved := d.(timer := Ticked(d.timer, TickOf(h, id, d, connected)));
    if e.Some? && WQ.Enabled(q, e.value) then moved.WithQueue(WQ.Next(q, e.value)) else moved
  }

  /** The devices of all users after a handler. */
  ghost function DevicesAfter(s: State, devices: seq<Device>, h: Handler): seq<Device> {
    if h.NickRead? then devices + [Fresh(h.constructed, s.ValidId(h.nick))]
    else
      seq(|devices|, i requires 0 <= i < |devices| => DeviceAfter(h, i, devices[i], i in s.connected, Inbox(s.history, i)))
  }

  /** The abstract step a handler takes: nothing for a user that does not exist, a wait or a write that is not
      outstanding. */
  function ActionOf(devices: seq<Device>, h: Handler): Action {
    match h
    case NickRead(nick, _) => Accept(nick)
    case Shutdown(_) => StopAll
    case BodyRead(u, Some(m), _) => if u < |devices| && !IsPong(m) then Handle(u, m) else Internal
    case ReadFailed(u, _) => if u < |devices| then Stop(u) else Internal
    case PingDue(u) =>
      if u >= |devices| || !devices[u].timer.armed then Internal
      else if PT.GivesUp(devices[u].timer) then Timeout(u)
      else PingAgain(u)
    case WriteError(u, _) => if u < |devices| && devices[u].writing then Stop(u) else Internal
    case _ => Internal
  }

  function WithTimer(d: Device, t: PT.Timer): Device {
    d.(timer := t)
  }

  function Armed(d: Device): Device {
    d.(timer := d.timer.(armed := true))
  }

  function Cancelled(d: Device, expiryQueued: bool): Device {
    d.(timer := PT.Ticked(d.timer, PT.Cancel(expiryQueued)))
  }

  /** The timers of the users in `stopped` were cancelled, and nothing else happened to a device. */
  ghost predicate AllCancelled(before: seq<Device>, after: seq<Device>, stopped: set<UserId>, queued: set<UserId>) {
    && |after| == |before|
    && forall i | 0 <= i < |after| :: after[i] == if i in stopped then Cancelled(before[i], i in queued) else before[i]
  }

  lemma NothingCancelled(devices: seq<Device>, queued: set<UserId>)
    ensures AllCancelled(devices, devices, {}, queued)
  {
  }

  lemma OneMoreCancelled(before: seq<Device>, devices: seq<Device>, stopped: set<UserId>, queued: set<UserId>, id: UserId)
    requires AllCancelled(before, devices, stopped, queued) && id !in stopped && id < |devices|
    ensures AllCancelled(before, devices[id := Cancelled(devices[id], id in queued)], stopped + {id}, queued)
  {
  }

  // ---------------------------------------------------------------- handler by handler

  /** A handler of one user moves that user's device only. */
  lemma OwnDeviceMoves(s: State, devices: seq<Device>, h: Handler)
    requires !h.NickRead? && !h.Shutdown? && h.user < |devices|
    ensures var d := DeviceAfter(h, h.user, devices[h.user], h.user in s.connected, Inbox(s.history, h.user));
            DevicesAfter(s, devices, h) == devices[h.user := d]
  {
  }

  /** A handler of a user that does not exist moves nothing. */
  lemma NoDeviceMoves(s: State, devices: seq<Device>, h: Handler)
    requires !h.NickRead? && !h.Shutdown? && h.user >= |devices|
    ensures DevicesAfter(s, devices, h) == devices && ActionOf(devices, h) == Internal
  {
  }

  /** A nickname adds one device: due 30 seconds after its construction, waiting if and only if the nickname is
      valid, and with an empty queue. */
  lemma NickReadMoves(s: State, devices: seq<Device>, nick: string, constructed: int)
    ensures ActionOf(devices, NickRead(nick, constructed)) == Accept(nick)
    ensures DevicesAfter(s, devices, NickRead(nick, constructed))
         == devices + [Device(PT.Timer(constructed + 30, 0, false, s.ValidId(nick)), [], false, [], false)]
  {
  }

  /** `stop_all` cancels the waits of exactly the connected users whose expiry is not queued. */
  lemma ShutdownSpelled(s: State, devices: seq<Device>, queued: set<UserId>, i: nat)
    requires i < |devices|
    ensures ActionOf(devices, Shutdown(queued)) == StopAll
    ensures |DevicesAfter(s, devices, Shutdown(queued))| == |devices|
    ensures var t := devices[i].timer;
            var stays := i !in s.connected || i in queued;
            DevicesAfter(s, devices, Shutdown(queued))[i] == devices[i].(timer := t.(armed := t.armed && stays))
  {
  }

  lemma ShutdownMoves(s: State, before: seq<Device>, after: seq<Device>, queued: set<UserId>)
    requires AllCancelled(before, after, s.connected, queued)
    ensures DevicesAfter(s, before, Shutdown(queued)) == after
  {
  }

  /** A decoded status message "pong" sets its user's flag and is no step; every other decoded message is a step and
      moves nothing; a body that cannot be decoded does nothing. */
  lemma BodyReadMoves(s: State, devices: seq<Device>, u: UserId, body: Option<Message>, at: int)
    requires u < |devices|
    ensures var h := BodyRead(u, body, at);
            match body
            case None => ActionOf(devices, h) == Internal && DevicesAfter(s, devices, h) == devices
            case Some(m) =>
              if m.kind == Status && m.content == "pong" then
                && ActionOf(devices, h) == Internal
                && DevicesAfter(s, devices, h) == devices[u := devices[u].(timer := devices[u].timer.(pong := true))]
              else
                ActionOf(devices, h) == Handle(u, m) && DevicesAfter(s, devices, h) == devices
  {
    OwnDeviceMoves(s, devices, BodyRead(u, body, at));
    hide DevicesAfter;
  }

  lemma ReadFailedMoves(s: State, devices: seq<Device>, u: UserId, queued: bool)
    requires u < |devices|
    ensures DevicesAfter(s, devices, ReadFailed(u, queued)) == devices[u := Cancelled(devices[u], queued)]
    ensures var t := devices[u].timer;
            Cancelled(devices[u], queued) == devices[u].(timer := t.(armed := t.armed && queued))
    ensures ActionOf(devices, ReadFailed(u, queued)) == Stop(u)
  {
    OwnDeviceMoves(s, devices, ReadFailed(u, queued));
    hide DevicesAfter;
  }

  lemma PingDueMoves(s: State, devices: seq<Device>, u: UserId)
    requires u < |devices|
    ensures var t := devices[u].timer;
            && (DevicesAfter(s, devices, PingDue(u)) ==
                  if t.armed then devices[u := WithTimer(devices[u], PT.Expire(t))] else devices)
            && (ActionOf(devices, PingDue(u)) ==
                  if !t.armed then Internal else if PT.GivesUp(t) then Timeout(u) else PingAgain(u))
  {
    OwnDeviceMoves(s, devices, PingDue(u));
    hide DevicesAfter;
  }

  lemma PostedWriteMoves(s: State, devices: seq<Device>, u: UserId, q: WQ.Queue<Message>)
    requires u < |devices| && q == devices[u].Queue(Inbox(s.history, u))
    ensures ActionOf(devices, PostedWrite(u)) == Internal
    ensures DevicesAfter(s, devices, PostedWrite(u)) ==
              if q.posted != [] then devices[u := devices[u].WithQueue(WQ.Next(q, WQ.RunPosted))] else devices
    ensures var d, inbox := devices[u], Inbox(s.history, u);
            var taken := |d.sent| + |d.waiting|;
            && (q.posted != [] <==> taken < |inbox|)
            && (q.posted != [] ==>
                  d.WithQueue(WQ.Next(q, WQ.RunPosted)) ==
                    d.(waiting := d.waiting + [inbox[taken]], writing := d.waiting == [] || d.writing))
  {
    OwnDeviceMoves(s, devices, PostedWrite(u));
    hide DevicesAfter;
  }

  lemma WriteDoneMoves(s: State, devices: seq<Device>, u: UserId, q: WQ.Queue<Message>)
    requires u < |devices| && q == devices[u].Queue(Inbox(s.history, u)) && q.Good()
    ensures ActionOf(devices, WriteDone(u)) == Internal
    ensures DevicesAfter(s, devices, WriteDone(u)) ==
              if q.writing then devices[u := devices[u].WithQueue(WQ.Next(q, WQ.Completed))] else devices
    ensures var d := devices[u];
            d.writing ==>
              && d.waiting != []
              && d.WithQueue(WQ.Next(q, WQ.Completed)) ==
                   d.(sent := d.sent + [d.waiting[0]], waiting := d.waiting[1..], writing := |d.waiting| > 1)
  {
    OwnDeviceMoves(s, devices, WriteDone(u));
    hide DevicesAfter;
  }

  lemma WriteErrorMoves(s: State, devices: seq<Device>, u: UserId, queued: bool, q: WQ.Queue<Message>)
    requires u < |devices| && q == devices[u].Queue(Inbox(s.history, u)) && q.Good()
    ensures DevicesAfter(s, devices, WriteError(u, queued)) ==
              if q.writing then devices[u := Cancelled(devices[u].WithQueue(WQ.Next(q, WQ.Failed)), queued)] else devices
    ensures ActionOf(devices, WriteError(u, queued)) == if q.writing then Stop(u) else Internal
    ensures var d := devices[u];
            d.writing ==>
              Cancelled(d.WithQueue(WQ.Next(q, WQ.Failed)), queued) ==
                d.(writing := false, failed := true, timer := d.timer.(armed := d.timer.armed && queued))
  {
    OwnDeviceMoves(s, devices, WriteError(u, queued));
    hide DevicesAfter;
  }

  lemma PostedCloseMoves(s: State, devices: seq<Device>, u: UserId)
    requires u < |devices|
    ensures DevicesAfter(s, devices, PostedClose(u)) == devices && ActionOf(devices, PostedClose(u)) == Internal
  {
    OwnDeviceMoves(s, devices, PostedClose(u));
    hide DevicesAfter;
  }

  /** One handler takes the server from `s` and `devices` to `s'` and `devices'`. */
  ghost predicate HandlerStep(s: State, devices: seq<Device>, h: Handler, s': State, devices': seq<Device>) {
    Step(s, ActionOf(devices, h), s') && devices' == DevicesAfter(s, devices, h)
  }

  /** A run of the server: handlers in any order, one between neighbouring states. */
  datatype ServerRun = ServerRun(states: seq<State>, devices: seq<seq<Device>>, handlers: seq<Handler>)
  {
    predicate Shaped() {
      |states| == |devices| == |handlers| + 1
    }

    ghost predicate StepAt(i: nat)
      requires Shaped() && i < |handlers|
    {
      HandlerStep(states[i], devices[i], handlers[i], states[i + 1], devices[i + 1])
    }

    ghost predicate Legal() {
      && Shaped()
      && states[0] == START && devices[0] == []
      && forall i | 0 <= i < |handlers| :: StepAt(i)
    }
  }
}
