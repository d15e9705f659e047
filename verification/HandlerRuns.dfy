/** What holds of every user's timer and queue in every run of the server, whatever handlers of whatever users
    run in between. */
module HandlerRuns {
  import opened Wrappers
  import opened Messages
  import opened ChatSpec
  import opened ChatHistory
  import opened ChatRuns
  import opened Handlers
  import PT = PingTimer
  import WQ = WriteQueue

  function Actions(devices: seq<seq<Device>>, handlers: seq<Handler>): seq<Action>
    requires |devices| == |handlers| + 1
  {
    seq(|handlers|, i requires 0 <= i < |handlers| => ActionOf(devices[i], handlers[i]))
  }

  /** A run of handlers is a run of the abstract server, so all its states are safe. */
  lemma HandlersTakeSteps(r: ServerRun, i: nat)
    requires r.Legal() && i <= |r.handlers|
    ensures Run(r.states, Actions(r.devices, r.handlers)) && Safe(r.states[i])
  {
    hide Step, Safe;
    forall j | 0 <= j < |r.handlers|
      ensures Step(r.states[j], Actions(r.devices, r.handlers)[j], r.states[j + 1])
    {
      assert r.StepAt(j);
    }
    RunIsSafe(r.states, Actions(r.devices, r.handlers), i);
  }

  /** User `id` is the one constructed for the connection whose nickname the handler at `p` read. */
  ghost predicate BornAt(r: ServerRun, p: nat, id: UserId) {
    && r.Legal() && p < |r.handlers|
    && r.handlers[p].NickRead? && |r.devices[p]| == id
  }

  /** Whether its nickname was valid, so that it was connected and started. */
  ghost predicate AcceptedAt(r: ServerRun, p: nat, id: UserId) {
    BornAt(r, p, id) && r.states[p].ValidId(r.handlers[p].nick)
  }

  /** Every user was born at some handler. */
  lemma {:induction false} EveryUserIsBorn(r: ServerRun, k: nat, id: UserId)
    requires r.Legal() && k <= |r.handlers| && id < |r.devices[k]|
    ensures exists p: nat :: p < k && BornAt(r, p, id)
  {
    assert k > 0;
    assert r.StepAt(k - 1);
    if id < |r.devices[k - 1]| {
      EveryUserIsBorn(r, k - 1, id);
    } else {
      assert BornAt(r, k - 1, id);
    }
  }

  /** A user's device after the handler at `n`. */
  lemma OneHandler(r: ServerRun, n: nat, id: UserId)
    requires r.Legal() && n < |r.handlers| && id < |r.devices[n]|
    ensures id < |r.devices[n + 1]|
    ensures r.devices[n + 1][id]
         == DeviceAfter(r.handlers[n], id, r.devices[n][id], id in r.states[n].connected, Inbox(r.states[n].history, id))
  {
    hide Step, Inbox, State.ValidId;
    assert r.StepAt(n);
  }

  /** A user's device when it is constructed. */
  lemma DeviceAtBirth(r: ServerRun, p: nat, id: UserId)
    requires BornAt(r, p, id)
    ensures id < |r.devices[p + 1]|
    ensures r.devices[p + 1][id] == Fresh(r.handlers[p].constructed, AcceptedAt(r, p, id))
  {
    hide Step, State.ValidId;
    assert r.StepAt(p);
  }

  // ---------------------------------------------------------------- timers

  lemma TimerMoves(h: Handler, id: UserId, d: Device, connected: bool, inbox: seq<Message>)
    ensures DeviceAfter(h, id, d, connected, inbox).timer == Ticked(d.timer, TickOf(h, id, d, connected))
  {
  }

  /** What the handlers from `p` up to `k` did to the timer of user `id`, in order. */
  ghost function Ticks(r: ServerRun, p: nat, k: nat, id: UserId): seq<PT.Tick>
    requires r.Legal() && k <= |r.handlers|
  {
    if k <= p then []
    else
      var n := k - 1;
      Ticks(r, p, n, id) +
      if id >= |r.devices[n]| then []
      else
        match TickOf(r.handlers[n], id, r.devices[n][id], id in r.states[n].connected)
        case Some(tick) => [tick]
        case None => []
  }

  ghost function TimerAtBirth(r: ServerRun, p: nat, id: UserId): PT.Timer
    requires BornAt(r, p, id)
  {
    PT.Started(r.handlers[p].constructed).(armed := AcceptedAt(r, p, id))
  }

  /** What one more handler adds to the ticks. */
  lemma OneMoreTick(r: ServerRun, p: nat, n: nat, id: UserId)
    requires r.Legal() && p <= n < |r.handlers| && id < |r.devices[n]|
    ensures var tick := TickOf(r.handlers[n], id, r.devices[n][id], id in r.states[n].connected);
            Ticks(r, p, n + 1, id) == if tick.Some? then Ticks(r, p, n, id) + [tick.value] else Ticks(r, p, n, id)
  {
    hide TickOf;
  }

  lemma NotTickedYet(r: ServerRun, p: nat, id: UserId)
    requires BornAt(r, p, id)
    ensures id < |r.devices[p + 1]|
    ensures r.devices[p + 1][id].timer == PT.TickedAll(TimerAtBirth(r, p, id), Ticks(r, p + 1, p + 1, id))
  {
    hide AcceptedAt, HandlerStep;
    DeviceAtBirth(r, p, id);
  }

  lemma TickedBy(t: PT.Timer, ticks: seq<PT.Tick>, tick: Option<PT.Tick>)
    ensures PT.TickedAll(t, if tick.Some? then ticks + [tick.value] else ticks) == Ticked(PT.TickedAll(t, ticks), tick)
  {
    if tick.Some? {
      PT.TickedAllSnoc(t, ticks, tick.value);
    }
  }

  /** The timer of every user in every run has moved by exactly these ticks, one by one. */
  lemma {:induction false} TimerIsTicked(r: ServerRun, p: nat, k: nat, id: UserId)
    requires BornAt(r, p, id) && p < k <= |r.handlers|
    ensures id < |r.devices[k]|
    ensures r.devices[k][id].timer == PT.TickedAll(TimerAtBirth(r, p, id), Ticks(r, p + 1, k, id))
  {
    hide TickOf, Ticked, DeviceAfter, Ticks, TimerAtBirth, AcceptedAt, HandlerStep, PT.TickedAll, Inbox;
    var n := k - 1;
    if n == p {
      NotTickedYet(r, p, id);
    } else {
      TimerIsTicked(r, p, n, id);
      var d, connected := r.devices[n][id], id in r.states[n].connected;
      OneHandler(r, n, id);
      OneMoreTick(r, p + 1, n, id);
      TimerMoves(r.handlers[n], id, d, connected, Inbox(r.states[n].history, id));
      TickedBy(TimerAtBirth(r, p, id), Ticks(r, p + 1, n, id), TickOf(r.handlers[n], id, d, connected));
    }
  }

  /** The handler at `j` is the expiry that gives user `id` up. */
  ghost predicate TimesOut(r: ServerRun, j: nat, id: UserId)
    requires r.Legal()
  {
    j < |r.handlers| && ActionOf(r.devices[j], r.handlers[j]) == Timeout(id)
  }

  ghost predicate TimedOutBefore(r: ServerRun, p: nat, k: nat, id: UserId)
    requires r.Legal()
  {
    exists j :: p < j < k && TimesOut(r, j, id)
  }

  lemma TimesOutIff(devices: seq<Device>, h: Handler, id: UserId, connected: bool)
    requires id < |devices|
    ensures ActionOf(devices, h) == Timeout(id)
       <==> TickOf(h, id, devices[id], connected) == Some(PT.Expiry)
            && devices[id].timer.armed && PT.GivesUp(devices[id].timer)
  {
  }

  /** The user timed out before `k` if and only if some of its ticks gave it up. */
  lemma {:induction false} TimesOutByTicks(r: ServerRun, p: nat, k: nat, id: UserId)
    requires BornAt(r, p, id) && p < k <= |r.handlers|
    ensures TimedOutBefore(r, p, k, id) <==> PT.GivenUp(TimerAtBirth(r, p, id), Ticks(r, p + 1, k, id))
  {
    hide TickOf, ActionOf, Ticks, TimerAtBirth, HandlerStep, TimedOutBefore, TimesOut, PT.GivenUp, PT.GivesUp, PT.TickedAll;
    var n := k - 1;
    if n == p {
      NothingYet(r, p, id);
    } else {
      TimesOutByTicks(r, p, n, id);
      TimerIsTicked(r, p, n, id);
      var connected := id in r.states[n].connected;
      var tick := TickOf(r.handlers[n], id, r.devices[n][id], connected);
      OneMoreTick(r, p + 1, n, id);
      OneMoreMoment(r, p, n, id);
      TimesOutAtTick(r, n, id);
      if tick.Some? {
        PT.GivenUpSnoc(TimerAtBirth(r, p, id), Ticks(r, p + 1, n, id), tick.value);
      }
    }
  }

  lemma NothingYet(r: ServerRun, p: nat, id: UserId)
    requires BornAt(r, p, id)
    ensures !TimedOutBefore(r, p, p + 1, id)
    ensures !PT.GivenUp(TimerAtBirth(r, p, id), Ticks(r, p + 1, p + 1, id))
  {
    hide TimesOut, TimerAtBirth;
  }

  lemma TimesOutAtTick(r: ServerRun, n: nat, id: UserId)
    requires r.Legal() && n < |r.handlers| && id < |r.devices[n]|
    ensures TimesOut(r, n, id)
       <==> TickOf(r.handlers[n], id, r.devices[n][id], id in r.states[n].connected) == Some(PT.Expiry)
            && r.devices[n][id].timer.armed && PT.GivesUp(r.devices[n][id].timer)
  {
    TimesOutIff(r.devices[n], r.handlers[n], id, id in r.states[n].connected);
  }

  lemma OneMoreMoment(r: ServerRun, p: nat, n: nat, id: UserId)
    requires r.Legal() && p < n
    ensures TimedOutBefore(r, p, n + 1, id) <==> TimedOutBefore(r, p, n, id) || TimesOut(r, n, id)
  {
    hide TimesOut;
  }

  /** The ping law of every run: for every accepted user, at every moment and whatever else the server does, with
      `windows` the windows between its expiries and R its reference time, the deadline is R + 30 + 15 times the
      retries, which are at most three; and it has timed out if and only if four consecutive windows were
      silent. */
  lemma PingLaw(r: ServerRun, p: nat, k: nat, id: UserId)
    requires AcceptedAt(r, p, id) && p < k <= |r.handlers|
    ensures id < |r.devices[k]|
    ensures var windows := PT.WindowsOf(Ticks(r, p + 1, k, id));
            var t := r.devices[k][id].timer;
            && t.deadline == PT.After(r.handlers[p].constructed, windows).reference + 30 + 15 * t.retries
            && t.retries <= 3
            && (TimedOutBefore(r, p, k, id) <==> exists m :: PT.FourSilentAt(windows, m))
  {
    var now := r.handlers[p].constructed;
    var ticks := Ticks(r, p + 1, k, id);
    TimerIsTicked(r, p, k, id);
    TimesOutByTicks(r, p, k, id);
    PT.TicksAreWindows(now, ticks);
    PT.DeadlineFormula(now, PT.WindowsOf(ticks));
    PT.GivenUpByTicks(now, ticks);
  }

  /** The moment an accepted user times out: its deadline is R + 75, and the handler leaves it in no channel. */
  lemma TimeoutLaw(r: ServerRun, p: nat, k: nat, id: UserId)
    requires AcceptedAt(r, p, id) && p < k < |r.handlers| && TimesOut(r, k, id)
    ensures id < |r.devices[k]| && ChannelsOf(r.states[k + 1].Membership(), id) == {}
    ensures r.devices[k][id].timer.deadline
         == PT.After(r.handlers[p].constructed, PT.WindowsOf(Ticks(r, p + 1, k, id))).reference + 75
  {
    var now := r.handlers[p].constructed;
    var ticks := Ticks(r, p + 1, k, id);
    TimerIsTicked(r, p, k, id);
    TimesOutIff(r.devices[k], r.handlers[k], id, id in r.states[k].connected);
    PT.TicksAreWindows(now, ticks);
    PT.DeadlineFormula(now, PT.WindowsOf(ticks));
    assert r.StepAt(k);
    hide ServerRun.Legal, DevicesAfter, Step, ChannelsOf;
    LeavingIsExact(r.states[k], Timeout(id), id, r.states[k + 1]);
  }

  /** And in time: if the user's pongs arrive in their windows and its expiries are handled as soon as they can
      be, it times out 75 to 105 seconds after the last pong an expiry saw, or without any 75 seconds after its
      construction or at its acceptance. */
  lemma TimeoutTime(r: ServerRun, p: nat, k: nat, id: UserId, accepted: int)
    requires AcceptedAt(r, p, id) && p < k <= |r.handlers| && TimedOutBefore(r, p, k, id)
    requires r.handlers[p].constructed <= accepted
    requires PT.Timely(r.handlers[p].constructed, accepted, PT.WindowsOf(Ticks(r, p + 1, k, id)))
    ensures var now, windows := r.handlers[p].constructed, PT.WindowsOf(Ticks(r, p + 1, k, id));
            var at := PT.HandledAt(now, accepted, windows);
            match PT.After(now, windows).lastPong
            case Answered(pong) => pong + 75 <= at <= pong + 105
            case Silent => at == PT.Max(now + 75, accepted)
  {
    var now, ticks := r.handlers[p].constructed, Ticks(r, p + 1, k, id);
    TimesOutByTicks(r, p, k, id);
    PT.GivenUpIsNotAlive(now, ticks);
    PT.TimeoutBound(now, accepted, PT.WindowsOf(ticks));
  }

  lemma OnlyArmedAreTimed(devices: seq<Device>, h: Handler, id: UserId, connected: bool, inbox: seq<Message>)
    requires id < |devices| && !devices[id].timer.armed
    ensures ActionOf(devices, h) != Timeout(id) && ActionOf(devices, h) != PingAgain(id)
    ensures !DeviceAfter(h, id, devices[id], connected, inbox).timer.armed
  {
  }

  /** A user without an outstanding wait is never pinged nor timed out again, whatever happens: neither one whose
      nickname was rejected, nor one that timed out, nor one whose wait was cancelled in time. */
  lemma {:induction false} NeverTimedAgain(r: ServerRun, k: nat, n: nat, id: UserId)
    requires r.Legal() && k <= n < |r.handlers|
    requires id < |r.devices[k]| && !r.devices[k][id].timer.armed
    ensures id < |r.devices[n]| && !r.devices[n][id].timer.armed
    ensures ActionOf(r.devices[n], r.handlers[n]) != Timeout(id) && ActionOf(r.devices[n], r.handlers[n]) != PingAgain(id)
    decreases n
  {
    if k < n {
      NeverTimedAgain(r, k, n - 1, id);
      OneHandler(r, n - 1, id);
      OnlyArmedAreTimed(r.devices[n - 1], r.handlers[n - 1], id, id in r.states[n - 1].connected,
                        Inbox(r.states[n - 1].history, id));
    }
    hide ServerRun.Legal, DeviceAfter;
    OnlyArmedAreTimed(r.devices[n], r.handlers[n], id, true, []);
  }

  /** Since the last expiry of user `id` in front of `k`, or since `p`, it sent a status message "pong". */
  ghost predicate PongSince(r: ServerRun, p: nat, k: nat, id: UserId)
    requires r.Shaped() && k <= |r.handlers|
  {
    exists i :: p < i < k && r.handlers[i].BodyRead? && r.handlers[i].user == id
      && r.handlers[i].body.Some? && r.handlers[i].body.value.kind == Status && r.handlers[i].body.value.content == "pong"
      && forall n | i < n < k :: r.handlers[n] != PingDue(id)
  }

  lemma PongSinceMoves(r: ServerRun, p: nat, n: nat, id: UserId)
    requires r.Shaped() && n < |r.handlers|
    ensures PongSince(r, p, n + 1, id) ==>
              && r.handlers[n] != PingDue(id)
              && (PongSince(r, p, n, id)
                  || (p < n && r.handlers[n].BodyRead? && r.handlers[n].user == id && r.handlers[n].body.Some?
                      && r.handlers[n].body.value.kind == Status && r.handlers[n].body.value.content == "pong"))
  {
  }

  /** One handler, for a user that answers: without an expiry that finds no pong it never uses up a retry. */
  lemma AnsweredMoves(h: Handler, id: UserId, d: Device, connected: bool, inbox: seq<Message>)
    requires d.timer.retries == 0 && (h == PingDue(id) ==> d.timer.pong)
    ensures var t := DeviceAfter(h, id, d, connected, inbox).timer;
            && t.retries == 0
            && (h != PingDue(id) && d.timer.pong ==> t.pong)
            && (h.BodyRead? && h.user == id && h.body.Some?
                && h.body.value.kind == Status && h.body.value.content == "pong"
                ==> t.pong)
  {
    TimerMoves(h, id, d, connected, inbox);
    hide DeviceAfter;
  }

  lemma NewbornTimer(r: ServerRun, p: nat, id: UserId)
    requires AcceptedAt(r, p, id)
    ensures id < |r.devices[p + 1]| && r.devices[p + 1][id].timer.retries == 0 && !PongSince(r, p, p + 1, id)
  {
    DeviceAtBirth(r, p, id);
  }

  lemma {:induction false} AliveSoFar(r: ServerRun, p: nat, k: nat, id: UserId)
    requires AcceptedAt(r, p, id) && p < k <= |r.handlers|
    requires forall j | p < j < k && r.handlers[j] == PingDue(id) :: PongSince(r, p, j, id)
    ensures id < |r.devices[k]| && r.devices[k][id].timer.retries == 0
    ensures PongSince(r, p, k, id) ==> r.devices[k][id].timer.pong
  {
    hide PongSince, DeviceAfter, Inbox, HandlerStep, ServerRun.StepAt, State.ValidId;
    var n := k - 1;
    if n == p {
      NewbornTimer(r, p, id);
    } else {
      AliveSoFar(r, p, n, id);
      OneHandler(r, n, id);
      PongSinceMoves(r, p, n, id);
      AnsweredMoves(r.handlers[n], id, r.devices[n][id], id in r.states[n].connected, Inbox(r.states[n].history, id));
    }
  }

  /** In every run, an accepted user that sends a status message "pong" in every window, that is, before its first
      expiry and between any two, never times out, whatever else happens. */
  lemma AnsweringKeepsAlive(r: ServerRun, p: nat, k: nat, id: UserId)
    requires AcceptedAt(r, p, id) && p < k < |r.handlers|
    requires forall j | p < j <= k && r.handlers[j] == PingDue(id) ::
               exists i :: p < i < j && r.handlers[i].BodyRead? && r.handlers[i].user == id
                 && r.handlers[i].body.Some? && r.handlers[i].body.value.kind == Status
                 && r.handlers[i].body.value.content == "pong"
                 && forall n | i < n < j :: r.handlers[n] != PingDue(id)
    ensures ActionOf(r.devices[k], r.handlers[k]) != Timeout(id)
  {
    hide ActionOf, HandlerStep, ServerRun.StepAt, State.ValidId;
    assert forall j | p < j <= k && r.handlers[j] == PingDue(id) :: PongSince(r, p, j, id);
    hide PongSince;
    AliveSoFar(r, p, k, id);
    PongPreventsTimeout(r.devices[k], r.handlers[k], id);
  }

  lemma PongPreventsTimeout(devices: seq<Device>, h: Handler, id: UserId)
    requires id < |devices| && (h == PingDue(id) ==> devices[id].timer.pong)
    ensures ActionOf(devices, h) != Timeout(id)
  {
  }

  // ---------------------------------------------------------------- queues

  /** The outbound queue of user `id` in a state. */
  function QueueOf(s: State, devices: seq<Device>, id: UserId): WQ.Queue<Message>
    requires id < |devices|
  {
    devices[id].Queue(Inbox(s.history, id))
  }

  lemma {:induction false} InboxGrows(h: seq<Event>, h': seq<Event>, id: UserId)
    requires h <= h'
    ensures Inbox(h, id) <= Inbox(h', id)
    decreases |h'|
  {
    if |h| < |h'| {
      InboxGrows(h, h'[..|h'| - 1], id);
    } else {
      assert h == h';
    }
  }

  /** A queue that holds an inbox, in front of a longer inbox. */
  lemma QueueOfLonger(q: WQ.Queue<Message>, d: Device, inbox: seq<Message>, inbox': seq<Message>)
    requires q.All() == inbox && inbox <= inbox' && d == d.WithQueue(q)
    ensures d.Queue(inbox') == q.(posted := q.posted + inbox'[|inbox|..])
    ensures d.Queue(inbox').All() == inbox'
  {
    var taken := |q.sent| + |q.waiting|;
    assert inbox == q.sent + q.waiting + q.posted;
    assert inbox[taken..] == q.posted;
    assert inbox' == inbox + inbox'[|inbox|..];
    assert inbox'[taken..] == q.posted + inbox'[|inbox|..];
    assert q.sent + q.waiting + (q.posted + inbox'[|inbox|..]) == inbox';
  }

  /** What a handler makes of a user's queue. */
  lemma QueueAfter(h: Handler, id: UserId, d: Device, connected: bool, inbox: seq<Message>)
    ensures var q, d' := d.Queue(inbox), DeviceAfter(h, id, d, connected, inbox);
            var e := EventOf(h, id, q);
            && (e.Some? ==> WQ.Enabled(q, e.value) && d' == d'.WithQueue(WQ.Next(q, e.value)))
            && (e.None? ==> d' == d'.WithQueue(q))
  {
    hide TickOf, WQ.Next;
  }

  /** One handler, seen from one user's queue: at most one event of the queue itself, then what the user is sent. */
  lemma QueueMoves(d: Device, h: Handler, id: UserId, connected: bool, inbox: seq<Message>, inbox': seq<Message>)
    requires d.Queue(inbox).Good() && d.Queue(inbox).All() == inbox && inbox <= inbox'
    ensures var q, q' := d.Queue(inbox), DeviceAfter(h, id, d, connected, inbox).Queue(inbox');
            var e := EventOf(h, id, q);
            && (e.Some? ==> WQ.Enabled(q, e.value))
            && var moved := if e.Some? then WQ.Next(q, e.value) else q;
               q' == moved.(posted := moved.posted + inbox'[|inbox|..])
    ensures var q' := DeviceAfter(h, id, d, connected, inbox).Queue(inbox'); q'.Good() && q'.All() == inbox'
  {
    var q, d' := d.Queue(inbox), DeviceAfter(h, id, d, connected, inbox);
    QueueAfter(h, id, d, connected, inbox);
    QueueEventsWrite(h, id, q);
    hide DeviceAfter, EventOf, Device.Queue, Device.WithQueue, WQ.Next, WQ.Enabled, WQ.Queue.All;
    var e := EventOf(h, id, q);
    var moved := if e.Some? then WQ.Next(q, e.value) else q;
    if e.Some? {
      WQ.NextKeepsGood(q, e.value);
      assert inbox + [] == inbox;
    }
    QueueOfLonger(moved, d', inbox, inbox');
  }

  /** A handler's own event never writes. */
  lemma QueueEventsWrite(h: Handler, id: UserId, q: WQ.Queue<Message>)
    ensures EventOf(h, id, q).Some? ==> !EventOf(h, id, q).value.Write?
  {
  }

  lemma HistoryGrows(r: ServerRun, n: nat, id: UserId)
    requires r.Legal() && n < |r.handlers|
    ensures Inbox(r.states[n].history, id) <= Inbox(r.states[n + 1].history, id)
  {
    assert r.StepAt(n);
    InboxGrows(r.states[n].history, r.states[n + 1].history, id);
  }

  /** One handler carries a run of a queue on. */
  lemma QueueRunsOn(q: WQ.Queue<Message>, e: Option<WQ.Event<Message>>, news: seq<Message>,
                    trace: seq<WQ.Queue<Message>>, events: seq<WQ.Event<Message>>)
    returns (trace': seq<WQ.Queue<Message>>, events': seq<WQ.Event<Message>>)
    requires WQ.Run(trace, events) && trace[|events|] == q
    requires e.Some? ==> WQ.Enabled(q, e.value)
    ensures WQ.Run(trace', events') && trace <= trace'
    ensures var moved := if e.Some? then WQ.Next(q, e.value) else q;
            trace'[|events'|] == moved.(posted := moved.posted + news)
  {
    trace', events' := trace, events;
    if e.Some? {
      WQ.OneMoreEvent(trace, events, e.value);
      trace', events' := trace + [WQ.Next(q, e.value)], events + [e.value];
    }
    hide WQ.Enabled, WQ.Next;
    var mid := trace';
    trace', events' := WQ.WritesFollow(trace', events', news);
    assert trace <= mid <= trace';
  }

  /** `at` says where the states of the queue of user `id` after the handlers from `p` up to `k` stand in `trace`. */
  ghost predicate StandsIn(r: ServerRun, p: nat, k: nat, id: UserId, trace: seq<WQ.Queue<Message>>, at: seq<nat>)
    requires r.Shaped() && p < k <= |r.handlers|
  {
    && |at| == k - p
    && (forall j | p < j <= k ::
          && id < |r.devices[j]| && at[j - p - 1] < |trace|
          && trace[at[j - p - 1]] == QueueOf(r.states[j], r.devices[j], id))
    && (forall i, j | 0 <= i < j < |at| :: at[i] <= at[j])
  }

  lemma StandingPoint(r: ServerRun, p: nat, k: nat, id: UserId, trace: seq<WQ.Queue<Message>>, at: seq<nat>, j: nat)
    requires r.Shaped() && p < j <= k <= |r.handlers| && StandsIn(r, p, k, id, trace, at)
    ensures id < |r.devices[j]| && at[j - p - 1] < |trace|
    ensures trace[at[j - p - 1]] == QueueOf(r.states[j], r.devices[j], id)
  {
  }

  lemma StandsOn(r: ServerRun, p: nat, k: nat, id: UserId, trace: seq<WQ.Queue<Message>>, at: seq<nat>,
                 trace': seq<WQ.Queue<Message>>, last: nat)
    requires r.Shaped() && p < k < |r.handlers| && StandsIn(r, p, k, id, trace, at)
    requires trace <= trace' && |trace| <= last + 1 && last < |trace'| && id < |r.devices[k + 1]|
    requires trace'[last] == QueueOf(r.states[k + 1], r.devices[k + 1], id)
    ensures StandsIn(r, p, k + 1, id, trace', at + [last])
  {
    hide QueueOf;
    var at' := at + [last];
    forall j | p < j <= k + 1
      ensures id < |r.devices[j]| && at'[j - p - 1] < |trace'|
      ensures trace'[at'[j - p - 1]] == QueueOf(r.states[j], r.devices[j], id)
    {
      if j <= k {
        assert trace[at[j - p - 1]] == QueueOf(r.states[j], r.devices[j], id);
      }
    }
    assert forall i | 0 <= i < |at| :: at[i] < |trace| by {
      forall i | 0 <= i < |at|
        ensures at[i] < |trace|
      {
        assert p < i + p + 1 <= k && i + p + 1 - p - 1 == i;
        StandingPoint(r, p, k, id, trace, at, i + p + 1);
      }
    }
  }

  /** The queue of every user goes, handler by handler, through a run of the queue machine. */
  lemma {:induction false} QueueGoesThroughRun(r: ServerRun, p: nat, k: nat, id: UserId)
    returns (trace: seq<WQ.Queue<Message>>, events: seq<WQ.Event<Message>>, at: seq<nat>)
    requires BornAt(r, p, id) && p < k <= |r.handlers|
    ensures WQ.Run(trace, events) && StandsIn(r, p, k, id, trace, at) && at[|at| - 1] == |events|
    ensures QueueOf(r.states[k], r.devices[k], id).Good()
    ensures QueueOf(r.states[k], r.devices[k], id).All() == Inbox(r.states[k].history, id)
  {
    hide Inbox;
    var n := k - 1;
    if n == p {
      DeviceAtBirth(r, p, id);
      var inbox := Inbox(r.states[k].history, id);
      assert inbox[0..] == inbox && [] + inbox == inbox;
      trace, events := WQ.WritesFollow([WQ.Empty()], [], inbox);
      at := [|events|];
    } else {
      trace, events, at := QueueGoesThroughRun(r, p, n, id);
      var q := QueueOf(r.states[n], r.devices[n], id);
      var d, h, connected := r.devices[n][id], r.handlers[n], id in r.states[n].connected;
      var inbox, inbox' := Inbox(r.states[n].history, id), Inbox(r.states[k].history, id);
      OneHandler(r, n, id);
      HistoryGrows(r, n, id);
      QueueMoves(d, h, id, connected, inbox, inbox');
      assert trace[at[n - p - 1]] == q;
      hide ServerRun.Legal, BornAt, StandsIn, EventOf, DeviceAfter, WQ.Next, WQ.Enabled, WQ.Run;
      var before := trace;
      trace, events := QueueRunsOn(q, EventOf(h, id, q), inbox'[|inbox|..], trace, events);
      StandsOn(r, p, n, id, before, at, trace, |events|);
      at := at + [|events|];
    }
  }

  /** The queue law of every run, for every user and any two moments of its life: what was sent is the beginning
      of its inbox and stays sent; a write is outstanding if and only if the queue is non-empty and no write has
      failed; after a failed write none is ever started again and nothing more is sent. */
  lemma QueueLaw(r: ServerRun, p: nat, j: nat, k: nat, id: UserId)
    requires BornAt(r, p, id) && p < j <= k <= |r.handlers|
    ensures id < |r.devices[j]| && id < |r.devices[k]|
    ensures var d, d' := r.devices[j][id], r.devices[k][id];
            && d.sent <= d'.sent <= Inbox(r.states[k].history, id)
            && (d'.writing <==> d'.waiting != [] && !d'.failed)
            && (d.failed ==> d'.failed && !d'.writing && d'.sent == d.sent)
  {
    var trace, events, at := QueueGoesThroughRun(r, p, k, id);
    var i, i' := at[j - p - 1], at[k - p - 1];
    assert i <= i';
    assert trace[i] == QueueOf(r.states[j], r.devices[j], id) && trace[i'] == QueueOf(r.states[k], r.devices[k], id);
    hide ServerRun.Legal, StandsIn, WQ.Run;
    WQ.SentOnlyGrows(trace, events, i, i');
    if trace[i].failed {
      WQ.FailureIsFinal(trace, events, i, i');
    }
  }
}
