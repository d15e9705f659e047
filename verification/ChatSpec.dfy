/** The abstract chat server: a history of events, the membership relation it induces, what each user
    is sent, and the step relation of the io handlers. Sets in the source are ordered by pointer, so
    every iteration over one is an arbitrary enumeration here. */
module ChatSpec {
  import opened Messages

  /** The position of a user in the order of construction; it stands for the user's address. */
  type UserId = nat

  type Membership = set<(UserId, string)>

  datatype Event =
    | Joined(user: UserId, channel: string, name: string)
    | Left(user: UserId, channel: string, name: string)
    | Published(channel: string, msg: Message)
    | Told(user: UserId, msg: Message)

  /** The membership after one more event. */
  function Apply(m: Membership, e: Event): Membership {
    match e
    case Joined(u, c, _) => m + {(u, c)}
    case Left(u, c, _) => m - {(u, c)}
    case Published(_, _) => m
    case Told(_, _) => m
  }

  /** Who is in which channel after a history. */
  function Members(h: seq<Event>): Membership {
    if h == [] then {} else Apply(Members(h[..|h| - 1]), h[|h| - 1])
  }

  /** The channels that have a member. */
  function Registered(m: Membership): set<string> {
    set p | p in m :: p.1
  }

  function ChannelsOf(m: Membership, u: UserId): set<string> {
    set p | p in m && p.0 == u :: p.1
  }

  function UsersOf(m: Membership, c: string): set<UserId> {
    set p | p in m && p.1 == c :: p.0
  }

  /** The pairs of `m` whose user is in `users`. */
  function PairsOf(m: Membership, users: set<UserId>): Membership {
    set p | p in m && p.0 in users
  }

  function RenameNotice(c: string, before: string, after: string): Message {
    StatusMessage(c, before + " is now known as " + after + ".")
  }

  function Ping(name: string): Message {
    StatusMessage(name, "ping")
  }

  /** The message an event carries. */
  function Carried(e: Event): Message {
    match e
    case Joined(_, c, name) => StatusMessage(c, name + " joined #" + c + ".")
    case Left(_, c, name) => StatusMessage(c, name + " left #" + c + ".")
    case Published(_, msg) => msg
    case Told(_, msg) => msg
  }

  /** Whether event `e`, happening when the membership is `m`, is written to user `u`. A joining user is
      already a member when its notice is published; a leaving user still is one. */
  predicate Reaches(m: Membership, e: Event, u: UserId) {
    match e
    case Joined(j, c, _) => u == j || (u, c) in m
    case Left(_, c, _) => (u, c) in m
    case Published(c, _) => (u, c) in m
    case Told(t, _) => u == t
  }

  /** Everything written to user `u`, in order. */
  function Inbox(h: seq<Event>, u: UserId): seq<Message> {
    if h == [] then []
    else
      var before := h[..|h| - 1];
      var e := h[|h| - 1];
      Inbox(before, u) + if Reaches(Members(before), e, u) then [Carried(e)] else []
  }

  /** `evs` is one "left" notice for each pair of `pairs`, in some order. */
  ghost predicate LeaveEvents(evs: seq<Event>, names: seq<string>, pairs: Membership) {
    if evs == [] then pairs == {}
    else
      var e := evs[|evs| - 1];
      && e.Left?
      && e.user < |names| && e.name == names[e.user]
      && (e.user, e.channel) in pairs
      && LeaveEvents(evs[..|evs| - 1], names, pairs - {(e.user, e.channel)})
  }

  /** `evs` is one rename notice for each channel of `channels`, in some order. */
  ghost predicate RenameEvents(evs: seq<Event>, channels: set<string>, before: string, after: string) {
    if evs == [] then channels == {}
    else
      var e := evs[|evs| - 1];
      && e.Published?
      && e.channel in channels
      && e.msg == RenameNotice(e.channel, before, after)
      && RenameEvents(evs[..|evs| - 1], channels - {e.channel}, before, after)
  }

  datatype State = State(history: seq<Event>, names: seq<string>, connected: set<UserId>) {

    function Membership(): Membership {
      Members(history)
    }

    /** `user_exists`: some connected user has this name. */
    ghost predicate NameTaken(id: string) {
      exists v :: v in connected && v < |names| && names[v] == id
    }

    /** `valid_id`. */
    ghost predicate ValidId(id: string) {
      WellFormedId(id) && !NameTaken(id) && id !in Registered(Membership())
    }
  }

  const UNNAMED: string := "                    "

  const START: State := State([], [], {})

  /** One io handler. Ping is an expiry that pings again, Timeout one that gives the user up; Internal is a
      handler that changes no membership, name or connection and writes nothing. */
  datatype Action =
    | Accept(nick: string)
    | Handle(user: UserId, msg: Message)
    | PingAgain(user: UserId)
    | Timeout(user: UserId)
    | Stop(user: UserId)
    | StopAll
    | Internal

  /** A command of user `u` appends `evs` and leaves the names `after`. */
  ghost predicate CommandStep(s: State, u: UserId, command: CommandLine, evs: seq<Event>, after: seq<string>)
    requires u < |s.names|
  {
    var name := s.names[u];
    match command
    case JoinCommand(c) =>
      && after == s.names
      && evs == (if c in Registered(s.Membership()) || s.ValidId(c) then [Joined(u, c, name)] else [])
    case LeaveCommand(c) =>
      && after == s.names
      && evs == (if (u, c) in s.Membership() then [Left(u, c, name)] else [])
    case NickCommand(n) =>
      if s.ValidId(n) then
        && after == s.names[u := n]
        && RenameEvents(evs, ChannelsOf(s.Membership(), u), name, n)
      else
        && after == s.names
        && evs == [Told(u, StatusMessage(name, "Name is not valid."))]
    case MissingArgument =>
      && after == s.names
      && evs == [Told(u, StatusMessage(name, "Arguments empty."))]
    case UnknownCommand =>
      && after == s.names
      && evs == [Told(u, StatusMessage(name, " unknown command."))]
  }

  /** A text of user `u` for `target` appends `evs`. */
  ghost predicate RouteStep(s: State, u: UserId, target: string, content: string, evs: seq<Event>)
    requires u < |s.names|
  {
    var name := s.names[u];
    if (u, target) in s.Membership() then
      evs == [Published(target, NewMessage(name, target, content, Text))]
    else if s.NameTaken(target) then
      exists v :: v in s.connected && v < |s.names| && s.names[v] == target
                  && evs == [Told(v, NewMessage(name, target, content, Text))]
    else
      evs == [Told(u, StatusMessage(name, "No channel or user with the name: " + target))]
  }

  ghost predicate StepEvents(s: State, a: Action, evs: seq<Event>, names: seq<string>, connected: set<UserId>) {
    match a
    case Accept(nick) =>
      var u := |s.names|;
      if s.ValidId(nick) then
        && evs == [Told(u, StatusMessage(nick, "valid")), Told(u, Ping(nick))]
        && names == s.names + [nick]
        && connected == s.connected + {u}
      else
        && evs == [Told(u, StatusMessage("target", nick + " is not a valid name."))]
        && names == s.names + [UNNAMED]
        && connected == s.connected
    case Handle(u, msg) =>
      && u < |s.names|
      && connected == s.connected
      && if msg.kind == Command then CommandStep(s, u, ParseCommand(msg.content), evs, names)
         else names == s.names && RouteStep(s, u, msg.target, msg.content, evs)
    case PingAgain(u) =>
      && u < |s.names|
      && evs == [Told(u, Ping(s.names[u]))]
      && names == s.names && connected == s.connected
    case Timeout(u) =>
      && LeaveEvents(evs, s.names, PairsOf(s.Membership(), {u}))
      && names == s.names && connected == s.connected
    case Stop(u) =>
      && LeaveEvents(evs, s.names, PairsOf(s.Membership(), {u}))
      && names == s.names && connected == s.connected - {u}
    case StopAll =>
      && LeaveEvents(evs, s.names, PairsOf(s.Membership(), s.connected))
      && names == s.names && connected == {}
    case Internal =>
      && evs == [] && names == s.names && connected == s.connected
  }

  /** One handler takes the server from `s` to `s'`. */
  ghost predicate Step(s: State, a: Action, s': State) {
    && s.history <= s'.history
    && StepEvents(s, a, s'.history[|s.history|..], s'.names, s'.connected)
  }

  /** A run of the server: states `trace`, one handler between neighbours. */
  ghost predicate Run(trace: seq<State>, actions: seq<Action>) {
    && |trace| == |actions| + 1
    && trace[0] == START
    && forall i | 0 <= i < |actions| :: Step(trace[i], actions[i], trace[i + 1])
  }
}
