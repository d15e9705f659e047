/** What every run of the server keeps, and what each handler does to memberships and inboxes. */
module ChatRuns {
  import opened Messages
  import opened ChatSpec
  import opened ChatHistory

  /** The combined invariant. Users outside `connected` may share names and may still be in channels. */
  ghost predicate Safe(s: State) {
    && Known(s.history, |s.names|)
    && Sound(s.history)
    && (forall c | c in Registered(s.Membership()) :: WellFormedId(c))
    && (forall u | u in s.connected ::
          u < |s.names| && WellFormedId(s.names[u]) && s.names[u] !in Registered(s.Membership()))
    && (forall u, v | u in s.connected && v in s.connected && s.names[u] == s.names[v] :: u == v)
  }

  /** The events of leaving are about known users. */
  lemma {:induction false} LeaveKnown(h: seq<Event>, evs: seq<Event>, names: seq<string>, pairs: Membership)
    requires Known(h, |names|) && LeaveEvents(evs, names, pairs)
    ensures Known(h + evs, |names|)
  {
    if evs == [] {
      assert h + evs == h;
    } else {
      var e := evs[|evs| - 1];
      LeaveKnown(h, evs[..|evs| - 1], names, pairs - {(e.user, e.channel)});
      assert h + evs == h + evs[..|evs| - 1] + [e];
    }
  }

  lemma {:induction false} RenameKnown(h: seq<Event>, evs: seq<Event>, n: nat, channels: set<string>, before: string, after: string)
    requires Known(h, n) && RenameEvents(evs, channels, before, after)
    ensures Known(h + evs, n)
  {
    if evs == [] {
      assert h + evs == h;
    } else {
      var e := evs[|evs| - 1];
      RenameKnown(h, evs[..|evs| - 1], n, channels - {e.channel}, before, after);
      assert h + evs == h + evs[..|evs| - 1] + [e];
    }
  }

  /** Leaving only shrinks the membership, so names stay apart from the channels that remain. */
  lemma LeaveKeepsSafe(s: State, evs: seq<Event>, pairs: Membership, connected: set<UserId>)
    requires Safe(s) && LeaveEvents(evs, s.names, pairs) && pairs <= s.Membership()
    requires connected <= s.connected
    ensures Safe(State(s.history + evs, s.names, connected))
  {
    LeaveMembers(s.history, evs, s.names, pairs);
    LeaveSound(s.history, evs, s.names, pairs);
    LeaveKnown(s.history, evs, s.names, pairs);
  }

  /** One event that is not a leave keeps the invariant if a newly registered channel has a valid id. */
  lemma EventKeepsSafe(s: State, e: Event)
    requires Safe(s)
    requires !e.Published? ==> e.user < |s.names|
    requires e.Left? ==> (e.user, e.channel) in s.Membership()
    requires e.Joined? ==> e.channel in Registered(s.Membership()) || s.ValidId(e.channel)
    ensures Safe(s.(history := s.history + [e]))
  {
    MembersSnoc(s.history, e);
    SoundSnoc(s.history, e);
  }

  lemma UserKeepsSafe(s: State, name: string)
    requires Safe(s)
    ensures Safe(s.(names := s.names + [name]))
    ensures forall id :: s.(names := s.names + [name]).ValidId(id) <==> s.ValidId(id)
  {
    var s' := s.(names := s.names + [name]);
    forall id
      ensures s'.NameTaken(id) <==> s.NameTaken(id)
    {
      if s.NameTaken(id) {
        var v :| v in s.connected && v < |s.names| && s.names[v] == id;
        assert v < |s'.names| && s'.names[v] == id;
      }
      if s'.NameTaken(id) {
        var v :| v in s'.connected && v < |s'.names| && s'.names[v] == id;
        assert v < |s.names| && s.names[v] == id;
      }
    }
  }

  lemma ValidIdIsLong(s: State, id: string)
    requires s.ValidId(id)
    ensures |id| >= 3
  {
  }

  lemma FewerConnectionsKeepSafe(s: State, connected: set<UserId>)
    requires Safe(s) && connected <= s.connected
    ensures Safe(s.(connected := connected))
  {
  }

  lemma AcceptKeepsSafe(s: State, nick: string)
    requires Safe(s) && s.ValidId(nick)
    ensures Safe(State(s.history, s.names + [nick], s.connected + {|s.names|}))
  {
  }

  /** Connected under a valid nickname and told so, a new user is safe. */
  lemma AdmittedIsSafe(s: State, nick: string)
    requires Safe(s) && s.ValidId(nick)
    ensures Safe(State(s.history + [Told(|s.names|, StatusMessage(nick, "valid"))], s.names + [nick],
                       s.connected + {|s.names|}))
  {
    AcceptKeepsSafe(s, nick);
    EventKeepsSafe(State(s.history, s.names + [nick], s.connected + {|s.names|}),
                   Told(|s.names|, StatusMessage(nick, "valid")));
  }

  lemma AdmitStep(s: State, nick: string, s': State)
    requires s.ValidId(nick)
    requires var u := |s.names|;
             s' == State(s.history + [Told(u, StatusMessage(nick, "valid"))] + [Told(u, ChatSpec.Ping(nick))],
                         s.names + [nick], s.connected + {u})
    ensures Step(s, Accept(nick), s')
  {
    var u := |s.names|;
    var told, ping := Told(u, StatusMessage(nick, "valid")), Told(u, ChatSpec.Ping(nick));
    assert s'.history == s.history + [told, ping];
    StepOf(s, Accept(nick), s', [told, ping]);
  }

  lemma RenameKeepsSafe(s: State, u: UserId, n: string, evs: seq<Event>)
    requires Safe(s) && u < |s.names| && s.ValidId(n)
    requires RenameEvents(evs, ChannelsOf(s.Membership(), u), s.names[u], n)
    ensures Safe(State(s.history + evs, s.names[u := n], s.connected))
  {
    var channels := ChannelsOf(s.Membership(), u);
    RenameMembers(s.history, evs, channels, s.names[u], n);
    RenameSound(s.history, evs, channels, s.names[u], n);
    RenameKnown(s.history, evs, |s.names|, channels, s.names[u], n);
  }

  lemma AcceptStepKeepsSafe(s: State, nick: string, s': State)
    requires Safe(s) && Step(s, Accept(nick), s')
    ensures Safe(s')
  {
    var u := |s.names|;
    if s.ValidId(nick) {
      AcceptKeepsSafe(s, nick);
      var s1 := State(s.history, s.names + [nick], s.connected + {u});
      var e1, e2 := Told(u, StatusMessage(nick, "valid")), Told(u, ChatSpec.Ping(nick));
      EventKeepsSafe(s1, e1);
      EventKeepsSafe(s1.(history := s.history + [e1]), e2);
      assert s'.history == s.history + [e1] + [e2];
    } else {
      var s1 := State(s.history, s.names + [UNNAMED], s.connected);
      assert Safe(s1);
      var e := Told(u, StatusMessage("target", nick + " is not a valid name."));
      EventKeepsSafe(s1, e);
      assert s'.history == s.history + [e];
    }
  }

  lemma HandleStepKeepsSafe(s: State, u: UserId, msg: Message, s': State)
    requires Safe(s) && Step(s, Handle(u, msg), s')
    ensures Safe(s')
  {
    var evs := s'.history[|s.history|..];
    assert s'.history == s.history + evs;
    if msg.kind == Command && ParseCommand(msg.content).NickCommand? && s.ValidId(ParseCommand(msg.content).name) {
      RenameKeepsSafe(s, u, ParseCommand(msg.content).name, evs);
    } else if evs == [] {
      assert s' == s;
    } else {
      assert evs == [evs[0]];
      EventKeepsSafe(s, evs[0]);
      assert s' == s.(history := s.history + [evs[0]]);
    }
  }

  /** Every handler keeps the combined invariant. */
  lemma StepKeepsSafe(s: State, a: Action, s': State)
    requires Safe(s) && Step(s, a, s')
    ensures Safe(s')
  {
    var evs := s'.history[|s.history|..];
    assert s'.history == s.history + evs;
    match a
    case Accept(nick) => AcceptStepKeepsSafe(s, nick, s');
    case Handle(u, msg) => HandleStepKeepsSafe(s, u, msg, s');
    case PingAgain(u) => EventKeepsSafe(s, evs[0]); assert evs == [evs[0]];
    case Timeout(u) => LeaveKeepsSafe(s, evs, PairsOf(s.Membership(), {u}), s.connected);
    case Stop(u) => LeaveKeepsSafe(s, evs, PairsOf(s.Membership(), {u}), s.connected - {u});
    case StopAll => LeaveKeepsSafe(s, evs, PairsOf(s.Membership(), s.connected), {});
    case Internal => assert s' == s;
  }

  /** Every state of every run is safe, and history is only ever appended to. */
  lemma {:induction false} RunIsSafe(trace: seq<State>, actions: seq<Action>, i: nat)
    requires Run(trace, actions) && i < |trace|
    ensures Safe(trace[i])
    ensures forall j | 0 <= j <= i :: trace[j].history <= trace[i].history
  {
    if i > 0 {
      RunIsSafe(trace, actions, i - 1);
      StepKeepsSafe(trace[i - 1], actions[i - 1], trace[i]);
    }
  }

  /** In every state of every run, looking a name up among the connected users has one answer, whatever order
      they are visited in, and never answers for the name of a channel. */
  lemma LookupIsUnique(trace: seq<State>, actions: seq<Action>, i: nat, id: string, v: UserId, w: UserId)
    requires Run(trace, actions) && i < |trace|
    requires v in trace[i].connected && v < |trace[i].names| && trace[i].names[v] == id
    requires w in trace[i].connected && w < |trace[i].names| && trace[i].names[w] == id
    ensures v == w && id !in Registered(trace[i].Membership())
  {
    RunIsSafe(trace, actions, i);
  }

  // ---------------------------------------------------------------- routing

  datatype Outcome =
    | ToChannel(members: set<UserId>, copy: Message)
    | ToUser(user: UserId, copy: Message)
    | Refused(sender: UserId, copy: Message)
  {
    function Recipients(): set<UserId> {
      match this
      case ToChannel(members, _) => members
      case ToUser(u, _) => {u}
      case Refused(u, _) => {u}
    }
  }

  /** Where a text of `u` for `target` must go: the channel if the sender is in it, else the user of that
      name, else an error back to the sender. */
  ghost predicate Routes(s: State, u: UserId, target: string, content: string, o: Outcome)
    requires u < |s.names|
  {
    var m := s.Membership();
    match o
    case ToChannel(members, copy) =>
      && (u, target) in m && members == UsersOf(m, target)
      && copy == NewMessage(s.names[u], target, content, Text)
    case ToUser(v, copy) =>
      && target !in Registered(m) && v in s.connected && v < |s.names| && s.names[v] == target
      && copy == NewMessage(s.names[u], target, content, Text)
    case Refused(w, copy) =>
      && w == u && (u, target) !in m && !s.NameTaken(target)
      && copy == StatusMessage(s.names[u], "No channel or user with the name: " + target)
  }

  /** Every text has exactly one outcome: its recipients get one copy each and nobody else gets anything. */
  lemma RoutingHasOneOutcome(s: State, u: UserId, msg: Message, s': State)
    requires Safe(s) && msg.kind != Command && Step(s, Handle(u, msg), s')
    ensures s'.Membership() == s.Membership() && s'.names == s.names && s'.connected == s.connected
    ensures exists o: Outcome :: Routes(s, u, msg.target, msg.content, o)
              && (forall o' | Routes(s, u, msg.target, msg.content, o') :: o' == o)
              && (forall v: UserId :: Inbox(s'.history, v)
                                      == Inbox(s.history, v) + if v in o.Recipients() then [o.copy] else [])
  {
    var m := s.Membership();
    var evs := s'.history[|s.history|..];
    assert RouteStep(s, u, msg.target, msg.content, evs);
    var e := evs[0];
    assert s'.history == s.history + [e];
    MembersSnoc(s.history, e);
    var o :=
      if (u, msg.target) in m then ToChannel(UsersOf(m, msg.target), Carried(e))
      else if s.NameTaken(msg.target) then ToUser(e.user, Carried(e))
      else Refused(u, Carried(e));
    assert Routes(s, u, msg.target, msg.content, o);
    forall v: UserId
      ensures Inbox(s'.history, v) == Inbox(s.history, v) + if v in o.Recipients() then [o.copy] else []
    {
      InboxSnoc(s.history, e, v);
    }
    forall o' | Routes(s, u, msg.target, msg.content, o')
      ensures o' == o
    {
      assert (u, msg.target) in m ==> msg.target in Registered(m);
    }
  }

  /** A text for a channel by a user who is not in it reaches the sender alone, as an error. */
  lemma OutsiderReachesNobody(s: State, u: UserId, msg: Message, s': State, v: UserId)
    requires Safe(s) && msg.kind != Command && Step(s, Handle(u, msg), s')
    requires msg.target in Registered(s.Membership()) && (u, msg.target) !in s.Membership()
    ensures v != u ==> Inbox(s'.history, v) == Inbox(s.history, v)
    ensures Inbox(s'.history, u) == Inbox(s.history, u)
              + [StatusMessage(s.names[u], "No channel or user with the name: " + msg.target)]
  {
    RoutingHasOneOutcome(s, u, msg, s');
  }

  // ---------------------------------------------------------------- leaving

  /** Stopping or timing out a user empties its memberships, leaves all others alone, and unregisters exactly
      the channels it was alone in. */
  lemma LeavingIsExact(s: State, a: Action, u: UserId, s': State)
    requires (a == Stop(u) || a == Timeout(u)) && Step(s, a, s')
    ensures ChannelsOf(s'.Membership(), u) == {}
    ensures forall v, c | v != u :: (v, c) in s'.Membership() <==> (v, c) in s.Membership()
    ensures Registered(s'.Membership())
         == set c | c in Registered(s.Membership()) && UsersOf(s.Membership(), c) != {u}
  {
    var m, evs := s.Membership(), s'.history[|s.history|..];
    var m' := s'.Membership();
    assert s'.history == s.history + evs;
    LeaveMembers(s.history, evs, s.names, PairsOf(m, {u}));
    assert m' == m - PairsOf(m, {u});
    forall c | c in Registered(m) && UsersOf(m, c) != {u}
      ensures c in Registered(m')
    {
      var p :| p in m && p.1 == c;
      assert p.0 in UsersOf(m, c);
      if p.0 == u {
        var v :| v in UsersOf(m, c) && v != u;
        assert (v, c) in m';
      } else {
        assert p in m';
      }
    }
    forall c | c in Registered(m')
      ensures c in Registered(m) && UsersOf(m, c) != {u}
    {
      var p :| p in m' && p.1 == c;
      assert p.0 in UsersOf(m, c) && p.0 != u;
    }
  }

  /** `stop_all` disconnects everybody, takes every connected user out of every channel, and leaves
      registered exactly the channels that had a member outside the connections. */
  lemma StopAllIsExact(s: State, s': State)
    requires Step(s, StopAll, s')
    ensures s'.connected == {}
    ensures forall v, c :: (v, c) in s'.Membership() <==> (v, c) in s.Membership() && v !in s.connected
    ensures Registered(s'.Membership())
         == set c | c in Registered(s.Membership()) && !(UsersOf(s.Membership(), c) <= s.connected)
    ensures (forall p | p in s.Membership() :: p.0 in s.connected) ==> Registered(s'.Membership()) == {}
  {
    var m, evs := s.Membership(), s'.history[|s.history|..];
    var m' := s'.Membership();
    assert s'.history == s.history + evs;
    LeaveMembers(s.history, evs, s.names, PairsOf(m, s.connected));
    assert m' == m - PairsOf(m, s.connected);
    forall c | c in Registered(m) && !(UsersOf(m, c) <= s.connected)
      ensures c in Registered(m')
    {
      var v :| v in UsersOf(m, c) && v !in s.connected;
      assert (v, c) in m';
    }
    forall c | c in Registered(m')
      ensures c in Registered(m) && !(UsersOf(m, c) <= s.connected)
    {
      var p :| p in m' && p.1 == c;
      assert p.0 in UsersOf(m, c);
    }
  }

  // ---------------------------------------------------------------- renaming

  /** How much one channel `c` adds to the overlap with the channels of `v`. */
  lemma OverlapOne(m: Membership, channels: set<string>, c: string, v: UserId)
    requires c in channels
    ensures |channels * ChannelsOf(m, v)| == |(channels - {c}) * ChannelsOf(m, v)| + if (v, c) in m then 1 else 0
  {
    var mine := ChannelsOf(m, v);
    if (v, c) in m {
      assert c in mine;
      assert channels * mine == (channels - {c}) * mine + {c};
    } else {
      assert c !in mine;
      assert channels * mine == (channels - {c}) * mine;
    }
  }

  /** A block of rename notices for `channels` adds to the inbox of `v` one notice for each of these channels
      `v` is in, and nothing else. */
  lemma {:induction false} RenameInbox(h: seq<Event>, evs: seq<Event>, channels: set<string>,
                                       before: string, after: string, v: UserId)
    requires RenameEvents(evs, channels, before, after)
    ensures Inbox(h, v) <= Inbox(h + evs, v)
    ensures |Inbox(h + evs, v)| == |Inbox(h, v)| + |channels * ChannelsOf(Members(h), v)|
  {
    if evs == [] {
      assert h + evs == h;
      assert channels * ChannelsOf(Members(h), v) == {};
    } else {
      var e := evs[|evs| - 1];
      var init, rest := evs[..|evs| - 1], channels - {e.channel};
      assert h + evs == h + init + [e];
      hide RenameEvents, RenameNotice, ChannelsOf, Members, Inbox;
      RenameInbox(h, init, rest, before, after, v);
      RenameMembers(h, init, rest, before, after);
      InboxSnoc(h + init, e, v);
      OverlapOne(Members(h), channels, e.channel, v);
    }
  }

  /** The last of a block of rename notices. */
  lemma RenameLast(evs: seq<Event>, channels: set<string>, before: string, after: string)
    requires RenameEvents(evs, channels, before, after) && evs != []
    ensures var e := evs[|evs| - 1];
            && e.Published? && e.channel in channels
            && e.msg == StatusMessage(e.channel, before + " is now known as " + after + ".")
            && RenameEvents(evs[..|evs| - 1], channels - {e.channel}, before, after)
  {
  }

  lemma NoRenameNotices(h: seq<Event>, channels: set<string>, before: string, after: string)
    requires RenameEvents([], channels, before, after)
    ensures channels == {} && h + [] == h
  {
  }

  /** The added messages are, for the channels `told` in some order, each once, that the old name is now the new. */
  lemma {:induction false} RenameInboxContent(h: seq<Event>, evs: seq<Event>, channels: set<string>,
                                              before: string, after: string, v: UserId) returns (told: seq<string>)
    requires RenameEvents(evs, channels, before, after)
    ensures forall i, j | 0 <= i < j < |told| :: told[i] != told[j]
    ensures forall c :: c in told <==> c in channels && (v, c) in Members(h)
    ensures |Inbox(h + evs, v)| == |Inbox(h, v)| + |told| && Inbox(h, v) <= Inbox(h + evs, v)
    ensures forall i | 0 <= i < |told| ::
              Inbox(h + evs, v)[|Inbox(h, v)| + i] == StatusMessage(told[i], before + " is now known as " + after + ".")
  {
    hide RenameEvents, Members, Inbox, StatusMessage;
    if evs == [] {
      NoRenameNotices(h, channels, before, after);
      told := [];
    } else {
      RenameLast(evs, channels, before, after);
      var e := evs[|evs| - 1];
      var init, rest := evs[..|evs| - 1], channels - {e.channel};
      var earlier := RenameInboxContent(h, init, rest, before, after, v);
      RenameMembers(h, init, rest, before, after);
      InboxSnoc(h + init, e, v);
      assert h + evs == h + init + [e];
      told := earlier + if (v, e.channel) in Members(h) then [e.channel] else [];
      assert forall c :: c in told <==> c in earlier || (c == e.channel && (v, c) in Members(h));
    }
  }

  /** The size of the overlap with the first `n` users' channels, summed over these users. */
  function Overlap(m: Membership, channels: set<string>, n: nat): nat {
    if n == 0 then 0 else Overlap(m, channels, n - 1) + |channels * ChannelsOf(m, n - 1)|
  }

  /** The number of members, summed over `channels`. */
  ghost function Audience(m: Membership, channels: set<string>): nat {
    if channels == {} then 0
    else
      var c :| c in channels;
      |UsersOf(m, c)| + Audience(m, channels - {c})
  }

  function UsersBelow(m: Membership, c: string, n: nat): set<UserId> {
    set v | v in UsersOf(m, c) && v < n
  }

  lemma UsersBelowNext(m: Membership, c: string, n: nat)
    ensures |UsersBelow(m, c, n + 1)| == |UsersBelow(m, c, n)| + if (n, c) in m then 1 else 0
  {
    hide ChannelsOf;
    if (n, c) in m {
      assert n in UsersOf(m, c);
      assert UsersBelow(m, c, n + 1) == UsersBelow(m, c, n) + {n};
    } else {
      assert n !in UsersOf(m, c);
      assert UsersBelow(m, c, n + 1) == UsersBelow(m, c, n);
    }
  }

  lemma {:induction false} OverlapStep(m: Membership, channels: set<string>, c: string, n: nat)
    requires c in channels
    ensures Overlap(m, channels, n) == Overlap(m, channels - {c}, n) + |UsersBelow(m, c, n)|
  {
    hide ChannelsOf, UsersOf;
    if n == 0 {
      assert UsersBelow(m, c, 0) == {};
    } else {
      OverlapStep(m, channels, c, n - 1);
      hide UsersBelow;
      OverlapOne(m, channels, c, n - 1);
      UsersBelowNext(m, c, n - 1);
    }
  }

  /** Counting by user and counting by channel agree. */
  lemma {:induction false} OverlapIsAudience(m: Membership, channels: set<string>, n: nat)
    requires forall p | p in m :: p.0 < n
    ensures Overlap(m, channels, n) == Audience(m, channels)
  {
    if channels == {} {
      NoOverlap(m, n);
    } else {
      var c :| c in channels && Audience(m, channels) == |UsersOf(m, c)| + Audience(m, channels - {c});
      OverlapStep(m, channels, c, n);
      assert UsersBelow(m, c, n) == UsersOf(m, c);
      OverlapIsAudience(m, channels - {c}, n);
    }
  }

  lemma {:induction false} NoOverlap(m: Membership, n: nat)
    ensures Overlap(m, {}, n) == 0
  {
    if n > 0 {
      NoOverlap(m, n - 1);
      assert {} * ChannelsOf(m, n - 1) == {};
    }
  }

  /** What the first `n` users were sent, counted together. */
  function Traffic(h: seq<Event>, n: nat): nat {
    if n == 0 then 0 else Traffic(h, n - 1) + |Inbox(h, n - 1)|
  }

  lemma {:induction false} RenameTraffic(h: seq<Event>, evs: seq<Event>, channels: set<string>,
                                         before: string, after: string, n: nat)
    requires RenameEvents(evs, channels, before, after)
    ensures Traffic(h + evs, n) == Traffic(h, n) + Overlap(Members(h), channels, n)
  {
    hide ChannelsOf, Members, RenameNotice;
    if n > 0 {
      RenameTraffic(h, evs, channels, before, after, n - 1);
      RenameInbox(h, evs, channels, before, after, n - 1);
    }
  }

  /** A successful "/nick" moves nobody; it sends each user one notice for every channel shared with the
      renamed user, in some order, with the old and the new name, and all in all as many notices as that user's
      channels have members. */
  lemma RenameConserves(s: State, u: UserId, msg: Message, s': State, sep: char, n: string, more: string, v: UserId)
    returns (told: seq<string>)
    requires Safe(s) && Step(s, Handle(u, msg), s') && msg.kind == Command
    requires sep == ' ' || sep == '\t'
    requires forall i | 0 <= i < |n| :: n[i] != ' ' && n[i] != '\t'
    requires more == "" || more[0] == ' ' || more[0] == '\t'
    requires msg.content == "/nick" + [sep] + n + more && s.ValidId(n)
    ensures s'.Membership() == s.Membership() && s'.connected == s.connected
    ensures u < |s.names| && s'.names == s.names[u := n]
    ensures forall i, j | 0 <= i < j < |told| :: told[i] != told[j]
    ensures forall c :: c in told <==> (u, c) in s.Membership() && (v, c) in s.Membership()
    ensures |Inbox(s'.history, v)| == |Inbox(s.history, v)| + |told| && Inbox(s.history, v) <= Inbox(s'.history, v)
    ensures forall i | 0 <= i < |told| ::
              Inbox(s'.history, v)[|Inbox(s.history, v)| + i] ==
                StatusMessage(told[i], s.names[u] + " is now known as " + n + ".")
    ensures Traffic(s'.history, |s.names|)
         == Traffic(s.history, |s.names|) + Audience(s.Membership(), ChannelsOf(s.Membership(), u))
  {
    hide Step, Safe, Members, Inbox, Registered, ChannelsOf, RenameEvents, State.ValidId, Traffic, Audience;
    var evs := RenameStep(s, u, msg, s', sep, n, more);
    var mine := ChannelsOf(s.Membership(), u);
    ChannelsOfIs(s.Membership(), u);
    RenameMembers(s.history, evs, mine, s.names[u], n);
    told := RenameInboxContent(s.history, evs, mine, s.names[u], n, v);
    RenameTraffic(s.history, evs, mine, s.names[u], n, |s.names|);
    UsersAreKnown(s);
    OverlapIsAudience(s.Membership(), mine, |s.names|);
  }

  lemma RenameStep(s: State, u: UserId, msg: Message, s': State, sep: char, n: string, more: string)
    returns (evs: seq<Event>)
    requires Step(s, Handle(u, msg), s') && msg.kind == Command
    requires sep == ' ' || sep == '\t'
    requires forall i | 0 <= i < |n| :: n[i] != ' ' && n[i] != '\t'
    requires more == "" || more[0] == ' ' || more[0] == '\t'
    requires msg.content == "/nick" + [sep] + n + more && s.ValidId(n)
    ensures u < |s.names| && s' == State(s.history + evs, s.names[u := n], s.connected)
    ensures RenameEvents(evs, ChannelsOf(s.Membership(), u), s.names[u], n)
  {
    ArgumentOf("/nick", sep, n, more);
    hide ParseCommand, State.ValidId, RenameEvents;
    evs := s'.history[|s.history|..];
  }

  lemma ChannelsOfIs(m: Membership, u: UserId)
    ensures forall c :: c in ChannelsOf(m, u) <==> (u, c) in m
  {
    forall c | (u, c) in m
      ensures c in ChannelsOf(m, u)
    {
      assert (u, c).0 == u;
    }
  }

  lemma UsersAreKnown(s: State)
    requires Safe(s)
    ensures forall p | p in s.Membership() :: p.0 < |s.names|
  {
    UnknownIsUntouched(s.history, |s.names|);
  }
}
