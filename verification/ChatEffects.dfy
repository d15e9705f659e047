/** What each input does, by its text: for every message, command line and handler of a user, the memberships, names,
    connections and inboxes afterwards. */
module ChatEffects {
  import opened Messages
  import opened ChatSpec
  import opened ChatHistory
  import opened ChatRuns

  lemma OneEvent(s: State, e: Event, s': State)
    requires s'.history == s.history + [e]
    ensures s'.Membership() == Apply(s.Membership(), e)
    ensures forall v: UserId ::
              Inbox(s'.history, v) == Inbox(s.history, v) + if Reaches(s.Membership(), e, v) then [Carried(e)] else []
  {
    MembersSnoc(s.history, e);
    forall v: UserId
      ensures Inbox(s'.history, v) ==
   Inbox(s.history, v) + if Reaches(s.Membership(), e, v) then [Carried(e)] else []
    {
      InboxSnoc(s.history, e, v);
    }
  }

  lemma NewEvents(s: State, a: Action, s': State) returns (evs: seq<Event>)
    requires Step(s, a, s')
    ensures s'.history == s.history + evs && StepEvents(s, a, evs, s'.names, s'.connected)
  {
    evs := s'.history[|s.history|..];
  }

  // ---------------------------------------------------------------- commands

  /** "/join c" and "/j c", with anything behind: a registered channel or a valid id gets the sender as a member,
      and the sender and all old members are told; anything else changes nothing. */
  lemma JoinEffect(s: State, u: UserId, msg: Message, s': State, word: string, sep: char, c: string, more: string)
    requires Step(s, Handle(u, msg), s') && msg.kind == Command
    requires word == "/join" || word == "/j"
    requires sep == ' ' || sep == '\t'
    requires forall i | 0 <= i < |c| :: c[i] != ' ' && c[i] != '\t'
    requires more == "" || more[0] == ' ' || more[0] == '\t'
    requires msg.content == word + [sep] + c + more
    ensures u < |s.names| && s'.names == s.names && s'.connected == s.connected
    ensures (exists v: UserId :: (v, c) in s.Membership()) || s.ValidId(c) ==>
              && s'.Membership() == s.Membership() + {(u, c)}
              && forall v: UserId ::
                   Inbox(s'.history, v) ==
                     Inbox(s.history, v) + if v == u || (v, c) in s.Membership()
                                         then [StatusMessage(c, s.names[u] + " joined #" + c + ".")] else []
    ensures !(exists v: UserId :: (v, c) in s.Membership()) && !s.ValidId(c) ==> s' == s
  {
    ArgumentOf(word, sep, c, more);
    var evs := NewEvents(s, Handle(u, msg), s');
    hide ParseCommand, Members, Inbox, State.ValidId;
    assert c in Registered(s.Membership()) <==> exists v: UserId :: (v, c) in s.Membership() by {
      if c in Registered(s.Membership()) {
        var p :| p in s.Membership() && p.1 == c;
        assert (p.0, c) in s.Membership();
      }
    }
    if c in Registered(s.Membership()) || s.ValidId(c) {
      OneEvent(s, Joined(u, c, s.names[u]), s');
    }
  }

  /** "/leave c": a member goes, and it and all other members are told; for anybody else nothing changes. */
  lemma LeaveEffect(s: State, u: UserId, msg: Message, s': State, sep: char, c: string, more: string)
    requires Step(s, Handle(u, msg), s') && msg.kind == Command
    requires sep == ' ' || sep == '\t'
    requires forall i | 0 <= i < |c| :: c[i] != ' ' && c[i] != '\t'
    requires more == "" || more[0] == ' ' || more[0] == '\t'
    requires msg.content == "/leave" + [sep] + c + more
    ensures u < |s.names| && s'.names == s.names && s'.connected == s.connected
    ensures (u, c) in s.Membership() ==>
              && s'.Membership() == s.Membership() - {(u, c)}
              && forall v: UserId ::
                   Inbox(s'.history, v) ==
                     Inbox(s.history, v) + if (v, c) in s.Membership()
                                         then [StatusMessage(c, s.names[u] + " left #" + c + ".")] else []
    ensures (u, c) !in s.Membership() ==> s' == s
  {
    ArgumentOf("/leave", sep, c, more);
    var evs := NewEvents(s, Handle(u, msg), s');
    hide ParseCommand, Members, Inbox;
    if (u, c) in s.Membership() {
      OneEvent(s, Left(u, c, s.names[u]), s');
    }
  }

  lemma OneAnswer(s: State, u: UserId, answer: Message, s': State)
    requires s'.history == s.history + [Told(u, answer)] && s'.names == s.names && s'.connected == s.connected
    ensures s'.Membership() == s.Membership()
    ensures forall v: UserId :: Inbox(s'.history, v) == Inbox(s.history, v) + if v == u then [answer] else []
  {
    OneEvent(s, Told(u, answer), s');
  }

  /** "/nick n" with an id that is not valid: one refusal to the sender, and nothing else. What a valid one does is
      `RenameConserves`. */
  lemma RefusedNickEffect(s: State, u: UserId, msg: Message, s': State, sep: char, n: string, more: string)
    requires Step(s, Handle(u, msg), s') && msg.kind == Command
    requires sep == ' ' || sep == '\t'
    requires forall i | 0 <= i < |n| :: n[i] != ' ' && n[i] != '\t'
    requires more == "" || more[0] == ' ' || more[0] == '\t'
    requires msg.content == "/nick" + [sep] + n + more && !s.ValidId(n)
    ensures u < |s.names| && s'.names == s.names && s'.connected == s.connected && s'.Membership() == s.Membership()
    ensures forall v: UserId ::
              Inbox(s'.history, v) ==
                Inbox(s.history, v) + if v == u then [StatusMessage(s.names[u], "Name is not valid.")] else []
  {
    ArgumentOf("/nick", sep, n, more);
    var evs := NewEvents(s, Handle(u, msg), s');
    hide ParseCommand, State.ValidId;
    OneAnswer(s, u, StatusMessage(s.names[u], "Name is not valid."), s');
  }

  /** One of the four words alone: one "Arguments empty." to the sender, and nothing else. */
  lemma NoArgumentEffect(s: State, u: UserId, msg: Message, s': State)
    requires Step(s, Handle(u, msg), s') && msg.kind == Command
    requires msg.content == "/join" || msg.content == "/j" || msg.content == "/leave" || msg.content == "/nick"
    ensures u < |s.names| && s'.names == s.names && s'.connected == s.connected && s'.Membership() == s.Membership()
    ensures forall v: UserId ::
              Inbox(s'.history, v) ==
                Inbox(s.history, v) + if v == u then [StatusMessage(s.names[u], "Arguments empty.")] else []
  {
    NoArgument(msg.content);
    var evs := NewEvents(s, Handle(u, msg), s');
    hide ParseCommand;
    OneAnswer(s, u, StatusMessage(s.names[u], "Arguments empty."), s');
  }

  /** Any other first word, whatever follows: one refusal to the sender, and nothing else. `FirstWord` splits every
      text so, so the lemmas on commands cover every command message. */
  lemma OtherWordEffect(s: State, u: UserId, msg: Message, s': State, word: string, rest: string)
    requires Step(s, Handle(u, msg), s') && msg.kind == Command
    requires forall i | 0 <= i < |word| :: word[i] != ' ' && word[i] != '\t'
    requires rest == "" || rest[0] == ' ' || rest[0] == '\t'
    requires msg.content == word + rest
    requires word != "/join" && word != "/j" && word != "/leave" && word != "/nick"
    ensures u < |s.names| && s'.names == s.names && s'.connected == s.connected && s'.Membership() == s.Membership()
    ensures forall v: UserId ::
              Inbox(s'.history, v) ==
                Inbox(s.history, v) + if v == u then [StatusMessage(s.names[u], " unknown command.")] else []
  {
    OtherWord(word, rest);
    var evs := NewEvents(s, Handle(u, msg), s');
    hide ParseCommand;
    OneAnswer(s, u, StatusMessage(s.names[u], " unknown command."), s');
  }

  /** Every message that is not a command, in each of its three cases: one text to every member of a channel the
      sender is in, or one text to the one connected user of that name, or one error to the sender. */
  lemma TextEffect(s: State, u: UserId, msg: Message, s': State)
    requires Safe(s) && Step(s, Handle(u, msg), s') && msg.kind != Command
    ensures u < |s.names| && s'.names == s.names && s'.connected == s.connected && s'.Membership() == s.Membership()
    ensures (u, msg.target) in s.Membership() ==>
              forall v: UserId ::
                Inbox(s'.history, v) ==
                  Inbox(s.history, v) + if (v, msg.target) in s.Membership()
                                      then [NewMessage(s.names[u], msg.target, msg.content, Text)] else []
    ensures (u, msg.target) !in s.Membership() ==>
              forall w: UserId | w in s.connected && w < |s.names| && s.names[w] == msg.target ::
                forall v: UserId ::
                  Inbox(s'.history, v) ==
                    Inbox(s.history, v) + if v == w then [NewMessage(s.names[u], msg.target, msg.content, Text)] else []
    ensures (u, msg.target) !in s.Membership()
            && (forall w: UserId | w in s.connected && w < |s.names| :: s.names[w] != msg.target) ==>
              forall v: UserId ::
                Inbox(s'.history, v) ==
                  Inbox(s.history, v)
                  + if v == u then [StatusMessage(s.names[u], "No channel or user with the name: " + msg.target)] else []
  {
    var evs := NewEvents(s, Handle(u, msg), s');
    hide Members, Inbox;
    OneEvent(s, evs[0], s');
  }

  // ---------------------------------------------------------------- other handlers

  /** A nickname is read: a new user, connected under a valid nickname and told "valid" and "ping"; under any other
      unconnected, with a blank name, and told so. Nobody else is told anything, and nobody moves. */
  lemma AcceptEffect(s: State, nick: string, s': State)
    requires Step(s, Accept(nick), s')
    ensures s'.Membership() == s.Membership()
    ensures forall v: UserId | v != |s.names| :: Inbox(s'.history, v) == Inbox(s.history, v)
    ensures s.ValidId(nick) ==>
              && s'.names == s.names + [nick] && s'.connected == s.connected + {|s.names|}
              && Inbox(s'.history, |s.names|)
              == Inbox(s.history, |s.names|) + [StatusMessage(nick, "valid"), StatusMessage(nick, "ping")]
    ensures !s.ValidId(nick) ==>
              && s'.names == s.names + ["                    "] && s'.connected == s.connected
              && Inbox(s'.history, |s.names|)
              == Inbox(s.history, |s.names|) + [StatusMessage("target", nick + " is not a valid name.")]
  {
    var u := |s.names|;
    var evs := NewEvents(s, Accept(nick), s');
    hide State.ValidId, Members, Inbox;
    if s.ValidId(nick) {
      var mid := s.(history := s.history + [evs[0]]);
      assert s'.history == mid.history + [evs[1]];
      OneEvent(s, evs[0], mid);
      OneEvent(mid, evs[1], s');
    } else {
      OneEvent(s, evs[0], s');
    }
  }

  /** An expiry that does not give up: one status message "ping" from the server to its user, and nothing else. */
  lemma PingEffect(s: State, u: UserId, s': State)
    requires Step(s, PingAgain(u), s')
    ensures u < |s.names| && s'.names == s.names && s'.connected == s.connected && s'.Membership() == s.Membership()
    ensures forall v: UserId ::
              Inbox(s'.history, v) == Inbox(s.history, v) + if v == u then [StatusMessage(s.names[u], "ping")] else []
  {
    var evs := NewEvents(s, PingAgain(u), s');
    OneAnswer(s, u, StatusMessage(s.names[u], "ping"), s');
  }

  lemma InternalEffect(s: State, s': State)
    requires Step(s, Internal, s')
    ensures s' == s
  {
    var evs := NewEvents(s, Internal, s');
  }

  /** The last of a block of leaves. */
  lemma LeaveLast(evs: seq<Event>, names: seq<string>, pairs: Membership)
    requires LeaveEvents(evs, names, pairs) && evs != []
    ensures var e := evs[|evs| - 1];
            && e.Left? && e.user < |names| && (e.user, e.channel) in pairs
            && Carried(e) == StatusMessage(e.channel, names[e.user] + " left #" + e.channel + ".")
            && LeaveEvents(evs[..|evs| - 1], names, pairs - {(e.user, e.channel)})
  {
  }

  lemma NoLeaveNotices(h: seq<Event>, names: seq<string>, pairs: Membership)
    requires LeaveEvents([], names, pairs)
    ensures pairs == {} && h + [] == h
  {
  }

  /** `after` is `before` and one notice that `name` left for each channel of `told`. */
  ghost predicate LeaveNotices(before: seq<Message>, after: seq<Message>, told: seq<string>, name: string) {
    && |after| == |before| + |told| && before <= after
    && forall i | 0 <= i < |told| :: after[|before| + i] == StatusMessage(told[i], name + " left #" + told[i] + ".")
  }

  lemma NoNotices(before: seq<Message>, name: string)
    ensures LeaveNotices(before, before, [], name)
  {
  }

  lemma OneMoreNotice(before: seq<Message>, mid: seq<Message>, earlier: seq<string>, c: string, name: string)
    requires LeaveNotices(before, mid, earlier, name)
    ensures LeaveNotices(before, mid + [StatusMessage(c, name + " left #" + c + ".")], earlier + [c], name)
  {
    hide StatusMessage;
  }

  /** A block of leaves of one user adds to the inbox of `v`, for the channels `told` in some order, each once,
      that the user left. */
  lemma {:induction false} LeaveInbox(h: seq<Event>, evs: seq<Event>, names: seq<string>, pairs: Membership, u: UserId,
                                      v: UserId) returns (told: seq<string>)
    requires LeaveEvents(evs, names, pairs) && pairs <= Members(h)
    requires u < |names| && forall p | p in pairs :: p.0 == u
    ensures ToldOnce(told, pairs, u, v, Members(h))
    ensures LeaveNotices(Inbox(h, v), Inbox(h + evs, v), told, names[u])
  {
    hide LeaveEvents, LeaveNotices, ToldOnce, Members, Inbox, Carried, StatusMessage;
    if evs == [] {
      NoLeaveNotices(h, names, pairs);
      NoNotices(Inbox(h, v), names[u]);
      NobodyTold(pairs, u, v, Members(h));
      told := [];
    } else {
      LeaveLast(evs, names, pairs);
      var e := evs[|evs| - 1];
      var init, rest := evs[..|evs| - 1], pairs - {(e.user, e.channel)};
      assert e.user == u by {
        assert (e.user, e.channel).0 == u;
      }
      var earlier := LeaveInbox(h, init, names, rest, u, v);
      LeaveMembers(h, init, names, rest);
      InboxSnoc(h + init, e, v);
      assert h + evs == h + init + [e];
      assert Inbox(h + init, v) + [] == Inbox(h + init, v);
      OneMoreNotice(Inbox(h, v), Inbox(h + init, v), earlier, e.channel, names[u]);
      told := ToldToo(Members(h), pairs, u, v, e.channel, earlier);
    }
  }

  /** `told` are the channels of the pairs of `u` that `v` is in too, each once. */
  ghost predicate ToldOnce(told: seq<string>, pairs: Membership, u: UserId, v: UserId, m: Membership) {
    && (forall i, j | 0 <= i < j < |told| :: told[i] != told[j])
    && forall c :: c in told <==> (u, c) in pairs && (v, c) in m
  }

  lemma NobodyTold(pairs: Membership, u: UserId, v: UserId, m: Membership)
    requires pairs == {}
    ensures ToldOnce([], pairs, u, v, m)
  {
  }

  /** The channels told when one more pair is left. */
  lemma ToldToo(m: Membership, pairs: Membership, u: UserId, v: UserId, c: string, earlier: seq<string>)
    returns (told: seq<string>)
    requires (u, c) in pairs && ToldOnce(earlier, pairs - {(u, c)}, u, v, m)
    ensures told == if (v, c) in m then earlier + [c] else earlier
    ensures ToldOnce(told, pairs, u, v, m)
  {
    assert c !in earlier;
    told := if (v, c) in m then earlier + [c] else earlier;
    assert forall d :: d in told <==> d in earlier || (d == c && (v, c) in m);
  }

  /** A user that times out or is stopped: every member of a channel, the user included, is told once for each
      channel shared with it, in some order. What becomes of the memberships is `LeavingIsExact`. */
  lemma StopEffect(s: State, a: Action, u: UserId, s': State, v: UserId) returns (told: seq<string>)
    requires Safe(s) && (a == Stop(u) || a == Timeout(u)) && Step(s, a, s') && u < |s.names|
    ensures s'.names == s.names && s'.connected == if a == Stop(u) then s.connected - {u} else s.connected
    ensures forall i, j | 0 <= i < j < |told| :: told[i] != told[j]
    ensures forall c :: c in told <==> (u, c) in s.Membership() && (v, c) in s.Membership()
    ensures |Inbox(s'.history, v)| == |Inbox(s.history, v)| + |told| && Inbox(s.history, v) <= Inbox(s'.history, v)
    ensures forall i | 0 <= i < |told| ::
              Inbox(s'.history, v)[|Inbox(s.history, v)| + i] ==
                StatusMessage(told[i], s.names[u] + " left #" + told[i] + ".")
  {
    var evs := NewEvents(s, a, s');
    hide Members, Inbox, LeaveEvents, Safe;
    told := LeaveInbox(s.history, evs, s.names, PairsOf(s.Membership(), {u}), u, v);
  }

  /** The message at `i`, sent by a block of leaves, names a pair of the block and goes to a member. */
  lemma {:induction false} LeaveText(h: seq<Event>, evs: seq<Event>, names: seq<string>, pairs: Membership, v: UserId,
                                     i: nat) returns (w: UserId, c: string)
    requires LeaveEvents(evs, names, pairs)
    requires |Inbox(h, v)| <= i < |Inbox(h + evs, v)|
    ensures (w, c) in pairs && (v, c) in Members(h) && w < |names|
    ensures Inbox(h + evs, v)[i] == StatusMessage(c, names[w] + " left #" + c + ".")
  {
    assert evs == [] ==> h + evs == h;
    var e := evs[|evs| - 1];
    var init, rest := evs[..|evs| - 1], pairs - {(e.user, e.channel)};
    LeaveMembers(h, init, names, rest);
    InboxSnoc(h + init, e, v);
    assert h + evs == h + init + [e];
    if i < |Inbox(h + init, v)| {
      w, c := LeaveText(h, init, names, rest, v, i);
    } else {
      w, c := e.user, e.channel;
    }
  }

  lemma {:induction false} InboxOnlyGrows(h: seq<Event>, evs: seq<Event>, v: UserId)
    ensures Inbox(h, v) <= Inbox(h + evs, v)
  {
    if evs == [] {
      assert h + evs == h;
    } else {
      var init := evs[..|evs| - 1];
      InboxOnlyGrows(h, init, v);
      InboxSnoc(h + init, evs[|evs| - 1], v);
      assert h + evs == h + init + [evs[|evs| - 1]];
    }
  }

  /** `stop_all` disconnects everybody, keeps all names, and sends nothing but notices that connected users left
      channels of the receiver: the new message at `i` says that `w` left `c`. */
  lemma StopAllEffect(s: State, s': State, v: UserId, i: nat) returns (w: UserId, c: string)
    requires Step(s, StopAll, s') && |Inbox(s.history, v)| <= i < |Inbox(s'.history, v)|
    ensures s'.names == s.names && s'.connected == {} && Inbox(s.history, v) <= Inbox(s'.history, v)
    ensures w in s.connected && w < |s.names| && (w, c) in s.Membership() && (v, c) in s.Membership()
    ensures Inbox(s'.history, v)[i] == StatusMessage(c, s.names[w] + " left #" + c + ".")
  {
    var evs := NewEvents(s, StopAll, s');
    hide Members, Inbox, LeaveEvents;
    InboxOnlyGrows(s.history, evs, v);
    w, c := LeaveText(s.history, evs, s.names, PairsOf(s.Membership(), s.connected), v, i);
  }

  // ---------------------------------------------------------------- names

  /** An id is valid exactly when it has at least three characters, the first an ASCII letter and all ASCII letters
      or digits, and no connected user and no channel has it. */
  lemma ValidIdIs(s: State, id: string)
    ensures s.ValidId(id) <==>
              && |id| >= 3
              && ('a' <= id[0] <= 'z' || 'A' <= id[0] <= 'Z')
              && (forall i | 0 <= i < |id| :: 'a' <= id[i] <= 'z' || 'A' <= id[i] <= 'Z' || '0' <= id[i] <= '9')
              && (forall v: UserId | v in s.connected && v < |s.names| :: s.names[v] != id)
              && (forall v: UserId :: (v, id) !in s.Membership())
  {
    if id in Registered(s.Membership()) {
      var p :| p in s.Membership() && p.1 == id;
      assert (p.0, id) in s.Membership();
    }
  }

  /** Name safety, spelled out: in every state of every run every connected name and every channel's name has at
      least three characters, the first an ASCII letter and all ASCII letters or digits; connected names are distinct
      and no channel's. */
  lemma NamesOfEveryRun(trace: seq<State>, actions: seq<Action>, i: nat)
    requires Run(trace, actions) && i < |trace|
    ensures var s := trace[i];
            && (forall v: UserId | v in s.connected ::
                  && v < |s.names| && |s.names[v]| >= 3
                  && ('a' <= s.names[v][0] <= 'z' || 'A' <= s.names[v][0] <= 'Z')
                  && forall k | 0 <= k < |s.names[v]| ::
                       'a' <= s.names[v][k] <= 'z' || 'A' <= s.names[v][k] <= 'Z' || '0' <= s.names[v][k] <= '9')
            && (forall w: UserId, c | (w, c) in s.Membership() ::
                  && |c| >= 3
                  && ('a' <= c[0] <= 'z' || 'A' <= c[0] <= 'Z')
                  && forall k | 0 <= k < |c| :: 'a' <= c[k] <= 'z' || 'A' <= c[k] <= 'Z' || '0' <= c[k] <= '9')
            && (forall v: UserId, w: UserId | v in s.connected && w in s.connected && s.names[v] == s.names[w] :: v == w)
            && (forall v: UserId, w: UserId | v in s.connected :: (w, s.names[v]) !in s.Membership())
  {
    RunIsSafe(trace, actions, i);
    forall w: UserId, c | (w, c) in trace[i].Membership()
      ensures c in Registered(trace[i].Membership())
    {
      assert (w, c).1 == c;
    }
  }
}
