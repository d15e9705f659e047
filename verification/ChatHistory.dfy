/** Facts about histories: how a block of events moves the membership and the inboxes, and the
    interval law of group delivery. */
module ChatHistory {
  import opened ChatSpec

  lemma SplitLast(h: seq<Event>, evs: seq<Event>)
    requires evs != []
    ensures (h + evs)[..|h + evs| - 1] == h + evs[..|evs| - 1]
    ensures (h + evs)[|h + evs| - 1] == evs[|evs| - 1]
  {
  }

  lemma StepOf(s: State, a: Action, s': State, evs: seq<Event>)
    requires s'.history == s.history + evs
    requires StepEvents(s, a, evs, s'.names, s'.connected)
    ensures Step(s, a, s')
  {
    assert s'.history[|s.history|..] == evs;
  }

  lemma TimeoutStep(s: State, u: UserId, s': State)
    requires s.history <= s'.history && s'.names == s.names && s'.connected == s.connected
    requires LeaveEvents(s'.history[|s.history|..], s.names, PairsOf(s.Membership(), {u}))
    ensures Step(s, Timeout(u), s')
  {
    hide LeaveEvents, PairsOf;
  }

  lemma PingStep(s: State, u: UserId, s': State)
    requires u < |s.names|
    requires s' == s.(history := s.history + [Told(u, Ping(s.names[u]))])
    ensures Step(s, PingAgain(u), s')
  {
    StepOf(s, PingAgain(u), s', [Told(u, Ping(s.names[u]))]);
  }

  lemma MembersSnoc(h: seq<Event>, e: Event)
    ensures Members(h + [e]) == Apply(Members(h), e)
  {
    assert (h + [e])[..|h|] == h;
  }

  lemma InboxSnoc(h: seq<Event>, e: Event, u: UserId)
    ensures Inbox(h + [e], u) == Inbox(h, u) + if Reaches(Members(h), e, u) then [Carried(e)] else []
  {
    assert (h + [e])[..|h|] == h;
  }

  /** Every event of `h` is about one of the first `n` users. */
  ghost predicate Known(h: seq<Event>, n: nat) {
    forall e | e in h && !e.Published? :: e.user < n
  }

  /** A user not constructed yet is in no channel and was sent nothing. */
  lemma {:induction false} UnknownIsUntouched(h: seq<Event>, n: nat)
    requires Known(h, n)
    ensures forall p | p in Members(h) :: p.0 < n
    ensures forall u: UserId | u >= n :: Inbox(h, u) == []
  {
    if h != [] {
      UnknownIsUntouched(h[..|h| - 1], n);
      assert h[|h| - 1] in h;
    }
  }

  /** A block of leaves removes exactly its pairs. */
  lemma {:induction false} LeaveMembers(h: seq<Event>, evs: seq<Event>, names: seq<string>, pairs: Membership)
    requires LeaveEvents(evs, names, pairs)
    ensures Members(h + evs) == Members(h) - pairs
  {
    if evs == [] {
      assert h + evs == h;
    } else {
      var e := evs[|evs| - 1];
      SplitLast(h, evs);
      LeaveMembers(h, evs[..|evs| - 1], names, pairs - {(e.user, e.channel)});
    }
  }

  /** Two blocks of leaves over disjoint pairs make one. */
  lemma {:induction false} LeaveEventsConcat(a: seq<Event>, b: seq<Event>, names: seq<string>,
                                             p: Membership, q: Membership)
    requires LeaveEvents(a, names, p) && LeaveEvents(b, names, q) && p !! q
    ensures LeaveEvents(a + b, names, p + q)
  {
    if b == [] {
      assert a + b == a;
      assert p + q == p;
    } else {
      var e := b[|b| - 1];
      var pair := (e.user, e.channel);
      SplitLast(a, b);
      LeaveEventsConcat(a, b[..|b| - 1], names, p, q - {pair});
      assert p + (q - {pair}) == p + q - {pair};
    }
  }

  lemma LeaveEventsSnoc(evs: seq<Event>, names: seq<string>, pairs: Membership, u: UserId, c: string)
    requires LeaveEvents(evs, names, pairs) && (u, c) !in pairs && u < |names|
    ensures LeaveEvents(evs + [Left(u, c, names[u])], names, pairs + {(u, c)})
  {
    var all := evs + [Left(u, c, names[u])];
    assert all[..|all| - 1] == evs;
    assert pairs + {(u, c)} - {(u, c)} == pairs;
  }

  /** `evs` are the leaves of the pairs `gone`: what the users of `users` had in `before` and have no more in `now`. */
  ghost predicate LeftBehind(before: Membership, now: Membership, users: set<UserId>, evs: seq<Event>,
                             names: seq<string>, gone: Membership) {
    && PairsOf(before, users) == gone + PairsOf(now, users) && gone !! PairsOf(now, users)
    && LeaveEvents(evs, names, gone)
  }

  lemma NothingLeftYet(m: Membership, users: set<UserId>, names: seq<string>)
    ensures LeftBehind(m, m, users, [], names, {})
  {
  }

  lemma NobodyIsLeft(before: Membership, now: Membership, users: set<UserId>, evs: seq<Event>,
                     names: seq<string>, gone: Membership)
    requires LeftBehind(before, now, users, evs, names, gone) && PairsOf(now, users) == {}
    ensures LeaveEvents(evs, names, PairsOf(before, users))
  {
    assert PairsOf(before, users) == gone;
  }

  lemma LeaveOnePair(before: Membership, now: Membership, users: set<UserId>, evs: seq<Event>,
                     names: seq<string>, gone: Membership, u: UserId, c: string)
    requires LeftBehind(before, now, users, evs, names, gone)
    requires (u, c) in now && u in users && u < |names|
    ensures LeftBehind(before, now - {(u, c)}, users, evs + [Left(u, c, names[u])], names, gone + {(u, c)})
  {
    assert PairsOf(now - {(u, c)}, users) == PairsOf(now, users) - {(u, c)};
    LeaveEventsSnoc(evs, names, gone, u, c);
  }

  /** `evs` are the leaves of all pairs that `users` had in `before`; `now` is what remains. */
  ghost predicate AllGone(before: Membership, now: Membership, users: set<UserId>, evs: seq<Event>, names: seq<string>) {
    LeaveEvents(evs, names, PairsOf(before, users)) && now == before - PairsOf(before, users)
  }

  /** One more user's leaves. */
  lemma OneMoreGone(s: State, evs: seq<Event>, more: seq<Event>, users: set<UserId>, u: UserId)
    requires AllGone(s.Membership(), Members(s.history + evs), users, evs, s.names) && u !in users
    requires LeaveEvents(more, s.names, PairsOf(Members(s.history + evs), {u}))
    ensures AllGone(s.Membership(), Members(s.history + (evs + more)), users + {u}, evs + more, s.names)
  {
    var m := s.Membership();
    assert PairsOf(Members(s.history + evs), {u}) == PairsOf(m, {u});
    assert PairsOf(m, users + {u}) == PairsOf(m, users) + PairsOf(m, {u});
    LeaveEventsConcat(evs, more, s.names, PairsOf(m, users), PairsOf(m, {u}));
    LeaveMembers(s.history, evs + more, s.names, PairsOf(m, users + {u}));
  }

  lemma StopAllStep(s: State, evs: seq<Event>)
    requires AllGone(s.Membership(), Members(s.history + evs), s.connected, evs, s.names)
    ensures Step(s, StopAll, s.(history := s.history + evs, connected := {}))
  {
    StepOf(s, StopAll, s.(history := s.history + evs, connected := {}), evs);
  }

  lemma NobodyGone(m: Membership, names: seq<string>)
    ensures AllGone(m, m, {}, [], names)
  {
    assert PairsOf(m, {}) == {};
  }

  lemma NoRenamesYet(before: string, after: string)
    ensures RenameEvents([], {}, before, after)
  {
  }

  lemma NoChannelsNoRenames(evs: seq<Event>, before: string, after: string)
    requires RenameEvents(evs, {}, before, after)
    ensures evs == []
  {
  }

  lemma RenameEventsSnoc(evs: seq<Event>, channels: set<string>, c: string, before: string, after: string)
    requires RenameEvents(evs, channels, before, after) && c !in channels
    ensures RenameEvents(evs + [Published(c, RenameNotice(c, before, after))], channels + {c}, before, after)
  {
    var all := evs + [Published(c, RenameNotice(c, before, after))];
    assert all[..|all| - 1] == evs;
    assert channels + {c} - {c} == channels;
  }

  /** A block of rename notices moves nobody. */
  lemma {:induction false} RenameMembers(h: seq<Event>, evs: seq<Event>, channels: set<string>, before: string, after: string)
    requires RenameEvents(evs, channels, before, after)
    ensures Members(h + evs) == Members(h)
  {
    if evs == [] {
      assert h + evs == h;
    } else {
      SplitLast(h, evs);
      RenameMembers(h, evs[..|evs| - 1], channels - {evs[|evs| - 1].channel}, before, after);
    }
  }

  // ---------------------------------------------------------------- ordered group delivery

  /** The positions in `h` of what user `u` was sent. */
  function Deliveries(h: seq<Event>, u: UserId): seq<nat> {
    if h == [] then []
    else
      var n := |h| - 1;
      Deliveries(h[..n], u) + if Reaches(Members(h[..n]), h[n], u) then [n] else []
  }

  lemma DeliveriesSnoc(h: seq<Event>, e: Event, u: UserId)
    ensures Deliveries(h + [e], u) == Deliveries(h, u) + if Reaches(Members(h), e, u) then [|h|] else []
  {
    assert (h + [e])[..|h|] == h;
  }

  /** The positions are strictly increasing and lie in the history. */
  lemma {:induction false} DeliveriesIncrease(h: seq<Event>, u: UserId)
    ensures forall k | k in Deliveries(h, u) :: k < |h|
    ensures forall i, j | 0 <= i < j < |Deliveries(h, u)| :: Deliveries(h, u)[i] < Deliveries(h, u)[j]
  {
    if h != [] {
      var n := |h| - 1;
      DeliveriesIncrease(h[..n], u);
      assert h == h[..n] + [h[n]];
      DeliveriesSnoc(h[..n], h[n], u);
      hide Deliveries, Reaches, Members;
      var before := Deliveries(h[..n], u);
      assert forall i | 0 <= i < |before| :: before[i] in before;
    }
  }

  /** They are exactly the positions that reach the user. */
  lemma {:induction false} DeliveriesAreExact(h: seq<Event>, u: UserId, k: nat)
    requires k < |h|
    ensures k in Deliveries(h, u) <==> Reaches(Members(h[..k]), h[k], u)
  {
    var n := |h| - 1;
    var before := h[..n];
    assert h == before + [h[n]];
    DeliveriesSnoc(before, h[n], u);
    DeliveriesIncrease(before, u);
    if k < n {
      DeliveriesAreExact(before, u, k);
      assert before[..k] == h[..k];
    }
    hide Deliveries, Reaches, Members;
  }

  lemma {:induction false} InboxAtDeliveries(h: seq<Event>, u: UserId)
    ensures |Inbox(h, u)| == |Deliveries(h, u)|
    ensures forall i | 0 <= i < |Deliveries(h, u)| ::
              Deliveries(h, u)[i] < |h| && Inbox(h, u)[i] == Carried(h[Deliveries(h, u)[i]])
  {
    if h != [] {
      var n := |h| - 1;
      InboxAtDeliveries(h[..n], u);
      assert h == h[..n] + [h[n]];
      DeliveriesSnoc(h[..n], h[n], u);
      InboxSnoc(h[..n], h[n], u);
      hide Inbox, Deliveries, Reaches, Members, Carried;
    }
  }

  /** An inbox is the history read at strictly increasing positions: exactly those that reach the user. */
  lemma InboxIsSubsequence(h: seq<Event>, u: UserId)
    ensures |Inbox(h, u)| == |Deliveries(h, u)|
    ensures forall i | 0 <= i < |Deliveries(h, u)| ::
              Deliveries(h, u)[i] < |h| && Inbox(h, u)[i] == Carried(h[Deliveries(h, u)[i]])
    ensures forall i, j | 0 <= i < j < |Deliveries(h, u)| :: Deliveries(h, u)[i] < Deliveries(h, u)[j]
    ensures forall k | 0 <= k < |h| :: k in Deliveries(h, u) <==> Reaches(Members(h[..k]), h[k], u)
  {
    hide Inbox, Deliveries, Reaches, Members, Carried;
    InboxAtDeliveries(h, u);
    DeliveriesIncrease(h, u);
    forall k | 0 <= k < |h|
      ensures k in Deliveries(h, u) <==> Reaches(Members(h[..k]), h[k], u)
    {
      DeliveriesAreExact(h, u, k);
    }
  }

  /** Total order: two events that both reach `u` and `v` stand in the same order in both inboxes. */
  lemma SameRelativeOrder(h: seq<Event>, u: UserId, v: UserId, i: nat, i': nat, j: nat, j': nat)
    requires i < |Deliveries(h, u)| && i' < |Deliveries(h, u)|
    requires j < |Deliveries(h, v)| && j' < |Deliveries(h, v)|
    requires Deliveries(h, u)[i] == Deliveries(h, v)[j]
    requires Deliveries(h, u)[i'] == Deliveries(h, v)[j']
    ensures i < |Inbox(h, u)| && i' < |Inbox(h, u)| && j < |Inbox(h, v)| && j' < |Inbox(h, v)|
    ensures Inbox(h, u)[i] == Inbox(h, v)[j] && Inbox(h, u)[i'] == Inbox(h, v)[j']
    ensures i < i' <==> j < j'
  {
    InboxIsSubsequence(h, u);
    InboxIsSubsequence(h, v);
    assert i < i' <==> Deliveries(h, u)[i] < Deliveries(h, u)[i'];
    assert j < j' <==> Deliveries(h, v)[j] < Deliveries(h, v)[j'];
  }

  predicate JoinedAt(h: seq<Event>, i: nat, u: UserId, c: string)
    requires i < |h|
  {
    h[i].Joined? && h[i].user == u && h[i].channel == c
  }

  predicate LeftAt(h: seq<Event>, i: nat, u: UserId, c: string)
    requires i < |h|
  {
    h[i].Left? && h[i].user == u && h[i].channel == c
  }

  /** `u` joined `c` at `i` and did not leave it at any position strictly between `i` and `k`. */
  ghost predicate StaysSince(h: seq<Event>, i: nat, k: nat, u: UserId, c: string)
    requires k <= |h|
  {
    i < |h| && JoinedAt(h, i, u, c) && forall j | i < j < k :: !LeftAt(h, j, u, c)
  }

  /** Membership read off the history without recursion: joined, and not left since. */
  lemma {:induction false} MembershipInterval(h: seq<Event>, k: nat, u: UserId, c: string)
    requires k <= |h|
    ensures (u, c) in Members(h[..k]) <==> exists i | 0 <= i < k :: StaysSince(h, i, k, u, c)
  {
    if k == 0 {
      assert h[..k] == [];
    } else {
      var e := h[k - 1];
      assert h[..k] == h[..k - 1] + [e];
      MembersSnoc(h[..k - 1], e);
      MembershipInterval(h, k - 1, u, c);
      if (u, c) in Members(h[..k]) {
        if JoinedAt(h, k - 1, u, c) {
          assert StaysSince(h, k - 1, k, u, c);
        } else {
          var i :| 0 <= i < k - 1 && StaysSince(h, i, k - 1, u, c);
          assert StaysSince(h, i, k, u, c);
        }
      }
      if i :| 0 <= i < k && StaysSince(h, i, k, u, c) {
        if i < k - 1 {
          assert !LeftAt(h, k - 1, u, c);
          assert StaysSince(h, i, k - 1, u, c);
        }
      }
    }
  }

  predicate OnChannel(e: Event, c: string) {
    !e.Told? && e.channel == c
  }

  /** A user is sent the publish at position `k` of channel `c` exactly when `k` lies in one of its stays:
      from its own "joined" notice, included, to its own next "left" notice, included. */
  lemma DeliveryInterval(h: seq<Event>, k: nat, u: UserId, c: string)
    requires k < |h| && OnChannel(h[k], c)
    ensures k in Deliveries(h, u) <==> exists i | 0 <= i <= k :: StaysSince(h, i, k, u, c)
  {
    InboxIsSubsequence(h, u);
    MembershipInterval(h, k, u, c);
    if JoinedAt(h, k, u, c) {
      assert StaysSince(h, k, k, u, c);
    }
  }

  /** Leaves are only recorded for members. */
  ghost predicate Sound(h: seq<Event>) {
    forall k | 0 <= k < |h| && h[k].Left? :: (h[k].user, h[k].channel) in Members(h[..k])
  }

  lemma SoundSnoc(h: seq<Event>, e: Event)
    requires Sound(h)
    requires e.Left? ==> (e.user, e.channel) in Members(h)
    ensures Sound(h + [e])
  {
    var all := h + [e];
    forall k | 0 <= k < |all| && all[k].Left?
      ensures (all[k].user, all[k].channel) in Members(all[..k])
    {
      if k < |h| {
        assert all[..k] == h[..k];
      } else {
        assert all[..k] == h;
      }
    }
  }

  lemma {:induction false} LeaveSound(h: seq<Event>, evs: seq<Event>, names: seq<string>, pairs: Membership)
    requires Sound(h) && LeaveEvents(evs, names, pairs) && pairs <= Members(h)
    ensures Sound(h + evs)
  {
    if evs == [] {
      assert h + evs == h;
    } else {
      var e := evs[|evs| - 1];
      var rest := pairs - {(e.user, e.channel)};
      SplitLast(h, evs);
      LeaveSound(h, evs[..|evs| - 1], names, rest);
      LeaveMembers(h, evs[..|evs| - 1], names, rest);
      SoundSnoc(h + evs[..|evs| - 1], e);
      assert h + evs == h + evs[..|evs| - 1] + [e];
    }
  }

  lemma {:induction false} RenameSound(h: seq<Event>, evs: seq<Event>, channels: set<string>, before: string, after: string)
    requires Sound(h) && RenameEvents(evs, channels, before, after)
    ensures Sound(h + evs)
  {
    if evs == [] {
      assert h + evs == h;
    } else {
      var e := evs[|evs| - 1];
      RenameSound(h, evs[..|evs| - 1], channels - {e.channel}, before, after);
      SoundSnoc(h + evs[..|evs| - 1], e);
      assert h + evs == h + evs[..|evs| - 1] + [e];
    }
  }

  /** In a sound history a stay is heard whole: the user's own "left" notice at `k` reaches it, every publish
      of the channel since its own "joined" notice at `i` reached it too, and that notice is the first of them. */
  lemma StayIsHeardWhole(h: seq<Event>, k: nat, u: UserId, c: string)
    requires k < |h| && Sound(h) && LeftAt(h, k, u, c)
    ensures k in Deliveries(h, u)
    ensures exists i | 0 <= i < k :: StaysSince(h, i, k, u, c) && i in Deliveries(h, u)
              && forall j | i <= j <= k && OnChannel(h[j], c) :: j in Deliveries(h, u)
  {
    MembershipInterval(h, k, u, c);
    var i :| 0 <= i < k && StaysSince(h, i, k, u, c);
    forall j | i <= j <= k && OnChannel(h[j], c)
      ensures j in Deliveries(h, u)
    {
      assert StaysSince(h, i, j, u, c);
      DeliveryInterval(h, j, u, c);
    }
  }

  /** Between two stays nothing of the channel is heard: after its own "left" notice at `k`, the next publish
      of the channel that reaches the user is its own "joined" notice. */
  lemma SilenceBetweenStays(h: seq<Event>, k: nat, next: nat, u: UserId, c: string)
    requires k < next < |h| && LeftAt(h, k, u, c)
    requires OnChannel(h[next], c) && next in Deliveries(h, u)
    requires forall j | k < j < next && OnChannel(h[j], c) :: j !in Deliveries(h, u)
    ensures JoinedAt(h, next, u, c)
  {
    DeliveryInterval(h, next, u, c);
    var i :| 0 <= i <= next && StaysSince(h, i, next, u, c);
    if k < i < next {
      assert StaysSince(h, i, i, u, c);
      DeliveryInterval(h, i, u, c);
    }
  }
}
