/** A client and the server together: what the client posts travels byte by byte to the reader of its user, and
    what this decodes goes to the server's handlers, while anything else happens on both sides. */
module Sessions {
  import opened Wrappers
  import opened Messages
  import opened ChatSpec
  import opened Handlers
  import opened HandlerRuns
  import opened Framing
  import opened ChatServer
  import opened IoLoop
  import CS = ClientStream

  /** Something happens to the client's stream at the time `at`, when a ping expiry of its user may be queued
      already; or a handler of the server runs. */
  datatype Moment = Stream(event: CS.Happening, at: int, expiryQueued: bool) | Serve(handler: Handler)

  /** The stream's part of a script. */
  function StreamOf(script: seq<Moment>): seq<CS.Happening> {
    if script == [] then []
    else
      var m := script[|script| - 1];
      StreamOf(script[..|script| - 1]) + if m.Stream? then [m.event] else []
  }

  /** The messages of user `u` that were handed to `handle_message`, in order. */
  function HandedOver(actions: seq<Action>, u: UserId): seq<Message> {
    if actions == [] then []
    else
      var a := actions[|actions| - 1];
      HandedOver(actions[..|actions| - 1], u) + if a.Handle? && a.user == u then [a.msg] else []
  }

  /** Pongs are kept by the reader itself. */
  function WithoutPongs(msgs: seq<Message>): seq<Message> {
    if msgs == [] then []
    else (if IsPong(msgs[0]) then [] else [msgs[0]]) + WithoutPongs(msgs[1..])
  }

  lemma {:induction false} WithoutPongsConcat(a: seq<Message>, b: seq<Message>)
    ensures WithoutPongs(a + b) == WithoutPongs(a) + WithoutPongs(b)
  {
    if a == [] {
      assert a + b == b;
    } else {
      var first := if IsPong(a[0]) then [] else [a[0]];
      assert (a + b)[0] == a[0] && (a + b)[1..] == a[1..] + b;
      assert WithoutPongs(a + b) == first + WithoutPongs(a[1..] + b) && WithoutPongs(a) == first + WithoutPongs(a[1..]);
      WithoutPongsConcat(a[1..], b);
      hide WithoutPongs;
      assert first + (WithoutPongs(a[1..]) + WithoutPongs(b)) == first + WithoutPongs(a[1..]) + WithoutPongs(b);
    }
  }

  lemma {:induction false} DecodedConcat(a: seq<ReadEvent>, b: seq<ReadEvent>, decode: string -> Option<Message>)
    ensures Decoded(a + b, decode) == Decoded(a, decode) + Decoded(b, decode)
  {
    if a == [] {
      assert a + b == b;
    } else {
      var first := if a[0].Body? && decode(a[0].data).Some? then [decode(a[0].data).value] else [];
      assert (a + b)[0] == a[0] && (a + b)[1..] == a[1..] + b;
      assert Decoded(a + b, decode) == first + Decoded(a[1..] + b, decode);
      assert Decoded(a, decode) == first + Decoded(a[1..], decode);
      DecodedConcat(a[1..], b, decode);
      hide Decoded;
      assert first + (Decoded(a[1..], decode) + Decoded(b, decode)) == first + Decoded(a[1..], decode) + Decoded(b, decode);
    }
  }

  /** What the events of the reader hand over. */
  function Meant(events: seq<ReadEvent>, decode: string -> Option<Message>): seq<Message> {
    WithoutPongs(Decoded(events, decode))
  }

  lemma MeantSnoc(events: seq<ReadEvent>, e: ReadEvent, decode: string -> Option<Message>)
    ensures Meant(events + [e], decode)
         == Meant(events, decode) + if e.Body? && decode(e.data).Some? && !IsPong(decode(e.data).value)
                                    then [decode(e.data).value] else []
  {
    DecodedConcat(events, [e], decode);
    WithoutPongsConcat(Decoded(events, decode), Decoded([e], decode));
    if e.Body? && decode(e.data).Some? {
      assert Decoded([e], decode) == [decode(e.data).value];
    }
  }

  /** The handler an event of the reader of user `u` runs. */
  function HandlerOf(e: ReadEvent, u: UserId, decode: string -> Option<Message>, at: int, expiryQueued: bool): Handler {
    match e
    case Body(data) => BodyRead(u, decode(data), at)
    case BadHeader => ReadFailed(u, expiryQueued)
  }

  /** What an action hands over for user `u`. */
  function HandedBy(a: Action, u: UserId): seq<Message> {
    if a.Handle? && a.user == u then [a.msg] else []
  }

  lemma EventHandsOver(events: seq<ReadEvent>, e: ReadEvent, u: UserId, decode: string -> Option<Message>, at: int,
                       expiryQueued: bool, devices: seq<Device>)
    requires u < |devices|
    ensures Meant(events + [e], decode)
         == Meant(events, decode) + HandedBy(ActionOf(devices, HandlerOf(e, u, decode, at, expiryQueued)), u)
  {
    MeantSnoc(events, e, decode);
    hide Meant;
  }

  /** The run `r` ends in `s` and `devices` and handed over exactly what `events` mean for user `u`. */
  ghost predicate Served(r: ServerRun, s: State, devices: seq<Device>, u: UserId, events: seq<ReadEvent>,
                         decode: string -> Option<Message>)
  {
    && r.Legal()
    && r.states[|r.handlers|] == s && r.devices[|r.handlers|] == devices
    && HandedOver(Actions(r.devices, r.handlers), u) == Meant(events, decode)
  }

  ghost function Longer(r: ServerRun, h: Handler, s: State, devices: seq<Device>): ServerRun {
    ServerRun(r.states + [s], r.devices + [devices], r.handlers + [h])
  }

  /** One more handler. */
  lemma ServedOn(r: ServerRun, u: UserId, events: seq<ReadEvent>, decode: string -> Option<Message>, h: Handler,
                 s: State, devices: seq<Device>, s': State, devices': seq<Device>, events': seq<ReadEvent>)
    requires Served(r, s, devices, u, events, decode) && HandlerStep(s, devices, h, s', devices')
    requires Meant(events', decode) == Meant(events, decode) + HandedBy(ActionOf(devices, h), u)
    ensures Served(Longer(r, h, s', devices'), s', devices', u, events', decode)
    ensures |devices'| >= |devices|
  {
    hide HandlerStep, ActionOf, Meant, HandedBy, HandedOver, Actions;
    DevicesStay(s, devices, h, s', devices');
    LegalSnoc(r, h, s', devices');
    OneMoreAction(r, h, devices', u);
  }

  lemma OneMoreAction(r: ServerRun, h: Handler, devices': seq<Device>, u: UserId)
    requires r.Shaped()
    ensures HandedOver(Actions(r.devices + [devices'], r.handlers + [h]), u)
         == HandedOver(Actions(r.devices, r.handlers), u) + HandedBy(ActionOf(r.devices[|r.handlers|], h), u)
  {
    hide ActionOf;
    var before, after := Actions(r.devices, r.handlers), Actions(r.devices + [devices'], r.handlers + [h]);
    assert after == before + [ActionOf(r.devices[|r.handlers|], h)];
    assert after[..|after| - 1] == before;
  }

  lemma DevicesStay(s: State, devices: seq<Device>, h: Handler, s': State, devices': seq<Device>)
    requires HandlerStep(s, devices, h, s', devices')
    ensures |devices'| >= |devices|
  {
  }

  /** The server runs a handler that means `events'` after `events`. */
  method ServeOne(server: ChatServer, ghost r: ServerRun, ghost u: UserId, h: Handler, ghost events: seq<ReadEvent>,
                  ghost events': seq<ReadEvent>, ghost decode: string -> Option<Message>) returns (ghost r': ServerRun)
    requires server.Valid() && Served(r, server.model, server.devices, u, events, decode)
    requires Meant(events', decode) == Meant(events, decode) + HandedBy(ActionOf(server.devices, h), u)
    modifies server.Repr()
    ensures server.Valid() && fresh(server.Repr() - old(server.Repr())) && |server.devices| >= |old(server.devices)|
    ensures Served(r', server.model, server.devices, u, events', decode)
  {
    hide ChatServer.Linked, HandlerStep, ActionOf, Meant, Served;
    RunOne(server, h);
    r' := Longer(r, h, server.model, server.devices);
    ServedOn(r, u, events, decode, h, old(server.model), old(server.devices), server.model, server.devices, events');
  }

  /** The reader's new events, from `done` on, are handed to the server one by one. */
  method ServeEvents(server: ChatServer, ghost r: ServerRun, u: UserId, events: seq<ReadEvent>, done: nat,
                     decode: string -> Option<Message>, at: int, expiryQueued: bool) returns (ghost r': ServerRun)
    requires server.Valid() && done <= |events| && u < |server.devices|
    requires Served(r, server.model, server.devices, u, events[..done], decode)
    modifies server.Repr()
    ensures server.Valid() && fresh(server.Repr() - old(server.Repr()))
    ensures Served(r', server.model, server.devices, u, events, decode)
  {
    hide ChatServer.Linked, ActionOf, Meant, Served;
    r' := r;
    for i := done to |events|
      invariant server.Valid() && fresh(server.Repr() - old(server.Repr())) && u < |server.devices|
      invariant Served(r', server.model, server.devices, u, events[..i], decode)
    {
      assert events[..i + 1] == events[..i] + [events[i]];
      EventHandsOver(events[..i], events[i], u, decode, at, expiryQueued, server.devices);
      r' := ServeOne(server, r', u, HandlerOf(events[i], u, decode, at, expiryQueued), events[..i], events[..i + 1], decode);
    }
    assert events[..|events|] == events;
  }

  /** The messages posted, each encoded as the payloads of the script. */
  ghost predicate Carries(script: seq<Moment>, messages: seq<Message>, encode: Message -> string,
                          decode: string -> Option<Message>)
  {
    && CS.PostedBy(StreamOf(script)) == Encoded(messages, encode)
    && forall m | m in messages :: Fits(encode(m)) && decode(encode(m)) == Some(m)
  }

  lemma MeantOfPart(events: seq<ReadEvent>, messages: seq<Message>, encode: Message -> string,
                    decode: string -> Option<Message>)
    requires forall m | m in messages :: Fits(encode(m)) && decode(encode(m)) == Some(m)
    requires events <= Bodies(Encoded(messages, encode))
    ensures Meant(events, decode) <= WithoutPongs(messages)
    ensures events == Bodies(Encoded(messages, encode)) ==> Meant(events, decode) == WithoutPongs(messages)
  {
    var all := Bodies(Encoded(messages, encode));
    DecodedBodies(Encoded(messages, encode), decode);
    EncodedAreDecodable(messages, encode, decode);
    assert all == events + all[|events|..];
    DecodedConcat(events, all[|events|..], decode);
    WithoutPongsConcat(Decoded(events, decode), Decoded(all[|events|..], decode));
  }

  lemma NothingServed(u: UserId, decode: string -> Option<Message>)
    ensures Served(ServerRun([START], [[]], []), START, [], u, [], decode)
  {
  }

  /** What was served so far is the beginning of what was posted, or all of it. */
  lemma ServedIsPosted(r: ServerRun, s: State, devices: seq<Device>, u: UserId, events: seq<ReadEvent>,
                       script: seq<Moment>, decode: string -> Option<Message>)
    requires Served(r, s, devices, u, events, decode)
    requires events <= Bodies(CS.PostedBy(StreamOf(script)))
    ensures forall messages, encode | Carries(script, messages, encode, decode) ::
              var handled := HandedOver(Actions(r.devices, r.handlers), u);
              && handled <= WithoutPongs(messages)
              && (events == Bodies(CS.PostedBy(StreamOf(script))) ==> handled == WithoutPongs(messages))
  {
    assert r.Shaped();
    hide Meant, HandedOver, Bodies, ServerRun.Legal, Actions;
    forall messages, encode | Carries(script, messages, encode, decode)
      ensures var handled := HandedOver(Actions(r.devices, r.handlers), u);
              && handled <= WithoutPongs(messages)
              && (events == Bodies(CS.PostedBy(StreamOf(script))) ==> handled == WithoutPongs(messages))
    {
      MeantOfPart(events, messages, encode, decode);
    }
  }

  /** End to end, objects to objects: whatever the script interleaves, the messages of user `u` that the server
      handles are the beginning of those its client posted, pongs aside, and all of them once nothing is left to
      write or to receive. Bodies of this user come from its reader only, and nothing is read before it exists. */
  method Session(server: ChatServer, client: CS.ChatClient, reader: FrameReader, u: UserId, script: seq<Moment>,
                 decode: string -> Option<Message>) returns (ghost r: ServerRun)
    requires server.Valid() && server.model == START && server.devices == []
    requires client.Valid() && client.Outbound() == CS.WQ.Empty() && client.wire == ""
    requires reader.Valid() && reader.received == "" && reader.events == []
    requires forall m | m in script && m.Serve? && m.handler.BodyRead? :: m.handler.user != u
    modifies server.Repr(), client, client.buffers, reader
    ensures server.Valid() && client.Valid() && r.Legal()
    ensures r.states[|r.handlers|] == server.model && r.devices[|r.handlers|] == server.devices
    ensures forall messages, encode | Carries(script, messages, encode, decode) ::
              var handled := HandedOver(Actions(r.devices, r.handlers), u);
              && handled <= WithoutPongs(messages)
              && (client.posted == [] && client.writeMsgs == [] && |reader.received| == |client.wire| ==>
                    handled == WithoutPongs(messages))
  {
    hide ChatServer.Linked, CS.ChatClient.Valid, FrameReader.Valid, Served, HandedOver, Bodies, Carries;
    r := Play(server, client, reader, u, script, decode);
    client.ReaderSeesWhatWasPosted(reader);
    ServedIsPosted(r, server.model, server.devices, u, reader.events, script, decode);
    EndsIn(r, server.model, server.devices, u, reader.events, decode);
  }

  /** Plays the script, moment by moment. */
  method Play(server: ChatServer, client: CS.ChatClient, reader: FrameReader, u: UserId, script: seq<Moment>,
              decode: string -> Option<Message>) returns (ghost r: ServerRun)
    requires server.Valid() && server.model == START && server.devices == []
    requires client.Valid() && client.Outbound() == CS.WQ.Empty() && client.wire == ""
    requires reader.Valid() && reader.received == "" && reader.events == []
    requires forall m | m in script && m.Serve? && m.handler.BodyRead? :: m.handler.user != u
    modifies server.Repr(), client, client.buffers, reader
    ensures server.Valid() && client.Valid() && reader.Valid() && reader.received <= client.wire
    ensures Served(r, server.model, server.devices, u, reader.events, decode)
    ensures client.Outbound().All() == CS.PostedBy(StreamOf(script))
  {
    hide ChatServer.Linked, CS.ChatClient.Valid, FrameReader.Valid, Served, StreamOf, CS.PostedBy;
    NothingPosted();
    r := ServerRun([START], [[]], []);
    NothingServed(u, decode);
    var at := 0;
    for i := 0 to |script|
      invariant server.Valid() && fresh(server.Repr() - old(server.Repr()))
      invariant Served(r, server.model, server.devices, u, reader.events, decode)
      invariant client.Valid() && reader.Valid() && reader.received <= client.wire && at == |reader.received|
      invariant client.Outbound().All() == CS.PostedBy(StreamOf(script[..i]))
    {
      r, at := OneMoment(server, client, reader, u, script[i], decode, r, at);
      PostedSoFar(script, i);
    }
    assert script[..|script|] == script;
  }

  lemma NothingPosted()
    ensures CS.PostedBy(StreamOf([])) == []
  {
  }

  lemma EndsIn(r: ServerRun, s: State, devices: seq<Device>, u: UserId, events: seq<ReadEvent>,
               decode: string -> Option<Message>)
    requires Served(r, s, devices, u, events, decode)
    ensures r.Legal() && r.states[|r.handlers|] == s && r.devices[|r.handlers|] == devices
  {
  }

  lemma PostedSoFar(script: seq<Moment>, i: nat)
    requires i < |script|
    ensures CS.PostedBy(StreamOf(script[..i + 1]))
         == CS.PostedBy(StreamOf(script[..i]))
            + if script[i].Stream? && script[i].event.Post? then [script[i].event.payload] else []
  {
    var before, after := StreamOf(script[..i]), StreamOf(script[..i + 1]);
    assert script[..i + 1][..i] == script[..i];
    if script[i].Stream? {
      assert after == before + [script[i].event];
      assert after[..|before|] == before;
    } else {
      assert after == before;
    }
  }

  method OneMoment(server: ChatServer, client: CS.ChatClient, reader: FrameReader, u: UserId, m: Moment,
                   decode: string -> Option<Message>, ghost r: ServerRun, at: nat) returns (ghost r': ServerRun, at': nat)
    requires server.Valid() && Served(r, server.model, server.devices, u, reader.events, decode)
    requires client.Valid() && reader.Valid() && reader.received <= client.wire && at == |reader.received|
    requires m.Serve? && m.handler.BodyRead? ==> m.handler.user != u
    modifies server.Repr(), client, client.buffers, reader
    ensures server.Valid() && fresh(server.Repr() - old(server.Repr()))
    ensures Served(r', server.model, server.devices, u, reader.events, decode)
    ensures client.Valid() && reader.Valid() && reader.received <= client.wire && at' == |reader.received|
    ensures client.Outbound().All()
         == old(client.Outbound().All()) + if m.Stream? && m.event.Post? then [m.event.payload] else []
  {
    hide ChatServer.Linked, ActionOf, Meant, Served, CS.ChatClient.Valid, FrameReader.Valid;
    r', at' := r, at;
    match m
    case Serve(h) =>
      OthersHandOverNothing(server.devices, h, u, reader.events, decode);
      r' := ServeOne(server, r, u, h, reader.events, reader.events, decode);
    case Stream(event, time, queued) =>
      server.IdentitiesKnown();
      if event.Arrival? {
        if u < |server.userAt| {
          ghost var before := reader.events;
          var done := |reader.events|;
          at' := CS.OneHappening(client, reader, at, event);
          assert reader.events[..done] == before;
          r' := ServeEvents(server, r, u, reader.events, done, decode, time, queued);
        }
      } else {
        at' := CS.OneHappening(client, reader, at, event);
      }
  }

  lemma OthersHandOverNothing(devices: seq<Device>, h: Handler, u: UserId, events: seq<ReadEvent>,
                              decode: string -> Option<Message>)
    requires h.BodyRead? ==> h.user != u
    ensures Meant(events, decode) == Meant(events, decode) + HandedBy(ActionOf(devices, h), u)
  {
    hide Meant;
  }
}
