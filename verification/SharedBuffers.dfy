/** The server's writing half, byte by byte: all users lay their frames out in the same two static strings, so a
    frame that is still being written may be overwritten by another user's. Exactly when the bytes are right
    (common/source/chat_message.cpp, server/source/chat_user.cpp). */
module SharedBuffers {
  import opened Wrappers
  import opened Framing

  /** The static strings of `generate_buffers`. */
  datatype Statics = Statics(header: string, data: string)
  {
    function Bytes(): string {
      header + data
    }

    /** Laying out a message that is not cached; one too long for the header replaces the data all the same. */
    function Lay(payload: string): Statics {
      Statics(if Fits(payload) then Header(|payload|) else header, payload)
    }
  }

  /** The next `k` bytes a write takes; nothing defined beyond the end of the strings. */
  function Take(s: Statics, from: nat, k: nat): Option<string> {
    if k == 0 then Some("")
    else if from + k <= |s.Bytes()| then Some(s.Bytes()[from..from + k])
    else None
  }

  /** One message being written, and the messages other users lay out before its write completes. */
  datatype Flight = Flight(payload: string, others: seq<string>)

  function Sum(ks: seq<nat>): nat {
    if ks == [] then 0 else ks[0] + Sum(ks[1..])
  }

  /** How many bytes the write takes before, between and after the other layouts: all of its buffers in the end. */
  predicate Schedule(f: Flight, ks: seq<nat>) {
    |ks| == |f.others| + 1 && Sum(ks) == |Frame(f.payload)|
  }

  /** What a write puts on its user's wire from position `from` on. */
  function Taken(s: Statics, others: seq<string>, ks: seq<nat>, from: nat): Option<string>
    requires |ks| == |others| + 1
    decreases |others|
  {
    match Take(s, from, ks[0])
    case None => None
    case Some(bytes) =>
      if others == [] then Some(bytes)
      else
        match Taken(s.Lay(others[0]), others[1..], ks[1..], from + ks[0])
        case None => None
        case Some(more) => Some(bytes + more)
  }

  /** The same for a whole flight; before it the strings held anything. */
  function Sent(before: Statics, f: Flight, ks: seq<nat>): Option<string>
    requires |ks| == |f.others| + 1
  {
    Taken(before.Lay(f.payload), f.others, ks, 0)
  }

  /** What another layout may be without harm: the same message, or one too long for the header that goes on
      from this one. */
  predicate Harmless(payload: string, other: string) {
    payload <= other && (Fits(other) ==> other == payload)
  }

  /** What can be said of a flight before it is scheduled. A message too long for the header sends nothing. */
  predicate Undisturbed(f: Flight) {
    Fits(f.payload) ==> forall other | other in f.others :: Harmless(f.payload, other)
  }

  /** The strings read as the frame of `payload` where its write looks. */
  predicate Holds(s: Statics, payload: string) {
    s.header == Header(|payload|) && payload <= s.data
  }

  lemma HoldsFrame(s: Statics, payload: string)
    requires Fits(payload) && Holds(s, payload)
    ensures Frame(payload) <= s.Bytes()
  {
    HeaderFits(|payload|);
    assert s.Bytes()[..|Frame(payload)|] == Frame(payload);
  }

  lemma TakePrefix(s: Statics, frame: string, from: nat, k: nat)
    requires frame <= s.Bytes() && from + k <= |frame|
    ensures Take(s, from, k) == Some(frame[from..from + k])
  {
    assert frame == s.Bytes()[..|frame|];
    if k == 0 {
      assert frame[from..from + k] == "";
    } else {
      assert frame[from..from + k] == s.Bytes()[from..from + k];
    }
  }

  lemma HarmlessKeeps(s: Statics, payload: string, other: string)
    requires Holds(s, payload) && Harmless(payload, other)
    ensures Holds(s.Lay(other), payload)
  {
  }

  /** Harmless layouts leave every schedule right. */
  lemma {:induction false} AllTaken(s: Statics, payload: string, others: seq<string>, ks: seq<nat>, from: nat)
    requires Fits(payload) && Holds(s, payload) && forall other | other in others :: Harmless(payload, other)
    requires |ks| == |others| + 1 && from + Sum(ks) == |Frame(payload)|
    ensures Taken(s, others, ks, from) == Some(Frame(payload)[from..])
    decreases |others|
  {
    var frame := Frame(payload);
    var end := from + ks[0];
    HoldsFrame(s, payload);
    TakePrefix(s, frame, from, ks[0]);
    hide Frame, Holds, Harmless, Header, Fits, Take;
    if others == [] {
      assert ks[1..] == [];
      assert frame[from..end] == frame[from..];
    } else {
      HarmlessKeeps(s, payload, others[0]);
      AllTaken(s.Lay(others[0]), payload, others[1..], ks[1..], end);
      assert frame[from..end] + frame[end..] == frame[from..];
    }
  }

  /** If the strings hold the frame, whatever was laid out, it was harmless. */
  lemma OnlyHarmlessHolds(s: Statics, payload: string, other: string)
    requires Fits(payload) && Holds(s, payload) && Frame(payload) <= s.Lay(other).Bytes()
    ensures Harmless(payload, other)
  {
    HeaderFits(|payload|);
    var after := s.Lay(other);
    if Fits(other) {
      HeaderFits(|other|);
      HeaderRoundTrip(|payload|);
      HeaderRoundTrip(|other|);
      assert after.header == after.Bytes()[..HEADER_LENGTH] == Frame(payload)[..HEADER_LENGTH] == Header(|payload|);
      assert |other| == |payload|;
    }
    assert after.Bytes()[HEADER_LENGTH..] == other;
    assert Frame(payload)[HEADER_LENGTH..] == payload;
    assert payload == other[..|payload|];
  }

  function Zeros(n: nat): (ks: seq<nat>)
    ensures |ks| == n && Sum(ks) == 0
  {
    if n == 0 then []
    else
      var ks := [0] + Zeros(n - 1);
      assert ks[1..] == Zeros(n - 1);
      ks
  }

  lemma {:induction false} NothingTaken(s: Statics, others: seq<string>, from: nat)
    ensures Taken(s, others, Zeros(|others| + 1), from) == Some("")
    decreases |others|
  {
    assert Zeros(|others| + 1)[1..] == Zeros(|others|);
    if others != [] {
      NothingTaken(s.Lay(others[0]), others[1..], from);
      assert "" + "" == "";
    }
  }

  /** All bytes taken at once, before any other layout. */
  lemma AtOnce(s: Statics, others: seq<string>, size: nat)
    ensures |[size] + Zeros(|others|)| == |others| + 1 && Sum([size] + Zeros(|others|)) == size
    ensures Taken(s, others, [size] + Zeros(|others|), 0) == Take(s, 0, size)
  {
    var ks := [size] + Zeros(|others|);
    assert ks[1..] == Zeros(|others|);
    if others != [] {
      NothingTaken(s.Lay(others[0]), others[1..], size);
    }
    if Take(s, 0, size).Some? {
      assert Take(s, 0, size).value + "" == Take(s, 0, size).value;
    }
  }

  /** A harmful layout spoils the schedule that takes all bytes right after it. */
  lemma {:induction false} SpoilingSchedule(s: Statics, payload: string, others: seq<string>) returns (ks: seq<nat>)
    requires Fits(payload) && Holds(s, payload) && exists other :: other in others && !Harmless(payload, other)
    ensures |ks| == |others| + 1 && Sum(ks) == |Frame(payload)|
    ensures Taken(s, others, ks, 0) != Some(Frame(payload))
    decreases |others|
  {
    var size := |Frame(payload)|;
    var after, rest := s.Lay(others[0]), others[1..];
    var later: seq<nat>;
    if Harmless(payload, others[0]) {
      HarmlessKeeps(s, payload, others[0]);
      later := SpoilingSchedule(after, payload, rest);
    } else {
      later := [size] + Zeros(|rest|);
      AtOnce(after, rest, size);
      HeaderFits(|payload|);
      if Frame(payload) <= after.Bytes() {
        OnlyHarmlessHolds(s, payload, others[0]);
      }
    }
    ks := [0] + later;
    assert ks[1..] == later;
    if Taken(after, rest, later, 0).Some? {
      var more := Taken(after, rest, later, 0).value;
      assert "" + more == more;
    }
  }

  /** The exact condition for one write: its bytes are its frame under every schedule if and only if no other
      user lays out a different message before it completes. */
  lemma FlightIsRightIff(before: Statics, f: Flight)
    ensures (forall ks | Schedule(f, ks) :: Sent(before, f, ks) == Some(Frame(f.payload))) <==> Undisturbed(f)
  {
    var s := before.Lay(f.payload);
    if !Fits(f.payload) {
      HeaderFits(|f.payload|);
      forall ks | Schedule(f, ks)
        ensures Sent(before, f, ks) == Some("")
      {
        SumIsZero(ks);
        NothingTaken(s, f.others, 0);
      }
    } else if Undisturbed(f) {
      forall ks | Schedule(f, ks)
        ensures Sent(before, f, ks) == Some(Frame(f.payload))
      {
        AllTaken(s, f.payload, f.others, ks, 0);
      }
    } else {
      var ks := SpoilingSchedule(s, f.payload, f.others);
      assert Schedule(f, ks);
    }
  }

  lemma {:induction false} SumIsZero(ks: seq<nat>)
    requires Sum(ks) == 0
    ensures ks == Zeros(|ks|)
  {
    if ks != [] {
      SumIsZero(ks[1..]);
    }
  }

  // ---------------------------------------------------------------- a user's whole wire

  predicate Schedules(flights: seq<Flight>, kss: seq<seq<nat>>) {
    |kss| == |flights| && forall i | 0 <= i < |flights| :: Schedule(flights[i], kss[i])
  }

  /** The wire of a user after these writes, each begun when the one before is complete. */
  function Wire(before: Statics, flights: seq<Flight>, kss: seq<seq<nat>>): Option<string>
    requires Schedules(flights, kss)
  {
    if flights == [] then Some("")
    else Joined(Sent(before, flights[0], kss[0]), Wire(before, flights[1..], kss[1..]))
  }

  function PayloadsOf(flights: seq<Flight>): seq<string> {
    if flights == [] then [] else [flights[0].payload] + PayloadsOf(flights[1..])
  }

  /** A frame that is taken at once is right. */
  lemma RightSchedule(before: Statics, f: Flight) returns (ks: seq<nat>)
    ensures Schedule(f, ks) && Sent(before, f, ks) == Some(Frame(f.payload))
  {
    var size := |Frame(f.payload)|;
    AtOnce(before.Lay(f.payload), f.others, size);
    HeaderFits(|f.payload|);
    if Fits(f.payload) {
      HoldsFrame(before.Lay(f.payload), f.payload);
      TakePrefix(before.Lay(f.payload), Frame(f.payload), 0, size);
    }
    hide Take, Taken, Frame, Header, Fits;
    assert Frame(f.payload)[0..size] == Frame(f.payload);
    ks := [size] + Zeros(|f.others|);
  }

  function Joined(a: Option<string>, b: Option<string>): Option<string> {
    if a.Some? && b.Some? then Some(a.value + b.value) else None
  }

  /** One more flight in front. */
  lemma WireCons(before: Statics, f: Flight, ks: seq<nat>, flights: seq<Flight>, kss: seq<seq<nat>>)
    requires Schedule(f, ks) && Schedules(flights, kss)
    ensures Schedules([f] + flights, [ks] + kss)
    ensures Wire(before, [f] + flights, [ks] + kss) == Joined(Sent(before, f, ks), Wire(before, flights, kss))
    ensures Frames(PayloadsOf([f] + flights)) == Frame(f.payload) + Frames(PayloadsOf(flights))
  {
    hide Sent, Frame, Schedule;
    assert ([f] + flights)[1..] == flights && ([ks] + kss)[1..] == kss;
    assert PayloadsOf([f] + flights)[1..] == PayloadsOf(flights);
  }

  /** The schedules that take every frame at once are always right. */
  lemma {:induction false} RightSchedules(before: Statics, flights: seq<Flight>) returns (kss: seq<seq<nat>>)
    ensures Schedules(flights, kss) && Wire(before, flights, kss) == Some(Frames(PayloadsOf(flights)))
  {
    if flights == [] {
      kss := [];
    } else {
      hide Sent, Frame, Frames, PayloadsOf, Schedule;
      var first := RightSchedule(before, flights[0]);
      var later := RightSchedules(before, flights[1..]);
      WireCons(before, flights[0], first, flights[1..], later);
      assert [flights[0]] + flights[1..] == flights;
      kss := [first] + later;
    }
  }

  lemma {:induction false} WireIsRight(before: Statics, flights: seq<Flight>, kss: seq<seq<nat>>)
    requires Schedules(flights, kss) && forall f | f in flights :: Undisturbed(f)
    ensures Wire(before, flights, kss) == Some(Frames(PayloadsOf(flights)))
  {
    if flights != [] {
      FlightIsRightIff(before, flights[0]);
      WireIsRight(before, flights[1..], kss[1..]);
    }
  }

  /** Of two pieces, exactly one wrong. */
  lemma OnePieceWrong(bytes: Option<string>, more: Option<string>, frame: string, frames: string)
    requires (bytes == Some(frame)) != (more == Some(frames))
    ensures Joined(bytes, more) != Some(frame + frames)
  {
    if bytes.Some? && more.Some? && bytes.value + more.value == frame + frames {
      Cancel(bytes.value, more.value, frame, frames);
    }
  }

  lemma {:induction false} SpoiledWire(before: Statics, flights: seq<Flight>) returns (kss: seq<seq<nat>>)
    requires exists f :: f in flights && !Undisturbed(f)
    ensures Schedules(flights, kss) && Wire(before, flights, kss) != Some(Frames(PayloadsOf(flights)))
  {
    hide Sent, Wire, Joined, Frame, Frames, PayloadsOf, Undisturbed;
    var f, rest := flights[0], flights[1..];
    var first: seq<nat>;
    var later: seq<seq<nat>>;
    if Undisturbed(f) {
      first := RightSchedule(before, f);
      later := SpoiledWire(before, rest);
    } else {
      FlightIsRightIff(before, f);
      first :| Schedule(f, first) && Sent(before, f, first) != Some(Frame(f.payload));
      later := RightSchedules(before, rest);
    }
    WireCons(before, f, first, rest, later);
    OnePieceWrong(Sent(before, f, first), Wire(before, rest, later), Frame(f.payload), Frames(PayloadsOf(rest)));
    assert [f] + rest == flights;
    kss := [first] + later;
  }

  /** Concatenations that agree, and agree in length on one part, agree in both parts. */
  lemma Cancel(a: string, b: string, c: string, d: string)
    requires a + b == c + d && (|a| == |c| || |b| == |d|)
    ensures a == c && b == d
  {
    assert |a| == |c|;
    assert a == (a + b)[..|a|] && c == (c + d)[..|c|];
    assert b == (a + b)[|a|..] && d == (c + d)[|c|..];
  }

  /** The exact condition for a user of the server: its wire carries its frames under every schedule, and so its
      client reads every message, if and only if no other user lays out a different message while one of its
      writes is outstanding. */
  lemma WireIsRightIff(before: Statics, flights: seq<Flight>)
    ensures (forall kss | Schedules(flights, kss) :: Wire(before, flights, kss) == Some(Frames(PayloadsOf(flights))))
       <==> forall f | f in flights :: Undisturbed(f)
  {
    if forall f | f in flights :: Undisturbed(f) {
      forall kss | Schedules(flights, kss)
        ensures Wire(before, flights, kss) == Some(Frames(PayloadsOf(flights)))
      {
        WireIsRight(before, flights, kss);
      }
    } else {
      var kss := SpoiledWire(before, flights);
    }
  }

  /** An interleaving that fails: a frame of one byte is overwritten by another user's before it is taken. */
  lemma OverwrittenFrame(before: Statics)
    ensures var f := Flight("a", ["b"]);
            Schedule(f, [0, 11]) && Sent(before, f, [0, 11]) == Some(Frame("b")) != Some(Frame("a"))
  {
    var a, b := "a", "b";
    HeaderFits(1);
    var s := before.Lay(a).Lay(b);
    assert s.Bytes() == Frame(b) == Header(1) + b && |Header(1)| == 10;
    assert Frame(a) == Header(1) + a && Frame(a)[10] != Frame(b)[10];
    assert s.Bytes()[0..11] == Frame(b);
    assert [0, 11][1..] == [11] && [b][1..] == [];
    assert Sum([11]) == 11 && Sum([0, 11]) == 11;
    assert Taken(s, [], [11], 0) == Some(Frame(b));
    assert "" + Frame(b) == Frame(b);
  }
}
