/** The ping timer of a user: a flag, a retry counter and absolute deadlines (server/source/chat_user.cpp). */
module PingTimer {

  const PING_FREQUENCY: int := 30
  const PING_RETRY_MAX: nat := 3

  /** `armed` tells whether a wait for the deadline is outstanding. */
  datatype Timer = Timer(deadline: int, retries: nat, pong: bool, armed: bool)

  /** The timer of a started user that was constructed at `now`. */
  function Started(now: int): Timer {
    Timer(now + PING_FREQUENCY, 0, false, true)
  }

  /** The handler of an expiry: ping again after a pong or while retries are left, otherwise give up. */
  function Expire(t: Timer): Timer {
    if t.pong then t.(deadline := t.deadline + PING_FREQUENCY, retries := 0, pong := false)
    else if t.retries < PING_RETRY_MAX then
      t.(deadline := t.deadline + PING_FREQUENCY / 2, retries := t.retries + 1)
    else t.(armed := false)
  }

  predicate GivesUp(t: Timer) {
    !t.pong && t.retries >= PING_RETRY_MAX
  }

  /** The three outcomes of an expiry, in numbers. */
  lemma ExpiryIs(t: Timer)
    ensures GivesUp(t) <==> !t.pong && t.retries >= 3
    ensures t.pong ==> Expire(t) == Timer(t.deadline + 30, 0, false, t.armed)
    ensures !t.pong && t.retries < 3 ==> Expire(t) == Timer(t.deadline + 15, t.retries + 1, false, t.armed)
    ensures !t.pong && t.retries >= 3 ==> Expire(t) == Timer(t.deadline, t.retries, false, false)
  {
  }

  // ---------------------------------------------------------------- windows

  /** The time between two expiries, seen from its end: the last pong that arrived in it, if any. */
  datatype Window = Silent | Answered(lastPong: int)

  /** A user's life so far: its timer, the creation time or the deadline of the last expiry that saw a pong,
      and the last pong an expiry saw. */
  datatype Life = Life(timer: Timer, reference: int, lastPong: Window)

  function Born(now: int): Life {
    Life(Started(now), now, Silent)
  }

  /** One window passes and its expiry is handled; after giving up there are no more expiries. */
  function Live(l: Life, w: Window): Life {
    if !l.timer.armed then l
    else
      var t := if w.Answered? then l.timer.(pong := true) else l.timer;
      Life(Expire(t), if w.Answered? then t.deadline else l.reference, if w.Answered? then w else l.lastPong)
  }

  function After(now: int, windows: seq<Window>): Life {
    if windows == [] then Born(now) else Live(After(now, windows[..|windows| - 1]), windows[|windows| - 1])
  }

  /** The deadline is always 30 seconds plus 15 for every retry after the reference time, and the retry counter
      never exceeds three; a user given up had three retries, so its last deadline is 75 seconds after it. */
  lemma {:induction false} DeadlineFormula(now: int, windows: seq<Window>)
    ensures var l := After(now, windows);
            && !l.timer.pong
            && l.timer.retries <= PING_RETRY_MAX
            && l.timer.deadline == l.reference + 30 + 15 * l.timer.retries
            && (!l.timer.armed ==> l.timer.retries == PING_RETRY_MAX && l.timer.deadline == l.reference + 75)
            && l.reference >= now
  {
    if windows != [] {
      DeadlineFormula(now, windows[..|windows| - 1]);
    }
  }

  /** The last `n` windows of `windows` are all silent. */
  ghost predicate SilentTail(windows: seq<Window>, n: nat) {
    n <= |windows| && forall k | |windows| - n <= k < |windows| :: windows[k].Silent?
  }

  /** The retry counter counts the silent windows at the end. */
  lemma {:induction false} RetriesCountSilence(now: int, windows: seq<Window>)
    requires After(now, windows).timer.armed
    ensures var r := After(now, windows).timer.retries;
            SilentTail(windows, r) && (r < |windows| ==> windows[|windows| - 1 - r].Answered?)
  {
    if windows != [] {
      DeadlineFormula(now, windows[..|windows| - 1]);
      RetriesCountSilence(now, windows[..|windows| - 1]);
    }
  }

  ghost predicate FourSilentAt(windows: seq<Window>, k: nat) {
    k + 4 <= |windows| && forall i | k <= i < k + 4 :: windows[i].Silent?
  }

  /** A user is given up exactly when four consecutive windows were silent. */
  lemma {:induction false} GivenUpIff(now: int, windows: seq<Window>)
    ensures !After(now, windows).timer.armed <==> exists k :: FourSilentAt(windows, k)
  {
    if windows != [] {
      var n := |windows| - 1;
      var before := windows[..n];
      GivenUpIff(now, before);
      if !After(now, before).timer.armed {
        var k :| FourSilentAt(before, k);
        assert FourSilentAt(windows, k);
      } else {
        RetriesCountSilence(now, before);
        DeadlineFormula(now, before);
        forall k: nat
          ensures FourSilentAt(windows, k) ==> k == n - 3
        {
          assert k + 4 <= n ==> (FourSilentAt(windows, k) <==> FourSilentAt(before, k));
        }
        if !After(now, windows).timer.armed {
          assert FourSilentAt(windows, n - 3);
        }
      }
    }
  }

  // ---------------------------------------------------------------- time

  /* The deadlines count from the construction of the user object, which waits for its connection; so when the
     user is accepted some deadlines may have passed already. An expiry is handled as soon as it can be: at its
     deadline, or at the acceptance if that is later. */

  function Max(a: int, b: int): int {
    if a >= b then a else b
  }

  /** When the expiry that closes the window after `windows` is handled; after giving up, when that happened. */
  function HandledAt(now: int, accepted: int, windows: seq<Window>): int {
    Max(After(now, windows).timer.deadline, accepted)
  }

  /** When the window after `windows` began. */
  function BeginsAt(now: int, accepted: int, windows: seq<Window>): int {
    if windows == [] then accepted else HandledAt(now, accepted, windows[..|windows| - 1])
  }

  /** Every pong arrived after its window began and before it closed. */
  ghost predicate Timely(now: int, accepted: int, windows: seq<Window>) {
    forall k | 0 <= k < |windows| && windows[k].Answered? && After(now, windows[..k]).timer.armed ::
      BeginsAt(now, accepted, windows[..k]) < windows[k].lastPong <= HandledAt(now, accepted, windows[..k])
  }

  lemma TimelyBefore(now: int, accepted: int, windows: seq<Window>, n: nat)
    requires Timely(now, accepted, windows) && n <= |windows|
    ensures Timely(now, accepted, windows[..n])
  {
    forall k | 0 <= k < n && windows[..n][k].Answered? && After(now, windows[..n][..k]).timer.armed
      ensures BeginsAt(now, accepted, windows[..n][..k]) < windows[..n][k].lastPong
                <= HandledAt(now, accepted, windows[..n][..k])
    {
      assert windows[..n][..k] == windows[..k];
    }
  }

  /** A pong that an expiry saw came at most 30 seconds before the reference time. */
  lemma {:induction false} PongIsRecent(now: int, accepted: int, windows: seq<Window>)
    requires now <= accepted && Timely(now, accepted, windows)
    ensures var l := After(now, windows);
            && (l.lastPong.Silent? ==> l.reference == now)
            && (l.lastPong.Answered? ==> l.reference - 30 <= l.lastPong.lastPong <= l.reference)
            && (l.lastPong.Answered? ==> accepted < l.lastPong.lastPong)
  {
    if windows != [] {
      var n := |windows| - 1;
      var before := windows[..n];
      TimelyBefore(now, accepted, windows, n);
      PongIsRecent(now, accepted, before);
      if n > 0 && After(now, before).timer.armed && windows[n].Answered? {
        assert Live(After(now, before[..n - 1]), before[n - 1]) == After(now, before);
      }
    }
  }

  /** When a user is given up: 75 to 105 seconds after the last pong an expiry saw; without any pong, 75 seconds
      after its construction or as soon as it is accepted, whichever is later. */
  lemma TimeoutBound(now: int, accepted: int, windows: seq<Window>)
    requires now <= accepted && Timely(now, accepted, windows) && !After(now, windows).timer.armed
    ensures var at := HandledAt(now, accepted, windows);
            match After(now, windows).lastPong
            case Answered(pong) => pong + 75 <= at <= pong + 105
            case Silent => at == Max(now + 75, accepted)
  {
    PongIsRecent(now, accepted, windows);
    DeadlineFormula(now, windows);
  }

  /** A user accepted 75 seconds after its construction, or later, is never heard: all four expiries are due. */
  lemma {:induction false} LateIsSilent(now: int, accepted: int, windows: seq<Window>)
    requires accepted >= now + 75 && Timely(now, accepted, windows)
    ensures After(now, windows).lastPong.Silent? && After(now, windows).reference == now
  {
    if windows != [] {
      var n := |windows| - 1;
      var before := windows[..n];
      TimelyBefore(now, accepted, windows, n);
      LateIsSilent(now, accepted, before);
      DeadlineFormula(now, before);
      assert BeginsAt(now, accepted, before) >= accepted;
    }
  }

  /** Exactly when a first pong can still arrive: the user was accepted within 75 seconds of its construction. */
  lemma HeardIff(now: int, accepted: int)
    requires now <= accepted
    ensures accepted < now + 75
       <==> exists windows :: Timely(now, accepted, windows) && After(now, windows).lastPong.Answered?
  {
    if accepted < now + 75 {
      var silent := [Silent, Silent, Silent];
      var windows := silent + [Answered(now + 75)];
      assert silent[..2] == [Silent, Silent] && [Silent, Silent][..1] == [Silent] && [Silent][..0] == [];
      assert After(now, [Silent]).timer == Timer(now + 45, 1, false, true);
      assert After(now, [Silent, Silent]).timer == Timer(now + 60, 2, false, true);
      assert After(now, silent).timer == Timer(now + 75, 3, false, true);
      assert windows[..3] == silent;
      assert Timely(now, accepted, windows);
    } else if windows :| Timely(now, accepted, windows) && After(now, windows).lastPong.Answered? {
      LateIsSilent(now, accepted, windows);
    }
  }

  // ---------------------------------------------------------------- pongs, expiries and cancellations as they come

  /** What may happen to a user's timer. A cancellation comes too late for an expiry whose handler is already
      queued: the wait then stays outstanding. */
  datatype Tick = Pong(at: int) | Expiry | Cancel(expiryQueued: bool)

  function Ticked(t: Timer, tick: Tick): Timer {
    match tick
    case Pong(_) => t.(pong := true)
    case Expiry => if t.armed then Expire(t) else t
    case Cancel(queued) => if queued then t else t.(armed := false)
  }

  function TickedAll(t: Timer, ticks: seq<Tick>): Timer {
    if ticks == [] then t else Ticked(TickedAll(t, ticks[..|ticks| - 1]), ticks[|ticks| - 1])
  }

  lemma TickedAllSnoc(t: Timer, ticks: seq<Tick>, tick: Tick)
    ensures TickedAll(t, ticks + [tick]) == Ticked(TickedAll(t, ticks), tick)
  {
    assert (ticks + [tick])[..|ticks|] == ticks;
  }

  /** Whether the wait was cancelled in time. */
  predicate CutOff(ticks: seq<Tick>) {
    Cancel(false) in ticks
  }

  /** The window not closed yet by an expiry. */
  function OpenWindow(ticks: seq<Tick>): Window {
    if ticks == [] then Silent
    else
      match ticks[|ticks| - 1]
      case Pong(at) => Answered(at)
      case Expiry => Silent
      case Cancel(_) => OpenWindow(ticks[..|ticks| - 1])
  }

  /** The windows that expiries closed: answered by the last pong since the expiry before. */
  function WindowsOf(ticks: seq<Tick>): seq<Window> {
    if ticks == [] then []
    else
      var before := ticks[..|ticks| - 1];
      if ticks[|ticks| - 1].Expiry? && !CutOff(before) then WindowsOf(before) + [OpenWindow(before)] else WindowsOf(before)
  }

  /** The timer `t` fits the life `l`, with the open window `open`, the wait cancelled or not. */
  predicate Fits(t: Timer, l: Life, open: Window, cut: bool) {
    && t.deadline == l.timer.deadline && t.retries == l.timer.retries
    && (t.armed <==> l.timer.armed && !cut)
    && (t.armed ==> (t.pong <==> open.Answered?))
    && !l.timer.pong
  }

  lemma FitsAfterTick(t: Timer, l: Life, open: Window, cut: bool, tick: Tick)
    requires Fits(t, l, open, cut)
    ensures match tick
            case Pong(at) => Fits(Ticked(t, tick), l, Answered(at), cut)
            case Expiry => Fits(Ticked(t, tick), if cut then l else Live(l, open), Silent, cut)
            case Cancel(queued) => Fits(Ticked(t, tick), l, open, cut || !queued)
  {
  }

  lemma CutOffBefore(before: seq<Tick>, tick: Tick)
    ensures CutOff(before + [tick]) <==> CutOff(before) || tick == Cancel(false)
  {
  }

  /** A timer moved tick by tick is, but for the flag and the cancellation, the timer after the windows these
      ticks make up. */
  lemma {:induction false} TicksAreWindows(now: int, ticks: seq<Tick>)
    ensures Fits(TickedAll(Started(now), ticks), After(now, WindowsOf(ticks)), OpenWindow(ticks), CutOff(ticks))
  {
    if ticks != [] {
      var before, tick := ticks[..|ticks| - 1], ticks[|ticks| - 1];
      assert ticks == before + [tick];
      CutOffBefore(before, tick);
      var windows := WindowsOf(before) + [OpenWindow(before)];
      assert windows[..|windows| - 1] == WindowsOf(before);
      TicksAreWindows(now, before);
      hide Fits, Live, Ticked, CutOff, Started;
      FitsAfterTick(TickedAll(Started(now), before), After(now, WindowsOf(before)), OpenWindow(before), CutOff(before), tick);
    }
  }

  /** The tick at `j` is the expiry that gives up. */
  ghost predicate GivenUpAt(t: Timer, ticks: seq<Tick>, j: nat) {
    && j < |ticks| && ticks[j].Expiry?
    && var before := TickedAll(t, ticks[..j]); before.armed && GivesUp(before)
  }

  ghost predicate GivenUp(t: Timer, ticks: seq<Tick>) {
    exists j :: GivenUpAt(t, ticks, j)
  }

  lemma GivenUpSnoc(t: Timer, before: seq<Tick>, tick: Tick)
    ensures GivenUp(t, before + [tick])
       <==> GivenUp(t, before) || (tick.Expiry? && TickedAll(t, before).armed && GivesUp(TickedAll(t, before)))
  {
    hide TickedAll, GivesUp;
    var ticks, n := before + [tick], |before|;
    assert ticks[..n] == before;
    forall j: nat | j < n
      ensures GivenUpAt(t, ticks, j) <==> GivenUpAt(t, before, j)
    {
      assert ticks[..j] == before[..j];
    }
    assert GivenUpAt(t, ticks, n) <==> tick.Expiry? && TickedAll(t, before).armed && GivesUp(TickedAll(t, before));
    if j: nat :| GivenUpAt(t, before, j) {
      assert GivenUpAt(t, ticks, j);
    }
  }

  lemma GivesUpIsLast(t: Timer, l: Life, open: Window, cut: bool)
    requires Fits(t, l, open, cut)
    ensures t.armed && GivesUp(t) <==> !cut && l.timer.armed && !Live(l, open).timer.armed
  {
  }

  lemma {:induction false} GivenUpIsNotAlive(now: int, ticks: seq<Tick>)
    ensures GivenUp(Started(now), ticks) <==> !After(now, WindowsOf(ticks)).timer.armed
  {
    if ticks != [] {
      var before, tick := ticks[..|ticks| - 1], ticks[|ticks| - 1];
      assert ticks == before + [tick];
      GivenUpIsNotAlive(now, before);
      GivenUpSnoc(Started(now), before, tick);
      TicksAreWindows(now, before);
      GivesUpIsLast(TickedAll(Started(now), before), After(now, WindowsOf(before)), OpenWindow(before), CutOff(before));
      var windows := WindowsOf(before) + [OpenWindow(before)];
      assert windows[..|windows| - 1] == WindowsOf(before);
      hide GivenUp, Fits, Started, GivesUp, CutOff, Expire;
    }
  }

  /** Some expiry gave the user up if and only if four consecutive windows were silent. */
  lemma GivenUpByTicks(now: int, ticks: seq<Tick>)
    ensures GivenUp(Started(now), ticks) <==> exists k :: FourSilentAt(WindowsOf(ticks), k)
  {
    GivenUpIsNotAlive(now, ticks);
    GivenUpIff(now, WindowsOf(ticks));
  }

  /** The expiry that gives up was due 75 seconds after the reference time. */
  lemma GivenUpWhen(now: int, ticks: seq<Tick>, j: nat)
    requires GivenUpAt(Started(now), ticks, j)
    ensures TickedAll(Started(now), ticks[..j]).deadline == After(now, WindowsOf(ticks[..j])).reference + 75
  {
    TicksAreWindows(now, ticks[..j]);
    DeadlineFormula(now, WindowsOf(ticks[..j]));
  }
}
