/** The outbound queue shared in shape by the server's users and the client: `write` posts a handler, the
    handler appends to the queue and starts a write only if the queue was empty, a completion pops and
    starts the next write, an error leaves the queue as it is. */
module WriteQueue {

  /** `posted` holds the messages whose handlers have not run, `waiting` is the queue itself, `writing` tells
      whether a write is outstanding, `sent` what was completed, `failed` whether a write ever failed. */
  datatype Queue<M> = Queue(posted: seq<M>, waiting: seq<M>, writing: bool, sent: seq<M>, failed: bool) {

    /** Everything ever handed to `write`, in order. */
    function All(): seq<M> {
      sent + waiting + posted
    }

    /** One write is outstanding exactly when the queue is non-empty and no write has failed. */
    predicate Good() {
      && (writing <==> waiting != [] && !failed)
      && (failed ==> waiting != [])
    }
  }

  datatype Event<M> = Write(msg: M) | RunPosted | Completed | Failed

  function Empty<M>(): Queue<M> {
    Queue([], [], false, [], false)
  }

  predicate Enabled<M>(q: Queue<M>, e: Event<M>) {
    match e
    case Write(_) => true
    case RunPosted => q.posted != []
    case Completed => q.writing && q.waiting != []
    case Failed => q.writing && q.waiting != []
  }

  function Next<M>(q: Queue<M>, e: Event<M>): Queue<M>
    requires Enabled(q, e)
  {
    match e
    case Write(m) => q.(posted := q.posted + [m])
    case RunPosted =>
      q.(posted := q.posted[1..], waiting := q.waiting + [q.posted[0]],
         writing := if q.waiting == [] then true else q.writing)
    case Completed =>
      q.(waiting := q.waiting[1..], sent := q.sent + [q.waiting[0]], writing := |q.waiting| > 1)
    case Failed => q.(writing := false, failed := true)
  }

  /** Every event is enabled when it happens. */
  ghost predicate Path<M>(trace: seq<Queue<M>>, events: seq<Event<M>>) {
    && |trace| == |events| + 1
    && forall i | 0 <= i < |events| :: Enabled(trace[i], events[i]) && trace[i + 1] == Next(trace[i], events[i])
  }

  /** A run begins with nothing written. */
  ghost predicate Run<M>(trace: seq<Queue<M>>, events: seq<Event<M>>) {
    Path(trace, events) && trace[0] == Empty()
  }

  /** The messages written by `events`, in order. */
  function Written<M>(events: seq<Event<M>>): seq<M> {
    if events == [] then []
    else
      var e := events[|events| - 1];
      Written(events[..|events| - 1]) + if e.Write? then [e.msg] else []
  }

  /** One event keeps the queue good and adds exactly what it writes. */
  lemma NextKeepsGood<M>(q: Queue<M>, e: Event<M>)
    requires q.Good() && Enabled(q, e)
    ensures Next(q, e).Good()
    ensures Next(q, e).All() == q.All() + if e.Write? then [e.msg] else []
    ensures q.sent <= Next(q, e).sent
    ensures q.failed ==> Next(q, e).failed && Next(q, e).sent == q.sent && !Next(q, e).writing
  {
    var q' := Next(q, e);
    match e
    case Write(m) =>
      assert q'.All() == q.All() + [m];
    case RunPosted =>
      assert q.posted == [q.posted[0]] + q.posted[1..];
      assert q'.All() == q.All();
    case Completed =>
      assert q.waiting == [q.waiting[0]] + q.waiting[1..];
      assert q'.All() == q.All();
    case Failed =>
  }

  /** In every run nothing is lost, duplicated or reordered, and at most one write is outstanding. */
  lemma {:induction false} RunIsFaithful<M>(trace: seq<Queue<M>>, events: seq<Event<M>>, i: nat)
    requires Run(trace, events) && i < |trace|
    ensures trace[i].Good()
    ensures trace[i].All() == Written(events[..i])
  {
    if i == 0 {
      assert events[..0] == [];
    } else {
      RunIsFaithful(trace, events, i - 1);
      NextKeepsGood(trace[i - 1], events[i - 1]);
      assert events[..i][..i - 1] == events[..i - 1];
    }
  }

  /** After a failed write nothing more is sent and no write is ever outstanding again. */
  lemma {:induction false} FailureIsFinal<M>(trace: seq<Queue<M>>, events: seq<Event<M>>, i: nat, j: nat)
    requires Run(trace, events) && i <= j < |trace| && trace[i].failed
    ensures trace[j].failed && !trace[j].writing && trace[j].sent == trace[i].sent
    decreases j
  {
    RunIsFaithful(trace, events, i);
    if i < j {
      FailureIsFinal(trace, events, i, j - 1);
      RunIsFaithful(trace, events, j - 1);
      NextKeepsGood(trace[j - 1], events[j - 1]);
    }
  }

  /** What was sent stays sent. */
  lemma {:induction false} SentOnlyGrows<M>(trace: seq<Queue<M>>, events: seq<Event<M>>, i: nat, j: nat)
    requires Run(trace, events) && i <= j < |trace|
    ensures trace[i].sent <= trace[j].sent
    decreases j
  {
    if i < j {
      SentOnlyGrows(trace, events, i, j - 1);
      RunIsFaithful(trace, events, j - 1);
      NextKeepsGood(trace[j - 1], events[j - 1]);
    }
  }

  lemma OneMoreEvent<M>(trace: seq<Queue<M>>, events: seq<Event<M>>, e: Event<M>)
    requires Run(trace, events) && Enabled(trace[|events|], e)
    ensures Run(trace + [Next(trace[|events|], e)], events + [e])
  {
  }

  /** A run goes on with any writes. */
  lemma {:induction false} WritesFollow<M>(trace: seq<Queue<M>>, events: seq<Event<M>>, msgs: seq<M>)
    returns (trace': seq<Queue<M>>, events': seq<Event<M>>)
    requires Run(trace, events)
    ensures Run(trace', events') && trace <= trace'
    ensures var q := trace[|events|]; trace'[|events'|] == q.(posted := q.posted + msgs)
  {
    trace', events' := trace, events;
    assert trace[|events|].posted + msgs[..0] == trace[|events|].posted;
    for i := 0 to |msgs|
      invariant Run(trace', events') && trace <= trace'
      invariant var q := trace[|events|]; trace'[|events'|] == q.(posted := q.posted + msgs[..i])
    {
      OneMoreEvent(trace', events', Write(msgs[i]));
      var q := trace'[|events'|];
      trace', events' := trace' + [Next(q, Write(msgs[i]))], events' + [Write(msgs[i])];
      assert msgs[..i + 1] == msgs[..i] + [msgs[i]];
    }
    assert msgs[..|msgs|] == msgs;
  }

  function Backlog<M>(q: Queue<M>): nat {
    2 * |q.posted| + |q.waiting|
  }

  /** Unless a write failed, the queue makes progress until everything is sent: as long as something is
      unsent a handler or completion is enabled, and each of them shrinks the backlog. */
  lemma DrainsWithoutErrors<M>(q: Queue<M>)
    requires q.Good() && !q.failed
    ensures Backlog(q) == 0 <==> q.sent == q.All()
    ensures Backlog(q) > 0 ==> Enabled(q, RunPosted) || Enabled(q, Completed)
    ensures Enabled(q, RunPosted) ==> Backlog(Next(q, RunPosted)) < Backlog(q)
    ensures Enabled(q, Completed) ==> Backlog(Next(q, Completed)) < Backlog(q)
  {
    assert |q.All()| == |q.sent| + |q.waiting| + |q.posted|;
    if Backlog(q) == 0 {
      assert q.All() == q.sent;
    }
  }
}
