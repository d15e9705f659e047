/** The logger's counter for "log every n-th hit": the stored count wraps, the answers do not
    (common/source/easylogging.cc, common/include/easylogging.h). */
module HitCounting {

  const MAX_LOG_PER_COUNTER: nat := 100000

  /** `validateHitCounts`: the count after one more hit. */
  function NextCount(count: nat, n: nat): nat {
    (if count >= MAX_LOG_PER_COUNTER then (if n >= 1 then MAX_LOG_PER_COUNTER % n else 0) else count) + 1
  }

  predicate Fires(count: nat, n: nat) {
    n >= 1 && count != 0 && count % n == 0
  }

  /** The stored count after `hits` hits. */
  function CountAfter(hits: nat, n: nat): nat {
    if hits == 0 then 0 else NextCount(CountAfter(hits - 1, n), n)
  }

  lemma NextRemainder(a: nat, b: nat, n: nat)
    requires n >= 1 && a % n == b % n
    ensures (a + 1) % n == (b + 1) % n
  {
    var q, p, r := a / n, b / n, a % n;
    assert a + 1 == n * q + (r + 1) && b + 1 == n * p + (r + 1);
    if r + 1 == n {
      assert a + 1 == n * (q + 1) && b + 1 == n * (p + 1);
      MultipleHasNoRemainder(q + 1, n);
      MultipleHasNoRemainder(p + 1, n);
    } else {
      RemainderOf(q, r + 1, n);
      RemainderOf(p, r + 1, n);
    }
  }

  lemma MultiplesAreApart(k: int, n: nat)
    ensures k == 0 || k * n >= n || k * n + n <= 0
  {
    if k >= 1 {
      assert k * n == (k - 1) * n + n;
    } else if k <= -1 {
      assert k * n == (k + 1) * n - n;
    }
  }

  lemma RemainderOf(q: nat, r: nat, n: nat)
    requires r < n
    ensures (n * q + r) % n == r
  {
    var x := n * q + r;
    assert x == n * (x / n) + x % n;
    assert (x / n - q) * n == r - x % n;
    MultiplesAreApart(x / n - q, n);
  }

  lemma MultipleHasNoRemainder(q: nat, n: nat)
    requires n >= 1
    ensures (n * q) % n == 0
  {
    RemainderOf(q, 0, n);
  }

  /** For a rate up to the limit the stored count stays below the limit and keeps the remainder of the hits. */
  lemma {:induction false} CountKeepsRemainder(hits: nat, n: nat)
    requires 1 <= n <= 100000
    ensures CountAfter(hits, n) <= 100000
    ensures CountAfter(hits, n) % n == hits % n
    ensures hits > 0 ==> CountAfter(hits, n) > 0
  {
    if hits > 0 {
      CountKeepsRemainder(hits - 1, n);
      var count := CountAfter(hits - 1, n);
      if count >= MAX_LOG_PER_COUNTER {
        var wrapped := MAX_LOG_PER_COUNTER % n;
        RemainderOf(0, wrapped, n);
        NextRemainder(wrapped, hits - 1, n);
      } else {
        NextRemainder(count, hits - 1, n);
      }
    }
  }

  lemma {:induction false} CountIsExact(hits: nat, n: nat)
    requires hits <= 100000
    ensures CountAfter(hits, n) == hits
  {
    if hits > 0 {
      CountIsExact(hits - 1, n);
    }
  }

  lemma {:induction false} CountIsBounded(hits: nat, n: nat)
    ensures CountAfter(hits, n) <= 100000 + 1
  {
    if hits > 0 {
      CountIsBounded(hits - 1, n);
    }
  }

  /** Every hit is answered as if the count never wrapped. */
  ghost predicate Exact(n: nat) {
    forall hits: nat | hits >= 1 :: Fires(CountAfter(hits, n), n) <==> Due(hits, n)
  }

  predicate Due(hits: nat, n: nat) {
    n >= 1 && hits % n == 0
  }

  /** Beyond the limit the stored count never reaches the rate, or sticks to it. */
  lemma TooRareIsInexact(n: nat)
    requires n > 100000
    ensures !Exact(n)
  {
    CountIsExact(MAX_LOG_PER_COUNTER, n);
    if n == MAX_LOG_PER_COUNTER + 1 {
      assert CountAfter(n, n) == n && CountAfter(n + 1, n) == n;
      assert Fires(CountAfter(n + 1, n), n) && !Due(n + 1, n);
    } else {
      CountIsBounded(n, n);
      assert Due(n, n) && CountAfter(n, n) < n;
      assert !Fires(CountAfter(n, n), n);
    }
  }

  /** The exact condition: a rate is served exactly if and only if it does not exceed the limit. */
  lemma ExactIff(n: nat)
    ensures Exact(n) <==> n <= 100000
  {
    if n > MAX_LOG_PER_COUNTER {
      TooRareIsInexact(n);
    } else if n >= 1 {
      hide CountAfter;
      forall hits: nat | hits >= 1
        ensures Fires(CountAfter(hits, n), n) <==> Due(hits, n)
      {
        CountKeepsRemainder(hits, n);
      }
    }
  }

  /** A logging place in the program: file and line. */
  type Place = (string, nat)

  class HitCounter {
    const filename: string
    const lineNumber: nat
    var hitCounts: nat

    constructor (filename: string, lineNumber: nat)
      ensures Where() == (filename, lineNumber) && hitCounts == 0
    {
      this.filename, this.lineNumber, hitCounts := filename, lineNumber, 0;
    }

    function Where(): Place {
      (filename, lineNumber)
    }

    method ValidateHitCounts(n: nat)
      modifies this
      ensures hitCounts == NextCount(old(hitCounts), n)
      ensures old(hitCounts) < 100000 ==> hitCounts == old(hitCounts) + 1
      ensures old(hitCounts) >= 100000 ==> hitCounts == if n >= 1 then 100000 % n + 1 else 1
    {
      if hitCounts >= MAX_LOG_PER_COUNTER {
        hitCounts := if n >= 1 then MAX_LOG_PER_COUNTER % n else 0;
      }
      hitCounts := hitCounts + 1;
    }
  }

  class RegisteredHitCounters {
    var list: seq<HitCounter>

    /** The stored count of every place that was hit. */
    ghost var counts: map<Place, nat>

    constructor ()
      ensures Valid() && list == [] && counts == map[]
    {
      list, counts := [], map[];
    }

    /** One counter for each place that was hit, and no other. */
    ghost predicate Valid()
      reads this, list
    {
      && (forall i, j | 0 <= i < j < |list| :: list[i].Where() != list[j].Where())
      && (forall c | c in list :: c.Where() in counts && counts[c.Where()] == c.hitCounts)
      && (forall p | p in counts :: exists c | c in list :: c.Where() == p)
    }

    ghost function Count(p: Place): nat
      reads this
    {
      if p in counts then counts[p] else 0
    }

    /** The counter of a place, if it is registered. */
    method Get(filename: string, lineNumber: nat) returns (counter: HitCounter?)
      requires Valid()
      ensures Count((filename, lineNumber)) == if counter == null then 0 else counter.hitCounts
      ensures counter == null ==> forall c | c in list :: c.Where() != (filename, lineNumber)
      ensures counter != null ==> counter in list && counter.Where() == (filename, lineNumber)
    {
      for i := 0 to |list|
        invariant forall j | 0 <= j < i :: list[j].Where() != (filename, lineNumber)
      {
        if list[i].Where() == (filename, lineNumber) {
          return list[i];
        }
      }
      return null;
    }

    /** Adds a counter for a place that has none. */
    method RegisterNew(counter: HitCounter)
      requires Valid() && counter.hitCounts == 0
      requires forall c | c in list :: c.Where() != counter.Where()
      modifies this
      ensures Valid() && list == old(list) + [counter] && counts == old(counts)[counter.Where() := 0]
    {
      assert counter.Where() !in counts;
      list := list + [counter];
      counts := counts[counter.Where() := 0];
      assert counter in list;
      assert forall c | c in list :: c == counter || c in old(list);
      assert forall c | c in old(list) :: c in list;
    }

    /** One more hit at a registered counter: no other counter has its place. */
    method Hit(counter: HitCounter, n: nat)
      requires Valid() && counter in list
      modifies this, counter
      ensures Valid() && list == old(list)
      ensures counter.hitCounts == NextCount(old(counter.hitCounts), n)
      ensures counts == old(counts)[counter.Where() := counter.hitCounts]
    {
      hide NextCount;
      assert forall c | c in list && c != counter :: c.Where() != counter.Where();
      counter.ValidateHitCounts(n);
      counts := counts[counter.Where() := counter.hitCounts];
    }

    /** One hit at a place: its count moves, all others stay, and the answer says whether to log. */
    method ValidateEveryN(filename: string, lineNumber: nat, n: nat) returns (fires: bool)
      requires Valid()
      modifies this, list
      ensures Valid() && (forall c | c in list :: c in old(list) || fresh(c))
      ensures counts == old(counts)[(filename, lineNumber) := NextCount(old(Count((filename, lineNumber))), n)]
      ensures fires <==> Fires(counts[(filename, lineNumber)], n)
    {
      hide NextCount, Fires, Valid;
      var counter := Get(filename, lineNumber);
      if counter == null {
        counter := new HitCounter(filename, lineNumber);
        RegisterNew(counter);
      }
      Hit(counter, n);
      fires := Fires(counter.hitCounts, n);
    }
  }

  /** How often `p` occurs in `hits`. */
  function Hits(hits: seq<Place>, p: Place): nat {
    if hits == [] then 0 else Hits(hits[..|hits| - 1], p) + if hits[|hits| - 1] == p then 1 else 0
  }

  lemma OneMoreHit(hits: seq<Place>, i: nat, rate: Place -> nat)
    requires i < |hits|
    ensures var p := hits[i];
            CountAt(hits[..i + 1], p, rate) == NextCount(CountAt(hits[..i], p, rate), rate(p))
    ensures forall p | p != hits[i] :: CountAt(hits[..i + 1], p, rate) == CountAt(hits[..i], p, rate)
  {
    hide NextCount;
    assert hits[..i + 1][..i] == hits[..i];
  }

  /** The stored count of a place after `hits`. */
  function CountAt(hits: seq<Place>, p: Place, rate: Place -> nat): nat {
    CountAfter(Hits(hits, p), rate(p))
  }

  lemma NoHitsYet(hits: seq<Place>, rate: Place -> nat)
    ensures forall p :: CountAt(hits[..0], p, rate) == 0
  {
  }

  /** Whether the hit at `i` is to be logged. */
  predicate Logs(hits: seq<Place>, i: nat, rate: Place -> nat)
    requires i < |hits|
  {
    Fires(CountAt(hits[..i + 1], hits[i], rate), rate(hits[i]))
  }

  /** Up to the limit that is when the number of hits at its place is a multiple of the place's rate. */
  lemma LogsWhenDue(hits: seq<Place>, i: nat, rate: Place -> nat)
    requires i < |hits| && rate(hits[i]) <= 100000
    ensures Logs(hits, i, rate) <==> rate(hits[i]) >= 1 && Hits(hits[..i + 1], hits[i]) % rate(hits[i]) == 0
  {
    hide CountAfter;
    assert hits[..i + 1][..i] == hits[..i];
    assert Hits(hits[..i + 1], hits[i]) > 0;
    ExactIff(rate(hits[i]));
  }

  /** Any interleaving of hits at any places, each place with its own fixed rate: every hit is answered by its
      place's count alone; for a rate up to the limit it is logged exactly when it is a multiple of the rate. */
  method LogEveryN(hits: seq<Place>, rate: Place -> nat) returns (logged: seq<bool>)
    ensures |logged| == |hits|
    ensures forall i | 0 <= i < |hits| :: logged[i] <==> Logs(hits, i, rate)
    ensures forall i | 0 <= i < |hits| && rate(hits[i]) <= 100000 ::
              logged[i] <==> rate(hits[i]) >= 1 && Hits(hits[..i + 1], hits[i]) % rate(hits[i]) == 0
  {
    hide CountAt, Logs, Hits;
    var counters := new RegisteredHitCounters();
    logged := [];
    NoHitsYet(hits, rate);
    for i := 0 to |hits|
      invariant fresh(counters) && fresh(counters.list) && Counted(counters, hits[..i], rate)
      invariant |logged| == i && forall j | 0 <= j < i :: logged[j] <==> Logs(hits, j, rate)
    {
      var fires := LogOne(counters, hits, i, rate);
      logged := logged + [fires];
    }
    forall i | 0 <= i < |hits| && rate(hits[i]) <= MAX_LOG_PER_COUNTER
      ensures logged[i] <==> rate(hits[i]) >= 1 && Hits(hits[..i + 1], hits[i]) % rate(hits[i]) == 0
    {
      LogsWhenDue(hits, i, rate);
    }
  }

  /** Every place's counter stands where `hits` took it. */
  ghost predicate Counted(counters: RegisteredHitCounters, hits: seq<Place>, rate: Place -> nat)
    reads counters, counters.list
  {
    counters.Valid() && forall p :: counters.Count(p) == CountAt(hits, p, rate)
  }

  method LogOne(counters: RegisteredHitCounters, hits: seq<Place>, i: nat, rate: Place -> nat) returns (fires: bool)
    requires i < |hits| && Counted(counters, hits[..i], rate)
    modifies counters, counters.list
    ensures Counted(counters, hits[..i + 1], rate)
    ensures forall c | c in counters.list :: c in old(counters.list) || fresh(c)
    ensures fires <==> Logs(hits, i, rate)
  {
    hide NextCount, CountAt, Fires;
    var p := hits[i];
    OneMoreHit(hits, i, rate);
    fires := counters.ValidateEveryN(p.0, p.1, rate(p));
    assert p == (p.0, p.1);
    forall q
      ensures counters.Count(q) == CountAt(hits[..i + 1], q, rate)
    {
      assert q != p ==> CountAt(hits[..i + 1], q, rate) == CountAt(hits[..i], q, rate);
    }
  }
}
