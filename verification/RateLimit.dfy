/** The per-agent token bucket (src/claw_msg/server/rate_limit.py): the objects that mutate, the
    value they compute, and what a whole run of calls is allowed to do. */
module RateLimit {
  import opened Common

  // ----- One bucket as a value -----------------------------------------------------------

  datatype Bucket = Bucket(capacity: int, tokens: real, last: real)

  function Min(x: real, y: real): real { if x <= y then x else y }

  /** Tokens earned over `elapsed` seconds: each unit of capacity earns one a minute.
      RefillIsRate shows that this is the code's `elapsed * (capacity / 60)`. */
  function Refill(capacity: int, elapsed: real): real
    decreases if capacity < 0 then -capacity else capacity
  {
    if capacity == 0 then 0.0
    else if capacity > 0 then Refill(capacity - 1, elapsed) + elapsed / 60.0
    else Refill(capacity + 1, elapsed) - elapsed / 60.0
  }

  function Full(capacity: int, now: real): Bucket { Bucket(capacity, capacity as real, now) }

  function Level(b: Bucket, now: real): real {
    Min(b.capacity as real, b.tokens + Refill(b.capacity, now - b.last))
  }

  predicate Admits(b: Bucket, now: real) { Level(b, now) >= 1.0 }

  function Consumed(b: Bucket, now: real): Bucket {
    b.(tokens := if Admits(b, now) then Level(b, now) - 1.0 else Level(b, now), last := now)
  }

  // ----- The objects ---------------------------------------------------------------------

  class TokenBucket {
    const capacity: int
    const refillRate: real
    var tokens: real
    var lastRefill: real

    ghost predicate Valid() { refillRate == capacity as real / 60.0 }

    ghost function State(): Bucket
      reads this
    {
      Bucket(capacity, tokens, lastRefill)
    }

    constructor (capacity: int, now: real)
      ensures Valid() && State() == Full(capacity, now)
    {
      this.capacity := capacity;
      this.tokens := capacity as real;
      this.refillRate := capacity as real / 60.0;
      this.lastRefill := now;
    }

    method Consume(now: real) returns (ok: bool)
      requires Valid()
      modifies this
      ensures ok == Admits(old(State()), now)
      ensures State() == Consumed(old(State()), now)
    {
      var elapsed := now - lastRefill;
      RefillIsRate(capacity, elapsed);
      tokens := Min(capacity as real, tokens + elapsed * refillRate);
      lastRefill := now;
      if tokens >= 1.0 {
        tokens := tokens - 1.0;
        return true;
      }
      return false;
    }
  }

  /** The limiter's buckets as values: an agent without an entry is about to get a full bucket. */
  datatype Limiter = Limiter(ratePerMin: int, buckets: map<AgentId, Bucket>)

  /** `created` is the clock reading of a bucket built by this very call. */
  function BucketFor(l: Limiter, agent: AgentId, created: real): Bucket {
    if agent in l.buckets then l.buckets[agent] else Full(l.ratePerMin, created)
  }

  predicate Allows(l: Limiter, agent: AgentId, created: real, now: real) {
    Admits(BucketFor(l, agent, created), now)
  }

  function Charged(l: Limiter, agent: AgentId, created: real, now: real): Limiter {
    l.(buckets := l.buckets[agent := Consumed(BucketFor(l, agent, created), now)])
  }

  class RateLimiter {
    const ratePerMin: int
    var buckets: map<AgentId, TokenBucket>
    ghost var Repr: set<object>

    ghost predicate Owned()
      reads this
    {
      this in Repr && forall a :: a in buckets ==> buckets[a] in Repr
    }

    ghost predicate Valid()
      reads this, Repr
    {
      && Owned()
      && (forall a :: a in buckets ==> buckets[a].Valid())
      && (forall a, b :: a in buckets && b in buckets && a != b ==> buckets[a] != buckets[b])
    }

    ghost function State(): Limiter
      requires Owned()
      reads this, Repr
    {
      Limiter(ratePerMin, map a | a in buckets :: buckets[a].State())
    }

    constructor (ratePerMin: int)
      ensures Valid() && fresh(Repr) && State() == Limiter(ratePerMin, map[])
    {
      this.ratePerMin := ratePerMin;
      this.buckets := map[];
      this.Repr := {this};
    }

    /** The `defaultdict` lookup: a missing agent is given a full bucket first. */
    method BucketOf(agent: AgentId, created: real) returns (bucket: TokenBucket)
      requires Valid()
      modifies this
      ensures Valid() && fresh(Repr - old(Repr)) && bucket in Repr
      ensures agent in buckets && buckets == old(buckets)[agent := bucket] && bucket.Valid()
      ensures forall a :: a in buckets && a != agent ==> buckets[a] != bucket
      ensures bucket.State() == BucketFor(old(State()), agent, created)
    {
      if agent !in buckets {
        bucket := new TokenBucket(ratePerMin, created);
        buckets := buckets[agent := bucket];
        Repr := Repr + {bucket};
      }
      bucket := buckets[agent];
    }

    method Allow(agent: AgentId, created: real, now: real) returns (ok: bool)
      requires Valid()
      modifies Repr
      ensures Valid() && fresh(Repr - old(Repr))
      ensures ok == Allows(old(State()), agent, created, now)
      ensures State() == Charged(old(State()), agent, created, now)
    {
      ghost var before := State();
      var bucket := BucketOf(agent, created);
      assert forall a :: a in before.buckets && a != agent ==> buckets[a].State() == before.buckets[a];
      ok := bucket.Consume(now);
    }
  }

  // ----- Runs of one bucket --------------------------------------------------------------

  /** One bucket and the clock readings of all the calls made on it. */
  datatype Run = Run(capacity: int, created: real, times: seq<real>) {

    /** The clock is monotonic. */
    ghost predicate Ordered() {
      && (forall i :: 0 <= i < |times| ==> created <= times[i])
      && (forall i, j :: 0 <= i <= j < |times| ==> times[i] <= times[j])
    }

    ghost function At(n: nat): Bucket
      requires n <= |times|
    {
      if n == 0 then Full(capacity, created) else Consumed(At(n - 1), times[n - 1])
    }

    ghost predicate Allowed(n: nat)
      requires n < |times|
    {
      Admits(At(n), times[n])
    }

    ghost function Decisions(): seq<bool> {
      seq(|times|, n requires 0 <= n < |times| => Allowed(n))
    }

    /** What the window that opens at call `k` leaves for call `n`, if `admitted` calls of
        k .. n-1 went through: the capacity, plus the refill since, less those calls. */
    ghost function Slack(k: nat, n: nat, admitted: nat): real
      requires k < |times| && n < |times|
    {
      capacity as real + Refill(capacity, times[n] - times[k]) - admitted as real
    }
  }

  /** How many calls of i .. j-1 a list of decisions admits. */
  function Admitted(d: seq<bool>, i: nat, j: nat): nat
    requires i <= j <= |d|
  {
    if i == j then 0 else Admitted(d, i, j - 1) + if d[j - 1] then 1 else 0
  }

  lemma {:induction false} AdmittedSplit(d: seq<bool>, i: nat, k: nat, j: nat)
    requires i <= k <= j <= |d|
    ensures Admitted(d, i, j) == Admitted(d, i, k) + Admitted(d, k, j)
    decreases j
  {
    if k < j {
      AdmittedSplit(d, i, k, j - 1);
    }
  }

  lemma {:induction false} RefillIsRate(capacity: int, elapsed: real)
    ensures Refill(capacity, elapsed) == elapsed * (capacity as real / 60.0)
    decreases if capacity < 0 then -capacity else capacity
  {
    if capacity > 0 {
      RefillIsRate(capacity - 1, elapsed);
    } else if capacity < 0 {
      RefillIsRate(capacity + 1, elapsed);
    }
  }

  lemma {:induction false} RefillAdds(capacity: int, a: real, b: real, c: real)
    ensures Refill(capacity, c - a) == Refill(capacity, b - a) + Refill(capacity, c - b)
    ensures Refill(capacity, 0.0) == 0.0
    ensures capacity >= 0 && a <= b ==> Refill(capacity, b - a) >= 0.0
    decreases if capacity < 0 then -capacity else capacity
  {
    if capacity > 0 {
      RefillAdds(capacity - 1, a, b, c);
    } else if capacity < 0 {
      RefillAdds(capacity + 1, a, b, c);
    }
  }

  lemma RefillGrows(capacity: int, a: real, b: real, c: real)
    requires capacity >= 0 && a <= b <= c
    ensures 0.0 <= Refill(capacity, b - a) <= Refill(capacity, c - a)
  {
    RefillAdds(capacity, a, b, c);
    RefillAdds(capacity, b, c, c);
  }

  /** A bucket of capacity below one never admits. */
  lemma NothingWithoutCapacity(r: Run, n: nat)
    requires n < |r.times| && r.capacity < 1
    ensures !r.Allowed(n)
  {
    assert Level(r.At(n), r.times[n]) <= r.capacity as real by { CapacityKept(r, n); }
  }

  lemma {:induction false} CapacityKept(r: Run, n: nat)
    requires n <= |r.times|
    ensures r.At(n).capacity == r.capacity
    ensures r.At(n).last == if n == 0 then r.created else r.times[n - 1]
  {
    if n > 0 {
      CapacityKept(r, n - 1);
    }
  }

  lemma LevelStep(r: Run, n: nat)
    requires 1 <= n < |r.times|
    ensures Level(r.At(n), r.times[n]) == Min(r.capacity as real,
      Level(r.At(n - 1), r.times[n - 1]) - (if r.Allowed(n - 1) then 1.0 else 0.0)
      + Refill(r.capacity, r.times[n] - r.times[n - 1]))
  {
    CapacityKept(r, n);
    ConsumedLevel(r.At(n - 1), r.times[n - 1], r.times[n]);
  }

  /** A call at `now` followed by one at `later`, whatever the bucket. */
  lemma ConsumedLevel(b: Bucket, now: real, later: real)
    ensures Level(Consumed(b, now), later) == Min(b.capacity as real,
      Level(b, now) - (if Admits(b, now) then 1.0 else 0.0) + Refill(b.capacity, later - now))
  {
  }

  lemma SlackStep(r: Run, d: seq<bool>, i: nat, n: nat)
    requires i < n < |r.times| == |d|
    ensures r.Slack(i, n, Admitted(d, i, n))
         == r.Slack(i, n - 1, Admitted(d, i, n - 1)) - (if d[n - 1] then 1.0 else 0.0)
            + Refill(r.capacity, r.times[n] - r.times[n - 1])
  {
    RefillAdds(r.capacity, r.times[i], r.times[n - 1], r.times[n]);
  }

  /** The level at call `n` is the least slack over all windows that end there: it is below
      every one of them and equal to the one named by `k`. */
  lemma {:induction false} LevelIsLeastSlack(r: Run, n: nat) returns (k: nat)
    requires r.Ordered() && n < |r.times| && r.capacity >= 1
    ensures forall i :: 0 <= i <= n ==>
      Level(r.At(n), r.times[n]) <= r.Slack(i, n, Admitted(r.Decisions(), i, n))
    ensures k <= n && Level(r.At(n), r.times[n]) == r.Slack(k, n, Admitted(r.Decisions(), k, n))
  {
    hide Refill;
    var d := r.Decisions();
    RefillAdds(r.capacity, 0.0, 0.0, 0.0);
    if n == 0 {
      FirstLevel(r);
      return 0;
    }
    var before := LevelIsLeastSlack(r, n - 1);
    LevelStep(r, n);
    SlackStep(r, d, before, n);
    var least := r.Slack(before, n, Admitted(d, before, n));
    forall i | 0 <= i <= n
      ensures Level(r.At(n), r.times[n]) <= r.Slack(i, n, Admitted(d, i, n))
    {
      if i < n {
        SlackStep(r, d, i, n);
      }
    }
    k := if least <= r.capacity as real then before else n;
  }

  lemma FirstLevel(r: Run)
    requires r.Ordered() && 0 < |r.times| && r.capacity >= 0
    ensures Level(r.At(0), r.times[0]) == r.capacity as real
  {
    RefillAdds(r.capacity, r.created, r.times[0], r.times[0]);
  }

  /** The decision rule stated without any bucket: admit call `n` when every window that ends
      at it, opened by an earlier call or by `n` itself, still has room for one more. */
  ghost predicate WindowsAllow(r: Run, d: seq<bool>, n: nat)
    requires n < |r.times| && |d| == |r.times|
  {
    forall k :: 0 <= k <= n ==> r.Slack(k, n, Admitted(d, k, n)) >= 1.0
  }

  lemma BucketIsExact(r: Run, n: nat)
    requires r.Ordered() && n < |r.times|
    ensures r.Allowed(n) <==> WindowsAllow(r, r.Decisions(), n)
  {
    if r.capacity < 1 {
      NothingWithoutCapacity(r, n);
      RefillAdds(r.capacity, 0.0, 0.0, 0.0);
      assert r.Slack(n, n, Admitted(r.Decisions(), n, n)) < 1.0;
    } else {
      var k := LevelIsLeastSlack(r, n);
      assert r.Slack(k, n, Admitted(r.Decisions(), k, n)) == Level(r.At(n), r.times[n]);
    }
  }

  /** Any decisions that keep to the window rule wherever they admit. */
  ghost predicate RespectsWindows(r: Run, d: seq<bool>) {
    |d| == |r.times| && forall n :: 0 <= n < |d| && d[n] ==> WindowsAllow(r, d, n)
  }

  lemma AdmissionHasRoom(r: Run, i: nat, j: nat)
    requires r.Ordered() && i <= j < |r.times| && r.Allowed(j)
    ensures r.Slack(i, j, Admitted(r.Decisions(), i, j)) >= 1.0
  {
    BucketIsExact(r, j);
  }

  lemma AdmissionCounts(r: Run, i: nat, j: nat)
    requires i <= j < |r.times|
    ensures Admitted(r.Decisions(), i, j + 1)
         == Admitted(r.Decisions(), i, j) + if r.Allowed(j) then 1 else 0
  {
    assert r.Decisions()[j] == r.Allowed(j);
  }

  /** No window admits more than the capacity plus its refill. */
  lemma {:induction false} WindowBound(r: Run, i: nat, j: nat)
    requires r.Ordered() && r.capacity >= 0 && i <= j < |r.times|
    ensures Admitted(r.Decisions(), i, j + 1) as real
         <= r.capacity as real + Refill(r.capacity, r.times[j] - r.times[i])
    decreases j
  {
    AdmissionCounts(r, i, j);
    if r.Allowed(j) {
      AdmissionHasRoom(r, i, j);
    } else if i < j {
      WindowBound(r, i, j - 1);
      RefillGrows(r.capacity, r.times[i], r.times[j - 1], r.times[j]);
    } else {
      RefillGrows(r.capacity, r.times[i], r.times[j], r.times[j]);
    }
  }

  /** The bucket is optimal: whatever else keeps to the window rule on the same calls has
      admitted no more than the bucket has, at every point of the run. */
  lemma {:induction false} BucketIsOptimal(r: Run, d: seq<bool>, m: nat)
    requires r.Ordered() && RespectsWindows(r, d) && m <= |r.times|
    ensures Admitted(d, 0, m) <= Admitted(r.Decisions(), 0, m)
  {
    if m > 0 {
      var ours, n := r.Decisions(), m - 1;
      BucketIsOptimal(r, d, n);
      if d[n] && !ours[n] {
        BucketIsExact(r, n);
        var k :| 0 <= k <= n && r.Slack(k, n, Admitted(ours, k, n)) < 1.0;
        assert r.Slack(k, n, Admitted(d, k, n)) >= 1.0;
        BucketIsOptimal(r, d, k);
        AdmittedSplit(d, 0, k, n);
        AdmittedSplit(ours, 0, k, n);
      }
    }
  }

  // ----- What "N per minute" does and does not mean -------------------------------------

  /** A full burst at time zero and `more` calls at time `w`. */
  ghost function Burst(capacity: nat, w: real, more: nat): Run {
    Run(capacity, 0.0, seq(capacity + more, i => if i < capacity then 0.0 else w))
  }

  lemma {:induction false} AdmittedAtMost(d: seq<bool>, i: nat, j: nat)
    requires i <= j <= |d|
    ensures Admitted(d, i, j) <= j - i
    ensures (forall k :: i <= k < j ==> d[k]) ==> Admitted(d, i, j) == j - i
    decreases j
  {
    if i < j {
      AdmittedAtMost(d, i, j - 1);
    }
  }

  lemma BurstCallIsAdmitted(capacity: nat, w: real, more: nat, n: nat)
    requires w >= 0.0 && more <= capacity && more as real <= Refill(capacity, w)
    requires n < capacity + more
    ensures Burst(capacity, w, more).Allowed(n)
  {
    var r := Burst(capacity, w, more);
    var d := r.Decisions();
    RefillAdds(capacity, 0.0, 0.0, w);
    forall k | 0 <= k <= n ensures r.Slack(k, n, Admitted(d, k, n)) >= 1.0 {
      AdmittedAtMost(d, k, n);
      assert r.times[n] - r.times[k] == if k < capacity <= n then w else 0.0;
    }
    BucketIsExact(r, n);
  }

  lemma BurstIsAdmitted(capacity: nat, w: real, more: nat)
    requires w >= 0.0 && more <= capacity && more as real <= Refill(capacity, w)
    ensures var r := Burst(capacity, w, more);
      r.Ordered() && Admitted(r.Decisions(), 0, |r.times|) == capacity + more
  {
    var r := Burst(capacity, w, more);
    forall n | 0 <= n < |r.times| ensures r.Decisions()[n] {
      BurstCallIsAdmitted(capacity, w, more, n);
    }
    AdmittedAtMost(r.Decisions(), 0, |r.times|);
  }

  /** A closed window of sixty seconds can admit twice the advertised number of messages. */
  lemma MinuteAdmitsTwiceTheRate(capacity: nat)
    ensures var r := Burst(capacity, 60.0, capacity);
      r.Ordered() && Admitted(r.Decisions(), 0, |r.times|) == 2 * capacity
  {
    RefillIsRate(capacity, 60.0);
    BurstIsAdmitted(capacity, 60.0, capacity);
  }

  ghost predicate AtMostCapacityIn(capacity: int, w: real) {
    forall r: Run, i: nat, j: nat ::
      r.capacity == capacity && r.Ordered() && i <= j < |r.times| && r.times[j] - r.times[i] <= w
      ==> Admitted(r.Decisions(), i, j + 1) <= capacity
  }

  lemma ShortWindowsHoldCapacity(capacity: nat, w: real)
    requires capacity >= 1 && w >= 0.0 && Refill(capacity, w) < 1.0
    ensures AtMostCapacityIn(capacity, w)
  {
    forall r: Run, i: nat, j: nat | r.capacity == capacity && r.Ordered() && i <= j < |r.times|
        && r.times[j] - r.times[i] <= w
      ensures Admitted(r.Decisions(), i, j + 1) <= capacity
    {
      WindowBound(r, i, j);
      RefillGrows(capacity, 0.0, r.times[j] - r.times[i], w);
    }
  }

  lemma LongWindowsDoNot(capacity: nat, w: real)
    requires capacity >= 1 && w >= 0.0 && Refill(capacity, w) >= 1.0
    ensures !AtMostCapacityIn(capacity, w)
  {
    var r := Burst(capacity, w, 1);
    BurstIsAdmitted(capacity, w, 1);
    assert r.times[capacity] - r.times[0] <= w;
    assert Admitted(r.Decisions(), 0, capacity + 1) == capacity + 1;
  }

  /** "At most `capacity` calls in any window of `w` seconds" holds of every run exactly when
      the window is too short for one token to be refilled in it. */
  lemma CapacityPerWindowExactlyWhen(capacity: nat, w: real)
    requires capacity >= 1 && w >= 0.0
    ensures AtMostCapacityIn(capacity, w) <==> Refill(capacity, w) < 1.0
  {
    if Refill(capacity, w) < 1.0 {
      ShortWindowsHoldCapacity(capacity, w);
    } else {
      LongWindowsDoNot(capacity, w);
    }
  }

  // ----- Refused calls leave no trace ----------------------------------------------------

  /** The first `n` elements of `s` with the unwanted ones deleted. */
  function Kept<T>(s: seq<T>, keep: seq<bool>, n: nat): seq<T>
    requires n <= |s| == |keep|
  {
    if n == 0 then []
    else if keep[n - 1] then Kept(s, keep, n - 1) + [s[n - 1]]
    else Kept(s, keep, n - 1)
  }

  lemma {:induction false} KeptOrder(r: Run, keep: seq<bool>, n: nat)
    requires r.Ordered() && n <= |r.times| == |keep|
    ensures forall i :: 0 <= i < |Kept(r.times, keep, n)| ==>
      && r.created <= Kept(r.times, keep, n)[i]
      && forall j :: n <= j < |r.times| ==> Kept(r.times, keep, n)[i] <= r.times[j]
    ensures Run(r.capacity, r.created, Kept(r.times, keep, n)).Ordered()
  {
    if n > 0 {
      KeptOrder(r, keep, n - 1);
    }
  }

  /** A longer run starts like the shorter one. */
  lemma {:induction false} AtPrefix(r: Run, more: seq<real>, n: nat)
    requires n <= |r.times|
    ensures r.(times := r.times + more).At(n) == r.At(n)
  {
    if n > 0 {
      AtPrefix(r, more, n - 1);
    }
  }

  lemma DecisionsSnoc(r: Run, t: real)
    ensures r.(times := r.times + [t]).Decisions() == r.Decisions() + [Admits(r.At(|r.times|), t)]
  {
    forall n | 0 <= n <= |r.times|
      ensures r.(times := r.times + [t]).At(n) == r.At(n)
    {
      AtPrefix(r, [t], n);
    }
  }

  /** A refused call moves the clock of the bucket but not its level at any later time. */
  lemma RefusalKeepsLevel(b: Bucket, now: real, later: real)
    requires b.capacity >= 0 && !Admits(b, now) && now <= later
    ensures Level(Consumed(b, now), later) == Level(b, later)
  {
    RefillAdds(b.capacity, b.last, now, later);
    RefillGrows(b.capacity, now, later, later);
  }

  ghost predicate OnlyRefusedDeleted(r: Run, keep: seq<bool>) {
    |keep| == |r.times| && forall n :: 0 <= n < |keep| && !keep[n] ==> !r.Allowed(n)
  }

  ghost predicate SameLevels(a: Bucket, b: Bucket, from: real) {
    forall t :: from <= t ==> Level(a, t) == Level(b, t)
  }

  lemma {:induction false} DeletingRefused(r: Run, keep: seq<bool>, n: nat)
    requires r.Ordered() && r.capacity >= 0 && OnlyRefusedDeleted(r, keep) && n <= |r.times|
    ensures var thin := Run(r.capacity, r.created, Kept(r.times, keep, n));
      && thin.Decisions() == Kept(r.Decisions(), keep, n)
      && SameLevels(thin.At(|thin.times|), r.At(n), if n == 0 then r.created else r.times[n - 1])
      && thin.At(|thin.times|).capacity == r.capacity
  {
    CapacityKept(r, n);
    if n > 0 {
      DeletingRefused(r, keep, n - 1);
      var thin := Run(r.capacity, r.created, Kept(r.times, keep, n - 1));
      var now := r.times[n - 1];
      CapacityKept(r, n - 1);
      assert r.Decisions()[n - 1] == r.Allowed(n - 1);
      var a, b := thin.At(|thin.times|), r.At(n - 1);
      assert Level(a, now) == Level(b, now);
      if keep[n - 1] {
        DecisionsSnoc(thin, now);
        var thin' := thin.(times := thin.times + [now]);
        assert thin' == Run(r.capacity, r.created, Kept(r.times, keep, n));
        AtPrefix(thin, [now], |thin.times|);
        assert thin'.At(|thin'.times|) == Consumed(a, now);
        assert Consumed(a, now) == Consumed(b, now);
      } else {
        forall t | now <= t ensures Level(a, t) == Level(r.At(n), t) {
          RefusalKeepsLevel(b, now, t);
        }
      }
    }
  }

  lemma {:induction false} KeptOfNone(d: seq<bool>, keep: seq<bool>, n: nat)
    requires n <= |d| == |keep| && forall i :: 0 <= i < |d| ==> !d[i]
    ensures forall i :: 0 <= i < |Kept(d, keep, n)| ==> !Kept(d, keep, n)[i]
  {
    if n > 0 {
      KeptOfNone(d, keep, n - 1);
    }
  }

  lemma {:induction false} KeptLength<S, T>(s: seq<S>, t: seq<T>, keep: seq<bool>, n: nat)
    requires n <= |s| == |t| == |keep|
    ensures |Kept(s, keep, n)| == |Kept(t, keep, n)|
  {
    if n > 0 {
      KeptLength(s, t, keep, n - 1);
    }
  }

  lemma NoneAllowed(r: Run)
    requires r.capacity < 1
    ensures forall n :: 0 <= n < |r.times| ==> !r.Decisions()[n]
  {
    forall n | 0 <= n < |r.times| ensures !r.Decisions()[n] {
      NothingWithoutCapacity(r, n);
    }
  }

  /** Deleting any refused calls from a run changes no other decision. */
  lemma RefusalsAreInvisible(r: Run, keep: seq<bool>)
    requires r.Ordered() && OnlyRefusedDeleted(r, keep)
    ensures Run(r.capacity, r.created, Kept(r.times, keep, |keep|)).Decisions()
         == Kept(r.Decisions(), keep, |keep|)
  {
    if r.capacity < 1 {
      var thin := Run(r.capacity, r.created, Kept(r.times, keep, |keep|));
      NoneAllowed(r);
      NoneAllowed(thin);
      KeptOfNone(r.Decisions(), keep, |keep|);
      KeptLength(r.times, r.Decisions(), keep, |keep|);
    } else {
      DeletingRefused(r, keep, |keep|);
    }
  }

  // ----- Agents do not share a bucket ----------------------------------------------------

  datatype Call = Call(agent: AgentId, created: real, now: real)

  function LimiterAt(ratePerMin: int, calls: seq<Call>, n: nat): Limiter
    requires n <= |calls|
  {
    if n == 0 then Limiter(ratePerMin, map[])
    else var c := calls[n - 1];
      Charged(LimiterAt(ratePerMin, calls, n - 1), c.agent, c.created, c.now)
  }

  function Verdicts(ratePerMin: int, calls: seq<Call>): seq<bool> {
    seq(|calls|, n requires 0 <= n < |calls| =>
      Allows(LimiterAt(ratePerMin, calls, n), calls[n].agent, calls[n].created, calls[n].now))
  }

  function Mine(calls: seq<Call>, agent: AgentId): seq<bool> {
    seq(|calls|, i requires 0 <= i < |calls| => calls[i].agent == agent)
  }

  function Clock(calls: seq<Call>): seq<real> {
    seq(|calls|, i requires 0 <= i < |calls| => calls[i].now)
  }

  /** When the bucket of `agent` was created: at its first call. */
  function Opened(calls: seq<Call>, agent: AgentId): real {
    if calls == [] then 0.0
    else if calls[0].agent == agent then calls[0].created
    else Opened(calls[1..], agent)
  }

  lemma {:induction false} OpenedAtFirst(calls: seq<Call>, agent: AgentId, n: nat)
    requires n < |calls| && calls[n].agent == agent && forall i :: 0 <= i < n ==> calls[i].agent != agent
    ensures Opened(calls, agent) == calls[n].created
  {
    if n > 0 {
      OpenedAtFirst(calls[1..], agent, n - 1);
    }
  }

  /** The calls of `agent` among the first `n`, as a run on a bucket of its own. */
  ghost function OwnRun(ratePerMin: int, calls: seq<Call>, agent: AgentId, n: nat): Run
    requires n <= |calls|
  {
    Run(ratePerMin, Opened(calls, agent), Kept(Clock(calls), Mine(calls, agent), n))
  }

  ghost predicate Called(calls: seq<Call>, agent: AgentId, n: nat)
    requires n <= |calls|
  {
    exists i :: 0 <= i < n && calls[i].agent == agent
  }

  lemma {:induction false} BucketOfOwnRun(ratePerMin: int, calls: seq<Call>, agent: AgentId, n: nat)
    requires n <= |calls|
    ensures var l := LimiterAt(ratePerMin, calls, n);
      var own := OwnRun(ratePerMin, calls, agent, n);
      && l.ratePerMin == ratePerMin
      && (agent in l.buckets <==> Called(calls, agent, n))
      && (agent in l.buckets ==> l.buckets[agent] == own.At(|own.times|))
      && (agent !in l.buckets ==> own.times == [])
  {
    if n > 0 {
      BucketOfOwnRun(ratePerMin, calls, agent, n - 1);
      var c := calls[n - 1];
      if c.agent == agent {
        BucketChargedIsOwn(ratePerMin, calls, n);
        var own := OwnRun(ratePerMin, calls, agent, n - 1);
        AtPrefix(own, [c.now], |own.times|);
        assert OwnRun(ratePerMin, calls, agent, n) == own.(times := own.times + [c.now]);
      }
    }
  }

  /** The bucket the call before step `n` is charged to stands where its agent's own run does. */
  lemma BucketChargedIsOwn(ratePerMin: int, calls: seq<Call>, n: nat)
    requires 1 <= n <= |calls|
    requires var l := LimiterAt(ratePerMin, calls, n - 1);
      var c := calls[n - 1];
      var own := OwnRun(ratePerMin, calls, c.agent, n - 1);
      && l.ratePerMin == ratePerMin
      && (c.agent in l.buckets <==> Called(calls, c.agent, n - 1))
      && (c.agent in l.buckets ==> l.buckets[c.agent] == own.At(|own.times|))
      && (c.agent !in l.buckets ==> own.times == [])
    ensures var c := calls[n - 1];
      var own := OwnRun(ratePerMin, calls, c.agent, n - 1);
      BucketFor(LimiterAt(ratePerMin, calls, n - 1), c.agent, c.created) == own.At(|own.times|)
  {
    if calls[n - 1].agent !in LimiterAt(ratePerMin, calls, n - 1).buckets {
      OpenedAtFirst(calls, calls[n - 1].agent, n - 1);
    }
  }

  /** The next call of an agent is decided as its own run would decide it. */
  lemma OwnDecisionStep(ratePerMin: int, calls: seq<Call>, n: nat)
    requires 1 <= n <= |calls|
    ensures var c := calls[n - 1];
      OwnRun(ratePerMin, calls, c.agent, n).Decisions()
        == OwnRun(ratePerMin, calls, c.agent, n - 1).Decisions() + [Verdicts(ratePerMin, calls)[n - 1]]
  {
    var c := calls[n - 1];
    var own := OwnRun(ratePerMin, calls, c.agent, n - 1);
    BucketOfOwnRun(ratePerMin, calls, c.agent, n - 1);
    BucketChargedIsOwn(ratePerMin, calls, n);
    DecisionsSnoc(own, c.now);
    assert OwnRun(ratePerMin, calls, c.agent, n) == own.(times := own.times + [c.now]);
  }

  lemma DecisionStep(ratePerMin: int, calls: seq<Call>, agent: AgentId, n: nat)
    requires 1 <= n <= |calls|
    ensures OwnRun(ratePerMin, calls, agent, n).Decisions()
      == if Mine(calls, agent)[n - 1]
         then OwnRun(ratePerMin, calls, agent, n - 1).Decisions() + [Verdicts(ratePerMin, calls)[n - 1]]
         else OwnRun(ratePerMin, calls, agent, n - 1).Decisions()
  {
    if calls[n - 1].agent == agent {
      OwnDecisionStep(ratePerMin, calls, n);
    } else {
      assert !Mine(calls, agent)[n - 1];
    }
  }

  lemma DecisionsByLength(ratePerMin: int, calls: seq<Call>, agent: AgentId) returns (grown: seq<seq<bool>>)
    ensures |grown| == |calls| + 1
    ensures forall n :: 0 <= n <= |calls| ==> grown[n] == OwnRun(ratePerMin, calls, agent, n).Decisions()
  {
    grown := seq(|calls| + 1, n requires 0 <= n <= |calls| => OwnRun(ratePerMin, calls, agent, n).Decisions());
  }

  /** A list grown by the kept elements, one step at a time, is the list of kept elements. */
  lemma {:induction false} GrownIsKept<T>(grown: seq<seq<T>>, s: seq<T>, keep: seq<bool>, n: nat)
    requires n <= |s| == |keep| && |grown| == |s| + 1 && grown[0] == []
    requires forall k :: 1 <= k <= |s| ==>
      grown[k] == if keep[k - 1] then grown[k - 1] + [s[k - 1]] else grown[k - 1]
    ensures grown[n] == Kept(s, keep, n)
  {
    if n > 0 {
      GrownIsKept(grown, s, keep, n - 1);
    }
  }

  /** In a run that interleaves many agents, the decisions for one of them are those of its
      own calls on its own full bucket. */
  lemma AgentsAreIsolated(ratePerMin: int, calls: seq<Call>, agent: AgentId)
    ensures OwnRun(ratePerMin, calls, agent, |calls|).Decisions()
         == Kept(Verdicts(ratePerMin, calls), Mine(calls, agent), |calls|)
  {
    var verdicts, mine := Verdicts(ratePerMin, calls), Mine(calls, agent);
    var grown := DecisionsByLength(ratePerMin, calls, agent);
    forall n | 1 <= n <= |calls|
      ensures grown[n] == if mine[n - 1] then grown[n - 1] + [verdicts[n - 1]] else grown[n - 1]
    {
      DecisionStep(ratePerMin, calls, agent, n);
    }
    GrownIsKept(grown, verdicts, mine, |calls|);
  }
}
