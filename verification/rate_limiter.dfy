/**
 * The per-sender slot limiter: one-second windows of counters that expire, a share of each window
 * reserved for urgent traffic, and callers that wait for a later phase when refused.
 */
module RateLimiter {
  import opened Wrappers

  datatype TrafficClass = Otp | Transactional | Marketing

  const WINDOW_MS: nat := 1000
  const TTL_MS: nat := 2000

  // ----- configuration -----

  datatype Shares = Shares(transactional: real, marketing: real)

  function Share(configured: Option<real>, fallback: real): real
  {
    if configured.Some? && 0.0 < configured.value <= 1.0 then configured.value else fallback
  }

  /** `reservationShares`: shares that leave less than a tenth are replaced by the defaults. */
  function ReservationShares(transactional: Option<real>, marketing: Option<real>): (s: Shares)
    ensures s.transactional > 0.0 && s.marketing > 0.0 && s.transactional + s.marketing <= 0.9
  {
    var t, m := Share(transactional, 0.6), Share(marketing, 0.2);
    if t + m > 0.9 then Shares(0.6, 0.2) else Shares(t, m)
  }

  function ReservationWindowMs(configured: Option<real>): (ms: nat)
    ensures ms <= 950
  {
    if configured.Some? && 0.0 <= configured.value <= 950.0 then configured.value.Floor else 700
  }

  function SenderLimit(configured: Option<real>, fallback: real): (limit: nat)
    ensures limit >= 1
  {
    var candidate := if configured.Some? then configured.value else fallback;
    if candidate > 0.0 then if candidate.Floor >= 1 then candidate.Floor else 1 else 75
  }

  /** A share of the limit in whole slots, before the clamp to at least one. */
  function WholeSlots(limit: nat, share: real): int
  {
    (limit as real * share).Floor
  }

  function ReservedClassLimit(limit: nat, shares: Shares, class_: TrafficClass): int
  {
    match class_
    case Otp => limit
    case Transactional => if WholeSlots(limit, shares.transactional) > 1 then WholeSlots(limit, shares.transactional) else 1
    case Marketing => if WholeSlots(limit, shares.marketing) > 1 then WholeSlots(limit, shares.marketing) else 1
  }

  datatype Config = Config(limit: nat, shares: Shares, reservationWindowMs: nat)

  function ClassLimit(c: Config, class_: TrafficClass, reading: nat): int
  {
    if reading % WINDOW_MS >= c.reservationWindowMs then c.limit else ReservedClassLimit(c.limit, c.shares, class_)
  }

  // ----- the counters in Redis -----

  datatype Counter = Counter(count: nat, expiresAt: nat)

  datatype Key = TotalKey(window: nat) | ClassKey(window: nat, class_: TrafficClass)

  type Counters = map<Key, Counter>

  function Get(counters: Counters, key: Key, at: nat): nat
  {
    if key in counters && counters[key].expiresAt > at then counters[key].count else 0
  }

  function Incremented(counters: Counters, key: Key, at: nat, ttl: nat): Counters
  {
    if Get(counters, key, at) > 0 then counters[key := counters[key].(count := counters[key].count + 1)]
    else counters[key := Counter(1, at + ttl)]
  }

  predicate HasSlot(counters: Counters, window: nat, class_: TrafficClass, at: nat, limit: int, classLimit: int)
  {
    Get(counters, TotalKey(window), at) < limit && Get(counters, ClassKey(window, class_), at) < classLimit
  }

  function Taken(counters: Counters, window: nat, class_: TrafficClass, at: nat): Counters
  {
    Incremented(Incremented(counters, TotalKey(window), at, TTL_MS), ClassKey(window, class_), at, TTL_MS)
  }

  class RedisStore {
    var counters: Counters

    /** GET: an expired key reads as zero. */
    method Read(key: Key, at: nat) returns (count: nat)
      ensures count == Get(counters, key, at)
    {
      if key !in counters || counters[key].expiresAt <= at {
        return 0;
      }
      return counters[key].count;
    }

    /** INCR, with PEXPIRE when the count is new. */
    method Increment(key: Key, at: nat, ttl: nat)
      modifies this
      ensures counters == Incremented(old(counters), key, at, ttl)
    {
      var count := Read(key, at);
      if count == 0 {
        counters := counters[key := Counter(1, at + ttl)];
      } else {
        counters := counters[key := counters[key].(count := count + 1)];
      }
    }

    /** The reservation script: both limits are checked before either counter moves. */
    method ReserveSlot(window: nat, class_: TrafficClass, at: nat, limit: int, classLimit: int) returns (accepted: bool)
      modifies this
      ensures accepted == HasSlot(old(counters), window, class_, at, limit, classLimit)
      ensures counters == if accepted then Taken(old(counters), window, class_, at) else old(counters)
    {
      var total := Read(TotalKey(window), at);
      var classCurrent := Read(ClassKey(window, class_), at);
      if total >= limit || classCurrent >= classLimit {
        return false;
      }
      Increment(TotalKey(window), at, TTL_MS);
      Increment(ClassKey(window, class_), at, TTL_MS);
      return true;
    }
  }

  // ----- waiting -----

  /** Two phases a window: the reserved one and the shared one. */
  function Phase(c: Config, reading: nat): nat
  {
    2 * (reading / WINDOW_MS) + if reading % WINDOW_MS >= c.reservationWindowMs then 1 else 0
  }

  function Delay(c: Config, reading: nat): (ms: nat)
    requires c.reservationWindowMs <= 950
    ensures ms >= 25
  {
    var elapsed := reading % WINDOW_MS;
    var wait: int := if elapsed < c.reservationWindowMs then c.reservationWindowMs - elapsed + 5 else WINDOW_MS - elapsed + 5;
    if wait > 25 then wait else 25
  }

  /** A timer never fires early, so a refused caller comes back in a later phase. */
  lemma NextAttemptIsLater(c: Config, reading: nat, next: nat)
    requires c.reservationWindowMs <= 950 && next >= reading + Delay(c, reading)
    ensures Phase(c, next) > Phase(c, reading)
  {
    var w, e := reading / WINDOW_MS, reading % WINDOW_MS;
    assert reading == WINDOW_MS * w + e;
    if e < c.reservationWindowMs {
      assert next >= WINDOW_MS * w + c.reservationWindowMs + 5;
      assert next / WINDOW_MS >= w;
    } else {
      assert next >= WINDOW_MS * (w + 1) + 5;
      assert next / WINDOW_MS >= w + 1;
    }
  }

  ghost predicate Waits(c: Config, readings: seq<nat>)
    requires c.reservationWindowMs <= 950
  {
    forall i :: 0 < i < |readings| ==> readings[i] >= readings[i - 1] + Delay(c, readings[i - 1])
  }

  /** `waitForOutboundSlot`: however often a caller is refused, it asks at most once in a phase. */
  lemma {:induction false} OneAttemptPerPhase(c: Config, readings: seq<nat>, i: nat, j: nat)
    requires c.reservationWindowMs <= 950 && Waits(c, readings) && i < j < |readings|
    ensures Phase(c, readings[i]) < Phase(c, readings[j])
    decreases j
  {
    hide Phase, Delay;
    NextAttemptIsLater(c, readings[j - 1], readings[j]);
    if i < j - 1 {
      OneAttemptPerPhase(c, readings, i, j - 1);
    }
  }

  // ----- runs -----

  /** A slot request: the caller's clock reading and the time the script ran. */
  datatype Request = Request(reading: nat, at: nat, class_: TrafficClass)

  datatype State = State(clock: nat, counters: Counters, grants: seq<Request>)

  const START := State(0, map[], [])

  function WindowOf(r: Request): nat
  {
    r.reading / WINDOW_MS
  }

  predicate Accepts(c: Config, s: State, r: Request)
  {
    HasSlot(s.counters, WindowOf(r), r.class_, r.at, c.limit, ClassLimit(c, r.class_, r.reading))
  }

  function Handle(c: Config, s: State, r: Request): State
  {
    if Accepts(c, s, r)
    then State(r.at, Taken(s.counters, WindowOf(r), r.class_, r.at), s.grants + [r])
    else s.(clock := r.at)
  }

  /** One clock, and a script that runs less than `late` milliseconds after its window began. */
  predicate Within(s: State, r: Request, late: nat)
  {
    s.clock <= r.at && r.reading <= r.at < WINDOW_MS * WindowOf(r) + late
  }

  predicate AllWithin(c: Config, s: State, requests: seq<Request>, late: nat)
    decreases |requests|
  {
    requests == [] || (Within(s, requests[0], late) && AllWithin(c, Handle(c, s, requests[0]), requests[1..], late))
  }

  /** Every script runs before the counters of its window can expire. */
  predicate AllTimely(c: Config, requests: seq<Request>)
  {
    AllWithin(c, START, requests, TTL_MS)
  }

  function HandleAll(c: Config, s: State, requests: seq<Request>): State
    decreases |requests|
  {
    if requests == [] then s else HandleAll(c, Handle(c, s, requests[0]), requests[1..])
  }

  // ----- counting grants -----

  function Count(grants: seq<Request>, p: Request -> bool): nat
  {
    if grants == [] then 0
    else Count(grants[..|grants| - 1], p) + if p(grants[|grants| - 1]) then 1 else 0
  }

  function InWindow(w: nat): Request -> bool
  {
    (r: Request) => WindowOf(r) == w
  }

  function InClass(w: nat, class_: TrafficClass): Request -> bool
  {
    (r: Request) => WindowOf(r) == w && r.class_ == class_
  }

  /** Granted to a class while its window was still reserved. */
  function Reserved(c: Config, w: nat, class_: TrafficClass): Request -> bool
  {
    (r: Request) => WindowOf(r) == w && r.class_ == class_ && r.reading % WINDOW_MS < c.reservationWindowMs
  }

  lemma CountSnoc(grants: seq<Request>, r: Request, p: Request -> bool)
    ensures Count(grants + [r], p) == Count(grants, p) + if p(r) then 1 else 0
  {
    assert (grants + [r])[..|grants|] == grants;
  }

  lemma {:induction false} CountImplied(grants: seq<Request>, p: Request -> bool, q: Request -> bool)
    requires forall r :: r in grants && p(r) ==> q(r)
    ensures Count(grants, p) <= Count(grants, q)
    decreases |grants|
  {
    if grants != [] {
      CountImplied(grants[..|grants| - 1], p, q);
      assert grants[|grants| - 1] in grants;
    }
  }

  lemma {:induction false} ClassesPartition(grants: seq<Request>, w: nat)
    ensures Count(grants, InWindow(w))
         == Count(grants, InClass(w, Otp)) + Count(grants, InClass(w, Transactional)) + Count(grants, InClass(w, Marketing))
    decreases |grants|
  {
    if grants != [] {
      ClassesPartition(grants[..|grants| - 1], w);
    }
  }

  // ----- the limit -----

  /** While a window's counters can still be asked, they hold exactly its grants. */
  predicate Tracks(counters: Counters, at: nat, key: Key, granted: nat)
  {
    && (at < WINDOW_MS * key.window + TTL_MS ==> Get(counters, key, at) == granted)
    && (key in counters ==> counters[key].count > 0 && counters[key].expiresAt >= WINDOW_MS * key.window + TTL_MS)
  }

  function Granted(grants: seq<Request>, key: Key): nat
  {
    match key
    case TotalKey(w) => Count(grants, InWindow(w))
    case ClassKey(w, class_) => Count(grants, InClass(w, class_))
  }

  ghost predicate Tracked(s: State)
  {
    forall key: Key :: Tracks(s.counters, s.clock, key, Granted(s.grants, key))
  }

  ghost predicate WithinLimits(c: Config, s: State)
  {
    && (forall w: nat :: Count(s.grants, InWindow(w)) <= c.limit)
    && (forall w: nat, class_: TrafficClass ::
          Count(s.grants, Reserved(c, w, class_)) <= Bound(c, class_))
  }

  function Bound(c: Config, class_: TrafficClass): nat
  {
    var reserved := ReservedClassLimit(c.limit, c.shares, class_);
    if reserved < 0 then 0 else reserved
  }

  predicate Counts(r: Request, key: Key)
  {
    match key
    case TotalKey(w) => WindowOf(r) == w
    case ClassKey(w, class_) => WindowOf(r) == w && r.class_ == class_
  }

  lemma GrantedSnoc(grants: seq<Request>, r: Request, key: Key)
    ensures Granted(grants + [r], key) == Granted(grants, key) + if Counts(r, key) then 1 else 0
  {
    hide Count;
    match key
    case TotalKey(w) => CountSnoc(grants, r, InWindow(w));
    case ClassKey(w, class_) => CountSnoc(grants, r, InClass(w, class_));
  }

  /** Time passing loses no count that can still be asked for. */
  lemma TracksLater(counters: Counters, clock: nat, at: nat, key: Key, granted: nat)
    requires Tracks(counters, clock, key, granted) && clock <= at
    ensures Tracks(counters, at, key, granted)
  {
  }

  lemma TakenTracks(counters: Counters, r: Request, key: Key, granted: nat)
    requires Tracks(counters, r.at, key, granted)
    requires r.reading <= r.at < WINDOW_MS * WindowOf(r) + TTL_MS
    ensures Tracks(Taken(counters, WindowOf(r), r.class_, r.at), r.at, key, granted + if Counts(r, key) then 1 else 0)
  {
  }

  lemma TrackedKept(c: Config, s: State, r: Request)
    requires Tracked(s) && Within(s, r, TTL_MS)
    ensures Tracked(Handle(c, s, r))
  {
    hide Tracks, Taken, Granted, Accepts, Counts;
    var t := Handle(c, s, r);
    forall key: Key
      ensures Tracks(t.counters, t.clock, key, Granted(t.grants, key))
    {
      TracksLater(s.counters, s.clock, r.at, key, Granted(s.grants, key));
      if Accepts(c, s, r) {
        TakenTracks(s.counters, r, key, Granted(s.grants, key));
        GrantedSnoc(s.grants, r, key);
      }
    }
  }

  lemma LimitsKept(c: Config, s: State, r: Request)
    requires Tracked(s) && Within(s, r, TTL_MS) && WithinLimits(c, s)
    ensures WithinLimits(c, Handle(c, s, r))
  {
    hide Count, Taken, ReservedClassLimit;
    if Accepts(c, s, r) {
      var w := WindowOf(r);
      TracksLater(s.counters, s.clock, r.at, TotalKey(w), Granted(s.grants, TotalKey(w)));
      TracksLater(s.counters, s.clock, r.at, ClassKey(w, r.class_), Granted(s.grants, ClassKey(w, r.class_)));
      CountImplied(s.grants, Reserved(c, w, r.class_), InClass(w, r.class_));
      forall v: nat
        ensures Count(s.grants + [r], InWindow(v)) <= c.limit
      {
        CountSnoc(s.grants, r, InWindow(v));
      }
      forall v: nat, class_: TrafficClass
        ensures Count(s.grants + [r], Reserved(c, v, class_)) <= Bound(c, class_)
      {
        CountSnoc(s.grants, r, Reserved(c, v, class_));
      }
    }
  }

  lemma {:induction false} LimitsOverRuns(c: Config, s: State, requests: seq<Request>, late: nat)
    requires Tracked(s) && WithinLimits(c, s) && AllWithin(c, s, requests, late) && late <= TTL_MS
    ensures Tracked(HandleAll(c, s, requests)) && WithinLimits(c, HandleAll(c, s, requests))
    decreases |requests|
  {
    hide Tracked, WithinLimits, Handle;
    if requests != [] {
      TrackedKept(c, s, requests[0]);
      LimitsKept(c, s, requests[0]);
      LimitsOverRuns(c, Handle(c, s, requests[0]), requests[1..], late);
    }
  }

  lemma StartIsWithinLimits(c: Config)
    ensures Tracked(START) && WithinLimits(c, START)
  {
  }

  /**
   * In every run a window's total counter is the sum of its class counters and at most the limit,
   * for as long as the counters are asked.
   */
  lemma WindowTotals(c: Config, requests: seq<Request>, w: nat)
    requires AllTimely(c, requests)
    ensures var s := HandleAll(c, START, requests);
            s.clock < WINDOW_MS * w + TTL_MS ==>
              && Get(s.counters, TotalKey(w), s.clock) <= c.limit
              && Get(s.counters, TotalKey(w), s.clock)
                 == Get(s.counters, ClassKey(w, Otp), s.clock) + Get(s.counters, ClassKey(w, Transactional), s.clock)
                    + Get(s.counters, ClassKey(w, Marketing), s.clock)
  {
    hide HandleAll, Count, Get;
    var s := HandleAll(c, START, requests);
    StartIsWithinLimits(c);
    LimitsOverRuns(c, START, requests, TTL_MS);
    ClassesPartition(s.grants, w);
    assert Tracks(s.counters, s.clock, TotalKey(w), Granted(s.grants, TotalKey(w)));
    assert Tracks(s.counters, s.clock, ClassKey(w, Otp), Granted(s.grants, ClassKey(w, Otp)));
    assert Tracks(s.counters, s.clock, ClassKey(w, Transactional), Granted(s.grants, ClassKey(w, Transactional)));
    assert Tracks(s.counters, s.clock, ClassKey(w, Marketing), Granted(s.grants, ClassKey(w, Marketing)));
    assert Count(s.grants, InWindow(w)) <= c.limit;
  }

  // ----- any span of time -----

  /** Slots granted by scripts that ran in a span, both ends included. */
  function GrantedIn(from: nat, length: nat): Request -> bool
  {
    (r: Request) => from <= r.at <= from + length
  }

  /** Whole seconds that cover a length. */
  function Seconds(length: nat): nat
  {
    (length + WINDOW_MS - 1) / WINDOW_MS
  }

  function InWindows(w: nat, n: nat): Request -> bool
  {
    (r: Request) => w <= WindowOf(r) < w + n
  }

  lemma {:induction false} WindowsSplit(grants: seq<Request>, w: nat, n: nat)
    ensures Count(grants, InWindows(w, n + 1)) == Count(grants, InWindows(w, n)) + Count(grants, InWindow(w + n))
    decreases |grants|
  {
    if grants != [] {
      WindowsSplit(grants[..|grants| - 1], w, n);
    }
  }

  lemma {:induction false} NoWindows(grants: seq<Request>, w: nat)
    ensures Count(grants, InWindows(w, 0)) == 0
    decreases |grants|
  {
    if grants != [] {
      NoWindows(grants[..|grants| - 1], w);
    }
  }

  lemma {:induction false} WindowsBound(c: Config, s: State, w: nat, n: nat)
    requires WithinLimits(c, s)
    ensures Count(s.grants, InWindows(w, n)) <= n * c.limit
  {
    hide Count;
    if n == 0 {
      NoWindows(s.grants, w);
    } else {
      WindowsSplit(s.grants, w, n - 1);
      WindowsBound(c, s, w, n - 1);
      assert n * c.limit == (n - 1) * c.limit + c.limit;
    }
  }

  predicate RanWithin(r: Request, late: nat)
  {
    r.reading <= r.at < WINDOW_MS * WindowOf(r) + late
  }

  lemma {:induction false} GrantsRanWithin(c: Config, s: State, requests: seq<Request>, late: nat)
    requires AllWithin(c, s, requests, late) && forall r :: r in s.grants ==> RanWithin(r, late)
    ensures forall r :: r in HandleAll(c, s, requests).grants ==> RanWithin(r, late)
    decreases |requests|
  {
    hide Accepts, Taken;
    if requests != [] {
      GrantsRanWithin(c, Handle(c, s, requests[0]), requests[1..], late);
    }
  }

  /** The first window whose slots can still be granted at a time. */
  function FirstWindow(from: nat, late: nat): nat
  {
    if late <= WINDOW_MS || from < WINDOW_MS then from / WINDOW_MS else from / WINDOW_MS - 1
  }

  lemma SpanWindows(from: nat, length: nat, r: Request, late: nat)
    requires GrantedIn(from, length)(r) && RanWithin(r, late) && late <= TTL_MS
    ensures InWindows(FirstWindow(from, late), Seconds(length) + if late <= WINDOW_MS then 1 else 2)(r)
  {
    var w := WindowOf(r);
    assert WINDOW_MS * w <= r.reading;
    assert from / WINDOW_MS * WINDOW_MS <= from < from / WINDOW_MS * WINDOW_MS + WINDOW_MS;
    assert length <= Seconds(length) * WINDOW_MS;
  }

  /** A span of L milliseconds reaches at most ceil(L / 1000) + 1 windows, and one more if scripts may run in the next window. */
  lemma SpanBound(c: Config, requests: seq<Request>, from: nat, length: nat, late: nat)
    requires AllWithin(c, START, requests, late) && late <= TTL_MS
    ensures Count(HandleAll(c, START, requests).grants, GrantedIn(from, length))
         <= (Seconds(length) + if late <= WINDOW_MS then 1 else 2) * c.limit
  {
    hide HandleAll, Count, AllWithin, RanWithin, Seconds;
    var s, n := HandleAll(c, START, requests), Seconds(length) + if late <= WINDOW_MS then 1 else 2;
    StartIsWithinLimits(c);
    LimitsOverRuns(c, START, requests, late);
    GrantsRanWithin(c, START, requests, late);
    forall r: Request | r in s.grants && GrantedIn(from, length)(r)
      ensures InWindows(FirstWindow(from, late), n)(r)
    {
      SpanWindows(from, length, r, late);
    }
    CountImplied(s.grants, GrantedIn(from, length), InWindows(FirstWindow(from, late), n));
    WindowsBound(c, s, FirstWindow(from, late), n);
  }

  // ----- headroom for one-time passwords -----

  function NonOtpReserved(c: Config, w: nat): Request -> bool
  {
    (r: Request) => WindowOf(r) == w && r.class_ != Otp && r.reading % WINDOW_MS < c.reservationWindowMs
  }

  lemma {:induction false} NonOtpSplit(c: Config, grants: seq<Request>, w: nat)
    ensures Count(grants, NonOtpReserved(c, w))
         == Count(grants, Reserved(c, w, Transactional)) + Count(grants, Reserved(c, w, Marketing))
    decreases |grants|
  {
    if grants != [] {
      NonOtpSplit(c, grants[..|grants| - 1], w);
    }
  }

  /** The most slots that other traffic can hold when the reserved phase of a window ends. */
  function MostNonOtp(c: Config): nat
  {
    var both := Bound(c, Transactional) + Bound(c, Marketing);
    if both < c.limit then both else c.limit
  }

  lemma NonOtpBound(c: Config, requests: seq<Request>, w: nat)
    requires AllTimely(c, requests)
    ensures Count(HandleAll(c, START, requests).grants, NonOtpReserved(c, w)) <= MostNonOtp(c)
  {
    hide HandleAll, Count, Bound;
    var s := HandleAll(c, START, requests);
    StartIsWithinLimits(c);
    LimitsOverRuns(c, START, requests, TTL_MS);
    NonOtpSplit(c, s.grants, w);
    CountImplied(s.grants, NonOtpReserved(c, w), InWindow(w));
    assert Count(s.grants, Reserved(c, w, Transactional)) <= Bound(c, Transactional);
    assert Count(s.grants, Reserved(c, w, Marketing)) <= Bound(c, Marketing);
    assert Count(s.grants, InWindow(w)) <= c.limit;
  }

  lemma SharesScale(l: real, t: real, m: real)
    requires l >= 0.0 && t + m <= 0.9
    ensures l * t + l * m <= l * 0.9
  {
    assert l * t + l * m == l * (t + m);
  }

  lemma WholeSlotsRoundDown(limit: nat, share: real)
    ensures WholeSlots(limit, share) as real <= limit as real * share
  {
  }

  lemma NineTenths(limit: nat, t: real, m: real)
    requires t + m <= 0.9
    ensures 10 * (WholeSlots(limit, t) + WholeSlots(limit, m)) <= 9 * limit
  {
    hide WholeSlots;
    var a, b := WholeSlots(limit, t), WholeSlots(limit, m);
    WholeSlotsRoundDown(limit, t);
    WholeSlotsRoundDown(limit, m);
    SharesScale(limit as real, t, m);
    assert (a + b) as real == a as real + b as real;
    assert (10 * (a + b)) as real <= (9 * limit) as real;
  }

  /** With shares worth at least one slot each, a tenth of the limit is left for one-time passwords. */
  lemma TenthIsLeft(c: Config, requests: seq<Request>, w: nat)
    requires AllTimely(c, requests)
    requires 0.0 < c.shares.transactional && 0.0 < c.shares.marketing && c.shares.transactional + c.shares.marketing <= 0.9
    requires WholeSlots(c.limit, c.shares.transactional) >= 1 && WholeSlots(c.limit, c.shares.marketing) >= 1
    ensures 10 * (c.limit - Count(HandleAll(c, START, requests).grants, NonOtpReserved(c, w))) >= c.limit
  {
    hide HandleAll, Count, AllTimely, WholeSlots;
    NonOtpBound(c, requests, w);
    NineTenths(c.limit, c.shares.transactional, c.shares.marketing);
  }

  function Same(n: nat, r: Request): (rs: seq<Request>)
    ensures |rs| == n
  {
    if n == 0 then [] else [r] + Same(n - 1, r)
  }

  ghost predicate AtStart(c: Config, s: State, t: nat, m: nat)
  {
    && s.clock == 0 && Tracked(s)
    && Count(s.grants, InWindow(0)) == t + m
    && Count(s.grants, InClass(0, Transactional)) == t && Count(s.grants, InClass(0, Marketing)) == m
    && Count(s.grants, NonOtpReserved(c, 0)) == t + m
  }

  /** A request at the very start of a window is granted as long as its class and the sender have slots. */
  lemma GrantAtStart(c: Config, s: State, class_: TrafficClass, t: nat, m: nat)
    requires AtStart(c, s, t, m) && c.reservationWindowMs > 0 && t + m < c.limit
    requires (class_.Transactional? && t < Bound(c, class_)) || (class_.Marketing? && m < Bound(c, class_))
    ensures var r := Request(0, 0, class_);
            && Within(s, r, TTL_MS)
            && if class_.Transactional? then AtStart(c, Handle(c, s, r), t + 1, m) else AtStart(c, Handle(c, s, r), t, m + 1)
  {
    hide Count, Tracked, Taken, Get;
    var r := Request(0, 0, class_);
    assert Tracks(s.counters, 0, TotalKey(0), Granted(s.grants, TotalKey(0))) by {
      TrackedKey(s, TotalKey(0));
    }
    assert Tracks(s.counters, 0, ClassKey(0, class_), Granted(s.grants, ClassKey(0, class_))) by {
      TrackedKey(s, ClassKey(0, class_));
    }
    TrackedKept(c, s, r);
    CountSnoc(s.grants, r, InWindow(0));
    CountSnoc(s.grants, r, InClass(0, Transactional));
    CountSnoc(s.grants, r, InClass(0, Marketing));
    CountSnoc(s.grants, r, NonOtpReserved(c, 0));
  }

  lemma TrackedKey(s: State, key: Key)
    requires Tracked(s)
    ensures Tracks(s.counters, s.clock, key, Granted(s.grants, key))
  {
  }

  lemma {:induction false} FillAtStart(c: Config, s: State, class_: TrafficClass, n: nat, t: nat, m: nat)
    requires AtStart(c, s, t, m) && c.reservationWindowMs > 0 && t + m + n <= c.limit
    requires (class_.Transactional? && t + n <= Bound(c, class_)) || (class_.Marketing? && m + n <= Bound(c, class_))
    ensures var rs := Same(n, Request(0, 0, class_));
            && AllWithin(c, s, rs, TTL_MS)
            && if class_.Transactional? then AtStart(c, HandleAll(c, s, rs), t + n, m) else AtStart(c, HandleAll(c, s, rs), t, m + n)
    decreases n
  {
    hide AtStart, Handle, Within, Bound;
    if n > 0 {
      var r := Request(0, 0, class_);
      GrantAtStart(c, s, class_, t, m);
      if class_.Transactional? {
        FillAtStart(c, Handle(c, s, r), class_, n - 1, t + 1, m);
      } else {
        FillAtStart(c, Handle(c, s, r), class_, n - 1, t, m + 1);
      }
      assert Same(n, r)[1..] == Same(n - 1, r);
    }
  }

  lemma {:induction false} HandleAppend(c: Config, s: State, a: seq<Request>, b: seq<Request>, late: nat)
    requires AllWithin(c, s, a, late) && AllWithin(c, HandleAll(c, s, a), b, late)
    ensures AllWithin(c, s, a + b, late) && HandleAll(c, s, a + b) == HandleAll(c, HandleAll(c, s, a), b)
    decreases |a|
  {
    hide Handle, Within;
    if a == [] {
      assert a + b == b;
    } else {
      assert (a + b)[0] == a[0] && (a + b)[1..] == a[1..] + b;
      HandleAppend(c, Handle(c, s, a[0]), a[1..], b, late);
    }
  }

  lemma BoundIsReached(c: Config) returns (requests: seq<Request>)
    requires c.reservationWindowMs > 0
    ensures AllTimely(c, requests)
    ensures Count(HandleAll(c, START, requests).grants, NonOtpReserved(c, 0)) == MostNonOtp(c)
  {
    hide Handle, Within, Bound, HandleAll, AllWithin, Tracked;
    var t := if Bound(c, Transactional) < c.limit then Bound(c, Transactional) else c.limit;
    var m := if Bound(c, Marketing) < c.limit - t then Bound(c, Marketing) else c.limit - t;
    var first, second := Same(t, Request(0, 0, Transactional)), Same(m, Request(0, 0, Marketing));
    StartIsWithinLimits(c);
    FillAtStart(c, START, Transactional, t, 0, 0);
    FillAtStart(c, HandleAll(c, START, first), Marketing, m, t, 0);
    HandleAppend(c, START, first, second, TTL_MS);
    requests := first + second;
  }

  /** For any limit, however small: a tenth is always left exactly when the clamped shares allow it. */
  lemma TenthIsLeftExactly(c: Config)
    requires c.reservationWindowMs > 0
    ensures (forall requests, w: nat :: AllTimely(c, requests) ==>
               10 * (c.limit - Count(HandleAll(c, START, requests).grants, NonOtpReserved(c, w))) >= c.limit)
            <==> 10 * MostNonOtp(c) <= 9 * c.limit
  {
    hide Count, HandleAll, AllTimely, MostNonOtp;
    forall requests, w: nat | AllTimely(c, requests)
      ensures Count(HandleAll(c, START, requests).grants, NonOtpReserved(c, w)) <= MostNonOtp(c)
    {
      NonOtpBound(c, requests, w);
    }
    var worst := BoundIsReached(c);
    assert AllTimely(c, worst);
  }

  /** With one slot a second and the default shares the clamp hands it to other traffic. */
  lemma OneSlotLeavesNothing(window: nat)
    ensures var c := Config(1, ReservationShares(None, None), window); 10 * MostNonOtp(c) > 9 * c.limit
  {
  }

  // ----- full windows, and late scripts -----

  /** The window of a request holds k slots, all of its class, and its counters expire soon enough. */
  ghost predicate Filling(s: State, r: Request, k: nat)
  {
    && s.clock <= r.at && Tracked(s)
    && Count(s.grants, InWindow(WindowOf(r))) == k && Count(s.grants, InClass(WindowOf(r), r.class_)) == k
    && ExpiresBy(s.counters, TotalKey(WindowOf(r)), r.at + TTL_MS)
    && ExpiresBy(s.counters, ClassKey(WindowOf(r), r.class_), r.at + TTL_MS)
  }

  predicate ExpiresBy(counters: Counters, key: Key, t: nat)
  {
    key in counters ==> counters[key].expiresAt <= t
  }

  lemma TakenExpires(counters: Counters, w: nat, class_: TrafficClass, at: nat, key: Key)
    requires ExpiresBy(counters, key, at + TTL_MS)
    ensures ExpiresBy(Taken(counters, w, class_, at), key, at + TTL_MS)
  {
  }

  lemma GrantOne(c: Config, s: State, r: Request, k: nat)
    requires Filling(s, r, k) && RanWithin(r, TTL_MS) && k < c.limit && k < ClassLimit(c, r.class_, r.reading)
    ensures Filling(Handle(c, s, r), r, k + 1) && Handle(c, s, r).grants == s.grants + [r]
    ensures Handle(c, s, r).clock == r.at
  {
    hide Count, Tracked, Taken, Get, ExpiresBy, ClassLimit;
    var w := WindowOf(r);
    TrackedKey(s, TotalKey(w));
    TrackedKey(s, ClassKey(w, r.class_));
    TracksLater(s.counters, s.clock, r.at, TotalKey(w), k);
    TracksLater(s.counters, s.clock, r.at, ClassKey(w, r.class_), k);
    TrackedKept(c, s, r);
    TakenExpires(s.counters, w, r.class_, r.at, TotalKey(w));
    TakenExpires(s.counters, w, r.class_, r.at, ClassKey(w, r.class_));
    CountSnoc(s.grants, r, InWindow(w));
    CountSnoc(s.grants, r, InClass(w, r.class_));
  }

  /** One class can take every slot that its reading allows it, at any time the window's counters are asked. */
  lemma {:induction false} FillWindow(c: Config, s: State, r: Request, k: nat, n: nat, late: nat)
    requires Filling(s, r, k) && RanWithin(r, late) && late <= TTL_MS
    requires k + n <= c.limit && k + n <= ClassLimit(c, r.class_, r.reading)
    ensures AllWithin(c, s, Same(n, r), late)
    ensures Filling(HandleAll(c, s, Same(n, r)), r, k + n) && HandleAll(c, s, Same(n, r)).grants == s.grants + Same(n, r)
    decreases n
  {
    hide Filling, Handle, ClassLimit;
    if n > 0 {
      FillingClock(s, r, k);
      GrantOne(c, s, r, k);
      FillWindow(c, Handle(c, s, r), r, k + 1, n - 1, late);
      assert Same(n, r)[1..] == Same(n - 1, r);
      assert s.grants + [r] + Same(n - 1, r) == s.grants + Same(n, r);
    } else {
      assert s.grants + Same(0, r) == s.grants;
    }
  }

  lemma FillingClock(s: State, r: Request, k: nat)
    requires Filling(s, r, k)
    ensures s.clock <= r.at
  {
  }

  lemma {:induction false} NoneMatch(grants: seq<Request>, p: Request -> bool)
    requires forall r :: r in grants ==> !p(r)
    ensures Count(grants, p) == 0
    decreases |grants|
  {
    if grants != [] {
      NoneMatch(grants[..|grants| - 1], p);
      assert grants[|grants| - 1] in grants;
    }
  }

  lemma {:induction false} SameMatch(n: nat, r: Request, before: seq<Request>, p: Request -> bool)
    requires p(r)
    ensures Count(before + Same(n, r), p) == Count(before, p) + n
    ensures forall q :: q in Same(n, r) ==> q == r
    decreases n
  {
    hide Count;
    if n == 0 {
      assert before + Same(0, r) == before;
    } else {
      SameMatch(n - 1, r, before + [r], p);
      CountSnoc(before, r, p);
      assert before + [r] + Same(n - 1, r) == before + Same(n, r);
    }
  }

  /** The latest request of each window at or after 1,999 ms: the first two windows are asked at that very time. */
  function Wave(w: nat): (r: Request)
    ensures WindowOf(r) == w && r.class_.Otp?
  {
    var at := if w < 2 then 1999 else WINDOW_MS * w;
    Request(if w == 0 then 999 else at, at, Otp)
  }

  /** No counter of this window or a later one exists yet. */
  predicate NoCounters(counters: Counters, w: nat)
  {
    forall key :: key in counters ==> key.window < w
  }

  ghost predicate Unused(s: State, w: nat)
  {
    && s.clock <= Wave(w).at && Tracked(s) && NoCounters(s.counters, w)
    && forall r :: r in s.grants ==> WindowOf(r) < w
  }

  lemma UnusedIsEmpty(s: State, w: nat)
    requires Unused(s, w)
    ensures Filling(s, Wave(w), 0)
  {
    NoneMatch(s.grants, InWindow(w));
    NoneMatch(s.grants, InClass(w, Otp));
  }

  lemma {:induction false} CountersOfGranted(c: Config, s: State, r: Request, n: nat, w: nat)
    requires NoCounters(s.counters, w) && WindowOf(r) < w
    ensures NoCounters(HandleAll(c, s, Same(n, r)).counters, w)
    decreases n
  {
    hide Accepts;
    if n > 0 {
      assert Same(n, r)[1..] == Same(n - 1, r);
      CountersOfGranted(c, Handle(c, s, r), r, n - 1, w);
    }
  }

  /** After a full window the next one is still untouched. */
  lemma NextIsUnused(c: Config, s: State, w: nat)
    requires Unused(s, w) && Filling(HandleAll(c, s, Same(c.limit, Wave(w))), Wave(w), c.limit)
    requires HandleAll(c, s, Same(c.limit, Wave(w))).grants == s.grants + Same(c.limit, Wave(w))
    ensures Unused(HandleAll(c, s, Same(c.limit, Wave(w))), w + 1)
  {
    hide Count, Tracked, HandleAll;
    assert NoCounters(s.counters, w + 1);
    CountersOfGranted(c, s, Wave(w), c.limit, w + 1);
    SameMatch(c.limit, Wave(w), [], InWindow(w));
  }

  /** Full windows one after the other, every slot granted in the span that starts at 1,999 ms. */
  lemma {:induction false} FillWindows(c: Config, s: State, w: nat, n: nat, length: nat, late: nat) returns (requests: seq<Request>)
    requires Unused(s, w) && late <= TTL_MS
    requires forall v: nat :: w <= v < w + n ==> RanWithin(Wave(v), late) && GrantedIn(1999, length)(Wave(v))
    ensures AllWithin(c, s, requests, late)
    ensures Count(HandleAll(c, s, requests).grants, GrantedIn(1999, length)) == Count(s.grants, GrantedIn(1999, length)) + n * c.limit
    decreases n
  {
    hide Count, Filling, Unused, Wave, RanWithin, Within, Handle;
    if n == 0 {
      requests := [];
    } else {
      var r := Wave(w);
      var first := Same(c.limit, r);
      UnusedIsEmpty(s, w);
      assert RanWithin(Wave(w), late) && GrantedIn(1999, length)(Wave(w));
      FillWindow(c, s, r, 0, c.limit, late);
      SameMatch(c.limit, r, s.grants, GrantedIn(1999, length));
      NextIsUnused(c, s, w);
      var rest := FillWindows(c, HandleAll(c, s, first), w + 1, n - 1, length, late);
      HandleAppend(c, s, first, rest, late);
      requests := first + rest;
      OneMoreWindow(n, c.limit);
    }
  }

  lemma OneMoreWindow(n: nat, limit: nat)
    requires n > 0
    ensures n * limit == (n - 1) * limit + limit
  {
  }

  lemma WavesFit(w: nat, length: nat, late: nat)
    requires w <= Seconds(length) + 1 && (late == TTL_MS || (late == WINDOW_MS && w > 0))
    ensures RanWithin(Wave(w), late) && GrantedIn(1999, length)(Wave(w))
  {
  }

  lemma StartIsUnused(w: nat)
    ensures Unused(START, w)
  {
  }

  /** The span bounds are exact: for every limit and length some run of either kind reaches them. */
  lemma SpanBoundIsReached(c: Config, length: nat, late: nat) returns (requests: seq<Request>)
    requires late == WINDOW_MS || late == TTL_MS
    ensures AllWithin(c, START, requests, late)
    ensures Count(HandleAll(c, START, requests).grants, GrantedIn(1999, length))
         == (Seconds(length) + if late <= WINDOW_MS then 1 else 2) * c.limit
  {
    hide HandleAll, AllWithin, RanWithin, Seconds, Unused, Wave;
    var first: nat, n := if late == TTL_MS then 0 else 1, Seconds(length) + if late <= WINDOW_MS then 1 else 2;
    StartIsUnused(first);
    forall v: nat | first <= v < first + n
      ensures RanWithin(Wave(v), late) && GrantedIn(1999, length)(Wave(v))
    {
      WavesFit(v, length, late);
    }
    requests := FillWindows(c, START, first, n, length, late);
  }

  lemma LateIsAccepted(c: Config, s: State, first: Request, late: Request)
    requires Filling(s, first, c.limit) && first.class_.Otp? && c.limit >= 1
    requires WindowOf(late) == WindowOf(first) && late.class_.Otp? && late.at >= first.at + TTL_MS
    ensures Handle(c, s, late).grants == s.grants + [late]
  {
    hide Count, Tracked;
  }

  /** A script that runs once its counters are gone finds an empty window and lets one too many through. */
  lemma LateScriptOverruns(c: Config, reading: nat, at: nat)
    requires c.limit >= 1 && reading < WINDOW_MS && at >= TTL_MS
    ensures var first, late := Request(0, 0, Otp), Request(reading, at, Otp);
            && AllTimely(c, Same(c.limit, first))
            && HandleAll(c, START, Same(c.limit, first)).clock <= at
            && Count(Handle(c, HandleAll(c, START, Same(c.limit, first)), late).grants, InWindow(0)) == c.limit + 1
  {
    hide Count, HandleAll, AllWithin, Handle, Tracked;
    var first, late := Request(0, 0, Otp), Request(reading, at, Otp);
    var full := HandleAll(c, START, Same(c.limit, first));
    StartIsUnused(0);
    StartIsFilling(first);
    FillWindow(c, START, first, 0, c.limit, TTL_MS);
    FillingCounts(full, first, c.limit);
    LateIsAccepted(c, full, first, late);
    CountSnoc(full.grants, late, InWindow(0));
  }

  lemma StartIsFilling(r: Request)
    ensures Filling(START, r, 0)
  {
  }

  lemma FillingCounts(s: State, r: Request, k: nat)
    requires Filling(s, r, k)
    ensures Count(s.grants, InWindow(WindowOf(r))) == k && s.clock <= r.at
  {
  }

  /**
   * How late scripts may run: every window keeps the limit in all runs whose scripts run less
   * than `late` milliseconds after their window began, if and only if that is at most the
   * counters' time to live.
   */
  lemma LimitHoldsExactly(c: Config, late: nat)
    requires c.limit >= 1
    ensures (forall requests, w: nat :: AllWithin(c, START, requests, late) ==>
               Count(HandleAll(c, START, requests).grants, InWindow(w)) <= c.limit)
            <==> late <= TTL_MS
  {
    hide Count, HandleAll, AllWithin, Tracked;
    if late <= TTL_MS {
      forall requests, w: nat | AllWithin(c, START, requests, late)
        ensures Count(HandleAll(c, START, requests).grants, InWindow(w)) <= c.limit
      {
        StartIsWithinLimits(c);
        LimitsOverRuns(c, START, requests, late);
      }
    } else {
      var requests := OverrunBeyond(c, late);
      assert Count(HandleAll(c, START, requests).grants, InWindow(0)) > c.limit;
    }
  }

  lemma OverrunBeyond(c: Config, late: nat) returns (requests: seq<Request>)
    requires c.limit >= 1 && late > TTL_MS
    ensures AllWithin(c, START, requests, late) && Count(HandleAll(c, START, requests).grants, InWindow(0)) == c.limit + 1
  {
    hide Count, Handle;
    var first, last := Same(c.limit, Request(0, 0, Otp)), Request(0, TTL_MS, Otp);
    LateScriptOverruns(c, 0, TTL_MS);
    StaysWithin(c, START, first, TTL_MS, late);
    var full := HandleAll(c, START, first);
    assert [last][1..] == [] && AllWithin(c, full, [last], late);
    assert HandleAll(c, full, [last]) == Handle(c, full, last);
    hide HandleAll, AllWithin;
    HandleAppend(c, START, first, [last], late);
    requests := first + [last];
  }

  lemma {:induction false} StaysWithin(c: Config, s: State, requests: seq<Request>, late: nat, later: nat)
    requires AllWithin(c, s, requests, late) && late <= later
    ensures AllWithin(c, s, requests, later)
    decreases |requests|
  {
    hide Handle;
    if requests != [] {
      StaysWithin(c, Handle(c, s, requests[0]), requests[1..], late, later);
    }
  }

  // ----- what each class may take -----

  /** Slots of a class that were asked for in the shared phase of a window. */
  function Shared(c: Config, w: nat, class_: TrafficClass): Request -> bool
  {
    (r: Request) => WindowOf(r) == w && r.class_ == class_ && r.reading % WINDOW_MS >= c.reservationWindowMs
  }

  /** The slots that a share of the limit is worth, and never less than one. */
  lemma ReservedPerClass(c: Config, requests: seq<Request>, w: nat)
    requires AllTimely(c, requests)
    ensures var grants := HandleAll(c, START, requests).grants;
            var t, m := (c.limit as real * c.shares.transactional).Floor, (c.limit as real * c.shares.marketing).Floor;
            && Count(grants, Reserved(c, w, Transactional)) <= (if t >= 1 then t else 1)
            && Count(grants, Reserved(c, w, Marketing)) <= (if m >= 1 then m else 1)
            && Count(grants, Reserved(c, w, Otp)) <= c.limit
  {
    hide HandleAll, Count;
    StartIsWithinLimits(c);
    LimitsOverRuns(c, START, requests, TTL_MS);
    var grants := HandleAll(c, START, requests).grants;
    assert Count(grants, Reserved(c, w, Transactional)) <= Bound(c, Transactional);
    assert Count(grants, Reserved(c, w, Marketing)) <= Bound(c, Marketing);
    assert Count(grants, Reserved(c, w, Otp)) <= Bound(c, Otp);
  }

  /** Equal requests fill a window up to what their reading allows. */
  lemma ClassFills(c: Config, r: Request, n: nat)
    requires r.at == r.reading < WINDOW_MS && n <= c.limit && n <= ClassLimit(c, r.class_, r.reading)
    ensures AllTimely(c, Same(n, r)) && HandleAll(c, START, Same(n, r)).grants == Same(n, r)
  {
    hide HandleAll, ClassLimit;
    StartIsFilling(r);
    FillWindow(c, START, r, 0, n, TTL_MS);
    assert [] + Same(n, r) == Same(n, r);
  }

  lemma SameAll(n: nat, r: Request, p: Request -> bool)
    requires p(r)
    ensures Count(Same(n, r), p) == n
  {
    SameMatch(n, r, [], p);
    assert [] + Same(n, r) == Same(n, r);
  }

  /**
   * A number bounds the slots of a class in the reserved phase of every window of every run if and
   * only if it is at least the class's share of the limit, or the limit itself where that is less.
   */
  lemma ReservedSharesExactly(c: Config, class_: TrafficClass, most: nat)
    requires c.reservationWindowMs > 0
    ensures var t, m := (c.limit as real * c.shares.transactional).Floor, (c.limit as real * c.shares.marketing).Floor;
            var share := match class_
                         case Otp => c.limit
                         case Transactional => if t >= 1 then t else 1
                         case Marketing => if m >= 1 then m else 1;
            (forall requests, w: nat :: AllTimely(c, requests) ==>
               Count(HandleAll(c, START, requests).grants, Reserved(c, w, class_)) <= most)
            <==> (if share <= c.limit then share else c.limit) <= most
  {
    ReservedLimitIs(c, class_);
    hide ReservedClassLimit, WholeSlots;
    MostReservedExactly(c, class_, most);
  }

  lemma ReservedLimitIs(c: Config, class_: TrafficClass)
    requires c.reservationWindowMs > 0
    ensures var t, m := (c.limit as real * c.shares.transactional).Floor, (c.limit as real * c.shares.marketing).Floor;
            ClassLimit(c, class_, 0) == match class_
                                        case Otp => c.limit
                                        case Transactional => if t >= 1 then t else 1
                                        case Marketing => if m >= 1 then m else 1
  {
  }

  lemma ReservedAtMost(c: Config, requests: seq<Request>, w: nat, class_: TrafficClass)
    requires c.reservationWindowMs > 0 && AllTimely(c, requests)
    ensures Count(HandleAll(c, START, requests).grants, Reserved(c, w, class_)) <= ClassLimit(c, class_, 0)
  {
    hide HandleAll, Count, WholeSlots;
    StartIsWithinLimits(c);
    LimitsOverRuns(c, START, requests, TTL_MS);
    assert Count(HandleAll(c, START, requests).grants, Reserved(c, w, class_)) <= Bound(c, class_);
  }

  lemma MostReservedExactly(c: Config, class_: TrafficClass, most: nat)
    requires c.reservationWindowMs > 0 && ClassLimit(c, class_, 0) >= 0
    ensures (forall requests, w: nat :: AllTimely(c, requests) ==>
               Count(HandleAll(c, START, requests).grants, Reserved(c, w, class_)) <= most)
            <==> (if ClassLimit(c, class_, 0) <= c.limit then ClassLimit(c, class_, 0) else c.limit) <= most
  {
    hide HandleAll, Count, AllTimely, ClassLimit;
    var r := Request(0, 0, class_);
    var n: nat := if ClassLimit(c, class_, 0) <= c.limit then ClassLimit(c, class_, 0) else c.limit;
    ClassFills(c, r, n);
    SameAll(n, r, Reserved(c, 0, class_));
    assert AllTimely(c, Same(n, r)) && Count(HandleAll(c, START, Same(n, r)).grants, Reserved(c, 0, class_)) == n;
    forall requests, w: nat | AllTimely(c, requests)
      ensures Count(HandleAll(c, START, requests).grants, Reserved(c, w, class_)) <= n
    {
      ReservedAtMost(c, requests, w, class_);
      WithinWindow(c, requests, w, Reserved(c, w, class_));
    }
  }

  /** In the shared phase, any class may take the whole limit, and no more. */
  lemma SharedPhaseExactly(c: Config, class_: TrafficClass, most: nat)
    requires c.reservationWindowMs < WINDOW_MS
    ensures (forall requests, w: nat :: AllTimely(c, requests) ==>
               Count(HandleAll(c, START, requests).grants, Shared(c, w, class_)) <= most)
            <==> c.limit <= most
  {
    hide HandleAll, Count, AllTimely;
    var r := Request(999, 999, class_);
    ClassFills(c, r, c.limit);
    SameAll(c.limit, r, Shared(c, 0, class_));
    assert AllTimely(c, Same(c.limit, r));
    forall requests, w: nat | AllTimely(c, requests)
      ensures Count(HandleAll(c, START, requests).grants, Shared(c, w, class_)) <= c.limit
    {
      WithinWindow(c, requests, w, Shared(c, w, class_));
    }
  }

  lemma WithinWindow(c: Config, requests: seq<Request>, w: nat, p: Request -> bool)
    requires AllTimely(c, requests) && forall r: Request :: p(r) ==> WindowOf(r) == w
    ensures Count(HandleAll(c, START, requests).grants, p) <= c.limit
  {
    hide HandleAll, Count;
    StartIsWithinLimits(c);
    LimitsOverRuns(c, START, requests, TTL_MS);
    CountImplied(HandleAll(c, START, requests).grants, p, InWindow(w));
  }

  // ----- the configuration, and the wait, in numbers -----

  /** Shares between zero and one that leave a tenth are kept; without any, they are 0.6 and 0.2. */
  lemma SharesAreKept(t: real, m: real)
    requires 0.0 < t <= 1.0 && 0.0 < m <= 1.0
    ensures ReservationShares(Some(t), Some(m)) == if t + m <= 0.9 then Shares(t, m) else Shares(0.6, 0.2)
    ensures ReservationShares(None, Some(m)) == Shares(0.6, if m <= 0.3 then m else 0.2)
    ensures ReservationShares(Some(t), None) == if t <= 0.7 then Shares(t, 0.2) else Shares(0.6, 0.2)
    ensures ReservationShares(None, None) == Shares(0.6, 0.2)
  {
  }

  /** Whole milliseconds up to 950 are kept, anything else is 700. */
  lemma WindowIsKept(ms: real)
    ensures 0.0 <= ms <= 950.0 ==> ReservationWindowMs(Some(ms)) as real <= ms < ReservationWindowMs(Some(ms)) as real + 1.0
    ensures !(0.0 <= ms <= 950.0) ==> ReservationWindowMs(Some(ms)) == 700
    ensures ReservationWindowMs(None) == 700
  {
  }

  /** A sender's own limit goes before the default; fractions are cut off, and nothing usable means 75. */
  lemma LimitIsKept(configured: real, fallback: real)
    ensures configured >= 1.0 ==>
              SenderLimit(Some(configured), fallback) as real <= configured < SenderLimit(Some(configured), fallback) as real + 1.0
    ensures 0.0 < configured < 1.0 ==> SenderLimit(Some(configured), fallback) == 1
    ensures configured <= 0.0 ==> SenderLimit(Some(configured), fallback) == 75
    ensures SenderLimit(None, fallback) == SenderLimit(Some(fallback), configured)
  {
  }

  /** A refused caller waits until five milliseconds into the next phase, and at least 25. */
  lemma WaitsIntoNextPhase(c: Config, w: nat, elapsed: nat)
    requires c.reservationWindowMs <= 950 && elapsed < 1000
    ensures var reading := 1000 * w + elapsed;
            var next := reading + Delay(c, reading);
            && (elapsed < c.reservationWindowMs && c.reservationWindowMs - elapsed >= 20 ==>
                  next == 1000 * w + c.reservationWindowMs + 5)
            && (elapsed >= c.reservationWindowMs && elapsed <= 980 ==> next == 1000 * (w + 1) + 5)
            && (elapsed < c.reservationWindowMs && c.reservationWindowMs - elapsed < 20 ==> next == reading + 25)
            && (elapsed >= c.reservationWindowMs && elapsed > 980 ==> next == reading + 25)
  {
    assert (1000 * w + elapsed) % 1000 == elapsed;
  }
}
