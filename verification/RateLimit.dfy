/** The token bucket that limits verification attempts against a credential holder. */
module RateLimit {
  import opened Host
  import opened Arith
  import opened Sequences

  const DEFAULT_LIMIT: u32 := 10
  const MAX_LIMIT: u32 := 1000
  const DEFAULT_WINDOW_SECS: u64 := 60 * 60
  const MIN_WINDOW_SECS: u64 := 60
  const MAX_WINDOW_SECS: u64 := 7 * 24 * 60 * 60

  datatype Limit = Limit(limit: u32, windowSecs: u64, updatedAt: u64)

  datatype Bucket = Bucket(tokens: u32, lastRefillAt: u64)

  datatype State = State(limits: map<Address, Limit>, buckets: map<Address, Bucket>)

  predicate ValidLimit(limit: u32) {
    0 < limit <= MAX_LIMIT
  }

  predicate ValidWindow(windowSecs: u64) {
    MIN_WINDOW_SECS <= windowSecs <= MAX_WINDOW_SECS
  }

  // ---------- refilling ----------

  function Earned(elapsed: nat, limit: u32, window: u64): nat
    requires limit > 0 && window > 0
  {
    MulNonNeg(elapsed, limit);
    elapsed * limit / window
  }

  /** The whole seconds that earning `earned` tokens took. */
  function SecondsFor(earned: nat, limit: u32, window: u64): nat
    requires limit > 0 && window > 0
  {
    MulNonNeg(earned, window);
    earned * window / limit
  }

  lemma SecondsWithinElapsed(elapsed: nat, limit: u32, window: u64)
    requires limit > 0 && window > 0
    ensures SecondsFor(Earned(elapsed, limit, window), limit, window) <= elapsed
  {
    var earned := Earned(elapsed, limit, window);
    DivBounds(elapsed * limit, window);
    DivBounds(earned * window, limit);
    DivMono(earned * window, elapsed * limit, limit);
    DivUnique(elapsed * limit, limit, elapsed);
  }

  /** The bucket at time `now`: tokens earned since the last refill are added, up to the limit. */
  function Refill(b: Bucket, limit: u32, window: u64, now: u64): Bucket
    requires limit > 0 && window > 0
  {
    var elapsed: nat := Max(0, now - b.lastRefillAt);
    var earned := Earned(elapsed, limit, window);
    if b.tokens + earned >= limit then Bucket(limit, now)
    else
      SecondsWithinElapsed(elapsed, limit, window);
      Bucket(b.tokens + earned, b.lastRefillAt + SecondsFor(earned, limit, window))
  }

  /** One attempt on a bucket: it is granted when a token is there, and only then spends one. */
  function Attempt(b: Bucket, limit: u32, window: u64, now: u64): (Bucket, bool)
    requires limit > 0 && window > 0
  {
    var r := Refill(b, limit, window, now);
    if r.tokens == 0 then (b, false) else (r.(tokens := r.tokens - 1), true)
  }

  // ---------- the transitions of the store ----------

  function ConfigOf(s: State, holder: Address): Limit {
    if holder in s.limits then s.limits[holder] else Limit(DEFAULT_LIMIT, DEFAULT_WINDOW_SECS, 0)
  }

  function BucketOf(s: State, holder: Address, now: u64): Bucket {
    if holder in s.buckets then s.buckets[holder] else Bucket(ConfigOf(s, holder).limit, now)
  }

  function SetLimit(s: State, holder: Address, limit: u32, now: u64): (State, Result<Limit>) {
    if !ValidLimit(limit) then (s, Err(InvalidRateLimit))
    else
      var config := ConfigOf(s, holder).(limit := limit, updatedAt := now);
      (State(s.limits[holder := config], s.buckets[holder := Bucket(limit, now)]), Ok(config))
  }

  function SetWindow(s: State, holder: Address, windowSecs: u64, now: u64): (State, Result<Limit>) {
    if !ValidWindow(windowSecs) then (s, Err(InvalidRateLimitWindow))
    else
      var config := ConfigOf(s, holder).(windowSecs := windowSecs, updatedAt := now);
      (s.(limits := s.limits[holder := config]), Ok(config))
  }

  function Consume(s: State, holder: Address, now: u64): (State, Result<u32>)
    requires Configured(s)
  {
    var config := ConfigOf(s, holder);
    var (b, granted) := Attempt(BucketOf(s, holder, now), config.limit, config.windowSecs, now);
    if granted then (s.(buckets := s.buckets[holder := b]), Ok(b.tokens))
    else (s, Err(CredentialRateLimitExceeded))
  }

  /** Every stored configuration is one the setters accept. */
  predicate Configured(s: State) {
    forall h :: h in s.limits ==> ValidLimit(s.limits[h].limit) && ValidWindow(s.limits[h].windowSecs)
  }

  // ---------- refilling: what it keeps ----------

  /** The refill clock never passes `now`, and the bucket never holds more than the limit. */
  lemma RefillStaysBehindClock(b: Bucket, limit: u32, window: u64, now: u64)
    requires limit > 0 && window > 0 && b.lastRefillAt <= now
    ensures b.lastRefillAt <= Refill(b, limit, window, now).lastRefillAt <= now
    ensures Refill(b, limit, window, now).tokens <= limit
  {
    SecondsWithinElapsed(now - b.lastRefillAt, limit, window);
  }

  /** A bucket is full again one window after its refill clock, however empty it was. */
  lemma FullAfterWindow(b: Bucket, limit: u32, window: u64, now: u64)
    requires limit > 0 && window > 0 && b.lastRefillAt + window <= now
    ensures Refill(b, limit, window, now) == Bucket(limit, now)
  {
    DivIsLargest((now - b.lastRefillAt) * limit, window, limit);
    MulMono(window, now - b.lastRefillAt, limit);
  }

  /** Floor division loses nothing over two steps: what the first step's seconds did not pay for
      still counts in the second. */
  lemma EarnedInTwoSteps(e1: nat, e2: nat, limit: u32, window: u64)
    requires limit > 0 && window > 0 && e1 <= e2
    ensures var first := Earned(e1, limit, window);
            var used := SecondsFor(first, limit, window);
            used <= e2 && first + Earned(e2 - used, limit, window) >= Earned(e2, limit, window)
  {
    var first := Earned(e1, limit, window);
    var used := SecondsFor(first, limit, window);
    SecondsWithinElapsed(e1, limit, window);
    DivBounds(first * window, limit);
    var whole := Earned(e2, limit, window);
    DivBounds(e2 * limit, window);
    assert (e2 - used) * limit == e2 * limit - used * limit;
    assert window * (whole - first) == window * whole - first * window;
    DivIsLargest((e2 - used) * limit, window, whole - first);
  }

  /** Polling never loses a fraction of a token: refilling at `t1` and again at `t2` gives at least
      the tokens of refilling once at `t2`. */
  lemma PollingNeverLoses(b: Bucket, limit: u32, window: u64, t1: u64, t2: u64)
    requires limit > 0 && window > 0 && b.lastRefillAt <= t1 <= t2
    ensures Refill(Refill(b, limit, window, t1), limit, window, t2).tokens >= Refill(b, limit, window, t2).tokens
  {
    RefillStaysBehindClock(b, limit, window, t2);
    var once := Refill(b, limit, window, t1);
    if once.tokens < limit {
      EarnedInTwoSteps(t1 - b.lastRefillAt, t2 - b.lastRefillAt, limit, window);
    }
  }

  // ---------- when polling changes nothing ----------

  /** What a refill after `e1` seconds and one at `e2` earn and charge, against one refill at `e2`. */
  ghost predicate StepsAdd(e1: nat, e2: nat, limit: u32, window: u64)
    requires limit > 0 && window > 0 && e1 <= e2
  {
    var first := Earned(e1, limit, window);
    var used := SecondsFor(first, limit, window);
    used <= e2 &&
    var second := Earned(e2 - used, limit, window);
    && first + second == Earned(e2, limit, window)
    && used + SecondsFor(second, limit, window) == SecondsFor(Earned(e2, limit, window), limit, window)
  }

  lemma TwoRefills(b: Bucket, limit: u32, window: u64, t1: u64, t2: u64)
    requires limit > 0 && window > 0 && b.lastRefillAt <= t1 <= t2
    requires Earned(t2 - b.lastRefillAt, limit, window) < limit ==>
               StepsAdd(t1 - b.lastRefillAt, t2 - b.lastRefillAt, limit, window)
    ensures Refill(Refill(b, limit, window, t1), limit, window, t2) == Refill(b, limit, window, t2)
  {
    var e1, e2 := t1 - b.lastRefillAt, t2 - b.lastRefillAt;
    EarnedInTwoSteps(e1, e2, limit, window);
    MulMono(e1, e2, limit);
    DivMono(e1 * limit, e2 * limit, window);
    SecondsWithinElapsed(e1, limit, window);
    assert Earned(e1, limit, window) <= Earned(e2, limit, window);
    hide Earned, SecondsFor;
  }

  /** When the window is a multiple of the limit, or one second more, a token costs a whole number of
      seconds up to a full bucket. */
  lemma WholeSecondsForTokens(tokens: nat, limit: u32, window: u64)
    requires 0 < limit <= window && window % limit <= 1 && tokens < limit
    ensures SecondsFor(tokens, limit, window) == tokens * (window / limit)
  {
    var q, r := window / limit, window % limit;
    assert tokens * window == limit * (tokens * q) + tokens * r by {
      MulAdd(limit * q, r, tokens);
      MulAssoc(tokens, limit, q);
    }
    MulMono(r, 1, tokens);
    MulNonNeg(tokens, r);
    DivUnique(tokens * window, limit, tokens * q);
  }

  /** Up to a full bucket, the seconds elapsed stay below the whole-second price of one token more, but for
      the odd second of the window. */
  lemma NextTokenUnpaid(elapsed: nat, limit: u32, window: u64)
    requires 0 < limit <= window && window % limit <= 1 && Earned(elapsed, limit, window) < limit
    ensures elapsed < (Earned(elapsed, limit, window) + 1) * (window / limit) + window % limit
  {
    var next := Earned(elapsed, limit, window) + 1;
    EarnedBelow(elapsed, next, limit, window);
    DivBounds(window, limit);
    hide Earned;
    UnpaidBelowPrice(elapsed, next, window / limit, window % limit, limit, window);
  }

  lemma UnpaidBelowPrice(elapsed: nat, next: nat, q: nat, r: nat, limit: u32, window: u64)
    requires limit > 0 && window == limit * q + r && next <= limit && elapsed * limit < window * next
    ensures elapsed < next * q + r
  {
    MulAdd(limit * q, r, next);
    MulAssoc(next, limit, q);
    MulMono(next, limit, r);
    MulAdd(next * q, r, limit);
    if elapsed >= next * q + r {
      MulMono(next * q + r, elapsed, limit);
    }
  }

  lemma StepsAddForSlowTokens(e1: nat, e2: nat, limit: u32, window: u64)
    requires 0 < limit <= window && window % limit <= 1 && e1 <= e2
    requires Earned(e2, limit, window) < limit
    ensures StepsAdd(e1, e2, limit, window)
  {
    var q := window / limit;
    var first, whole := Earned(e1, limit, window), Earned(e2, limit, window);
    EarnedInTwoSteps(e1, e2, limit, window);
    EarnedMono(e1, e2, limit, window);
    WholeSecondsForTokens(first, limit, window);
    WholeSecondsForTokens(whole, limit, window);
    var second := Earned(e2 - first * q, limit, window);
    NoTokenMore(e2, first, limit, window);
    hide Earned;
    WholeSecondsForTokens(second, limit, window);
    hide SecondsFor;
    MulAdd(first, second, q);
  }

  lemma EarnedMono(e1: nat, e2: nat, limit: u32, window: u64)
    requires limit > 0 && window > 0 && e1 <= e2
    ensures Earned(e1, limit, window) <= Earned(e2, limit, window)
  {
    MulMono(e1, e2, limit);
    DivMono(e1 * limit, e2 * limit, window);
  }

  lemma NoTokenMore(elapsed: nat, first: nat, limit: u32, window: u64)
    requires 0 < limit <= window && window % limit <= 1
    requires first <= Earned(elapsed, limit, window) < limit && first * (window / limit) <= elapsed
    ensures first + Earned(elapsed - first * (window / limit), limit, window) <= Earned(elapsed, limit, window)
  {
    NextTokenUnpaid(elapsed, limit, window);
    DivBounds(window, limit);
    hide Earned;
    var q, rest := window / limit, elapsed - first * (window / limit);
    var left := Earned(elapsed, limit, window) + 1 - first;
    MulAdd(left, first, q);
    NotPaidByRest(rest, left, q, window % limit, limit, window);
    EarnedBelow(rest, left, limit, window);
  }

  lemma EarnedBelow(elapsed: nat, tokens: nat, limit: u32, window: u64)
    requires limit > 0 && window > 0
    ensures window * tokens <= elapsed * limit <==> tokens <= Earned(elapsed, limit, window)
  {
    DivIsLargest(elapsed * limit, window, tokens);
  }

  lemma NotPaidByRest(rest: nat, left: nat, q: nat, r: nat, limit: u32, window: u64)
    requires limit > 0 && window == limit * q + r && r <= 1 && left > 0 && rest < left * q + r
    ensures window * left > rest * limit
  {
    MulAdd(limit * q, r, left);
    MulAssoc(left, limit, q);
    assert window * left == left * q * limit + left * r;
    MulMono(rest, left * q + r - 1, limit);
    MulAdd(left * q, r - 1, limit);
    if r == 0 {
      assert left * r == 0;
    } else {
      assert left * r == left;
    }
  }

  lemma StepsAddForFastTokens(e1: nat, e2: nat, limit: u32, window: u64)
    requires 0 < window && limit > 0 && limit % window == 0 && e1 <= e2
    ensures StepsAdd(e1, e2, limit, window)
  {
    var k := limit / window;
    TokensPerSecond(e1, limit, window);
    TokensPerSecond(e2, limit, window);
    TokensPerSecond(e2 - e1, limit, window);
    MulSub(e2, e1, k);
  }

  lemma TokensPerSecond(elapsed: nat, limit: u32, window: u64)
    requires 0 < window && limit > 0 && limit % window == 0
    ensures Earned(elapsed, limit, window) == elapsed * (limit / window)
    ensures SecondsFor(elapsed * (limit / window), limit, window) == elapsed
  {
    var k := limit / window;
    MulAssoc(elapsed, window, k);
    assert elapsed * limit == window * (elapsed * k);
    DivUnique(elapsed * limit, window, elapsed * k);
    assert elapsed * k * window == limit * elapsed;
    MulNonNeg(elapsed, k);
    DivUnique(elapsed * k * window, limit, elapsed);
  }

  // ---------- when polling gains ----------

  /** What the seconds charged for `tokens` leave unpaid of their price, in units of a second per limit. */
  function Unpaid(tokens: nat, limit: u32, window: u64): nat
    requires limit > 0 && window > 0
  {
    DivBounds(tokens * window, limit);
    tokens * window - limit * SecondsFor(tokens, limit, window)
  }

  /** Polling gains where an earlier token count leaves at least as much unpaid as a later one, and that
      one leaves something unpaid: then the later count is reached a second too early. */
  lemma GainBetween(first: nat, later: nat, limit: u32, window: u64)
    requires 0 < limit <= window && 0 < first < later < limit
    requires 0 < Unpaid(later, limit, window) <= Unpaid(first, limit, window)
    ensures PollingGains(limit, window)
  {
    var used, t2 := SecondsFor(first, limit, window), SecondsFor(later, limit, window);
    var t1 := used + 1;
    DivBounds(first * window, limit);
    DivBounds(later * window, limit);
    MulAdd(first, 1, window);
    MulSub(later, first, window);
    MulMono(1, later - first, window);
    DivIsLargest(later * window, limit, t1);
    MulAdd(used, 1, limit);
    DivUnique(t1 * limit, window, first);
    assert Earned(t1, limit, window) == first;
    DivIsLargest(t2 * limit, window, later);
    MulMono(later, limit - 1, window);
    MulSub(limit, 1, window);
    DivIsLargest(later * window, limit, window);
    assert t2 < window;
    MulSub(t2, used, limit);
    DivIsLargest((t2 - used) * limit, window, later - first);
    var b := Bucket(0, 0);
    assert Refill(b, limit, window, t1) == Bucket(first, used);
    assert Refill(b, limit, window, t2).tokens < later <= Refill(Bucket(first, used), limit, window, t2).tokens;
  }

  lemma GainForSlowTokens(limit: u32, window: u64)
    requires 0 < limit <= window && window % limit >= 2
    ensures PollingGains(limit, window)
  {
    var r := window % limit;
    var turn := limit / r;
    OneTurn(limit, r);
    UnpaidAt(turn + 1, 1, limit, window);
    var first := if limit % r == 0 then 1 else turn;
    UnpaidAt(first, 0, limit, window);
    hide Unpaid, PollingGains;
    GainBetween(first, turn + 1, limit, window);
  }

  /** Steps of `r` through a circle of `limit` come round after `limit / r` steps. */
  lemma OneTurn(limit: nat, r: nat)
    requires 2 <= r < limit
    ensures var turn := limit / r;
            && 0 < turn < turn + 1 < limit
            && limit <= (turn + 1) * r < 2 * limit
            && (if limit % r == 0 then turn > 1 && (turn + 1) * r - limit == r
                else turn * r < limit < (turn + 1) * r <= limit + turn * r)
  {
    var turn := limit / r;
    DivBounds(limit, r);
    DivIsLargest(limit, r, 1);
    MulMono(2, r, turn);
    MulAdd(turn, 1, r);
  }

  lemma UnpaidAt(tokens: nat, turns: nat, limit: u32, window: u64)
    requires 0 < limit <= window && limit * turns <= tokens * (window % limit) < limit * turns + limit
    ensures Unpaid(tokens, limit, window) == tokens * (window % limit) - limit * turns
  {
    var q, r := window / limit, window % limit;
    MulAdd(limit * q, r, tokens);
    MulAssoc(tokens, limit, q);
    MulAdd(tokens * q, turns, limit);
    DivUnique(tokens * window, limit, tokens * q + turns);
  }

  /** With more than one token a second, and not a whole number, the tokens of a second are not charged for. */
  lemma GainForFastTokens(limit: u32, window: u64)
    requires 0 < window < limit && limit % window != 0
    ensures PollingGains(limit, window)
  {
    var k := limit / window;
    DivBounds(limit, window);
    DivIsLargest(limit, window, 1);
    MulMono(2, window, k);
    DivUnique(1 * limit, window, k);
    DivUnique(k * window, limit, 0);
    var b := Bucket(0, 0);
    assert Refill(b, limit, window, 1) == Bucket(k, 0);
    assert Refill(Bucket(k, 0), limit, window, 1).tokens > k;
  }

  /** Refilling on the way never makes a difference. */
  ghost predicate PollingNeutral(limit: u32, window: u64)
    requires limit > 0 && window > 0
  {
    forall b: Bucket, t1: u64, t2: u64 :: b.lastRefillAt <= t1 <= t2 ==>
      Refill(Refill(b, limit, window, t1), limit, window, t2) == Refill(b, limit, window, t2)
  }

  /** Refilling on the way somewhere yields more tokens. */
  ghost predicate PollingGains(limit: u32, window: u64)
    requires limit > 0 && window > 0
  {
    exists b: Bucket, t1: u64, t2: u64 :: b.lastRefillAt <= t1 <= t2
      && Refill(Refill(b, limit, window, t1), limit, window, t2).tokens > Refill(b, limit, window, t2).tokens
  }

  /** Exactly when polling changes nothing: the window is a multiple of the limit or one second more, or
      the limit is a multiple of the window.  In every other configuration polling can gain tokens. */
  lemma PollingNeutralExactlyWhen(limit: u32, window: u64)
    requires limit > 0 && window > 0
    ensures PollingNeutral(limit, window) <==> window % limit <= 1 || limit % window == 0
    ensures PollingGains(limit, window) <==> !(window % limit <= 1 || limit % window == 0)
  {
    if window % limit <= 1 || limit % window == 0 {
      forall b: Bucket, t1: u64, t2: u64 | b.lastRefillAt <= t1 <= t2
        ensures Refill(Refill(b, limit, window, t1), limit, window, t2) == Refill(b, limit, window, t2)
      {
        PollingNeutralHere(b, limit, window, t1, t2);
      }
    } else if limit <= window {
      GainForSlowTokens(limit, window);
    } else {
      GainForFastTokens(limit, window);
    }
  }

  lemma PollingNeutralHere(b: Bucket, limit: u32, window: u64, t1: u64, t2: u64)
    requires limit > 0 && window > 0 && b.lastRefillAt <= t1 <= t2
    requires window % limit <= 1 || limit % window == 0
    ensures Refill(Refill(b, limit, window, t1), limit, window, t2) == Refill(b, limit, window, t2)
  {
    var e1, e2 := t1 - b.lastRefillAt, t2 - b.lastRefillAt;
    if limit % window == 0 {
      StepsAddForFastTokens(e1, e2, limit, window);
    } else if Earned(e2, limit, window) < limit {
      if window < limit {
        DivUnique(window, limit, 0);
      }
      StepsAddForSlowTokens(e1, e2, limit, window);
    }
    TwoRefills(b, limit, window, t1, t2);
  }

  // ---------- how many attempts a run of a bucket grants ----------

  predicate Within(times: seq<u64>, lo: int, hi: int) {
    forall i :: 0 <= i < |times| ==> lo <= times[i] <= hi
  }

  /** The number of granted attempts when a bucket is tried at each of `times` in turn. */
  function Grants(b: Bucket, limit: u32, window: u64, times: seq<u64>): nat
    requires limit > 0 && window > 0
    decreases |times|
  {
    if times == [] then 0
    else
      var (b', granted) := Attempt(b, limit, window, times[0]);
      (if granted then 1 else 0) + Grants(b', limit, window, times[1..])
  }

  function AfterAll(b: Bucket, limit: u32, window: u64, times: seq<u64>): Bucket
    requires limit > 0 && window > 0
    decreases |times|
  {
    if times == [] then b else AfterAll(Attempt(b, limit, window, times[0]).0, limit, window, times[1..])
  }

  lemma TokensTakeTime(earned: nat, limit: u32, window: u64, secsPerToken: nat)
    requires limit > 0 && limit * secsPerToken <= window
    ensures window > 0 ==> secsPerToken * earned <= SecondsFor(earned, limit, window)
  {
    if window > 0 {
      MulMono(limit * secsPerToken, window, earned);
      MulAssoc(earned, limit, secsPerToken);
      DivIsLargest(earned * window, limit, secsPerToken * earned);
    }
  }

  /** Where a token takes at least `secsPerToken` seconds, the potential `secsPerToken * tokens - clock`
      never rises when the bucket is refilled. */
  lemma RefillPotential(b: Bucket, limit: u32, window: u64, now: u64, secsPerToken: nat)
    requires limit > 0 && window > 0 && limit * secsPerToken <= window
    requires b.tokens <= limit && b.lastRefillAt <= now
    ensures var r := Refill(b, limit, window, now);
            secsPerToken * r.tokens - r.lastRefillAt <= secsPerToken * b.tokens - b.lastRefillAt
  {
    var elapsed := now - b.lastRefillAt;
    var earned := Earned(elapsed, limit, window);
    TokensTakeTime(earned, limit, window, secsPerToken);
    SecondsWithinElapsed(elapsed, limit, window);
    hide Earned, SecondsFor;
    if b.tokens + earned >= limit {
      MulMono(limit - b.tokens, earned, secsPerToken);
      MulSub(limit, b.tokens, secsPerToken);
    } else {
      MulAdd(b.tokens, earned, secsPerToken);
    }
  }

  lemma {:induction false} GrantsBelowPotential(
    b: Bucket, limit: u32, window: u64, times: seq<u64>, end: int, secsPerToken: nat)
    requires limit > 0 && window > 0 && limit * secsPerToken <= window && b.tokens <= limit
    requires Sorted(times) && Within(times, b.lastRefillAt, end) && b.lastRefillAt <= end
    ensures secsPerToken * Grants(b, limit, window, times) <= secsPerToken * b.tokens - b.lastRefillAt + end
    decreases |times|
  {
    if times == [] {
      MulNonNeg(secsPerToken, b.tokens);
    } else {
      RefillPotential(b, limit, window, times[0], secsPerToken);
      RefillStaysBehindClock(b, limit, window, times[0]);
      var r := Refill(b, limit, window, times[0]);
      var (b', granted) := Attempt(b, limit, window, times[0]);
      GrantsBelowPotential(b', limit, window, times[1..], end, secsPerToken);
      hide Refill;
      MulSub(r.tokens, 1, secsPerToken);
      MulAdd(1, Grants(b', limit, window, times[1..]), secsPerToken);
    }
  }

  /** The quota: when the limit is at most the window's seconds, at most `limit` attempts plus one per
      `window / limit` seconds are granted after a full bucket was set. */
  lemma QuotaBound(limit: u32, window: u64, start: u64, secs: nat, times: seq<u64>)
    requires 0 < limit <= window
    requires Sorted(times) && Within(times, start, start + secs)
    ensures window / limit > 0
    ensures Grants(Bucket(limit, start), limit, window, times) <= limit + secs / (window / limit)
  {
    var secsPerToken := window / limit;
    DivIsLargest(window, limit, 1);
    DivBounds(window, limit);
    GrantsBelowPotential(Bucket(limit, start), limit, window, times, start + secs, secsPerToken);
    var n := Grants(Bucket(limit, start), limit, window, times);
    hide Grants;
    MulSub(n, limit, secsPerToken);
    DivIsLargest(secs, secsPerToken, n - limit);
  }

  // ---------- the attempts that are left when tokens come faster than one a second ----------

  /** An upper bound on the attempts still granted at second `now`, when the limit is at least twice
      the window: until the bucket is full, each attempt leaves more tokens than it found. */
  function LeftNow(b: Bucket, limit: u32, now: u64): int {
    if b.lastRefillAt == now then b.tokens else 2 * limit - b.tokens
  }

  lemma AttemptLeavesFewer(b: Bucket, limit: u32, window: u64, now: u64)
    requires window > 0 && 2 * window <= limit && b.tokens <= limit && b.lastRefillAt <= now
    ensures var (b', granted) := Attempt(b, limit, window, now);
            && b'.tokens <= limit && b.lastRefillAt <= b'.lastRefillAt <= now
            && 0 <= LeftNow(b', limit, now) <= LeftNow(b, limit, now) - (if granted then 1 else 0)
  {
    var elapsed := now - b.lastRefillAt;
    RefillStaysBehindClock(b, limit, window, now);
    NothingForNothing(limit, window);
    EarnsTwoASecond(elapsed, limit, window);
    hide Earned, SecondsFor;
  }

  lemma NothingForNothing(limit: u32, window: u64)
    requires limit > 0 && window > 0
    ensures Earned(0, limit, window) == 0 && SecondsFor(0, limit, window) == 0
  {
    DivUnique(0, window, 0);
    DivUnique(0, limit, 0);
  }

  lemma EarnsTwoASecond(elapsed: nat, limit: u32, window: u64)
    requires window > 0 && 2 * window <= limit
    ensures Earned(elapsed, limit, window) >= 2 * elapsed
  {
    MulMono(2 * window, limit, elapsed);
    MulAssoc(elapsed, 2, window);
    DivIsLargest(elapsed * limit, window, 2 * elapsed);
  }

  lemma {:induction false} GrantsBelowLeft(b: Bucket, limit: u32, window: u64, times: seq<u64>, end: int)
    requires window > 0 && 2 * window <= limit && b.tokens <= limit
    requires times != [] && Sorted(times) && Within(times, b.lastRefillAt, end)
    ensures Grants(b, limit, window, times) <= LeftNow(b, limit, times[0]) + 2 * limit * (end - times[0])
    decreases |times|
  {
    var now := times[0];
    AttemptLeavesFewer(b, limit, window, now);
    var (b', granted) := Attempt(b, limit, window, now);
    var rest := times[1..];
    if rest == [] {
      MulNonNeg(2 * limit, end - now);
    } else {
      GrantsBelowLeft(b', limit, window, rest, end);
      hide Attempt;
      var gap := rest[0] - now;
      MulAdd(end - rest[0], gap, 2 * limit);
      if gap > 0 {
        assert LeftNow(b', limit, rest[0]) <= 2 * limit;
        MulMono(1, gap, 2 * limit);
      }
    }
  }

  // ---------- the attempts that never end ----------

  lemma {:induction false} GrantsAppend(b: Bucket, limit: u32, window: u64, xs: seq<u64>, ys: seq<u64>)
    requires limit > 0 && window > 0
    ensures Grants(b, limit, window, xs + ys)
         == Grants(b, limit, window, xs) + Grants(AfterAll(b, limit, window, xs), limit, window, ys)
    decreases |xs|
  {
    if xs == [] {
      assert xs + ys == ys;
    } else {
      GrantsAppend(Attempt(b, limit, window, xs[0]).0, limit, window, xs[1..], ys);
      assert (xs + ys)[1..] == xs[1..] + ys;
    }
  }

  /** A bucket set at second `t` is drained by as many attempts in that second as it holds tokens. */
  lemma {:induction false} Drain(tokens: nat, limit: u32, window: u64, t: u64)
    requires window > 0 && 0 < limit && tokens <= limit
    ensures AfterAll(Bucket(tokens, t), limit, window, Repeated<u64>(t, tokens)) == Bucket(0, t)
  {
    if tokens == 0 {
    } else {
      NothingForNothing(limit, window);
      assert Attempt(Bucket(tokens, t), limit, window, t).0 == Bucket(tokens - 1, t);
      assert Repeated<u64>(t, tokens)[1..] == Repeated<u64>(t, tokens - 1);
      Drain(tokens - 1, limit, window, t);
    }
  }

  /** When the limit lies strictly between the window and twice the window, a second earns one token
      but is never charged for it, so a drained bucket grants every attempt of the next second. */
  lemma {:induction false} NeverCharged(limit: u32, window: u64, t: u64, n: nat)
    requires 1 < window < limit < 2 * window && t < U64_MAX
    ensures Grants(Bucket(0, t), limit, window, Repeated<u64>(t + 1, n)) == n
  {
    if n == 0 {
    } else {
      DivUnique(1 * limit, window, 1);
      DivUnique(1 * window, limit, 0);
      assert Refill(Bucket(0, t), limit, window, t + 1) == Bucket(1, t);
      assert Repeated<u64>(t + 1, n)[1..] == Repeated<u64>(t + 1, n - 1);
      NeverCharged(limit, window, t, n - 1);
    }
  }

  /** The attempts granted within `secs` seconds of a full bucket never exceed `cap`. */
  ghost predicate CapHolds(limit: u32, window: u64, secs: nat, cap: nat)
    requires limit > 0 && window > 0
  {
    forall start: u64, times: seq<u64> :: Sorted(times) && Within(times, start, start + secs) ==>
      Grants(Bucket(limit, start), limit, window, times) <= cap
  }

  ghost predicate HasCap(limit: u32, window: u64, secs: nat)
    requires limit > 0 && window > 0
  {
    exists cap: nat :: CapHolds(limit, window, secs, cap)
  }

  /** The configuration limits attempts at all: every span of time has some cap. */
  ghost predicate Limits(limit: u32, window: u64)
    requires limit > 0 && window > 0
  {
    forall secs: nat :: HasCap(limit, window, secs)
  }

  lemma NoCapInBetween(limit: u32, window: u64, cap: nat)
    requires 1 < window < limit < 2 * window
    ensures !CapHolds(limit, window, 1, cap)
  {
    var full := Bucket(limit, 0);
    var drain, again := Repeated<u64>(0, limit), Repeated<u64>(1, cap + 1);
    Drain(limit, limit, window, 0);
    NeverCharged(limit, window, 0, cap + 1);
    GrantsAppend(full, limit, window, drain, again);
    var times := drain + again;
    assert Sorted(times) && Within(times, 0, 0 + 1);
    assert Grants(full, limit, window, times) > cap;
  }

  lemma CapUpToWindow(limit: u32, window: u64, secs: nat)
    requires 0 < limit <= window
    ensures window / limit > 0
    ensures CapHolds(limit, window, secs, limit + secs / (window / limit))
  {
    DivIsLargest(window, limit, 1);
    forall start: u64, times: seq<u64> | Sorted(times) && Within(times, start, start + secs)
      ensures Grants(Bucket(limit, start), limit, window, times) <= limit + secs / (window / limit)
    {
      QuotaBound(limit, window, start, secs, times);
    }
  }

  lemma CapFromTwiceWindow(limit: u32, window: u64, secs: nat)
    requires window > 0 && 2 * window <= limit
    ensures CapHolds(limit, window, secs, 2 * limit * (secs + 1))
  {
    forall start: u64, times: seq<u64> | Sorted(times) && Within(times, start, start + secs)
      ensures Grants(Bucket(limit, start), limit, window, times) <= 2 * limit * (secs + 1)
    {
      MulNonNeg(2 * limit, secs + 1);
      if times != [] {
        GrantsBelowLeft(Bucket(limit, start), limit, window, times, start + secs);
        MulMono(start + secs - times[0], secs, 2 * limit);
        assert 2 * limit * (secs + 1) == 2 * limit * secs + 2 * limit;
      }
    }
  }

  /** Exactly when the limiter limits: for every configuration the setters accept, attempts in a span
      of time are capped if and only if the limit does not lie strictly between the window's seconds
      and twice that number. */
  lemma LimitsExactlyWhen(limit: u32, window: u64)
    requires ValidLimit(limit) && ValidWindow(window)
    ensures Limits(limit, window) <==> !(window < limit < 2 * window)
  {
    if window < limit < 2 * window {
      forall cap: nat ensures !CapHolds(limit, window, 1, cap) {
        NoCapInBetween(limit, window, cap);
      }
      assert !HasCap(limit, window, 1);
    } else {
      forall secs: nat ensures HasCap(limit, window, secs) {
        if limit <= window {
          CapUpToWindow(limit, window, secs);
        } else {
          CapFromTwiceWindow(limit, window, secs);
        }
      }
    }
  }

  // ---------- the promised quota ----------

  /** At most `limit` attempts more per window are granted after a full bucket, for every span of time. */
  ghost predicate KeepsPromisedQuota(limit: u32, window: u64)
    requires limit > 0 && window > 0
  {
    forall secs: nat :: CapHolds(limit, window, secs, limit + Earned(secs, limit, window))
  }

  /** Where a second earns a whole number of tokens, `tokens - rate * clock` never rises. */
  lemma {:induction false} GrantsBelowRate(b: Bucket, limit: u32, window: u64, times: seq<u64>, end: int)
    requires window > 0 && limit > 0 && limit % window == 0 && b.tokens <= limit
    requires Sorted(times) && Within(times, b.lastRefillAt, end) && b.lastRefillAt <= end
    ensures Grants(b, limit, window, times) <= b.tokens + (limit / window) * (end - b.lastRefillAt)
    decreases |times|
  {
    var rate := limit / window;
    DivIsLargest(limit, window, 0);
    MulNonNeg(rate, end - b.lastRefillAt);
    if times == [] {
    } else {
      var r := Refill(b, limit, window, times[0]);
      var (b', granted) := Attempt(b, limit, window, times[0]);
      RefillStaysBehindClock(b, limit, window, times[0]);
      RefillAtRate(b, limit, window, times[0]);
      hide Refill;
      GrantsBelowRate(b', limit, window, times[1..], end);
      MulSub(end - b.lastRefillAt, end - r.lastRefillAt, rate);
    }
  }

  lemma RefillAtRate(b: Bucket, limit: u32, window: u64, now: u64)
    requires window > 0 && limit > 0 && limit % window == 0 && b.lastRefillAt <= now
    ensures var r := Refill(b, limit, window, now);
            r.tokens <= b.tokens + (limit / window) * (r.lastRefillAt - b.lastRefillAt)
  {
    TokensPerSecond(now - b.lastRefillAt, limit, window);
    hide Earned, SecondsFor;
  }

  lemma PromisedQuotaKept(limit: u32, window: u64)
    requires limit > 0 && window > 0 && (window % limit == 0 || limit % window == 0)
    ensures KeepsPromisedQuota(limit, window)
  {
    hide Grants, Earned;
    forall secs: nat ensures CapHolds(limit, window, secs, limit + Earned(secs, limit, window)) {
      forall start: u64, times: seq<u64> | Sorted(times) && Within(times, start, start + secs)
        ensures Grants(Bucket(limit, start), limit, window, times) <= limit + Earned(secs, limit, window)
      {
        PromiseKeptHere(limit, window, start, secs, times);
      }
    }
  }

  lemma PromiseKeptHere(limit: u32, window: u64, start: u64, secs: nat, times: seq<u64>)
    requires limit > 0 && window > 0 && (window % limit == 0 || limit % window == 0)
    requires Sorted(times) && Within(times, start, start + secs)
    ensures Grants(Bucket(limit, start), limit, window, times) <= limit + Earned(secs, limit, window)
  {
    hide Grants, Earned;
    if limit % window == 0 {
      GrantsBelowRate(Bucket(limit, start), limit, window, times, start + secs);
      TokensPerSecond(secs, limit, window);
    } else {
      WholeWindow(secs, limit, window);
      QuotaBound(limit, window, start, secs, times);
    }
  }

  lemma WholeWindow(secs: nat, limit: u32, window: u64)
    requires limit > 0 && window > 0 && window % limit == 0
    ensures limit <= window && Earned(secs, limit, window) == secs / (window / limit)
  {
    var q := window / limit;
    var n := secs / q;
    if window < limit {
      DivUnique(window, limit, 0);
    }
    DivIsLargest(window, limit, 1);
    DivBounds(secs, q);
    MulAssoc(limit, q, n);
    MulMono(q * n, secs, limit);
    MulMono(secs + 1, q * n + q, limit);
    MulAdd(q * n, q, limit);
    MulAdd(secs, 1, limit);
    DivUnique(secs * limit, window, n);
  }

  /** A bucket grants as many attempts within the second of its clock as it holds tokens. */
  lemma {:induction false} DrainGrants(tokens: nat, limit: u32, window: u64, t: u64, n: nat)
    requires window > 0 && 0 < limit && n <= tokens <= limit
    ensures Grants(Bucket(tokens, t), limit, window, Repeated<u64>(t, n)) == n
  {
    if n == 0 {
    } else {
      NothingForNothing(limit, window);
      assert Attempt(Bucket(tokens, t), limit, window, t) == (Bucket(tokens - 1, t), true);
      assert Repeated<u64>(t, n)[1..] == Repeated<u64>(t, n - 1);
      DrainGrants(tokens - 1, limit, window, t, n - 1);
    }
  }

  lemma RefillNextSecond(tokens: nat, limit: u32, window: u64, t: u64)
    requires 0 < window < limit && limit % window != 0 && tokens <= limit && t < U64_MAX
    ensures limit / window > 0
    ensures var now, gained := t + 1, tokens + limit / window;
            Refill(Bucket(tokens, t), limit, window, now)
            == if gained >= limit then Bucket(limit, now) else Bucket(gained, t)
  {
    var k := limit / window;
    DivBounds(limit, window);
    DivIsLargest(limit, window, 1);
    DivUnique(1 * limit, window, k);
    DivUnique(k * window, limit, 0);
  }

  /** With more than one token a second, and not a whole number, the next second grants as many attempts as a
      full bucket: its tokens come again at every attempt, until the bucket is full. */
  lemma {:induction false} NextSecondGrants(tokens: nat, limit: u32, window: u64, t: u64, n: nat)
    requires 0 < window < limit && limit % window != 0 && tokens <= limit && n <= limit && t < U64_MAX
    ensures Grants(Bucket(tokens, t), limit, window, Repeated<u64>(t + 1, n)) == n
    decreases n
  {
    if n == 0 {
    } else {
      RefillNextSecond(tokens, limit, window, t);
      hide Refill;
      var k, times := limit / window, Repeated<u64>(t + 1, n);
      assert times[1..] == Repeated<u64>(t + 1, n - 1);
      if tokens + k >= limit {
        assert Attempt(Bucket(tokens, t), limit, window, times[0]) == (Bucket(limit - 1, t + 1), true);
        DrainGrants(limit - 1, limit, window, t + 1, n - 1);
      } else {
        assert Attempt(Bucket(tokens, t), limit, window, times[0]) == (Bucket(tokens + k - 1, t), true);
        NextSecondGrants(tokens + k - 1, limit, window, t, n - 1);
      }
    }
  }

  lemma FastBreaksPromise(limit: u32, window: u64)
    requires 0 < window < limit && limit % window != 0
    ensures !KeepsPromisedQuota(limit, window)
  {
    var full := Bucket(limit, 0);
    var drain, again := Repeated<u64>(0, limit), Repeated<u64>(1, limit);
    Drain(limit, limit, window, 0);
    DrainGrants(limit, limit, window, 0, limit);
    NextSecondGrants(0, limit, window, 0, limit);
    GrantsAppend(full, limit, window, drain, again);
    var times := drain + again;
    assert Sorted(times) && Within(times, 0, 0 + 1);
    assert Earned(1, limit, window) < limit by {
      DivIsLargest(1 * limit, window, limit);
      MulMono(2, window, limit);
    }
    assert !CapHolds(limit, window, 1, limit + Earned(1, limit, window));
  }

  /** The times `q + 1`, `2 * q + 1` and so on, from the `i`-th to the `n`-th. */
  function Ticks(q: nat, i: nat, n: nat): (times: seq<u64>)
    requires n * q + 1 <= U64_MAX
    ensures |times| == (if i <= n then n - i else 0)
    ensures forall j :: 0 <= j < |times| ==> times[j] == (i + 1 + j) * q + 1
    decreases n - i
  {
    if i >= n then []
    else
      MulMono(i + 1, n, q);
      [(i + 1) * q + 1] + Ticks(q, i + 1, n)
  }

  /** When the window is not a multiple of the limit, a token is granted one second after its whole seconds,
      and only those are charged: so tokens come at the whole-second price. */
  lemma {:induction false} TicksGrant(limit: u32, window: u64, i: nat, n: nat)
    requires 0 < limit <= window && window % limit != 0 && n * (window / limit) + 1 <= U64_MAX && i <= n
    requires i * (window / limit) <= U64_MAX
    ensures Grants(Bucket(0, i * (window / limit)), limit, window, Ticks(window / limit, i, n)) == n - i
    decreases n - i
  {
    var q := window / limit;
    if i == n {
    } else {
      var b, now := Bucket(0, i * q), (i + 1) * q + 1;
      MulMono(i + 1, n, q);
      MulAdd(i, 1, q);
      TickAttempt(limit, window, i * q);
      hide Attempt;
      assert Ticks(q, i, n)[0] == now && Ticks(q, i, n)[1..] == Ticks(q, i + 1, n);
      TicksGrant(limit, window, i + 1, n);
    }
  }

  lemma TickAttempt(limit: u32, window: u64, clock: u64)
    requires 0 < limit <= window && window % limit != 0 && clock + window / limit + 1 <= U64_MAX
    ensures var q := window / limit;
            Attempt(Bucket(0, clock), limit, window, clock + q + 1) == (Bucket(0, clock + q), true)
  {
    var q := window / limit;
    DivBounds(window, limit);
    DivIsLargest(window, limit, 1);
    MulAdd(q, 1, limit);
    MulMono(1, q, limit);
    DivUnique((q + 1) * limit, window, 1);
    DivUnique(1 * window, limit, q);
  }

  lemma SlowBreaksPromise(limit: u32, window: u64)
    requires ValidLimit(limit) && ValidWindow(window) && limit <= window && window % limit != 0
    ensures !KeepsPromisedQuota(limit, window)
  {
    var n := EnoughTicks(limit, window);
    var q := window / limit;
    DrainAndTicks(limit, window, n);
    TicksWithin(q, n);
    DivBounds(window, limit);
    FewerPromised(n, q, window % limit, limit, window);
    hide Grants, Earned, Ticks;
    var times, secs := Repeated<u64>(0, limit) + Ticks(q, 0, n), n * q + 1;
    DrainFirst(limit, Ticks(q, 0, n), secs);
    CapExceeded(limit, window, times, secs, limit + Earned(secs, limit, window));
  }

  lemma CapExceeded(limit: u32, window: u64, times: seq<u64>, secs: nat, cap: nat)
    requires limit > 0 && window > 0 && Sorted(times) && Within(times, 0, secs)
    requires Grants(Bucket(limit, 0), limit, window, times) > cap
    ensures !CapHolds(limit, window, secs, cap)
  {
    hide Grants;
    assert Within(times, 0, 0 + secs);
  }

  lemma DrainFirst(limit: u32, times: seq<u64>, end: nat)
    requires Sorted(times) && Within(times, 0, end)
    ensures Sorted(Repeated<u64>(0, limit) + times) && Within(Repeated<u64>(0, limit) + times, 0, end)
  {
  }

  lemma DrainAndTicks(limit: u32, window: u64, n: nat)
    requires 0 < limit <= window && window % limit != 0 && n * (window / limit) + 1 <= U64_MAX
    ensures Grants(Bucket(limit, 0), limit, window, Repeated<u64>(0, limit) + Ticks(window / limit, 0, n)) == limit + n
  {
    var drain, ticks := Repeated<u64>(0, limit), Ticks(window / limit, 0, n);
    Drain(limit, limit, window, 0);
    DrainGrants(limit, limit, window, 0, limit);
    TicksGrant(limit, window, 0, n);
    GrantsAppend(Bucket(limit, 0), limit, window, drain, ticks);
    hide Grants, AfterAll, Ticks;
  }

  /** So many ticks that the odd seconds not charged for add up to more than a second per limit. */
  lemma EnoughTicks(limit: u32, window: u64) returns (n: nat)
    requires ValidLimit(limit) && ValidWindow(window) && limit <= window && window % limit != 0
    ensures limit < n * (window % limit) && n * (window / limit) + 1 <= U64_MAX
  {
    var q, r := window / limit, window % limit;
    n := limit / r + 1;
    DivBounds(limit, r);
    MulAdd(limit / r, 1, r);
    MulMono(1, r, limit / r);
    assert n <= limit + 1;
    DivBounds(window, limit);
    MulMono(1, limit, q);
    MulMono(q, MAX_WINDOW_SECS, n);
    MulMono(n, limit + 1, MAX_WINDOW_SECS);
  }

  lemma TicksWithin(q: nat, n: nat)
    requires n * q + 1 <= U64_MAX
    ensures Sorted(Ticks(q, 0, n)) && Within(Ticks(q, 0, n), 0, n * q + 1)
  {
    var times := Ticks(q, 0, n);
    forall i, j | 0 <= i < j < |times| ensures times[i] <= times[j] {
      MulMono(i + 1, j + 1, q);
    }
    forall i | 0 <= i < |times| ensures 0 <= times[i] <= n * q + 1 {
      MulMono(i + 1, n, q);
      MulNonNeg(i + 1, q);
    }
  }

  lemma FewerPromised(n: nat, q: nat, r: nat, limit: u32, window: u64)
    requires limit > 0 && window > 0 && window == limit * q + r && limit < n * r
    ensures Earned(n * q + 1, limit, window) < n
  {
    MulAdd(n * q, 1, limit);
    MulAdd(limit * q, r, n);
    MulAssoc(limit, n, q);
    MulAssoc(n, limit, q);
    EarnedBelow(n * q + 1, n, limit, window);
  }

  /** Exactly when the limiter keeps the promised quota of `limit` attempts more per window: when the window is
      a multiple of the limit, or the limit of the window. */
  lemma PromisedQuotaExactlyWhen(limit: u32, window: u64)
    requires ValidLimit(limit) && ValidWindow(window)
    ensures KeepsPromisedQuota(limit, window) <==> window % limit == 0 || limit % window == 0
  {
    if window % limit == 0 || limit % window == 0 {
      PromisedQuotaKept(limit, window);
    } else if limit <= window {
      SlowBreaksPromise(limit, window);
    } else {
      FastBreaksPromise(limit, window);
    }
  }

  // ---------- the quota from any bucket ----------

  /** A bucket that is not full after a refill is behind the clock by at most one second more than the whole
      seconds of a token. */
  lemma RefillLag(b: Bucket, limit: u32, window: u64, now: u64)
    requires 0 < limit <= window && b.lastRefillAt <= now
    ensures var r := Refill(b, limit, window, now);
            r.tokens < limit ==> now - r.lastRefillAt <= window / limit + 1
  {
    var elapsed := now - b.lastRefillAt;
    var earned := Earned(elapsed, limit, window);
    SecondsWithinElapsed(elapsed, limit, window);
    EarnedBelow(elapsed, earned + 1, limit, window);
    DivBounds(earned * window, limit);
    hide Earned;
    LagBelow(elapsed, SecondsFor(earned, limit, window), earned, limit, window);
    hide SecondsFor;
  }

  lemma LagBelow(elapsed: nat, used: nat, earned: nat, limit: u32, window: u64)
    requires 0 < limit <= window && used <= elapsed
    requires elapsed * limit < window * (earned + 1) && earned * window < limit * used + limit
    ensures elapsed - used <= window / limit + 1
  {
    var q := window / limit;
    DivBounds(window, limit);
    MulAdd(earned, 1, window);
    MulSub(elapsed, used, limit);
    if elapsed - used >= q + 2 {
      MulMono(q + 2, elapsed - used, limit);
      MulAdd(q, 2, limit);
    }
  }

  /** From any bucket, not only a full one, attempts within `secs` seconds are granted at most `limit` times
      plus once per `window / limit` of one second more. */
  lemma {:induction false} QuotaFromAnyBucket(
    b: Bucket, limit: u32, window: u64, start: u64, secs: nat, times: seq<u64>)
    requires 0 < limit <= window && b.tokens <= limit && b.lastRefillAt <= start
    requires Sorted(times) && Within(times, start, start + secs)
    ensures window / limit > 0
    ensures Grants(b, limit, window, times) <= limit + (secs + 1) / (window / limit)
    decreases |times|
  {
    var q := window / limit;
    DivIsLargest(window, limit, 1);
    DivIsLargest(secs + 1, q, 0);
    if times == [] {
    } else {
      var now, end := times[0], start + secs;
      var r := Refill(b, limit, window, now);
      RefillStaysBehindClock(b, limit, window, now);
      RefillLag(b, limit, window, now);
      var (b', granted) := Attempt(b, limit, window, now);
      hide Refill;
      if granted {
        DivBounds(window, limit);
        GrantsBelowPotential(b', limit, window, times[1..], end, q);
        var n := Grants(b, limit, window, times);
        hide Grants, Attempt;
        MulSub(r.tokens, 1, q);
        MulAdd(n - 1, 1, q);
        FullOrLag(r, n, q, limit, now, end);
        MulSub(n, limit, q);
        DivIsLargest(secs + 1, q, n - limit);
      } else {
        QuotaFromAnyBucket(b, limit, window, start, secs, times[1..]);
      }
    }
  }

  lemma FullOrLag(r: Bucket, n: nat, q: nat, limit: u32, now: u64, end: int)
    requires r.tokens <= limit && (r.tokens < limit ==> now - r.lastRefillAt <= q + 1)
    requires r.tokens == limit ==> r.lastRefillAt == now
    requires now <= end && q * n <= q * r.tokens - r.lastRefillAt + end
    ensures q * n <= q * limit + (end - now) + 1
  {
    if r.tokens < limit {
      MulMono(r.tokens, limit - 1, q);
      MulSub(limit, 1, q);
    }
  }

  // ---------- runs of the store ----------

  datatype Op =
    | DoConsume(holder: Address, now: u64)
    | DoSetLimit(holder: Address, now: u64, limit: u32)
    | DoSetWindow(holder: Address, now: u64, windowSecs: u64)

  function Step(s: State, op: Op): (t: State)
    requires Configured(s)
    ensures Configured(t)
  {
    match op
    case DoConsume(holder, now) => Consume(s, holder, now).0
    case DoSetLimit(holder, now, limit) => SetLimit(s, holder, limit, now).0
    case DoSetWindow(holder, now, windowSecs) => SetWindow(s, holder, windowSecs, now).0
  }

  predicate Clocked(ops: seq<Op>, clock: u64) {
    ops == [] || (clock <= ops[0].now && Clocked(ops[1..], ops[0].now))
  }

  /** The number of attempts of `holder` that a run grants. */
  function Granted(s: State, ops: seq<Op>, holder: Address): nat
    requires Configured(s)
    decreases |ops|
  {
    if ops == [] then 0
    else
      (if ops[0].DoConsume? && ops[0].holder == holder && Consume(s, holder, ops[0].now).1.Ok? then 1 else 0)
      + Granted(Step(s, ops[0]), ops[1..], holder)
  }

  /** The times of the attempts of `holder` in a run. */
  function AttemptTimes(ops: seq<Op>, holder: Address): seq<u64> {
    if ops == [] then []
    else (if ops[0].DoConsume? && ops[0].holder == holder then [ops[0].now] else [])
         + AttemptTimes(ops[1..], holder)
  }

  lemma {:induction false} AttemptTimesSorted(ops: seq<Op>, holder: Address, clock: u64, end: int)
    requires Clocked(ops, clock) && forall i :: 0 <= i < |ops| ==> ops[i].now <= end
    ensures Sorted(AttemptTimes(ops, holder)) && Within(AttemptTimes(ops, holder), clock, end)
  {
    if ops == [] {
    } else {
      AttemptTimesSorted(ops[1..], holder, ops[0].now, end);
    }
  }

  /** Only operations of other holders, and attempts. */
  predicate LeavesConfig(ops: seq<Op>, holder: Address) {
    forall i :: 0 <= i < |ops| && !ops[i].DoConsume? ==> ops[i].holder != holder
  }

  /** While its configuration is left alone, a holder's bucket evolves by its own attempts only, whatever
      other holders do.  A holder without a bucket, on the defaults or not, starts with a full one at its
      first attempt. */
  lemma {:induction false} HolderIsolated(s: State, ops: seq<Op>, holder: Address)
    requires Configured(s) && LeavesConfig(ops, holder)
    ensures var config, times := ConfigOf(s, holder), AttemptTimes(ops, holder);
            Granted(s, ops, holder)
            == if times == [] then 0
               else Grants(BucketOf(s, holder, times[0]), config.limit, config.windowSecs, times)
    decreases |ops|
  {
    if ops == [] {
    } else {
      var t := Step(s, ops[0]);
      HolderIsolated(t, ops[1..], holder);
      var rest := AttemptTimes(ops[1..], holder);
      assert [] + rest == rest && ([ops[0].now] + rest)[1..] == rest;
      assert ConfigOf(t, holder) == ConfigOf(s, holder);
      if ops[0].DoConsume? && ops[0].holder == holder {
        AttemptStores(s, holder, ops[0].now);
      } else {
        assert rest != [] ==> BucketOf(t, holder, rest[0]) == BucketOf(s, holder, rest[0]);
      }
    }
  }

  /** Every attempt leaves the holder with a bucket, because the first one is granted. */
  lemma AttemptStores(s: State, holder: Address, now: u64)
    requires Configured(s)
    ensures var config := ConfigOf(s, holder);
            var (b, granted) := Attempt(BucketOf(s, holder, now), config.limit, config.windowSecs, now);
            var t := Consume(s, holder, now).0;
            && holder in t.buckets && t.buckets[holder] == b
            && Consume(s, holder, now).1.Ok? == granted
  {
    if holder !in s.buckets {
      var config := ConfigOf(s, holder);
      assert Attempt(Bucket(config.limit, now), config.limit, config.windowSecs, now).1;
    }
  }

  /** The quota over every run of the store: after `holder` sets a limit no larger than its window, and
      until its configuration is changed again, at most `limit + secs / (window / limit)` of its
      attempts are granted within `secs` seconds. */
  lemma StoreQuota(s: State, holder: Address, limit: u32, start: u64, ops: seq<Op>, secs: nat)
    requires Configured(s) && SetLimit(s, holder, limit, start).1.Ok?
    requires limit <= ConfigOf(s, holder).windowSecs
    requires Clocked(ops, start) && forall i :: 0 <= i < |ops| ==> ops[i].now <= start + secs
    requires LeavesConfig(ops, holder)
    ensures var window := ConfigOf(s, holder).windowSecs;
            && window / limit > 0
            && Granted(SetLimit(s, holder, limit, start).0, ops, holder) <= limit + secs / (window / limit)
  {
    var s' := SetLimit(s, holder, limit, start).0;
    HolderIsolated(s', ops, holder);
    AttemptTimesSorted(ops, holder, start, start + secs);
    QuotaBound(limit, ConfigOf(s, holder).windowSecs, start, secs, AttemptTimes(ops, holder));
  }

  /** The quota of a holder that has no bucket yet, with the protocol's defaults or a window of its own: it
      holds from any second on, because the bucket is full at the first attempt. */
  lemma FirstUseQuota(s: State, holder: Address, start: u64, ops: seq<Op>, secs: nat)
    requires Configured(s) && holder !in s.buckets
    requires ConfigOf(s, holder).limit <= ConfigOf(s, holder).windowSecs
    requires Clocked(ops, start) && forall i :: 0 <= i < |ops| ==> ops[i].now <= start + secs
    requires LeavesConfig(ops, holder)
    ensures var config := ConfigOf(s, holder);
            && config.windowSecs / config.limit > 0
            && Granted(s, ops, holder) <= config.limit + secs / (config.windowSecs / config.limit)
  {
    var config, times := ConfigOf(s, holder), AttemptTimes(ops, holder);
    HolderIsolated(s, ops, holder);
    AttemptTimesSorted(ops, holder, start, start + secs);
    QuotaBound(config.limit, config.windowSecs, if times == [] then start else times[0], secs, times);
    DivIsLargest(secs, config.windowSecs / config.limit, 0);
  }

  /** In every reachable state no bucket holds more than the limit or has a clock ahead of the ledger. */
  ghost predicate Sound(s: State, clock: u64) {
    && Configured(s)
    && forall h :: h in s.buckets ==>
         s.buckets[h].tokens <= ConfigOf(s, h).limit && s.buckets[h].lastRefillAt <= clock
  }

  lemma StepKeepsSound(s: State, op: Op, clock: u64)
    requires Sound(s, clock) && clock <= op.now
    ensures Sound(Step(s, op), op.now)
  {
    if op.DoConsume? {
      var config := ConfigOf(s, op.holder);
      RefillStaysBehindClock(BucketOf(s, op.holder, op.now), config.limit, config.windowSecs, op.now);
    }
  }

  /** The quota over every run of the store from any reachable state, for a holder with a limit up to its
      window whose configuration is left alone. */
  lemma ReachableQuota(s: State, holder: Address, clock: u64, ops: seq<Op>, secs: nat)
    requires Sound(s, clock) && ConfigOf(s, holder).limit <= ConfigOf(s, holder).windowSecs
    requires Clocked(ops, clock) && forall i :: 0 <= i < |ops| ==> ops[i].now <= clock + secs
    requires LeavesConfig(ops, holder)
    ensures var config := ConfigOf(s, holder);
            && config.windowSecs / config.limit > 0
            && Granted(s, ops, holder) <= config.limit + (secs + 1) / (config.windowSecs / config.limit)
  {
    var config, times := ConfigOf(s, holder), AttemptTimes(ops, holder);
    HolderIsolated(s, ops, holder);
    AttemptTimesSorted(ops, holder, clock, clock + secs);
    DivIsLargest(config.windowSecs, config.limit, 1);
    DivIsLargest(secs + 1, config.windowSecs / config.limit, 0);
    if times != [] {
      if holder in s.buckets {
        QuotaFromAnyBucket(s.buckets[holder], config.limit, config.windowSecs, clock, secs, times);
      } else {
        QuotaBound(config.limit, config.windowSecs, times[0], secs, times);
        DivMono(secs, secs + 1, config.windowSecs / config.limit);
      }
    }
  }

  function Run(s: State, ops: seq<Op>): State
    requires Configured(s)
    decreases |ops|
  {
    if ops == [] then s else Run(Step(s, ops[0]), ops[1..])
  }

  /** Over every run, the configurations stay ones the setters accept, no bucket outgrows its limit and
      no refill clock passes the ledger's. */
  lemma {:induction false} RunKeepsSound(s: State, ops: seq<Op>, clock: u64) returns (end: u64)
    requires Sound(s, clock) && Clocked(ops, clock)
    ensures Sound(Run(s, ops), end) && end == if ops == [] then clock else ops[|ops| - 1].now
    decreases |ops|
  {
    end := clock;
    if ops == [] {
    } else {
      StepKeepsSound(s, ops[0], clock);
      end := RunKeepsSound(Step(s, ops[0]), ops[1..], ops[0].now);
    }
  }

  // ---------- what each call does ----------

  /** A refill adds the largest whole number of tokens that the elapsed seconds pay for, at `limit` tokens a
      window, and moves the clock by the whole seconds that those cost; a full bucket's clock is the present. */
  lemma RefillMeaning(b: Bucket, limit: u32, window: u64, now: u64, earned: nat, used: nat)
    requires limit > 0 && window > 0 && b.lastRefillAt <= now
    requires window * earned <= (now - b.lastRefillAt) * limit < window * earned + window
    requires limit * used <= earned * window < limit * used + limit
    ensures b.tokens + earned >= limit ==> Refill(b, limit, window, now) == Bucket(limit, now)
    ensures b.tokens + earned < limit ==> used <= now - b.lastRefillAt
    ensures b.tokens + earned < limit ==>
              Refill(b, limit, window, now) == Bucket(b.tokens + earned, b.lastRefillAt + used)
  {
    var elapsed: nat := now - b.lastRefillAt;
    DivUnique(elapsed * limit, window, earned);
    DivUnique(earned * window, limit, used);
    assert Earned(elapsed, limit, window) == earned && SecondsFor(earned, limit, window) == used;
    SecondsWithinElapsed(elapsed, limit, window);
    hide Earned, SecondsFor;
  }

  /** Two states agree on every holder but one. */
  predicate OthersKept(s: State, t: State, holder: Address) {
    && (forall h :: h != holder && h in s.limits ==> h in t.limits && t.limits[h] == s.limits[h])
    && (forall h :: h != holder && h in t.limits ==> h in s.limits)
    && (forall h :: h != holder && h in s.buckets ==> h in t.buckets && t.buckets[h] == s.buckets[h])
    && (forall h :: h != holder && h in t.buckets ==> h in s.buckets)
  }

  /** A limit is accepted exactly from 1 to 1000; it is stored with the window there was, an hour without
      one, and the holder starts with a full bucket. */
  lemma SetLimitOutcome(s: State, holder: Address, limit: u32, now: u64)
    ensures var (t, r) := SetLimit(s, holder, limit, now);
            && (r.Ok? <==> 1 <= limit <= 1000) && (r.Err? ==> t == s && r.error == InvalidRateLimit)
            && (r.Ok? ==>
                  && OthersKept(s, t, holder) && holder in t.limits && holder in t.buckets
                  && r.value == t.limits[holder] && t.buckets[holder] == Bucket(limit, now)
                  && t.limits[holder] ==
                     Limit(limit, if holder in s.limits then s.limits[holder].windowSecs else 3600, now))
  {
  }

  /** A window is accepted exactly from a minute to seven days; it is stored with the limit there was, ten
      without one, and every bucket is left alone. */
  lemma SetWindowOutcome(s: State, holder: Address, windowSecs: u64, now: u64)
    ensures var (t, r) := SetWindow(s, holder, windowSecs, now);
            && (r.Ok? <==> 60 <= windowSecs <= 604_800) && (r.Err? ==> t == s && r.error == InvalidRateLimitWindow)
            && (r.Ok? ==>
                  && OthersKept(s, t, holder) && t.buckets == s.buckets && holder in t.limits
                  && r.value == t.limits[holder]
                  && t.limits[holder] ==
                     Limit(if holder in s.limits then s.limits[holder].limit else 10, windowSecs, now))
  {
  }

  /** An attempt is granted exactly when a token is there after the refill; it leaves one token less, and a
      refused attempt changes nothing.  A holder's first attempt finds a full bucket. */
  lemma ConsumeOutcome(s: State, holder: Address, now: u64)
    requires Configured(s)
    ensures var limit := if holder in s.limits then s.limits[holder].limit else 10;
            var window := if holder in s.limits then s.limits[holder].windowSecs else 3600;
            var found := if holder in s.buckets then s.buckets[holder] else Bucket(limit, now);
            && limit > 0 && window > 0
            && var ((t, r), full) := (Consume(s, holder, now), Refill(found, limit, window, now));
               && (r.Ok? <==> full.tokens > 0)
               && (r.Err? ==> t == s && r.error == CredentialRateLimitExceeded)
               && (r.Ok? ==>
                     && r.value == full.tokens - 1 && t.limits == s.limits
                     && t.buckets == s.buckets[holder := Bucket(full.tokens - 1, full.lastRefillAt)])
  {
    hide Refill;
  }

  // ---------- the store ----------

  class RateLimitStore {
    var limits: map<Address, Limit>
    var buckets: map<Address, Bucket>

    ghost function Contents(): State
      reads this
    {
      State(limits, buckets)
    }

    constructor ()
      ensures Contents() == State(map[], map[])
    {
      limits, buckets := map[], map[];
    }

    method SetVerificationRateLimit(holder: Address, limit: u32, now: u64) returns (r: Result<Limit>)
      modifies this
      ensures (Contents(), r) == SetLimit(old(Contents()), holder, limit, now)
    {
      if limit == 0 || limit > MAX_LIMIT {
        return Err(InvalidRateLimit);
      }
      var config := if holder in limits then limits[holder]
                    else Limit(DEFAULT_LIMIT, DEFAULT_WINDOW_SECS, 0);
      config := config.(limit := limit, updatedAt := now);
      limits := limits[holder := config];
      buckets := buckets[holder := Bucket(limit, now)];
      return Ok(config);
    }

    method SetVerificationWindow(holder: Address, windowSecs: u64, now: u64) returns (r: Result<Limit>)
      modifies this
      ensures (Contents(), r) == SetWindow(old(Contents()), holder, windowSecs, now)
    {
      if windowSecs < MIN_WINDOW_SECS || windowSecs > MAX_WINDOW_SECS {
        return Err(InvalidRateLimitWindow);
      }
      var config := if holder in limits then limits[holder]
                    else Limit(DEFAULT_LIMIT, DEFAULT_WINDOW_SECS, 0);
      config := config.(windowSecs := windowSecs, updatedAt := now);
      limits := limits[holder := config];
      return Ok(config);
    }

    method ConsumeVerificationAttempt(holder: Address, now: u64) returns (r: Result<u32>)
      requires Configured(Contents())
      modifies this
      ensures (Contents(), r) == Consume(old(Contents()), holder, now)
    {
      var config := if holder in limits then limits[holder]
                    else Limit(DEFAULT_LIMIT, DEFAULT_WINDOW_SECS, 0);
      var loaded := if holder in buckets then buckets[holder] else Bucket(config.limit, now);
      var bucket := Refill(loaded, config.limit, config.windowSecs, now);
      if bucket.tokens == 0 {
        return Err(CredentialRateLimitExceeded);
      }
      bucket := bucket.(tokens := bucket.tokens - 1);
      buckets := buckets[holder := bucket];
      return Ok(bucket.tokens);
    }
  }
}
