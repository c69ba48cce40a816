/**
 * The per-IP token bucket (apps/gateway/ratelimit.go, and its twin in
 * apps/dns/ratelimit.go). Tokens and seconds are reals. The clock is read before the
 * lock is taken, so readings may come out of order; a reading earlier than a
 * bucket's last one takes tokens away, as in the source.
 */
module RateLimit {

  const SWEEP_EVERY: real := 30.0
  const IDLE: real := 300.0

  datatype Bucket = Bucket(tokens: real, lastSeen: real)

  datatype Limiter = Limiter(rate: real, burst: real, buckets: map<string, Bucket>, lastSweep: real)

  /** newIPRateLimiter; the source takes whole numbers. */
  function New(rate: nat, burst: nat, now: real): Limiter {
    Limiter(rate as real, burst as real, map[], now)
  }

  function Min(a: real, b: real): real {
    if a > b then b else a
  }

  function Max(a: real, b: real): real {
    if a > b then a else b
  }

  /** gc: buckets idle for more than five minutes go. */
  function Gc(buckets: map<string, Bucket>, now: real): map<string, Bucket> {
    map ip | ip in buckets && !(now - buckets[ip].lastSeen > IDLE) :: buckets[ip]
  }

  function Sweep(l: Limiter, now: real): Limiter {
    if now - l.lastSweep > SWEEP_EVERY then l.(buckets := Gc(l.buckets, now), lastSweep := now) else l
  }

  /** Tokens earned in `dt` seconds. */
  function Gain(rate: real, dt: real): real {
    dt * rate
  }

  /** Tokens an IP has at time `now`, refill included. */
  function Level(l: Limiter, ip: string, now: real): real {
    if ip in l.buckets then Min(l.buckets[ip].tokens + Gain(l.rate, now - l.buckets[ip].lastSeen), l.burst) else l.burst
  }

  /** The part of allow after the sweep: refill, then take a token if there is one. */
  function Take(l: Limiter, ip: string, now: real): (Limiter, bool) {
    var have := Level(l, ip, now);
    if have >= 1.0 then (l.(buckets := l.buckets[ip := Bucket(have - 1.0, now)]), true)
    else (l.(buckets := l.buckets[ip := Bucket(have, now)]), false)
  }

  /** allow, and the same limiter when it never sweeps. */
  function Allow(l: Limiter, sweeps: bool, ip: string, now: real): (Limiter, bool) {
    Take(if sweeps then Sweep(l, now) else l, ip, now)
  }

  datatype Call = Call(ip: string, now: real)

  function After(l: Limiter, sweeps: bool, calls: seq<Call>): Limiter
    decreases |calls|
  {
    if calls == [] then l else After(Allow(l, sweeps, calls[0].ip, calls[0].now).0, sweeps, calls[1..])
  }

  /** The answers to a history of calls. */
  function Answers(l: Limiter, sweeps: bool, calls: seq<Call>): (r: seq<bool>)
    ensures |r| == |calls|
    decreases |calls|
  {
    if calls == [] then []
    else
      var (m, ok) := Allow(l, sweeps, calls[0].ip, calls[0].now);
      [ok] + Answers(m, sweeps, calls[1..])
  }

  /** How many of the calls from `ip` were let through. */
  function Allowed(ip: string, calls: seq<Call>, answers: seq<bool>): nat
    requires |calls| == |answers|
  {
    if calls == [] then 0
    else (if calls[0].ip == ip && answers[0] then 1 else 0) + Allowed(ip, calls[1..], answers[1..])
  }

  /** Clock readings between `from` and `to`, in any order. */
  predicate Within(calls: seq<Call>, from: real, to: real) {
    from <= to && forall i :: 0 <= i < |calls| ==> from <= calls[i].now <= to
  }

  /** Readings are out of order by at most `skew` seconds. */
  predicate Disordered(calls: seq<Call>, skew: real) {
    0.0 <= skew && forall i, j :: 0 <= i < j < |calls| ==> calls[i].now - skew <= calls[j].now
  }

  /** Clock readings between `from` and `to`, not going backwards. */
  predicate Between(calls: seq<Call>, from: real, to: real) {
    && from <= to
    && (forall i :: 0 <= i < |calls| ==> from <= calls[i].now <= to)
    && (forall i, j :: 0 <= i < j < |calls| ==> calls[i].now <= calls[j].now)
  }

  /** No bucket is overfull, overdrawn or from the future. */
  ghost predicate Sound(l: Limiter, now: real) {
    && 0.0 <= l.rate && 0.0 <= l.burst
    && forall ip :: ip in l.buckets ==> 0.0 <= l.buckets[ip].tokens <= l.burst && l.buckets[ip].lastSeen <= now
  }

  lemma GainNonNegative(rate: real, dt: real)
    requires 0.0 <= rate && 0.0 <= dt
    ensures 0.0 <= Gain(rate, dt)
  {
  }

  lemma GainZero(rate: real, now: real)
    ensures Gain(rate, now - now) == 0.0
  {
  }

  lemma GainSplits(rate: real, a: real, b: real, c: real)
    ensures Gain(rate, c - a) == Gain(rate, b - a) + Gain(rate, c - b)
  {
    assert c - a == (b - a) + (c - b);
  }

  lemma LevelInRange(l: Limiter, ip: string, now: real)
    requires Sound(l, now)
    ensures 0.0 <= Level(l, ip, now) <= l.burst
  {
    if ip in l.buckets { GainNonNegative(l.rate, now - l.buckets[ip].lastSeen); }
  }

  lemma SoundLater(l: Limiter, from: real, to: real)
    requires Sound(l, from) && from <= to
    ensures Sound(l, to)
  {
  }

  /** The level just after putting `tokens` into a bucket. */
  lemma LevelOfNew(l: Limiter, ip: string, tokens: real, now: real)
    requires ip in l.buckets && l.buckets[ip] == Bucket(tokens, now) && tokens <= l.burst
    ensures Level(l, ip, now) == tokens
  {
    GainZero(l.rate, now);
  }

  /** Taking changes nobody else's level, and one's own by the token taken. */
  lemma TakeLevels(l: Limiter, ip: string, now: real, other: string)
    requires Sound(l, now)
    ensures var (m, ok) := Take(l, ip, now);
            && Sound(m, now) && m.rate == l.rate && m.burst == l.burst
            && (ok <==> Level(l, ip, now) >= 1.0)
            && Level(m, other, now) == Level(l, other, now) - if ok && other == ip then 1.0 else 0.0
  {
    LevelInRange(l, ip, now);
    var (m, ok) := Take(l, ip, now);
    LevelOfNew(m, ip, m.buckets[ip].tokens, now);
  }

  // ----- the rate bound -----

  lemma AllowedStep(l: Limiter, sweeps: bool, ip: string, calls: seq<Call>)
    requires calls != []
    ensures var (m, ok) := Allow(l, sweeps, calls[0].ip, calls[0].now);
            Allowed(ip, calls, Answers(l, sweeps, calls)) ==
            (if calls[0].ip == ip && ok then 1 else 0) + Allowed(ip, calls[1..], Answers(m, sweeps, calls[1..]))
  {
    var (m, ok) := Allow(l, sweeps, calls[0].ip, calls[0].now);
    assert Answers(l, sweeps, calls)[1..] == Answers(m, sweeps, calls[1..]);
  }

  /**
   * The most an IP can be let through by calls with readings between `from` and `to`:
   * its tokens carried forward to `to`, at most a full bucket and what the window earns.
   */
  function Reserve(l: Limiter, ip: string, from: real, to: real): real {
    var most := l.burst + Gain(l.rate, to - from);
    Max(0.0, if ip in l.buckets then Min(l.buckets[ip].tokens + Gain(l.rate, to - l.buckets[ip].lastSeen), most) else most)
  }

  lemma GainMonotone(rate: real, a: real, b: real)
    requires 0.0 <= rate && a <= b
    ensures Gain(rate, a) <= Gain(rate, b)
  {
    GainSplits(rate, 0.0, a, b);
    GainNonNegative(rate, b - a);
  }

  /** A call uses up at least the token it takes. */
  lemma TakeReserve(l: Limiter, caller: string, now: real, ip: string, from: real, to: real)
    requires 0.0 <= l.rate && 0.0 <= l.burst && from <= now <= to
    ensures var (m, ok) := Take(l, caller, now);
            Reserve(m, ip, from, to) + (if ok && caller == ip then 1.0 else 0.0) <= Reserve(l, ip, from, to)
  {
    GainMonotone(l.rate, to - now, to - from);
    GainNonNegative(l.rate, to - now);
    if ip in l.buckets { GainSplits(l.rate, l.buckets[ip].lastSeen, now, to); }
  }

  /** For every limiter that does not sweep, in whatever state, and every order of the readings. */
  lemma {:induction false} WindowBound(l: Limiter, ip: string, calls: seq<Call>, from: real, to: real)
    requires 0.0 <= l.rate && 0.0 <= l.burst && Within(calls, from, to)
    ensures Allowed(ip, calls, Answers(l, false, calls)) as real <= Reserve(l, ip, from, to)
    decreases |calls|
  {
    if calls != [] {
      TakeReserve(l, calls[0].ip, calls[0].now, ip, from, to);
      AllowedStep(l, false, ip, calls);
      WindowBound(Take(l, calls[0].ip, calls[0].now).0, ip, calls[1..], from, to);
    }
  }

  lemma ReserveBound(l: Limiter, ip: string, from: real, to: real)
    requires 0.0 <= l.rate && 0.0 <= l.burst && from <= to
    ensures Reserve(l, ip, from, to) <= l.burst + Gain(l.rate, to - from)
  {
    GainNonNegative(l.rate, to - from);
  }

  // ----- sweeping -----

  /**
   * After readings up to `latest`: no bucket is overfull or from later, none is overdrawn
   * when carried forward to `latest`, nor by more than the disorder can take away.
   */
  ghost predicate Solid(l: Limiter, latest: real, skew: real) {
    && 0.0 <= l.rate && 0.0 <= l.burst && 0.0 <= skew
    && forall ip :: ip in l.buckets ==> SolidBucket(l.rate, l.burst, l.buckets[ip], latest, skew)
  }

  predicate SolidBucket(rate: real, burst: real, b: Bucket, latest: real, skew: real) {
    && b.lastSeen <= latest && b.tokens <= burst
    && 0.0 <= b.tokens + Gain(rate, latest - b.lastSeen) && 0.0 <= b.tokens + Gain(rate, skew)
  }

  lemma SolidLater(rate: real, burst: real, b: Bucket, latest: real, later: real, skew: real)
    requires 0.0 <= rate && SolidBucket(rate, burst, b, latest, skew) && latest <= later
    ensures SolidBucket(rate, burst, b, later, skew)
  {
    GainMonotone(rate, latest - b.lastSeen, later - b.lastSeen);
  }

  /** The bucket a call leaves behind, whether or not a token was taken. */
  lemma TouchedIsSolid(l: Limiter, ip: string, now: real, latest: real, skew: real)
    requires Solid(l, latest, skew) && latest - skew <= now
    ensures SolidBucket(l.rate, l.burst, Take(l, ip, now).0.buckets[ip], Max(latest, now), skew)
  {
    var top := Max(latest, now);
    GainNonNegative(l.rate, top - now);
    GainMonotone(l.rate, top - now, skew);
    if ip in l.buckets {
      SolidLater(l.rate, l.burst, l.buckets[ip], latest, top, skew);
      GainSplits(l.rate, l.buckets[ip].lastSeen, now, top);
    }
  }

  lemma TakeIsSolid(l: Limiter, ip: string, now: real, latest: real, skew: real)
    requires Solid(l, latest, skew) && latest - skew <= now
    ensures Solid(Take(l, ip, now).0, Max(latest, now), skew)
  {
    var m := Take(l, ip, now).0;
    forall x | x in m.buckets ensures SolidBucket(l.rate, l.burst, m.buckets[x], Max(latest, now), skew) {
      if x == ip {
        TouchedIsSolid(l, ip, now, latest, skew);
      } else {
        SolidLater(l.rate, l.burst, l.buckets[x], latest, Max(latest, now), skew);
      }
    }
  }

  /** Every bucket the sweep drops would be full again, disorder allowed for. */
  predicate RefillsInTime(l: Limiter, skew: real) {
    Gain(l.rate, IDLE - 2.0 * skew) >= l.burst
  }

  /** Then a sweep changes nobody's level for any reading still to come. */
  lemma SweepKeepsLevel(l: Limiter, now: real, ip: string, later: real, latest: real, skew: real)
    requires Solid(l, latest, skew) && RefillsInTime(l, skew) && now - skew <= later
    ensures Level(Sweep(l, now), ip, later) == Level(l, ip, later)
  {
    if ip in l.buckets && now - l.buckets[ip].lastSeen > IDLE {
      var b := l.buckets[ip];
      GainMonotone(l.rate, IDLE - skew, later - b.lastSeen);
      GainTwice(l.rate, skew);
    }
  }

  lemma GainTwice(rate: real, skew: real)
    ensures Gain(rate, IDLE - skew) - Gain(rate, skew) == Gain(rate, IDLE - 2.0 * skew)
  {
    GainSplits(rate, 0.0, skew, IDLE - skew);
    assert IDLE - 2.0 * skew == (IDLE - skew) - skew;
  }

  /** Two limiters that give every IP the same level from `now` on. */
  ghost predicate SameLevels(l: Limiter, m: Limiter, now: real) {
    && l.rate == m.rate && l.burst == m.burst
    && forall ip, t: real :: now <= t ==> Level(l, ip, t) == Level(m, ip, t)
  }

  lemma TakeSame(l: Limiter, m: Limiter, ip: string, from: real, now: real)
    requires SameLevels(l, m, from) && from <= now
    ensures Take(l, ip, now).1 == Take(m, ip, now).1
    ensures SameLevels(Take(l, ip, now).0, Take(m, ip, now).0, from)
  {
    var l', m' := Take(l, ip, now).0, Take(m, ip, now).0;
    assert Level(l, ip, now) == Level(m, ip, now);
    assert l'.buckets[ip] == m'.buckets[ip];
    forall x, t: real | from <= t ensures Level(l', x, t) == Level(m', x, t) {
      assert Level(l, x, t) == Level(m, x, t);
    }
  }

  lemma SweepIsSolid(l: Limiter, now: real, latest: real, skew: real)
    requires Solid(l, latest, skew)
    ensures Solid(Sweep(l, now), latest, skew)
  {
  }

  /** One call: the sweeping limiter answers as the other, and they stay level for all that comes. */
  lemma AllowSame(l: Limiter, m: Limiter, call: Call, latest: real, skew: real)
    requires Solid(l, latest, skew) && RefillsInTime(l, skew) && SameLevels(l, m, latest - skew)
    requires latest - skew <= call.now
    ensures var (l', ok) := Allow(l, true, call.ip, call.now);
            var (m', ok') := Allow(m, false, call.ip, call.now);
            && ok == ok' && Solid(l', Max(latest, call.now), skew) && l'.rate == l.rate && l'.burst == l.burst
            && SameLevels(l', m', Max(latest, call.now) - skew)
  {
    var swept, from := Sweep(l, call.now), Max(latest, call.now) - skew;
    forall x, t: real | from <= t ensures Level(swept, x, t) == Level(m, x, t) {
      SweepKeepsLevel(l, call.now, x, t, latest, skew);
      assert Level(l, x, t) == Level(m, x, t);
    }
    SweepIsSolid(l, call.now, latest, skew);
    TakeIsSolid(swept, call.ip, call.now, latest, skew);
    TakeSame(swept, m, call.ip, from, call.now);
  }

  lemma {:induction false} SameAnswers(l: Limiter, m: Limiter, calls: seq<Call>, latest: real, skew: real)
    requires Solid(l, latest, skew) && RefillsInTime(l, skew) && SameLevels(l, m, latest - skew)
    requires Disordered(calls, skew) && forall i :: 0 <= i < |calls| ==> latest - skew <= calls[i].now
    ensures Answers(l, true, calls) == Answers(m, false, calls)
    decreases |calls|
  {
    if calls != [] {
      AllowSame(l, m, calls[0], latest, skew);
      var call := calls[0];
      SameAnswers(Allow(l, true, call.ip, call.now).0, Allow(m, false, call.ip, call.now).0, calls[1..],
                  Max(latest, call.now), skew);
    }
  }

  lemma {:induction false} RunKeepsRate(l: Limiter, sweeps: bool, calls: seq<Call>)
    ensures After(l, sweeps, calls).rate == l.rate && After(l, sweeps, calls).burst == l.burst
    decreases |calls|
  {
    if calls != [] { RunKeepsRate(Allow(l, sweeps, calls[0].ip, calls[0].now).0, sweeps, calls[1..]); }
  }

  lemma SweepingUnseen(rate: nat, burst: nat, start: real, calls: seq<Call>, to: real, skew: real)
    requires Within(calls, start, to) && Disordered(calls, skew) && Gain(rate as real, IDLE - 2.0 * skew) >= burst as real
    ensures Answers(New(rate, burst, start), true, calls) == Answers(New(rate, burst, start), false, calls)
  {
    SameAnswers(New(rate, burst, start), New(rate, burst, start), calls, start, skew);
  }

  /**
   * When five minutes, less twice the disorder of the readings, earn a full bucket, the
   * limiter that sweeps answers every history like one that never does.
   */
  lemma SweepingIsInvisible(rate: nat, burst: nat, start: real, calls: seq<Call>, to: real, skew: real)
    requires Within(calls, start, to) && Disordered(calls, skew) && (300.0 - 2.0 * skew) * rate as real >= burst as real
    ensures Answers(New(rate, burst, start), true, calls) == Answers(New(rate, burst, start), false, calls)
  {
    SweepingUnseen(rate, burst, start, calls, to, skew);
  }

  lemma AnyWindowBound(rate: nat, burst: nat, start: real, sweeps: bool, before: seq<Call>, window: seq<Call>,
                       from: real, to: real, skew: real, ip: string)
    requires Within(window, from, to)
    requires sweeps ==>
               && Within(before + window, start, to) && Disordered(before + window, skew)
               && Gain(rate as real, IDLE - 2.0 * skew) >= burst as real
    ensures var l := After(New(rate, burst, start), sweeps, before);
            Allowed(ip, window, Answers(l, sweeps, window)) as real <= burst as real + Gain(rate as real, to - from)
  {
    var l := New(rate, burst, start);
    var m := After(l, false, before);
    if sweeps {
      SweepingUnseen(rate, burst, start, before + window, to, skew);
      AnswersAppend(l, true, before, window);
      AnswersAppend(l, false, before, window);
      assert Answers(After(l, true, before), true, window) == Answers(l, true, before + window)[|before|..];
      assert Answers(m, false, window) == Answers(l, false, before + window)[|before|..];
    }
    RunKeepsRate(l, false, before);
    WindowBound(m, ip, window, from, to);
    ReserveBound(m, ip, from, to);
  }

  /**
   * The rate bound: for every history before it and every window of calls, an IP is
   * let through at most burst + rate * T times, T being the length of the window.
   * Without sweeps this holds for readings in any order. For the limiter that sweeps it
   * asks that dropped buckets would have refilled, the disorder of the readings allowed for.
   */
  lemma RateBound(rate: nat, burst: nat, start: real, sweeps: bool, before: seq<Call>, window: seq<Call>,
                  from: real, to: real, skew: real, ip: string)
    requires Within(window, from, to)
    requires sweeps ==>
               && Within(before + window, start, to) && Disordered(before + window, skew)
               && (300.0 - 2.0 * skew) * rate as real >= burst as real
    ensures var l := After(New(rate, burst, start), sweeps, before);
            Allowed(ip, window, Answers(l, sweeps, window)) as real <= burst as real + (to - from) * rate as real
  {
    AnyWindowBound(rate, burst, start, sweeps, before, window, from, to, skew, ip);
  }

  // ----- and only then -----

  function Repeat(ip: string, now: real, n: nat): seq<Call> {
    if n == 0 then [] else [Call(ip, now)] + Repeat(ip, now, n - 1)
  }

  /** An IP with n tokens gets n calls at one instant through, as long as no sweep is due. */
  lemma {:induction false} DrainAll(l: Limiter, sweeps: bool, ip: string, now: real, n: nat)
    requires Sound(l, now) && Level(l, ip, now) >= n as real && now - l.lastSweep <= SWEEP_EVERY
    ensures Allowed(ip, Repeat(ip, now, n), Answers(l, sweeps, Repeat(ip, now, n))) == n
    ensures var m := After(l, sweeps, Repeat(ip, now, n));
            && Sound(m, now) && m.rate == l.rate && m.burst == l.burst && m.lastSweep == l.lastSweep
            && Level(m, ip, now) == Level(l, ip, now) - n as real
            && (n > 0 ==> ip in m.buckets && m.buckets[ip].lastSeen == now)
    decreases n
  {
    if n > 0 {
      var calls := Repeat(ip, now, n);
      assert calls[1..] == Repeat(ip, now, n - 1);
      assert Sweep(l, now) == l;
      TakeLevels(l, ip, now, ip);
      AllowedStep(l, sweeps, ip, calls);
      DrainAll(Take(l, ip, now).0, sweeps, ip, now, n - 1);
    }
  }

  lemma {:induction false} AnswersAppend(l: Limiter, sweeps: bool, a: seq<Call>, b: seq<Call>)
    ensures Answers(l, sweeps, a + b) == Answers(l, sweeps, a) + Answers(After(l, sweeps, a), sweeps, b)
    decreases |a|
  {
    if a == [] {
      assert a + b == b;
    } else {
      assert (a + b)[1..] == a[1..] + b;
      AnswersAppend(Allow(l, sweeps, a[0].ip, a[0].now).0, sweeps, a[1..], b);
    }
  }

  lemma {:induction false} RepeatFacts(ip: string, now: real, n: nat)
    ensures |Repeat(ip, now, n)| == n && forall i :: 0 <= i < n ==> Repeat(ip, now, n)[i] == Call(ip, now)
  {
    if n > 0 { RepeatFacts(ip, now, n - 1); }
  }

  /** A moment after the idle limit at which a drained bucket is still short of a full one. */
  function Soon(rate: nat): real {
    IDLE + 1.0 / (rate as real + 1.0)
  }

  lemma SoonIsTooSoon(rate: nat, burst: nat)
    requires Gain(rate as real, IDLE) < burst as real
    ensures Soon(rate) > IDLE && Gain(rate as real, Soon(rate)) < burst as real
  {
    var r := rate as real;
    var d := 1.0 / (r + 1.0);
    assert d > 0.0 && d * (r + 1.0) == 1.0;
    assert d * r < 1.0;
    assert Gain(r, Soon(rate)) == Gain(r, IDLE) + d * r;
    assert Gain(r, IDLE) == (300 * rate) as real;
    assert 300 * rate <= burst - 1;
  }

  lemma SweepSound(l: Limiter, now: real)
    requires Sound(l, now)
    ensures Sound(Sweep(l, now), now)
  {
  }

  /** The bucket drained at time zero has been swept: the IP starts over with a full one. */
  lemma SweptIsFull(l: Limiter, ip: string, rate: nat, burst: nat)
    requires Sound(l, 0.0) && l.lastSweep == 0.0 && ip in l.buckets && l.buckets[ip].lastSeen == 0.0 && burst > 0
    requires Gain(rate as real, IDLE) < burst as real && l.burst == burst as real && l.rate == rate as real
    ensures Allowed(ip, Repeat(ip, Soon(rate), burst), Answers(l, true, Repeat(ip, Soon(rate), burst))) == burst
  {
    var t := Soon(rate);
    SoonIsTooSoon(rate, burst);
    SoundLater(l, 0.0, t);
    SweepSound(l, t);
    var swept := Sweep(l, t);
    assert ip !in swept.buckets;
    DrainAll(swept, true, ip, t, burst);
    SweepTwice(l, t, Repeat(ip, t, burst));
  }

  /** A sweep just before the first call is the sweep that call would do. */
  lemma SweepTwice(l: Limiter, now: real, calls: seq<Call>)
    requires calls != [] && calls[0].now == now
    ensures Answers(Sweep(l, now), true, calls) == Answers(l, true, calls)
  {
    assert Sweep(Sweep(l, now), now) == Sweep(l, now);
  }

  lemma UnsweptIsShort(l: Limiter, ip: string, rate: nat, burst: nat)
    requires Sound(l, 0.0) && ip in l.buckets && l.buckets[ip] == Bucket(0.0, 0.0)
    requires Gain(rate as real, IDLE) < burst as real && l.burst == burst as real && l.rate == rate as real
    ensures Allowed(ip, Repeat(ip, Soon(rate), burst), Answers(l, false, Repeat(ip, Soon(rate), burst))) < burst
  {
    var t := Soon(rate);
    SoonIsTooSoon(rate, burst);
    RepeatFacts(ip, t, burst);
    WindowBound(l, ip, Repeat(ip, t, burst), t, t);
    GainZero(l.rate, t);
  }

  /** When buckets are dropped before they refill, some history shows it: drain, wait just over five minutes, ask again. */
  lemma EarlySweepShows(rate: nat, burst: nat, ip: string)
    requires Gain(rate as real, IDLE) < burst as real
    ensures var calls := Repeat(ip, 0.0, burst) + Repeat(ip, Soon(rate), burst);
            && Between(calls, 0.0, Soon(rate))
            && Answers(New(rate, burst, 0.0), true, calls) != Answers(New(rate, burst, 0.0), false, calls)
  {
    var first, second := Repeat(ip, 0.0, burst), Repeat(ip, Soon(rate), burst);
    var l := New(rate, burst, 0.0);
    SoonIsTooSoon(rate, burst);
    RepeatBetween(ip, Soon(rate), burst);
    Drained(rate, burst, ip, true);
    Drained(rate, burst, ip, false);
    SweptIsFull(After(l, true, first), ip, rate, burst);
    UnsweptIsShort(After(l, false, first), ip, rate, burst);
    SecondPart(l, true, first, second);
    SecondPart(l, false, first, second);
  }

  lemma RepeatBetween(ip: string, t: real, n: nat)
    requires 0.0 <= t
    ensures Between(Repeat(ip, 0.0, n) + Repeat(ip, t, n), 0.0, t)
  {
    RepeatFacts(ip, 0.0, n);
    RepeatFacts(ip, t, n);
  }

  /** A new limiter after as many calls from one IP as its burst allows. */
  lemma Drained(rate: nat, burst: nat, ip: string, sweeps: bool)
    requires burst > 0
    ensures var m := After(New(rate, burst, 0.0), sweeps, Repeat(ip, 0.0, burst));
            && Sound(m, 0.0) && m.rate == rate as real && m.burst == burst as real && m.lastSweep == 0.0
            && ip in m.buckets && m.buckets[ip] == Bucket(0.0, 0.0)
  {
    DrainAll(New(rate, burst, 0.0), sweeps, ip, 0.0, burst);
    GainZero(rate as real, 0.0);
  }

  lemma SecondPart(l: Limiter, sweeps: bool, a: seq<Call>, b: seq<Call>)
    ensures Answers(l, sweeps, a + b)[|a|..] == Answers(After(l, sweeps, a), sweeps, b)
  {
    AnswersAppend(l, sweeps, a, b);
  }

  /** Sweeping is invisible in every history if and only if five minutes earn a full bucket. */
  lemma SweepingInvisibleIff(rate: nat, burst: nat)
    ensures (forall calls, to: real :: Between(calls, 0.0, to) ==>
               Answers(New(rate, burst, 0.0), true, calls) == Answers(New(rate, burst, 0.0), false, calls))
            <==> 300 * rate >= burst
  {
    IdleGain(rate, burst);
    if 300 * rate >= burst {
      forall calls, to: real | Between(calls, 0.0, to)
        ensures Answers(New(rate, burst, 0.0), true, calls) == Answers(New(rate, burst, 0.0), false, calls)
      {
        assert IDLE - 2.0 * 0.0 == IDLE;
        SweepingUnseen(rate, burst, 0.0, calls, to, 0.0);
      }
    } else {
      EarlySweepShows(rate, burst, "ip");
    }
  }

  lemma {:induction false} AllowedAppend(ip: string, a: seq<Call>, x: seq<bool>, b: seq<Call>, y: seq<bool>)
    requires |a| == |x| && |b| == |y|
    ensures Allowed(ip, a + b, x + y) == Allowed(ip, a, x) + Allowed(ip, b, y)
    decreases |a|
  {
    if a == [] {
      assert a + b == b && x + y == y;
    } else {
      assert (a + b)[1..] == a[1..] + b && (x + y)[1..] == x[1..] + y;
      AllowedAppend(ip, a[1..], x[1..], b, y);
    }
  }

  lemma EarlySweepExceeds(rate: nat, burst: nat, ip: string)
    requires Gain(rate as real, IDLE) < burst as real
    ensures var calls := Repeat(ip, 0.0, burst) + Repeat(ip, Soon(rate), burst);
            && Between(calls, 0.0, Soon(rate))
            && Allowed(ip, calls, Answers(New(rate, burst, 0.0), true, calls)) as real
               > burst as real + Gain(rate as real, Soon(rate) - 0.0)
  {
    var first, second := Repeat(ip, 0.0, burst), Repeat(ip, Soon(rate), burst);
    var l := New(rate, burst, 0.0);
    SoonIsTooSoon(rate, burst);
    RepeatBetween(ip, Soon(rate), burst);
    Drained(rate, burst, ip, true);
    DrainAll(l, true, ip, 0.0, burst);
    SweptIsFull(After(l, true, first), ip, rate, burst);
    AnswersAppend(l, true, first, second);
    AllowedAppend(ip, first, Answers(l, true, first), second, Answers(After(l, true, first), true, second));
  }

  /** Without that condition the sweeping limiter also breaks the rate bound. */
  lemma EarlySweepBreaksBound(rate: nat, burst: nat, ip: string)
    requires 300 * rate < burst
    ensures var calls := Repeat(ip, 0.0, burst) + Repeat(ip, Soon(rate), burst);
            && Between(calls, 0.0, Soon(rate))
            && Allowed(ip, calls, Answers(New(rate, burst, 0.0), true, calls)) as real
               > burst as real + Soon(rate) * rate as real
  {
    IdleGain(rate, burst);
    EarlySweepExceeds(rate, burst, ip);
  }

  lemma IdleGain(rate: nat, burst: nat)
    ensures 300 * rate >= burst <==> Gain(rate as real, IDLE) >= burst as real
  {
    assert Gain(rate as real, IDLE) == (300 * rate) as real;
  }

  // ----- exactly which calls are let through -----

  lemma {:induction false} AfterSnoc(l: Limiter, sweeps: bool, calls: seq<Call>, c: Call)
    ensures After(l, sweeps, calls + [c]) == Allow(After(l, sweeps, calls), sweeps, c.ip, c.now).0
    decreases |calls|
  {
    if calls == [] {
      assert ([] + [c])[1..] == [];
    } else {
      assert (calls + [c])[1..] == calls[1..] + [c];
      AfterSnoc(Allow(l, sweeps, calls[0].ip, calls[0].now).0, sweeps, calls[1..], c);
    }
  }

  /** What a full bucket at call `i` would still hold at time `t`, had it never been capped since. */
  function Left(rate: real, burst: real, ip: string, calls: seq<Call>, answers: seq<bool>, i: nat, t: real): real
    requires i < |calls| == |answers|
  {
    burst + Gain(rate, t - calls[i].now) - Allowed(ip, calls[i..], answers[i..]) as real
  }

  /** A full bucket holds `x`, and so does what is left of one at every call of this IP. */
  predicate AllLeave(rate: real, burst: real, ip: string, calls: seq<Call>, answers: seq<bool>, t: real, x: real)
    requires |calls| == |answers|
  {
    x <= burst && forall i :: 0 <= i < |calls| && calls[i].ip == ip ==> x <= Left(rate, burst, ip, calls, answers, i, t)
  }

  /** One more call that is not by this IP, or is and took one token or none. */
  lemma LeftStep(rate: real, burst: real, ip: string, calls: seq<Call>, answers: seq<bool>, c: Call, ok: bool, i: nat, t: real)
    requires i < |calls| == |answers|
    ensures var took := if c.ip == ip && ok then 1.0 else 0.0;
            Left(rate, burst, ip, calls + [c], answers + [ok], i, t)
            == Left(rate, burst, ip, calls, answers, i, c.now) + Gain(rate, t - c.now) - took
  {
    assert (calls + [c])[i..] == calls[i..] + [c] && (answers + [ok])[i..] == answers[i..] + [ok];
    AllowedAppend(ip, calls[i..], answers[i..], [c], [ok]);
    GainSplits(rate, calls[i].now, c.now, t);
  }

  lemma LeftLatest(rate: real, burst: real, ip: string, calls: seq<Call>, answers: seq<bool>, c: Call, ok: bool, t: real)
    requires |calls| == |answers|
    ensures var took := if c.ip == ip && ok then 1.0 else 0.0;
            Left(rate, burst, ip, calls + [c], answers + [ok], |calls|, t) == burst + Gain(rate, t - c.now) - took
  {
    assert (calls + [c])[|calls|..] == [c] && (answers + [ok])[|calls|..] == [ok];
    assert Allowed(ip, [c], [ok]) == (if c.ip == ip && ok then 1 else 0) + Allowed(ip, [c][1..], [ok][1..]);
  }

  lemma AllLeaveOther(rate: real, burst: real, ip: string, calls: seq<Call>, answers: seq<bool>, c: Call, ok: bool, t: real, x: real)
    requires |calls| == |answers| && c.ip != ip
    ensures AllLeave(rate, burst, ip, calls + [c], answers + [ok], t, x) <==> AllLeave(rate, burst, ip, calls, answers, t, x)
  {
    forall i | 0 <= i < |calls|
      ensures Left(rate, burst, ip, calls + [c], answers + [ok], i, t) == Left(rate, burst, ip, calls, answers, i, t)
      ensures (calls + [c])[i] == calls[i]
    {
      LeftStep(rate, burst, ip, calls, answers, c, ok, i, t);
      GainSplits(rate, calls[i].now, c.now, t);
    }
    if AllLeave(rate, burst, ip, calls + [c], answers + [ok], t, x) {
      forall i | 0 <= i < |calls| && calls[i].ip == ip ensures x <= Left(rate, burst, ip, calls, answers, i, t) {
        assert (calls + [c])[i].ip == ip;
      }
    }
  }

  lemma AllLeaveOwn(rate: real, burst: real, ip: string, calls: seq<Call>, answers: seq<bool>, c: Call, ok: bool, t: real, x: real)
    requires |calls| == |answers| && c.ip == ip
    ensures var y := x + (if ok then 1.0 else 0.0) - Gain(rate, t - c.now);
            AllLeave(rate, burst, ip, calls + [c], answers + [ok], t, x) <==>
            x <= burst && AllLeave(rate, burst, ip, calls, answers, c.now, y)
  {
    LeftLatest(rate, burst, ip, calls, answers, c, ok, t);
    assert (calls + [c])[|calls|].ip == ip;
    forall i | 0 <= i < |calls|
      ensures Left(rate, burst, ip, calls + [c], answers + [ok], i, t)
              == Left(rate, burst, ip, calls, answers, i, c.now) + Gain(rate, t - c.now) - if ok then 1.0 else 0.0
      ensures (calls + [c])[i] == calls[i]
    {
      LeftStep(rate, burst, ip, calls, answers, c, ok, i, t);
    }
    if AllLeave(rate, burst, ip, calls + [c], answers + [ok], t, x) {
      var y := x + (if ok then 1.0 else 0.0) - Gain(rate, t - c.now);
      forall i | 0 <= i < |calls| && calls[i].ip == ip ensures y <= Left(rate, burst, ip, calls, answers, i, c.now) {
        assert (calls + [c])[i].ip == ip;
      }
    }
  }

  lemma LevelAfterTake(l: Limiter, c: Call, ip: string, t: real, x: real)
    ensures var (m, ok) := Take(l, c.ip, c.now);
            && (c.ip != ip ==> Level(m, ip, t) == Level(l, ip, t))
            && (c.ip == ip ==> (Level(m, ip, t) >= x <==>
                  x <= l.burst && Level(l, ip, c.now) >= x + (if ok then 1.0 else 0.0) - Gain(l.rate, t - c.now)))
  {
  }

  /** The level of an IP is the least of what all those full buckets would have left. */
  lemma {:induction false} LevelIsLeast(l: Limiter, calls: seq<Call>, ip: string, t: real, x: real)
    requires l.buckets == map[]
    ensures Level(After(l, false, calls), ip, t) >= x <==> AllLeave(l.rate, l.burst, ip, calls, Answers(l, false, calls), t, x)
    decreases |calls|
  {
    if calls != [] {
      var n := |calls| - 1;
      var before, c := calls[..n], calls[n];
      assert calls == before + [c];
      var m := After(l, false, before);
      var ok := Take(m, c.ip, c.now).1;
      AfterSnoc(l, false, before, c);
      AnswersAppend(l, false, before, [c]);
      assert Answers(m, false, [c]) == [ok];
      RunKeepsRate(l, false, before);
      LevelAfterTake(m, c, ip, t, x);
      var answers := Answers(l, false, before);
      if c.ip == ip {
        AllLeaveOwn(l.rate, l.burst, ip, before, answers, c, ok, t, x);
        LevelIsLeast(l, before, ip, c.now, x + (if ok then 1.0 else 0.0) - Gain(l.rate, t - c.now));
      } else {
        AllLeaveOther(l.rate, l.burst, ip, before, answers, c, ok, t, x);
        LevelIsLeast(l, before, ip, t, x);
      }
    }
  }

  /** With call `j` let through, the window from call `i` to it has at most burst + rate * T. */
  predicate Fits(rate: nat, burst: nat, calls: seq<Call>, answers: seq<bool>, i: nat, j: nat)
    requires i <= j < |calls| == |answers|
  {
    Allowed(calls[j].ip, calls[i..j], answers[i..j]) as real + 1.0 <= burst as real + (calls[j].now - calls[i].now) * rate as real
  }

  /** Letting call `j` through keeps every window that ends with it and starts with a call of its IP within the bound. */
  predicate Conforms(rate: nat, burst: nat, calls: seq<Call>, answers: seq<bool>, j: nat)
    requires j < |calls| == |answers|
  {
    forall i :: 0 <= i <= j && calls[i].ip == calls[j].ip ==> Fits(rate, burst, calls, answers, i, j)
  }

  lemma FitsIff(rate: nat, burst: nat, calls: seq<Call>, answers: seq<bool>, i: nat, j: nat)
    requires i < j < |calls| == |answers|
    ensures Fits(rate, burst, calls, answers, i, j) <==>
            1.0 <= Left(rate as real, burst as real, calls[j].ip, calls[..j], answers[..j], i, calls[j].now)
  {
    assert calls[..j][i] == calls[i] && calls[..j][i..] == calls[i..j] && answers[..j][i..] == answers[i..j];
    var n, earned := Allowed(calls[j].ip, calls[i..j], answers[i..j]), Gain(rate as real, calls[j].now - calls[i].now);
    assert Fits(rate, burst, calls, answers, i, j) <==> n as real + 1.0 <= burst as real + earned;
    assert Left(rate as real, burst as real, calls[j].ip, calls[..j], answers[..j], i, calls[j].now) == burst as real + earned - n as real;
  }

  lemma FitsItself(rate: nat, burst: nat, calls: seq<Call>, answers: seq<bool>, j: nat)
    requires j < |calls| == |answers|
    ensures Fits(rate, burst, calls, answers, j, j) <==> 1.0 <= burst as real
  {
    assert calls[j..j] == [] && answers[j..j] == [];
  }

  lemma AnswerAt(l: Limiter, calls: seq<Call>, j: nat)
    requires j < |calls|
    ensures Answers(l, false, calls)[..j] == Answers(l, false, calls[..j])
    ensures Answers(l, false, calls)[j] <==> Level(After(l, false, calls[..j]), calls[j].ip, calls[j].now) >= 1.0
  {
    var before, rest := calls[..j], calls[j..];
    assert calls == before + rest;
    AnswersAppend(l, false, before, rest);
  }

  lemma UnsweptAllowedIff(rate: nat, burst: nat, start: real, calls: seq<Call>, j: nat)
    requires j < |calls|
    ensures var answers := Answers(New(rate, burst, start), false, calls);
            answers[j] <==> Conforms(rate, burst, calls, answers, j)
  {
    AnswerAt(New(rate, burst, start), calls, j);
    LevelIsLeast(New(rate, burst, start), calls[..j], calls[j].ip, calls[j].now, 1.0);
    ConformsIff(rate, burst, calls, Answers(New(rate, burst, start), false, calls), j);
  }

  /**
   * Exactly which calls are let through: a call is if and only if that keeps every window
   * that ends with it, from a call of the same IP on, within burst + rate * T. So the rate
   * bound is used up as well as kept. Without sweeps this holds for readings in any order;
   * with them, under the conditions of the rate bound.
   */
  lemma AllowedIff(rate: nat, burst: nat, start: real, sweeps: bool, calls: seq<Call>, to: real, skew: real, j: nat)
    requires j < |calls|
    requires sweeps ==>
               Within(calls, start, to) && Disordered(calls, skew) && (300.0 - 2.0 * skew) * rate as real >= burst as real
    ensures var answers := Answers(New(rate, burst, start), sweeps, calls);
            answers[j] <==> Conforms(rate, burst, calls, answers, j)
  {
    if sweeps { SweepingIsInvisible(rate, burst, start, calls, to, skew); }
    UnsweptAllowedIff(rate, burst, start, calls, j);
  }

  lemma ConformsIff(rate: nat, burst: nat, calls: seq<Call>, answers: seq<bool>, j: nat)
    requires j < |calls| == |answers|
    ensures Conforms(rate, burst, calls, answers, j) <==>
            AllLeave(rate as real, burst as real, calls[j].ip, calls[..j], answers[..j], calls[j].now, 1.0)
  {
    FitsItself(rate, burst, calls, answers, j);
    forall i | 0 <= i < j ensures calls[..j][i] == calls[i]
      ensures Fits(rate, burst, calls, answers, i, j) <==>
              1.0 <= Left(rate as real, burst as real, calls[j].ip, calls[..j], answers[..j], i, calls[j].now)
    {
      FitsIff(rate, burst, calls, answers, i, j);
    }
  }

  // ----- the object -----

  class IpRateLimiter {
    const rate: real
    const burst: real
    var buckets: map<string, Bucket>
    var lastSweep: real

    constructor (rate: nat, burst: nat, now: real)
      ensures View() == New(rate, burst, now)
    {
      this.rate, this.burst := rate as real, burst as real;
      buckets, lastSweep := map[], now;
    }

    ghost function View(): Limiter
      reads this
    {
      Limiter(rate, burst, buckets, lastSweep)
    }

    method CollectIdle(now: real)
      modifies `buckets
      ensures buckets == Gc(old(buckets), now)
    {
      var left := buckets.Keys;
      while left != {}
        invariant left <= buckets.Keys <= old(buckets).Keys
        invariant forall ip :: ip in buckets ==> buckets[ip] == old(buckets)[ip]
        invariant forall ip :: ip in old(buckets) && ip !in left ==>
                    (ip in buckets <==> !(now - old(buckets)[ip].lastSeen > IDLE))
        decreases left
      {
        var ip :| ip in left;
        if now - buckets[ip].lastSeen > IDLE { buckets := buckets - {ip}; }
        left := left - {ip};
      }
    }

    method AllowIp(ip: string, now: real) returns (ok: bool)
      modifies this
      ensures (View(), ok) == Allow(old(View()), true, ip, now)
    {
      if now - lastSweep > SWEEP_EVERY {
        CollectIdle(now);
        lastSweep := now;
      }
      ghost var swept := View();
      assert swept == Sweep(old(View()), now);
      if ip !in buckets { buckets := buckets[ip := Bucket(burst, now)]; }
      var tokens := buckets[ip].tokens + (now - buckets[ip].lastSeen) * rate;
      if tokens > burst { tokens := burst; }
      GainZero(rate, now);
      assert tokens == Level(swept, ip, now);
      ok := tokens >= 1.0;
      buckets := buckets[ip := Bucket(if ok then tokens - 1.0 else tokens, now)];
      assert buckets == swept.buckets[ip := buckets[ip]];
    }
  }
}
