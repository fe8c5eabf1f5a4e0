/** The token-bucket rate limiter in exact integers. Time is nanoseconds; a token is MINUTE
    units, and a nanosecond refills `perMinute` units, so the bucket's arithmetic is exact. */
module RateLimiter {

  const SECOND: int := 1_000_000_000
  const MINUTE: int := 60 * SECOND

  datatype Limits = Limits(perMinute: int, burst: int)

  /** What the constructor makes of its arguments. */
  function Normalised(perMinute: int, burst: int): (l: Limits)
    ensures l.perMinute > 0 && l.burst > 0
    ensures perMinute > 0 ==> l.perMinute == perMinute
    ensures perMinute <= 0 ==> l.perMinute == 60
    ensures burst > 0 ==> l.burst == burst
    ensures burst <= 0 ==> l.burst == l.perMinute
  {
    var rate := if perMinute <= 0 then 60 else perMinute;
    Limits(rate, if burst <= 0 then rate else burst)
  }

  predicate Usable(l: Limits) {
    l.perMinute > 0 && l.burst > 0
  }

  function Cap(l: Limits): int {
    l.burst * MINUTE
  }

  datatype Bucket = Bucket(units: int, lastSeen: int)

  type Buckets = map<string, Bucket>

  function Min(x: int, y: int): int {
    if x < y then x else y
  }

  function Max(x: int, y: int): int {
    if x < y then y else x
  }

  function Refilled(l: Limits, b: Bucket, now: int): int {
    Min(Cap(l), b.units + (now - b.lastSeen) * l.perMinute)
  }

  /** What a client holds at `now`: a client the limiter does not know holds a full bucket. */
  function Current(l: Limits, bs: Buckets, key: string, now: int): int {
    if key in bs then Refilled(l, bs[key], now) else Cap(l)
  }

  /** The wait until a whole token is there, cut down to whole nanoseconds. */
  function Wait(l: Limits, units: int): int
    requires Usable(l)
  {
    (MINUTE - units) / l.perMinute
  }

  function AfterCall(l: Limits, bs: Buckets, key: string, now: int): Buckets {
    var units := Current(l, bs, key, now);
    bs[key := Bucket(if units < MINUTE then units else units - MINUTE, now)]
  }

  function AfterReap(bs: Buckets, idleFor: int, now: int): Buckets {
    map key | key in bs && !(bs[key].lastSeen < now - idleFor) :: bs[key]
  }

  /** The Retry-After header: whole seconds, rounded up. */
  function RetryAfterHeader(retryAfter: int): int {
    (retryAfter + SECOND - 1) / SECOND
  }

  lemma WaitCovers(deficit: int, rate: int, wait: int)
    requires rate > 0 && wait >= deficit / rate
    ensures deficit < (wait + 1) * rate
    ensures wait == deficit / rate ==> wait * rate <= deficit
  {
    assert deficit == deficit / rate * rate + deficit % rate;
    assert (deficit / rate + 1) * rate <= (wait + 1) * rate;
  }

  class RateLimiter {
    var buckets: Buckets
    const limits: Limits

    constructor (perMinute: int, burst: int)
      ensures buckets == map[] && Usable(limits) && limits == Normalised(perMinute, burst)
    {
      buckets := map[];
      limits := Normalised(perMinute, burst);
    }

    method Allow(key: string, now: int) returns (allowed: bool, retryAfter: int)
      requires Usable(limits)
      modifies this
      ensures buckets == AfterCall(limits, old(buckets), key, now)
      ensures var units := Current(limits, old(buckets), key, now);
              && (allowed <==> units >= MINUTE)
              && retryAfter == if allowed then 0 else Max(Wait(limits, units), SECOND)
      // The bucket is refilled up to the burst, a full one if the client is not known. A whole
      // token, if it is there, is taken; otherwise the wait is for what it lacks, cut down to
      // nanoseconds, and no less than a second.
      ensures var full := limits.burst * 60_000_000_000;
              var held := if key !in old(buckets) then full
                          else old(buckets)[key].units + (now - old(buckets)[key].lastSeen) * limits.perMinute;
              var units := if held < full then held else full;
              && (allowed <==> 60_000_000_000 <= units)
              && buckets ==
                 old(buckets)[key := Bucket(if allowed then units - 60_000_000_000 else units, now)]
              && (allowed ==> retryAfter == 0)
              && (!allowed ==>
                    && 1_000_000_000 <= retryAfter
                    && (retryAfter == 1_000_000_000 || retryAfter * limits.perMinute <= 60_000_000_000 - units)
                    && 60_000_000_000 - units < (retryAfter + 1) * limits.perMinute)
    {
      if key !in buckets {
        buckets := buckets[key := Bucket(Cap(limits), now)];
      }
      var b := buckets[key];
      var units := Min(Cap(limits), b.units + (now - b.lastSeen) * limits.perMinute);
      buckets := buckets[key := Bucket(units, now)];
      if units < MINUTE {
        var deficit := MINUTE - units;
        var wait := deficit / limits.perMinute;
        WaitCovers(deficit, limits.perMinute, Max(wait, SECOND));
        return false, Max(wait, SECOND);
      }
      buckets := buckets[key := Bucket(units - MINUTE, now)];
      return true, 0;
    }

    method Reap(idleFor: int, now: int)
      modifies this
      ensures buckets == AfterReap(old(buckets), idleFor, now)
      ensures forall key :: key in buckets <==> key in old(buckets) && now - idleFor <= old(buckets)[key].lastSeen
      ensures forall key :: key in buckets ==> buckets[key] == old(buckets)[key]
    {
      var cutoff := now - idleFor;
      ghost var before := buckets;
      var todo := buckets.Keys;
      while todo != {}
        invariant todo <= buckets.Keys <= before.Keys
        invariant forall key :: key in buckets ==> buckets[key] == before[key]
        invariant forall key :: key in before && key !in todo ==>
                    (key in buckets <==> !(before[key].lastSeen < cutoff))
        decreases |todo|
      {
        var key :| key in todo;
        if buckets[key].lastSeen < cutoff {
          buckets := buckets - {key};
        }
        todo := todo - {key};
      }
    }
  }

  // ----- Runs: calls of any clients, with the reaper let in anywhere -----

  datatype Event = Call(key: string, at: int) | Reap(at: int)

  function Step(l: Limits, idleFor: int, bs: Buckets, e: Event): Buckets {
    match e
    case Call(key, at) => AfterCall(l, bs, key, at)
    case Reap(at) => AfterReap(bs, idleFor, at)
  }

  predicate Grants(l: Limits, bs: Buckets, e: Event) {
    e.Call? && Current(l, bs, e.key, e.at) >= MINUTE
  }

  function Final(l: Limits, idleFor: int, bs: Buckets, es: seq<Event>): Buckets
    decreases |es|
  {
    if es == [] then bs else Final(l, idleFor, Step(l, idleFor, bs, es[0]), es[1..])
  }

  /** The answers of all the calls of a run, in order. */
  function Answers(l: Limits, idleFor: int, bs: Buckets, es: seq<Event>): seq<bool>
    decreases |es|
  {
    if es == [] then []
    else
      (if es[0].Call? then [Grants(l, bs, es[0])] else []) +
      Answers(l, idleFor, Step(l, idleFor, bs, es[0]), es[1..])
  }

  /** How many calls of one client a run grants. */
  function Granted(l: Limits, idleFor: int, bs: Buckets, es: seq<Event>, key: string): nat
    decreases |es|
  {
    if es == [] then 0
    else
      (if Grants(l, bs, es[0]) && es[0].key == key then 1 else 0) +
      Granted(l, idleFor, Step(l, idleFor, bs, es[0]), es[1..], key)
  }

  /** The clock, read under the lock, never goes back: events lie in [from, to] in order. */
  ghost predicate Timed(es: seq<Event>, from: int, to: int)
    decreases |es|
  {
    if es == [] then from <= to else from <= es[0].at && Timed(es[1..], es[0].at, to)
  }

  ghost predicate Healthy(l: Limits, bs: Buckets, now: int) {
    forall key :: key in bs ==> 0 <= bs[key].units <= Cap(l) && bs[key].lastSeen <= now
  }

  // ----- Who is known -----

  /** Client `key` called at `at`. */
  predicate Called(es: seq<Event>, i: int, key: string, at: int) {
    0 <= i < |es| && es[i] == Call(key, at)
  }

  /** A known client was last seen when it last called; any other call was either before that,
      or longer ago than a reap lets pass. */
  ghost predicate Remembers(bs: Buckets, es: seq<Event>, idleFor: int, now: int) {
    && (forall key :: key in bs ==> exists i :: Called(es, i, key, bs[key].lastSeen))
    && (forall i, key, at :: Called(es, i, key, at) ==>
          at <= now && (if key in bs then at <= bs[key].lastSeen else at < now - idleFor))
  }

  lemma StepRemembers(l: Limits, idleFor: int, bs: Buckets, past: seq<Event>, e: Event, now: int)
    requires Remembers(bs, past, idleFor, now) && now <= e.at
    ensures Remembers(Step(l, idleFor, bs, e), past + [e], idleFor, e.at)
  {
    var bs', es := Step(l, idleFor, bs, e), past + [e];
    forall key | key in bs' ensures exists i :: Called(es, i, key, bs'[key].lastSeen) {
      if e.Call? && key == e.key {
        assert Called(es, |past|, key, e.at);
      } else {
        var i :| Called(past, i, key, bs[key].lastSeen);
        assert Called(es, i, key, bs[key].lastSeen);
      }
    }
    forall i, key, at | Called(es, i, key, at)
      ensures at <= e.at && (if key in bs' then at <= bs'[key].lastSeen else at < e.at - idleFor)
    {
      if i < |past| {
        assert Called(past, i, key, at);
      }
    }
  }

  lemma {:induction false} RunRemembers(
      l: Limits, idleFor: int, bs: Buckets, past: seq<Event>, es: seq<Event>, from: int, to: int)
    requires Remembers(bs, past, idleFor, from) && Timed(es, from, to)
    ensures Remembers(Final(l, idleFor, bs, es), past + es, idleFor, to)
    decreases |es|
  {
    if es == [] {
      assert past + es == past;
    } else {
      StepRemembers(l, idleFor, bs, past, es[0], from);
      RunRemembers(l, idleFor, Step(l, idleFor, bs, es[0]), past + [es[0]], es[1..], es[0].at, to);
      assert past + [es[0]] + es[1..] == past + es;
    }
  }

  lemma {:induction false} FinalJoins(l: Limits, idleFor: int, bs: Buckets, xs: seq<Event>, ys: seq<Event>)
    ensures Final(l, idleFor, bs, xs + ys) == Final(l, idleFor, Final(l, idleFor, bs, xs), ys)
    decreases |xs|
  {
    if xs == [] {
      assert xs + ys == ys;
    } else {
      assert (xs + ys)[1..] == xs[1..] + ys;
      FinalJoins(l, idleFor, Step(l, idleFor, bs, xs[0]), xs[1..], ys);
    }
  }

  /** Right after a reap exactly those clients are known that called within the idle time, each
      as last seen at its last call: the map holds no more than that. */
  lemma KnownAfterAReap(l: Limits, idleFor: int, es: seq<Event>, from: int, at: int, key: string)
    requires Timed(es, from, at)
    ensures var bs := Final(l, idleFor, map[], es + [Reap(at)]);
            && (key in bs <==> exists i, t :: Called(es, i, key, t) && at - idleFor <= t)
            && (key in bs ==>
                  && (exists i :: Called(es, i, key, bs[key].lastSeen))
                  && (forall i, t :: Called(es, i, key, t) ==> t <= bs[key].lastSeen))
  {
    var before: Buckets := map[];
    RunRemembers(l, idleFor, before, [], es, from, at);
    assert [] + es == es;
    FinalJoins(l, idleFor, before, es, [Reap(at)]);
    var was := Final(l, idleFor, before, es);
    assert Final(l, idleFor, was, [Reap(at)]) == Final(l, idleFor, AfterReap(was, idleFor, at), [Reap(at)][1..]);
  }

  // ----- Arithmetic -----

  lemma Scale(x: int, y: int, rate: int)
    requires x <= y && rate >= 0
    ensures x * rate <= y * rate
  {
  }

  /** Refilling in two stretches is refilling in one. */
  lemma RefillsCompose(l: Limits, units: int, a: int, b: int, c: int)
    requires Usable(l) && a <= b <= c
    ensures Min(Cap(l), Min(Cap(l), units + (b - a) * l.perMinute) + (c - b) * l.perMinute)
            == Min(Cap(l), units + (c - a) * l.perMinute)
  {
    assert (c - a) * l.perMinute == (b - a) * l.perMinute + (c - b) * l.perMinute;
    Scale(0, c - b, l.perMinute);
  }

  lemma CurrentGrows(l: Limits, bs: Buckets, key: string, s: int, t: int)
    requires Usable(l) && Healthy(l, bs, s) && s <= t
    ensures 0 <= Current(l, bs, key, s) <= Cap(l)
    ensures Current(l, bs, key, t) == Min(Cap(l), Current(l, bs, key, s) + (t - s) * l.perMinute)
  {
    Scale(0, t - s, l.perMinute);
    if key in bs {
      Scale(0, s - bs[key].lastSeen, l.perMinute);
      RefillsCompose(l, bs[key].units, bs[key].lastSeen, s, t);
    }
  }

  lemma StepIsHealthy(l: Limits, idleFor: int, bs: Buckets, e: Event, now: int)
    requires Usable(l) && Healthy(l, bs, now) && now <= e.at
    ensures Healthy(l, Step(l, idleFor, bs, e), e.at)
  {
    if e.Call? {
      CurrentGrows(l, bs, e.key, e.at, e.at);
    }
  }

  lemma {:induction false} FinalIsHealthy(l: Limits, idleFor: int, bs: Buckets, es: seq<Event>, from: int, to: int)
    requires Usable(l) && Healthy(l, bs, from) && Timed(es, from, to)
    ensures Healthy(l, Final(l, idleFor, bs, es), to)
    decreases |es|
  {
    if es != [] {
      StepIsHealthy(l, idleFor, bs, es[0], from);
      FinalIsHealthy(l, idleFor, Step(l, idleFor, bs, es[0]), es[1..], es[0].at, to);
    }
  }

  // ----- The reaper is invisible exactly when an idle client has refilled -----

  /** A bucket idle for longer than `idleFor` is full again. */
  ghost predicate Patient(l: Limits, idleFor: int) {
    (idleFor + 1) * l.perMinute >= Cap(l)
  }

  /** From `now` on the two maps hold the same for every client. */
  ghost predicate Alike(l: Limits, bs: Buckets, bs': Buckets, now: int) {
    forall key, t :: t >= now ==> Current(l, bs, key, t) == Current(l, bs', key, t)
  }

  /** What a reaped client held is what an unknown client holds. */
  lemma ReapingChangesNothing(l: Limits, idleFor: int, bs: Buckets, now: int)
    requires Usable(l) && Patient(l, idleFor) && Healthy(l, bs, now)
    ensures Alike(l, AfterReap(bs, idleFor, now), bs, now)
  {
    forall key, t | t >= now
      ensures Current(l, AfterReap(bs, idleFor, now), key, t) == Current(l, bs, key, t)
    {
      if key in bs && bs[key].lastSeen < now - idleFor {
        Scale(idleFor + 1, t - bs[key].lastSeen, l.perMinute);
      }
    }
  }

  lemma CallsKeepAlike(l: Limits, bs: Buckets, bs': Buckets, key: string, at: int, now: int)
    requires Alike(l, bs, bs', now) && now <= at
    ensures Alike(l, AfterCall(l, bs, key, at), AfterCall(l, bs', key, at), at)
    ensures Current(l, bs, key, at) == Current(l, bs', key, at)
  {
    forall k, t | t >= at
      ensures Current(l, AfterCall(l, bs, key, at), k, t) == Current(l, AfterCall(l, bs', key, at), k, t)
    {
      assert Current(l, bs, k, t) == Current(l, bs', k, t);
      assert Current(l, bs, key, at) == Current(l, bs', key, at);
    }
  }

  function CallsOnly(es: seq<Event>): seq<Event>
    decreases |es|
  {
    if es == [] then []
    else (if es[0].Call? then [es[0]] else []) + CallsOnly(es[1..])
  }

  lemma {:induction false} ReaperRefines(
      l: Limits, idleFor: int, bs: Buckets, bs': Buckets, es: seq<Event>, now: int, to: int)
    requires Usable(l) && Patient(l, idleFor) && Healthy(l, bs, now)
    requires Alike(l, bs, bs', now) && Timed(es, now, to)
    ensures Answers(l, idleFor, bs, es) == Answers(l, idleFor, bs', CallsOnly(es))
    decreases |es|
  {
    if es != [] {
      var e := es[0];
      var next := Step(l, idleFor, bs, e);
      StepIsHealthy(l, idleFor, bs, e, now);
      if e.Call? {
        CallsKeepAlike(l, bs, bs', e.key, e.at, now);
        ReaperRefines(l, idleFor, next, AfterCall(l, bs', e.key, e.at), es[1..], e.at, to);
        assert CallsOnly(es)[1..] == CallsOnly(es[1..]);
      } else {
        ReapingChangesNothing(l, idleFor, bs, e.at) by {
          assert Healthy(l, bs, e.at);
        }
        ReaperRefines(l, idleFor, next, bs', es[1..], e.at, to);
        assert CallsOnly(es) == CallsOnly(es[1..]);
      }
    }
  }

  function Repeat(e: Event, n: nat): seq<Event> {
    seq(n, _ => e)
  }

  /** Of `n` calls at one instant the last is granted exactly when `n` tokens were there. */
  lemma {:induction false} Drain(l: Limits, idleFor: int, bs: Buckets, key: string, at: int, n: nat)
    requires Usable(l) && Healthy(l, bs, at)
    ensures var units := Current(l, bs, key, at);
            var calls := Repeat(Call(key, at), n);
            && |Answers(l, idleFor, bs, calls)| == n
            && (n > 0 ==> (Answers(l, idleFor, bs, calls)[n - 1] <==> units >= n * MINUTE))
            && (units >= n * MINUTE ==>
                  Final(l, idleFor, bs, calls) ==
                  if n == 0 then bs else bs[key := Bucket(units - n * MINUTE, at)])
    decreases n
  {
    if n > 0 {
      var e := Call(key, at);
      var units := Current(l, bs, key, at);
      var next := AfterCall(l, bs, key, at);
      StepIsHealthy(l, idleFor, bs, e, at);
      CurrentGrows(l, bs, key, at, at);
      Drain(l, idleFor, next, key, at, n - 1);
      assert Repeat(e, n)[0] == e && Repeat(e, n)[1..] == Repeat(e, n - 1);
      assert n * MINUTE == (n - 1) * MINUTE + MINUTE;
      Scale(0, n - 1, MINUTE);
    }
  }

  lemma {:induction false} AnswersJoin(l: Limits, idleFor: int, bs: Buckets, xs: seq<Event>, ys: seq<Event>)
    ensures Answers(l, idleFor, bs, xs + ys)
            == Answers(l, idleFor, bs, xs) + Answers(l, idleFor, Final(l, idleFor, bs, xs), ys)
    decreases |xs|
  {
    if xs == [] {
      assert xs + ys == ys;
    } else {
      assert (xs + ys)[1..] == xs[1..] + ys;
      AnswersJoin(l, idleFor, Step(l, idleFor, bs, xs[0]), xs[1..], ys);
    }
  }

  lemma {:induction false} CallsJoin(xs: seq<Event>, ys: seq<Event>)
    ensures CallsOnly(xs + ys) == CallsOnly(xs) + CallsOnly(ys)
    decreases |xs|
  {
    if xs == [] {
      assert xs + ys == ys;
    } else {
      var first := if xs[0].Call? then [xs[0]] else [];
      CallsJoin(xs[1..], ys);
      Associates(first, CallsOnly(xs[1..]), CallsOnly(ys));
      assert (xs + ys)[1..] == xs[1..] + ys;
    }
  }

  lemma Associates(xs: seq<Event>, ys: seq<Event>, zs: seq<Event>)
    ensures xs + (ys + zs) == (xs + ys) + zs
  {
  }

  lemma {:induction false} RepeatedCalls(key: string, at: int, n: nat)
    ensures CallsOnly(Repeat(Call(key, at), n)) == Repeat(Call(key, at), n)
    decreases n
  {
    if n > 0 {
      var calls := Repeat(Call(key, at), n);
      assert calls[1..] == Repeat(Call(key, at), n - 1);
      RepeatedCalls(key, at, n - 1);
      assert calls == [Call(key, at)] + Repeat(Call(key, at), n - 1);
    }
  }

  lemma {:induction false} TimedRepeat(key: string, from: int, at: int, n: nat)
    requires from <= at
    ensures Timed(Repeat(Call(key, at), n), from, at)
    decreases n
  {
    if n > 0 {
      assert Repeat(Call(key, at), n)[1..] == Repeat(Call(key, at), n - 1);
      TimedRepeat(key, at, at, n - 1);
    }
  }

  lemma {:induction false} TimedJoins(xs: seq<Event>, ys: seq<Event>, a: int, b: int, c: int)
    requires Timed(xs, a, b) && Timed(ys, b, c)
    ensures Timed(xs + ys, a, c)
    decreases |xs|
  {
    if xs == [] {
      assert xs + ys == ys;
    } else {
      assert (xs + ys)[1..] == xs[1..] + ys;
      TimedJoins(xs[1..], ys, xs[0].at, b, c);
    }
  }

  /** The earliest a reap can forget a client, counted from when it was last seen. */
  function Forgettable(idleFor: int): nat {
    Max(0, idleFor + 1)
  }

  // The run that shows an impatient reaper: empty the bucket, let the reaper forget the client
  // the first instant it may, and ask for a whole burst again.

  function Impatient(l: Limits, idleFor: int): seq<Event>
    requires Usable(l)
  {
    Repeat(Call("k", 0), l.burst) + ([Reap(Forgettable(idleFor))] + Repeat(Call("k", Forgettable(idleFor)), l.burst))
  }

  lemma ImpatientIsTimed(l: Limits, idleFor: int)
    requires Usable(l)
    ensures Timed(Impatient(l, idleFor), 0, Forgettable(idleFor))
  {
    var t := Forgettable(idleFor);
    TimedRepeat("k", 0, 0, l.burst);
    TimedRepeat("k", t, t, l.burst);
    assert ([Reap(t)] + Repeat(Call("k", t), l.burst))[1..] == Repeat(Call("k", t), l.burst);
    TimedJoins(Repeat(Call("k", 0), l.burst), [Reap(t)] + Repeat(Call("k", t), l.burst), 0, 0, t);
  }

  function Emptied(): Buckets {
    map["k" := Bucket(0, 0)]
  }

  lemma BurstEmpties(l: Limits, idleFor: int)
    requires Usable(l)
    ensures Final(l, idleFor, map[], Repeat(Call("k", 0), l.burst)) == Emptied()
  {
    Drain(l, idleFor, map[], "k", 0, l.burst);
  }

  /** The last answer with the reaper let in, and without it. */
  lemma ImpatientAnswers(l: Limits, idleFor: int)
    requires Usable(l) && !Patient(l, idleFor)
    ensures Answers(l, idleFor, map[], Impatient(l, idleFor))
            != Answers(l, idleFor, map[], CallsOnly(Impatient(l, idleFor)))
  {
    var t := Forgettable(idleFor);
    var first, second := Repeat(Call("k", 0), l.burst), Repeat(Call("k", t), l.burst);
    BurstEmpties(l, idleFor);
    AnswersJoin(l, idleFor, map[], first, [Reap(t)] + second);
    assert ([Reap(t)] + second)[1..] == second;
    assert Step(l, idleFor, Emptied(), Reap(t)) == map[];
    Drain(l, idleFor, map[], "k", t, l.burst);
    CallsJoin(first, [Reap(t)] + second);
    CallsJoin([Reap(t)], second);
    RepeatedCalls("k", 0, l.burst);
    RepeatedCalls("k", t, l.burst);
    assert CallsOnly([Reap(t)]) == [];
    assert CallsOnly(Impatient(l, idleFor)) == first + second;
    AnswersJoin(l, idleFor, map[], first, second);
    HalfFull(l, idleFor);
    Drain(l, idleFor, Emptied(), "k", t, l.burst);
    var a := Answers(l, idleFor, map[], second);
    var b := Answers(l, idleFor, Emptied(), second);
    assert a[l.burst - 1] && !b[l.burst - 1];
    var head := Answers(l, idleFor, map[], first);
    assert (head + a)[|head| + l.burst - 1] != (head + b)[|head| + l.burst - 1];
  }

  lemma HalfFull(l: Limits, idleFor: int)
    requires Usable(l) && !Patient(l, idleFor)
    ensures Healthy(l, Emptied(), Forgettable(idleFor))
    ensures Current(l, Emptied(), "k", Forgettable(idleFor)) < Cap(l)
  {
  }

  ghost predicate ReaperIsInvisible(l: Limits, idleFor: int) {
    forall es, from, to :: Timed(es, from, to) ==>
      Answers(l, idleFor, map[], es) == Answers(l, idleFor, map[], CallsOnly(es))
  }

  /** Letting the reaper in anywhere changes no answer of any run if and only if a client idle
      for just longer than `idleFor` has refilled its whole burst. */
  lemma ReaperIsInvisibleIffPatient(l: Limits, idleFor: int)
    requires Usable(l)
    ensures ReaperIsInvisible(l, idleFor) <==> Patient(l, idleFor)
  {
    if Patient(l, idleFor) {
      forall es, from, to | Timed(es, from, to)
        ensures Answers(l, idleFor, map[], es) == Answers(l, idleFor, map[], CallsOnly(es))
      {
        ReaperRefines(l, idleFor, map[], map[], es, from, to);
      }
    } else {
      ImpatientIsTimed(l, idleFor);
      ImpatientAnswers(l, idleFor);
    }
  }

  /** How long the server lets a client idle before forgetting it. */
  const IDLE_FOR: int := 30 * MINUTE

  /** With that setting the reaper is invisible for a given burst exactly up to thirty times the
      rate and, beyond it, while the excess refills within the extra nanosecond. */
  lemma TheServersReaperIsInvisibleIff(l: Limits)
    requires Usable(l)
    ensures IDLE_FOR == 1_800_000_000_000
    ensures ReaperIsInvisible(l, IDLE_FOR) <==> (l.burst - 30 * l.perMinute) * 60_000_000_000 <= l.perMinute
  {
    ReaperIsInvisibleIffPatient(l, IDLE_FOR);
  }

  // ----- How much any window grants -----

  lemma StepSpends(l: Limits, idleFor: int, bs: Buckets, e: Event, key: string, now: int)
    requires Usable(l) && Patient(l, idleFor) && Healthy(l, bs, now) && now <= e.at
    ensures var grant := if Grants(l, bs, e) && e.key == key then MINUTE else 0;
            Current(l, Step(l, idleFor, bs, e), key, e.at) == Current(l, bs, key, e.at) - grant
  {
    if e.Reap? {
      assert Healthy(l, bs, e.at);
      ReapingChangesNothing(l, idleFor, bs, e.at);
    } else {
      CurrentGrows(l, bs, e.key, e.at, e.at);
    }
  }

  /** From a healthy state a client is granted no more than it holds plus what refills. */
  lemma {:induction false} GrantsAreFunded(
      l: Limits, idleFor: int, bs: Buckets, es: seq<Event>, key: string, s: int, t: int)
    requires Usable(l) && Patient(l, idleFor) && Healthy(l, bs, s) && Timed(es, s, t)
    ensures Granted(l, idleFor, bs, es, key) * MINUTE <= Current(l, bs, key, s) + (t - s) * l.perMinute
    decreases |es|
  {
    CurrentGrows(l, bs, key, s, s);
    if es == [] {
      Scale(0, t - s, l.perMinute);
    } else {
      var e := es[0];
      var next := Step(l, idleFor, bs, e);
      StepIsHealthy(l, idleFor, bs, e, s);
      StepSpends(l, idleFor, bs, e, key, s);
      GrantsAreFunded(l, idleFor, next, es[1..], key, e.at, t);
      CurrentGrows(l, bs, key, s, e.at);
      assert (t - s) * l.perMinute == (e.at - s) * l.perMinute + (t - e.at) * l.perMinute;
    }
  }

  /** In any run, whatever other clients and the reaper do, a client's grants in a window
      [s, t] are at most its burst plus what the window refills. */
  lemma WindowBound(
      l: Limits, idleFor: int, before: seq<Event>, window: seq<Event>, key: string, from: int, s: int, t: int)
    requires Usable(l) && Patient(l, idleFor) && Timed(before, from, s) && Timed(window, s, t)
    ensures Granted(l, idleFor, Final(l, idleFor, map[], before), window, key) * MINUTE
            <= l.burst * MINUTE + (t - s) * l.perMinute
  {
    var bs := Final(l, idleFor, map[], before);
    FinalIsHealthy(l, idleFor, map[], before, from, s);
    CurrentGrows(l, bs, key, s, s);
    GrantsAreFunded(l, idleFor, bs, window, key, s, t);
  }

  predicate NoReaps(es: seq<Event>) {
    forall i :: 0 <= i < |es| ==> es[i].Call?
  }

  /** Without a reaper its idle time does not matter. */
  lemma {:induction false} CallsIgnoreTheIdleTime(l: Limits, x: int, y: int, bs: Buckets, es: seq<Event>, key: string)
    requires NoReaps(es)
    ensures Final(l, x, bs, es) == Final(l, y, bs, es) && Granted(l, x, bs, es, key) == Granted(l, y, bs, es, key)
    decreases |es|
  {
    if es != [] {
      CallsIgnoreTheIdleTime(l, x, y, Step(l, x, bs, es[0]), es[1..], key);
    }
  }

  lemma SomeReaperIsPatient(l: Limits) returns (long: int)
    requires Usable(l)
    ensures Patient(l, long)
  {
    long := Cap(l);
    Scale(1, l.perMinute, long + 1);
  }

  /** Where only clients call, the bound holds for all limits. */
  lemma WindowBoundOfCalls(
      l: Limits, idleFor: int, before: seq<Event>, window: seq<Event>, key: string, from: int, s: int, t: int)
    requires Usable(l) && NoReaps(before) && NoReaps(window) && Timed(before, from, s) && Timed(window, s, t)
    ensures Granted(l, idleFor, Final(l, idleFor, map[], before), window, key) * MINUTE
            <= l.burst * MINUTE + (t - s) * l.perMinute
  {
    var long := SomeReaperIsPatient(l);
    CallsIgnoreTheIdleTime(l, idleFor, long, map[], before, key);
    CallsIgnoreTheIdleTime(l, idleFor, long, Final(l, long, map[], before), window, key);
    WindowBound(l, long, before, window, key, from, s, t);
  }

  lemma {:induction false} DrainGrants(l: Limits, idleFor: int, bs: Buckets, key: string, at: int, n: nat)
    requires Usable(l) && Healthy(l, bs, at) && Current(l, bs, key, at) >= n * MINUTE
    ensures Granted(l, idleFor, bs, Repeat(Call(key, at), n), key) == n
    decreases n
  {
    if n > 0 {
      var e := Call(key, at);
      StepIsHealthy(l, idleFor, bs, e, at);
      CurrentGrows(l, bs, key, at, at);
      assert n * MINUTE == (n - 1) * MINUTE + MINUTE;
      Scale(0, n - 1, MINUTE);
      DrainGrants(l, idleFor, AfterCall(l, bs, key, at), key, at, n - 1);
      assert Repeat(e, n)[0] == e && Repeat(e, n)[1..] == Repeat(e, n - 1);
    }
  }

  lemma {:induction false} GrantedJoins(
      l: Limits, idleFor: int, bs: Buckets, xs: seq<Event>, ys: seq<Event>, key: string)
    ensures Granted(l, idleFor, bs, xs + ys, key) ==
            Granted(l, idleFor, bs, xs, key) + Granted(l, idleFor, Final(l, idleFor, bs, xs), ys, key)
    decreases |xs|
  {
    if xs == [] {
      assert xs + ys == ys;
    } else {
      assert (xs + ys)[1..] == xs[1..] + ys;
      GrantedJoins(l, idleFor, Step(l, idleFor, bs, xs[0]), xs[1..], ys, key);
    }
  }

  /** An impatient reaper hands out a second burst. */
  lemma ImpatientGrants(l: Limits, idleFor: int)
    requires Usable(l)
    ensures Granted(l, idleFor, map[], Impatient(l, idleFor), "k") == 2 * l.burst
  {
    var t := Forgettable(idleFor);
    var first, second := Repeat(Call("k", 0), l.burst), Repeat(Call("k", t), l.burst);
    BurstEmpties(l, idleFor);
    GrantedJoins(l, idleFor, map[], first, [Reap(t)] + second, "k");
    assert ([Reap(t)] + second)[1..] == second;
    assert Step(l, idleFor, Emptied(), Reap(t)) == map[];
    DrainGrants(l, idleFor, map[], "k", 0, l.burst);
    DrainGrants(l, idleFor, map[], "k", t, l.burst);
  }

  ghost predicate Bounded(l: Limits, idleFor: int) {
    forall before, window, key, from, s, t :: Timed(before, from, s) && Timed(window, s, t) ==>
      Granted(l, idleFor, Final(l, idleFor, map[], before), window, key) * MINUTE
      <= l.burst * MINUTE + (t - s) * l.perMinute
  }

  /** With the reaper let in anywhere, the bound holds in every run and window exactly when the
      reaper is patient. */
  lemma WindowsAreBoundedIffPatient(l: Limits, idleFor: int)
    requires Usable(l)
    ensures Bounded(l, idleFor) <==> Patient(l, idleFor)
  {
    if Patient(l, idleFor) {
      forall before, window, key, from, s, t | Timed(before, from, s) && Timed(window, s, t)
        ensures Granted(l, idleFor, Final(l, idleFor, map[], before), window, key) * MINUTE
                <= l.burst * MINUTE + (t - s) * l.perMinute
      {
        WindowBound(l, idleFor, before, window, key, from, s, t);
      }
    } else {
      var t := Forgettable(idleFor);
      ImpatientIsTimed(l, idleFor);
      ImpatientGrants(l, idleFor);
      assert t * l.perMinute < Cap(l);
      assert Timed([], 0, 0) && Final(l, idleFor, map[], []) == map[];
      assert Granted(l, idleFor, Final(l, idleFor, map[], []), Impatient(l, idleFor), "k") * MINUTE
             > l.burst * MINUTE + (t - 0) * l.perMinute;
    }
  }

  // ----- Clients do not disturb each other -----

  /** The answers given to one client. */
  function AnswersTo(l: Limits, idleFor: int, bs: Buckets, es: seq<Event>, key: string): seq<bool>
    decreases |es|
  {
    if es == [] then []
    else
      (if es[0].Call? && es[0].key == key then [Grants(l, bs, es[0])] else []) +
      AnswersTo(l, idleFor, Step(l, idleFor, bs, es[0]), es[1..], key)
  }

  function Without(es: seq<Event>, key: string): seq<Event>
    decreases |es|
  {
    if es == [] then []
    else (if es[0].Call? && es[0].key != key then [] else [es[0]]) + Without(es[1..], key)
  }

  ghost predicate SameFor(bs: Buckets, bs': Buckets, key: string) {
    (key in bs <==> key in bs') && (key in bs ==> bs[key] == bs'[key])
  }

  /** A client is answered as if no other client existed. */
  lemma {:induction false} ClientsAreIndependent(
      l: Limits, idleFor: int, bs: Buckets, bs': Buckets, es: seq<Event>, key: string)
    requires SameFor(bs, bs', key)
    ensures AnswersTo(l, idleFor, bs, es, key) == AnswersTo(l, idleFor, bs', Without(es, key), key)
    decreases |es|
  {
    if es != [] {
      var e := es[0];
      if e.Call? && e.key != key {
        ClientsAreIndependent(l, idleFor, Step(l, idleFor, bs, e), bs', es[1..], key);
        assert Without(es, key) == Without(es[1..], key);
      } else {
        ClientsAreIndependent(l, idleFor, Step(l, idleFor, bs, e), Step(l, idleFor, bs', e), es[1..], key);
        assert Without(es, key)[1..] == Without(es[1..], key);
      }
    }
  }
}
