/** What a refused client is promised: how long it stays refused, when it is let in, and what
    its Retry-After header is worth. */
module Refusals {
  import opened RateLimiter

  /** No reap up to `v` can make this client better off: whoever is forgotten had refilled, or
      this client was seen too recently to be forgotten. */
  ghost predicate Undisturbed(l: Limits, idleFor: int, bs: Buckets, key: string, v: int) {
    Patient(l, idleFor) || (key in bs && v <= bs[key].lastSeen + idleFor)
  }

  /** One event that grants the client nothing costs it nothing; only a reap may help it. */
  lemma RefusedStep(l: Limits, idleFor: int, bs: Buckets, e: Event, key: string, u: int, v: int)
    requires Usable(l) && Healthy(l, bs, u) && u <= e.at <= v
    requires !(Grants(l, bs, e) && e.key == key)
    ensures Current(l, Step(l, idleFor, bs, e), key, e.at) >= Current(l, bs, key, e.at)
    ensures Undisturbed(l, idleFor, bs, key, v) ==>
              && Undisturbed(l, idleFor, Step(l, idleFor, bs, e), key, v)
              && Current(l, Step(l, idleFor, bs, e), key, e.at) == Current(l, bs, key, e.at)
  {
    CurrentGrows(l, bs, key, u, e.at);
    if e.Reap? && Patient(l, idleFor) {
      assert Healthy(l, bs, e.at);
      ReapingChangesNothing(l, idleFor, bs, e.at);
    }
  }

  /** With no grant in between, a client's bucket at `v` is at least its bucket at `u` refilled
      once, however many refusals and reaps lie between, and no more where no reap can help. */
  lemma {:induction false} RefusalsCostNothing(
      l: Limits, idleFor: int, bs: Buckets, es: seq<Event>, key: string, u: int, v: int)
    requires Usable(l) && Healthy(l, bs, u) && Timed(es, u, v)
    requires Granted(l, idleFor, bs, es, key) == 0
    ensures var once := Min(Cap(l), Current(l, bs, key, u) + (v - u) * l.perMinute);
            && Current(l, Final(l, idleFor, bs, es), key, v) >= once
            && (Undisturbed(l, idleFor, bs, key, v) ==> Current(l, Final(l, idleFor, bs, es), key, v) == once)
    decreases |es|
  {
    if es == [] {
      CurrentGrows(l, bs, key, u, v);
    } else {
      var e := es[0];
      FinalTimes(es, u, v);
      StepIsHealthy(l, idleFor, bs, e, u);
      RefusedStep(l, idleFor, bs, e, key, u, v);
      RefusalsCostNothing(l, idleFor, Step(l, idleFor, bs, e), es[1..], key, e.at, v);
      CurrentGrows(l, bs, key, u, e.at);
      RefillsCompose(l, Current(l, bs, key, u), u, e.at, v);
    }
  }

  lemma FinalTimes(es: seq<Event>, u: int, v: int)
    requires Timed(es, u, v) && es != []
    ensures u <= es[0].at <= v
    decreases |es|
  {
    if |es| > 1 {
      FinalTimes(es[1..], es[0].at, v);
    }
  }

  /** A client short of a token that has had no grant since is granted at `v` once the refill
      makes up what its token lacked; where no reap can help it, only then. */
  lemma GrantedIffDeficitRefilled(
      l: Limits, idleFor: int, bs: Buckets, es: seq<Event>, key: string, u: int, v: int)
    requires Usable(l) && Healthy(l, bs, u) && Timed(es, u, v)
    requires Current(l, bs, key, u) < MINUTE && Granted(l, idleFor, bs, es, key) == 0
    ensures var refilled := (v - u) * l.perMinute >= MINUTE - Current(l, bs, key, u);
            var granted := Grants(l, Final(l, idleFor, bs, es), Call(key, v));
            && (refilled ==> granted)
            && (Undisturbed(l, idleFor, bs, key, v) ==> (granted <==> refilled))
  {
    RefusalsCostNothing(l, idleFor, bs, es, key, u, v);
  }

  /** Comparing with a quotient, by its product with a positive rate. */
  lemma Quotient(w: int, d: int, whole: int, rate: int)
    requires rate > 0 && w * rate <= whole < w * rate + rate
    ensures d <= w ==> d * rate <= whole
    ensures d < w ==> d * rate < whole
    ensures d > w ==> d * rate > whole
  {
    if d > w {
      Scale(w + 1, d, rate);
    } else if d < w {
      Scale(d + 1, w, rate);
    }
  }

  lemma WaitIsAFloor(l: Limits, units: int, d: int)
    requires Usable(l) && 0 <= units < MINUTE
    ensures 0 <= Wait(l, units) <= MINUTE
    ensures d < Wait(l, units) ==> d * l.perMinute < MINUTE - units
    ensures d > Wait(l, units) ==> d * l.perMinute >= MINUTE - units
  {
    var w := Wait(l, units);
    Quotient(w, d, MINUTE - units, l.perMinute);
    Quotient(w, 0, MINUTE - units, l.perMinute);
    Quotient(w, MINUTE + 1, MINUTE - units, l.perMinute);
    Scale(1, l.perMinute, MINUTE + 1);
  }

  /** Before its wait is over, a client that no reap can help is refused again, however often
      it asks. */
  lemma {:induction false} RefusedWhileUndisturbed(
      l: Limits, idleFor: int, bs: Buckets, es: seq<Event>, key: string, u: int, v: int)
    requires Usable(l) && Healthy(l, bs, u) && Timed(es, u, v) && Undisturbed(l, idleFor, bs, key, v)
    requires Current(l, bs, key, u) < MINUTE && v < u + Wait(l, Current(l, bs, key, u))
    ensures Granted(l, idleFor, bs, es, key) == 0
    ensures !Grants(l, Final(l, idleFor, bs, es), Call(key, v))
    decreases |es|
  {
    CurrentGrows(l, bs, key, u, u);
    if es != [] {
      var front, last := es[..|es| - 1], es[|es| - 1];
      assert es == front + [last];
      TimedSplits(front, last, u, v);
      RefusedWhileUndisturbed(l, idleFor, bs, front, key, u, last.at);
      GrantedJoins(l, idleFor, bs, front, [last], key);
      assert [last][1..] == [];
    }
    WaitIsAFloor(l, Current(l, bs, key, u), v - u);
    GrantedIffDeficitRefilled(l, idleFor, bs, es, key, u, v);
  }

  /** A refused call leaves what the client held, stamped with the time of the call. */
  lemma RefusalLeavesTheBucket(l: Limits, bs: Buckets, key: string, u: int)
    requires Usable(l) && Healthy(l, bs, u) && Current(l, bs, key, u) < MINUTE
    ensures var after := AfterCall(l, bs, key, u);
            && Healthy(l, after, u)
            && key in after && after[key].lastSeen == u
            && Current(l, after, key, u) == Current(l, bs, key, u)
  {
    CurrentGrows(l, bs, key, u, u);
  }

  /** A refused client is refused at every instant before its wait is over, when no reap can
      forget it by then. */
  lemma RefusedUntilTheWaitEnds(
      l: Limits, idleFor: int, bs: Buckets, es: seq<Event>, key: string, u: int, v: int)
    requires Usable(l) && Healthy(l, bs, u) && Current(l, bs, key, u) < MINUTE && Timed(es, u, v)
    requires v < u + Wait(l, Current(l, bs, key, u)) && Wait(l, Current(l, bs, key, u)) <= Forgettable(idleFor)
    ensures !Grants(l, Final(l, idleFor, AfterCall(l, bs, key, u), es), Call(key, v))
  {
    RefusalLeavesTheBucket(l, bs, key, u);
    TimedIsOrdered(es, u, v);
    RefusedWhileUndisturbed(l, idleFor, AfterCall(l, bs, key, u), es, key, u, v);
  }

  lemma {:induction false} TimedIsOrdered(es: seq<Event>, u: int, v: int)
    requires Timed(es, u, v)
    ensures u <= v
    decreases |es|
  {
    if es != [] {
      TimedIsOrdered(es[1..], es[0].at, v);
    }
  }

  /** The first reap that may forget a refused client lets it in. */
  lemma ForgottenIsGranted(l: Limits, idleFor: int, bs: Buckets, key: string, u: int)
    requires Usable(l) && Healthy(l, bs, u) && Current(l, bs, key, u) < MINUTE
    ensures var v := u + Forgettable(idleFor);
            && Timed([Reap(v)], u, v)
            && Granted(l, idleFor, AfterCall(l, bs, key, u), [Reap(v)], key) == 0
            && Grants(l, Final(l, idleFor, AfterCall(l, bs, key, u), [Reap(v)]), Call(key, v))
  {
    var v := u + Forgettable(idleFor);
    var after := AfterCall(l, bs, key, u);
    RefusalLeavesTheBucket(l, bs, key, u);
    assert [Reap(v)][1..] == [];
    assert key !in AfterReap(after, idleFor, v);
    assert Final(l, idleFor, after, [Reap(v)]) == AfterReap(after, idleFor, v);
    assert Granted(l, idleFor, AfterReap(after, idleFor, v), [], key) == 0;
  }

  /** The promise made by one refusal: nothing before the wait is over. */
  ghost predicate RefusalHolds(l: Limits, idleFor: int, bs: Buckets, key: string, u: int)
    requires Usable(l)
  {
    forall es, v :: Timed(es, u, v) && v < u + Wait(l, Current(l, bs, key, u)) ==>
      !Grants(l, Final(l, idleFor, AfterCall(l, bs, key, u), es), Call(key, v))
  }

  /** It holds in every run exactly when no reap can forget the client within its wait. */
  lemma RefusalHoldsIff(l: Limits, idleFor: int, bs: Buckets, key: string, u: int)
    requires Usable(l) && Healthy(l, bs, u) && Current(l, bs, key, u) < MINUTE
    ensures RefusalHolds(l, idleFor, bs, key, u) <==> Wait(l, Current(l, bs, key, u)) <= Forgettable(idleFor)
  {
    var wait := Wait(l, Current(l, bs, key, u));
    if wait <= Forgettable(idleFor) {
      forall es, v | Timed(es, u, v) && v < u + wait
        ensures !Grants(l, Final(l, idleFor, AfterCall(l, bs, key, u), es), Call(key, v))
      {
        RefusedUntilTheWaitEnds(l, idleFor, bs, es, key, u, v);
      }
    } else {
      ForgottenIsGranted(l, idleFor, bs, key, u);
    }
  }

  /** Every refusal of every run keeps its promise. */
  ghost predicate RefusalsHold(l: Limits, idleFor: int)
    requires Usable(l)
  {
    forall before, key, from, u ::
      Timed(before, from, u) && Current(l, Final(l, idleFor, map[], before), key, u) < MINUTE ==>
        RefusalHolds(l, idleFor, Final(l, idleFor, map[], before), key, u)
  }

  lemma WaitIsLongestWhenEmpty(l: Limits, units: int)
    requires Usable(l) && 0 <= units < MINUTE
    ensures Wait(l, units) <= Wait(l, 0) == MINUTE / l.perMinute
  {
    WaitIsAFloor(l, units, 0);
    var w, longest := Wait(l, units), Wait(l, 0);
    assert w * l.perMinute <= MINUTE < (longest + 1) * l.perMinute;
    if w > longest {
      Scale(longest + 1, w, l.perMinute);
    }
  }

  /** Waits are kept in every run exactly when the time one token takes to refill is over
      before a reap can forget a client. */
  lemma RefusalsHoldIff(l: Limits, idleFor: int)
    requires Usable(l)
    ensures RefusalsHold(l, idleFor) <==> MINUTE / l.perMinute <= Forgettable(idleFor)
  {
    if MINUTE / l.perMinute <= Forgettable(idleFor) {
      forall before, key, from, u |
        Timed(before, from, u) && Current(l, Final(l, idleFor, map[], before), key, u) < MINUTE
        ensures RefusalHolds(l, idleFor, Final(l, idleFor, map[], before), key, u)
      {
        var bs := Final(l, idleFor, map[], before);
        FinalIsHealthy(l, idleFor, map[], before, from, u);
        CurrentGrows(l, bs, key, u, u);
        WaitIsLongestWhenEmpty(l, Current(l, bs, key, u));
        RefusalHoldsIff(l, idleFor, bs, key, u);
      }
    } else {
      var before := Repeat(Call("k", 0), l.burst);
      TimedRepeat("k", 0, 0, l.burst);
      BurstEmpties(l, idleFor);
      assert Current(l, Emptied(), "k", 0) == 0;
      RefusalHoldsIff(l, idleFor, Emptied(), "k", 0);
      assert Timed(before, 0, 0) && !RefusalHolds(l, idleFor, Final(l, idleFor, map[], before), "k", 0);
    }
  }

  /** The server's own reaper never lets a refused client in early, whatever its limits. */
  lemma TheServersRefusalsHold(l: Limits)
    requires Usable(l)
    ensures RefusalsHold(l, IDLE_FOR)
  {
    WaitIsAFloor(l, 0, 0);
    RefusalsHoldIff(l, IDLE_FOR);
  }

  /** One request a minute, clients forgotten after a second: a client told to wait a minute is
      let in two seconds later. */
  lemma AnEarlyReapBreaksTheWait()
    ensures var l := Limits(1, 1);
            var es := [Call("k", 0), Call("k", 0), Reap(2 * SECOND), Call("k", 2 * SECOND)];
            && Answers(l, SECOND, map[], es) == [true, false, true]
            && Wait(l, Current(l, AfterCall(l, map[], "k", 0), "k", 0)) == 60 * SECOND
  {
    var l := Limits(1, 1);
    var late := Call("k", 2 * SECOND);
    var held: Buckets := map["k" := Bucket(0, 0)];
    assert AfterCall(l, map[], "k", 0) == held && AfterCall(l, held, "k", 0) == held;
    assert AfterReap(held, SECOND, 2 * SECOND) == map[];
    assert Answers(l, SECOND, map[], [late]) == [true] by {
      assert [late][1..] == [];
      assert Answers(l, SECOND, AfterCall(l, map[], "k", 2 * SECOND), []) == [];
    }
    var es := [Reap(2 * SECOND), late];
    assert es[1..] == [late];
    assert Answers(l, SECOND, held, es) == [true];
    var asked := [Call("k", 0)] + es;
    assert asked[1..] == es;
    assert Answers(l, SECOND, held, asked) == [false, true];
    assert ([Call("k", 0)] + asked)[1..] == asked;
    assert [Call("k", 0)] + asked == [Call("k", 0), Call("k", 0), Reap(2 * SECOND), late];
  }

  /** After one refusal, the refill alone decides every later answer. */
  ghost predicate RefillDecides(l: Limits, idleFor: int, bs: Buckets, key: string, u: int) {
    var after := AfterCall(l, bs, key, u);
    forall es, v :: Timed(es, u, v) && Granted(l, idleFor, after, es, key) == 0 ==>
      (Grants(l, Final(l, idleFor, after, es), Call(key, v)) <==>
        (v - u) * l.perMinute >= MINUTE - Current(l, bs, key, u))
  }

  lemma RefillDecidesAt(l: Limits, idleFor: int, bs: Buckets, es: seq<Event>, key: string, u: int, v: int)
    requires Usable(l) && Healthy(l, bs, u) && Current(l, bs, key, u) < MINUTE && Timed(es, u, v)
    requires Granted(l, idleFor, AfterCall(l, bs, key, u), es, key) == 0
    ensures var refilled := (v - u) * l.perMinute >= MINUTE - Current(l, bs, key, u);
            var granted := Grants(l, Final(l, idleFor, AfterCall(l, bs, key, u), es), Call(key, v));
            && (refilled ==> granted)
            && (v - u < Forgettable(idleFor) ==> (granted <==> refilled))
  {
    RefusalLeavesTheBucket(l, bs, key, u);
    TimedIsOrdered(es, u, v);
    GrantedIffDeficitRefilled(l, idleFor, AfterCall(l, bs, key, u), es, key, u, v);
  }

  /** That is so in every run exactly when what the token lacked refills before a reap can
      forget the client. */
  lemma RefillDecidesIff(l: Limits, idleFor: int, bs: Buckets, key: string, u: int)
    requires Usable(l) && Healthy(l, bs, u) && Current(l, bs, key, u) < MINUTE
    ensures RefillDecides(l, idleFor, bs, key, u) <==>
              Forgettable(idleFor) * l.perMinute >= MINUTE - Current(l, bs, key, u)
  {
    var soon := Forgettable(idleFor);
    var after := AfterCall(l, bs, key, u);
    if soon * l.perMinute >= MINUTE - Current(l, bs, key, u) {
      forall es, v | Timed(es, u, v) && Granted(l, idleFor, after, es, key) == 0
        ensures Grants(l, Final(l, idleFor, after, es), Call(key, v)) <==>
                  (v - u) * l.perMinute >= MINUTE - Current(l, bs, key, u)
      {
        RefillDecidesAt(l, idleFor, bs, es, key, u, v);
        if v - u >= soon {
          Scale(soon, v - u, l.perMinute);
        }
      }
    } else {
      ForgottenIsGranted(l, idleFor, bs, key, u);
      assert (u + soon - u) * l.perMinute < MINUTE - Current(l, bs, key, u);
    }
  }

  lemma {:induction false} TimedSplits(front: seq<Event>, last: Event, u: int, v: int)
    requires Timed(front + [last], u, v)
    ensures Timed(front, u, last.at) && last.at <= v
    decreases |front|
  {
    var es := front + [last];
    if front == [] {
      assert es[1..] == [];
    } else {
      assert es[1..] == front[1..] + [last];
      TimedSplits(front[1..], last, front[0].at, v);
    }
  }

  /** A client that waits one nanosecond longer than it was told to is granted. */
  lemma GrantedAfterRetryAfter(
      l: Limits, idleFor: int, bs: Buckets, es: seq<Event>, key: string, u: int, v: int)
    requires Usable(l) && Healthy(l, bs, u) && Timed(es, u, v)
    requires Current(l, bs, key, u) < MINUTE && Granted(l, idleFor, bs, es, key) == 0
    requires v > u + Max(Wait(l, Current(l, bs, key, u)), SECOND)
    ensures Grants(l, Final(l, idleFor, bs, es), Call(key, v))
  {
    CurrentGrows(l, bs, key, u, u);
    WaitIsAFloor(l, Current(l, bs, key, u), v - u);
    GrantedIffDeficitRefilled(l, idleFor, bs, es, key, u, v);
  }

  /** The header is a whole number of seconds from 1 to 60, and covers the wait. */
  lemma HeaderRange(l: Limits, units: int)
    requires Usable(l) && 0 <= units < MINUTE
    ensures var retryAfter := Max(Wait(l, units), SECOND);
            && 1 <= RetryAfterHeader(retryAfter) <= 60
            && retryAfter <= RetryAfterHeader(retryAfter) * 1_000_000_000 < retryAfter + 1_000_000_000
  {
    WaitIsAFloor(l, units, 0);
  }

  lemma HeaderArithmetic(l: Limits, units: int)
    requires Usable(l) && 0 <= units < MINUTE
    ensures var header := RetryAfterHeader(Max(Wait(l, units), SECOND));
            header * SECOND * l.perMinute >= MINUTE - units <==>
              !(Wait(l, units) == header * SECOND && (MINUTE - units) % l.perMinute != 0)
  {
    var w := Wait(l, units);
    var header := RetryAfterHeader(Max(w, SECOND));
    HeaderRange(l, units);
    WaitIsAFloor(l, units, header * SECOND);
    assert w * l.perMinute + (MINUTE - units) % l.perMinute == MINUTE - units;
  }

  /** A refused client that returns after exactly the seconds in the header is granted, except
      when the wait it was cut down from was not whole: then the header can name an instant a
      fraction of a nanosecond too early, and the client is refused unless a reap forgot it. */
  lemma HeaderIsEnoughIff(l: Limits, idleFor: int, bs: Buckets, es: seq<Event>, key: string, u: int)
    requires Usable(l) && Healthy(l, bs, u) && Current(l, bs, key, u) < MINUTE
    requires var v := u + RetryAfterHeader(Max(Wait(l, Current(l, bs, key, u)), SECOND)) * SECOND;
             Timed(es, u, v) && Granted(l, idleFor, AfterCall(l, bs, key, u), es, key) == 0
    ensures var units := Current(l, bs, key, u);
            var header := RetryAfterHeader(Max(Wait(l, units), SECOND));
            var enough := !(Wait(l, units) == header * SECOND && (MINUTE - units) % l.perMinute != 0);
            var granted := Grants(l, Final(l, idleFor, AfterCall(l, bs, key, u), es), Call(key, u + header * SECOND));
            && (enough ==> granted)
            && (|| header * SECOND < Forgettable(idleFor)
                || Forgettable(idleFor) * l.perMinute >= MINUTE - units
                ==> (granted <==> enough))
  {
    CurrentGrows(l, bs, key, u, u);
    var units := Current(l, bs, key, u);
    HeaderArithmetic(l, units);
    RefillDecidesAt(l, idleFor, bs, es, key, u, u + RetryAfterHeader(Max(Wait(l, units), SECOND)) * SECOND);
    RefillDecidesIff(l, idleFor, bs, key, u);
  }

  /** Seven requests a minute, no spare burst: a client told to wait 8 seconds that asks again
      after exactly 8 seconds is refused. */
  lemma HeaderCanBeTooEarly()
    ensures var l := Limits(7, 1);
            var asked := 571_428_571;
            var es := [Call("k", 0), Call("k", asked), Call("k", asked + 8 * SECOND)];
            && Answers(l, 0, map[], es) == [true, false, false]
            && RetryAfterHeader(Max(Wait(l, asked * 7), SECOND)) == 8
            && Current(l, AfterCall(l, map[], "k", 0), "k", asked) == asked * 7
  {
    var l := Limits(7, 1);
    var t := 571_428_571;
    var b1: Buckets := map["k" := Bucket(0, 0)];
    var b2: Buckets := map["k" := Bucket(7 * t, t)];
    var last := Call("k", t + 8 * SECOND);
    assert AfterCall(l, map[], "k", 0) == b1 && AfterCall(l, b1, "k", t) == b2;
    assert Answers(l, 0, b2, [last]) == [false] by {
      assert [last][1..] == [];
      assert Answers(l, 0, AfterCall(l, b2, "k", t + 8 * SECOND), []) == [];
    }
    var es := [Call("k", t), last];
    assert es[1..] == [last];
    assert Answers(l, 0, b1, es) == [false, false];
    assert ([Call("k", 0)] + es)[1..] == es;
    assert [Call("k", 0)] + es == [Call("k", 0), Call("k", t), last];
  }
}
