/** The per-session token bucket. */
module RateLimit {
  import opened Values

  datatype Bucket = Bucket(tokens: real, last: real)

  /** The bucket's capacity, and the tokens earned in a stretch of time. */
  datatype Limits = Limits(burst: real, earn: real -> real)

  datatype Event = Call(session: nat, now: real) | Forget(session: nat)

  type Buckets = map<nat, Bucket>

  function Max(a: real, b: real): real {
    if a >= b then a else b
  }

  function Min(a: real, b: real): real {
    if a <= b then a else b
  }

  function PerSecond(qps: real): real -> real {
    seconds => seconds * qps
  }

  /** Configured values below one are raised to one. */
  function MakeLimits(qps: real, burst: real): Limits {
    Limits(Max(burst, 1.0), PerSecond(Max(qps, 1.0)))
  }

  ghost predicate LimitsOk(l: Limits) {
    l.burst >= 1.0 && forall d :: d >= 0.0 ==> l.earn(d) >= 0.0
  }

  lemma MakeLimitsOk(qps: real, burst: real)
    ensures LimitsOk(MakeLimits(qps, burst))
  {
    forall d: real | d >= 0.0 ensures PerSecond(Max(qps, 1.0))(d) >= 0.0 { Distribute(Max(qps, 1.0), 0.0, d); }
  }

  lemma Distribute(a: real, b: real, c: real)
    ensures (b + c) * a == b * a + c * a
    ensures a >= 0.0 && c >= 0.0 ==> c * a >= 0.0
  {
  }

  function BucketOf(bs: Buckets, s: nat): Option<Bucket> {
    if s in bs then Some(bs[s]) else None
  }

  /** Time since the last call; a clock reading from before it counts as no time. */
  function Elapsed(b: Option<Bucket>, now: real): real {
    if b.None? then 0.0 else Max(0.0, now - b.value.last)
  }

  /** Tokens before the call takes one. */
  function Refilled(l: Limits, b: Option<Bucket>, now: real): real {
    if b.None? then l.burst else Min(b.value.tokens + l.earn(Elapsed(b, now)), l.burst)
  }

  function Called(l: Limits, b: Option<Bucket>, now: real): (Bucket, bool) {
    var tokens := Refilled(l, b, now);
    if tokens < 1.0 then (Bucket(tokens, now), false) else (Bucket(tokens - 1.0, now), true)
  }

  function Step(l: Limits, bs: Buckets, e: Event): (Buckets, bool) {
    match e
    case Call(s, now) => var (b, granted) := Called(l, BucketOf(bs, s), now); (bs[s := b], granted)
    case Forget(s) => (bs - {s}, false)
  }

  /** In every bucket the tokens are between nothing and the burst. */
  predicate TokensOk(l: Limits, bs: Buckets) {
    forall s :: s in bs ==> 0.0 <= bs[s].tokens <= l.burst
  }

  class RateLimiter {
    const limits: Limits
    var buckets: Buckets

    ghost predicate Valid()
      reads this
    {
      LimitsOk(limits) && TokensOk(limits, buckets)
    }

    constructor (qps: real, burst: real)
      ensures Valid() && limits == MakeLimits(qps, burst) && buckets == map[]
    {
      limits := MakeLimits(qps, burst);
      buckets := map[];
      new;
      MakeLimitsOk(qps, burst);
    }

    method Acquire(session: nat, now: real) returns (granted: bool)
      requires Valid()
      modifies this`buckets
      ensures Valid()
      ensures (buckets, granted) == Step(limits, old(buckets), Call(session, now))
    {
      StepKeeps(limits, buckets, Call(session, now));
      var bucket := if session in buckets then buckets[session] else Bucket(limits.burst, now);
      var elapsed := Max(0.0, now - bucket.last);
      var tokens := Min(bucket.tokens + limits.earn(elapsed), limits.burst);
      if tokens < 1.0 {
        buckets := buckets[session := Bucket(tokens, now)];
        return false;
      }
      buckets := buckets[session := Bucket(tokens - 1.0, now)];
      granted := true;
    }

    method Drop(session: nat)
      requires Valid()
      modifies this`buckets
      ensures Valid() && buckets == Step(limits, old(buckets), Forget(session)).0
    {
      buckets := buckets - {session};
    }
  }

  // ----- runs -----

  function After(l: Limits, bs: Buckets, es: seq<Event>): Buckets {
    if es == [] then bs else Step(l, After(l, bs, es[..|es| - 1]), es[|es| - 1]).0
  }

  /** Calls of a session that were granted. */
  function Grants(l: Limits, bs: Buckets, es: seq<Event>, s: nat): nat {
    if es == [] then 0
    else
      var n := |es| - 1;
      Grants(l, bs, es[..n], s)
      + if es[n].session == s && Step(l, After(l, bs, es[..n]), es[n]).1 then 1 else 0
  }

  function Forgets(es: seq<Event>, s: nat): nat {
    if es == [] then 0 else Forgets(es[..|es| - 1], s) + if es[|es| - 1] == Forget(s) then 1 else 0
  }

  /** The clock at the session's latest call. */
  function LastCall(es: seq<Event>, s: nat): Option<real> {
    if es == [] then None
    else
      var e := es[|es| - 1];
      if e.Call? && e.session == s then Some(e.now) else LastCall(es[..|es| - 1], s)
  }

  /** How far the clock moved forward between the session's calls. */
  function Forward(es: seq<Event>, s: nat): real {
    if es == [] then 0.0
    else
      var n := |es| - 1;
      Forward(es[..n], s)
      + if es[n].Call? && es[n].session == s && LastCall(es[..n], s).Some? then Max(0.0, es[n].now - LastCall(es[..n], s).value) else 0.0
  }

  lemma {:induction false} TokensKept(l: Limits, bs: Buckets, es: seq<Event>)
    requires LimitsOk(l) && TokensOk(l, bs)
    ensures TokensOk(l, After(l, bs, es))
  {
    if es != [] {
      TokensKept(l, bs, es[..|es| - 1]);
      StepKeeps(l, After(l, bs, es[..|es| - 1]), es[|es| - 1]);
    }
  }

  lemma StepKeeps(l: Limits, bs: Buckets, e: Event)
    requires LimitsOk(l) && TokensOk(l, bs)
    ensures TokensOk(l, Step(l, bs, e).0)
  {
    if e.Call? && e.session in bs {
      var b := Some(bs[e.session]);
      assert l.earn(Elapsed(b, e.now)) >= 0.0;
    }
  }

  /** Events of other sessions neither read nor change the bucket. */
  lemma OthersIgnored(l: Limits, bs: Buckets, e: Event, s: nat)
    requires e.session != s
    ensures BucketOf(Step(l, bs, e).0, s) == BucketOf(bs, s)
  {
  }

  function TokensOf(bs: Buckets, s: nat): real {
    if s in bs then bs[s].tokens else 0.0
  }

  /** After the session's first call in the window, the bucket remembers its latest call. */
  lemma {:induction false} LastRemembered(l: Limits, bs: Buckets, es: seq<Event>, s: nat)
    requires LastCall(es, s).Some? && BucketOf(After(l, bs, es), s).Some?
    ensures BucketOf(After(l, bs, es), s).value.last == LastCall(es, s).value
  {
    var n := |es| - 1;
    if es[n].session != s {
      OthersIgnored(l, After(l, bs, es[..n]), es[n], s);
      LastRemembered(l, bs, es[..n], s);
    }
  }

  /** One event: what it grants and leaves is what was there, plus the refill, plus a new bucket's burst. */
  lemma StepBalance(l: Limits, bs: Buckets, e: Event)
    requires LimitsOk(l) && TokensOk(l, bs) && e.Call?
    ensures var (after, granted) := Step(l, bs, e);
            var b := BucketOf(bs, e.session);
            && TokensOf(after, e.session) + (if granted then 1.0 else 0.0) <= l.burst
            && (b.Some? ==> TokensOf(after, e.session) + (if granted then 1.0 else 0.0) <= b.value.tokens + l.earn(Elapsed(b, e.now)))
  {
  }

  /** One burst for each `forget`, plus the refill over the time the clock moved forward. */
  function Income(l: Limits, es: seq<Event>, s: nat): real {
    if es == [] then 0.0
    else
      var n := |es| - 1;
      Income(l, es[..n], s)
      + if es[n].session != s then 0.0
        else if es[n].Forget? then l.burst
        else if LastCall(es[..n], s).Some? then l.earn(Max(0.0, es[n].now - LastCall(es[..n], s).value))
        else 0.0
  }

  lemma {:induction false} IncomeGrows(l: Limits, es: seq<Event>, s: nat)
    requires LimitsOk(l)
    ensures Income(l, es, s) >= 0.0
  {
    if es != [] {
      var n := |es| - 1;
      IncomeGrows(l, es[..n], s);
    }
  }

  lemma {:induction false} NoCallsNoGrants(l: Limits, bs: Buckets, es: seq<Event>, s: nat)
    requires LastCall(es, s).None?
    ensures Grants(l, bs, es, s) == 0
  {
    if es != [] { NoCallsNoGrants(l, bs, es[..|es| - 1], s); }
  }

  /** Tokens held and calls granted are covered by one burst and the income. */
  predicate Covered(l: Limits, bs: Buckets, es: seq<Event>, s: nat) {
    && TokensOf(After(l, bs, es), s) + Grants(l, bs, es, s) as real <= l.burst + Income(l, es, s)
    && (s !in After(l, bs, es) && LastCall(es, s).Some? ==> Grants(l, bs, es, s) as real <= Income(l, es, s))
  }

  lemma CoveredCall(l: Limits, bs: Buckets, es: seq<Event>, s: nat, now: real)
    requires LimitsOk(l) && TokensOk(l, bs) && Covered(l, bs, es, s)
    ensures Covered(l, bs, es + [Call(s, now)], s)
  {
    var more := es + [Call(s, now)];
    var before := After(l, bs, es);
    assert more[..|es|] == es;
    TokensKept(l, bs, es);
    StepBalance(l, before, Call(s, now));
    IncomeGrows(l, es, s);
    if LastCall(es, s).None? {
      NoCallsNoGrants(l, bs, es, s);
    } else if s in before {
      LastRemembered(l, bs, es, s);
    }
  }

  lemma CoveredOther(l: Limits, bs: Buckets, es: seq<Event>, s: nat, e: Event)
    requires LimitsOk(l) && TokensOk(l, bs) && Covered(l, bs, es, s) && (e.session != s || e.Forget?)
    ensures Covered(l, bs, es + [e], s)
  {
    assert (es + [e])[..|es|] == es;
    TokensKept(l, bs, es);
  }

  lemma {:induction false} AlwaysCovered(l: Limits, bs: Buckets, es: seq<Event>, s: nat)
    requires LimitsOk(l) && TokensOk(l, bs)
    ensures Covered(l, bs, es, s)
  {
    if es == [] {
      assert TokensOf(bs, s) <= l.burst;
    } else {
      var n := |es| - 1;
      AlwaysCovered(l, bs, es[..n], s);
      assert es == es[..n] + [es[n]];
      if es[n].Call? && es[n].session == s {
        CoveredCall(l, bs, es[..n], s, es[n].now);
      } else {
        CoveredOther(l, bs, es[..n], s, es[n]);
      }
    }
  }

  lemma WindowCovered(l: Limits, bs: Buckets, earlier: seq<Event>, window: seq<Event>, s: nat)
    requires LimitsOk(l) && TokensOk(l, bs)
    ensures var start := After(l, bs, earlier);
            TokensOk(l, After(l, start, window)) && Grants(l, start, window, s) as real <= l.burst + Income(l, window, s)
  {
    var start := After(l, bs, earlier);
    TokensKept(l, bs, earlier);
    TokensKept(l, start, window);
    AlwaysCovered(l, start, window, s);
    assert TokensOf(After(l, start, window), s) >= 0.0;
  }

  function Bursts(burst: real, n: nat): real {
    if n == 0 then 0.0 else Bursts(burst, n - 1) + burst
  }

  lemma {:induction false} BurstsIs(burst: real, n: nat)
    ensures Bursts(burst, n) == n as real * burst
  {
    if n > 0 {
      BurstsIs(burst, n - 1);
      Distribute(burst, (n - 1) as real, 1.0);
    }
  }

  /** Earning over a stretch and then a further one is earning over both, along the session's calls. */
  predicate EarnAdds(earn: real -> real, es: seq<Event>, s: nat) {
    if es == [] then earn(0.0) == 0.0
    else
      var n := |es| - 1;
      var before := Forward(es[..n], s);
      EarnAdds(earn, es[..n], s) && earn(Forward(es, s)) == earn(before) + earn(Forward(es, s) - before)
  }

  lemma {:induction false} IncomeAdds(l: Limits, es: seq<Event>, s: nat)
    requires EarnAdds(l.earn, es, s) && l.earn(0.0) == 0.0
    ensures Income(l, es, s) == Bursts(l.burst, Forgets(es, s)) + l.earn(Forward(es, s))
  {
    if es != [] {
      var n := |es| - 1;
      IncomeAdds(l, es[..n], s);
    }
  }

  lemma {:induction false} PerSecondAdds(qps: real, es: seq<Event>, s: nat)
    ensures EarnAdds(PerSecond(qps), es, s)
  {
    if es != [] {
      var n := |es| - 1;
      PerSecondAdds(qps, es[..n], s);
      EarnSplits(qps, Forward(es[..n], s), Forward(es, s));
    }
  }

  lemma EarnSplits(qps: real, a: real, b: real)
    ensures PerSecond(qps)(b) == PerSecond(qps)(a) + PerSecond(qps)(b - a)
  {
    Distribute(qps, a, b - a);
  }

  /** The bound of the theorem below, for any way of earning. */
  predicate WithinBound(l: Limits, start: Buckets, window: seq<Event>, s: nat, earned: real) {
    Grants(l, start, window, s) as real <= l.burst + Forgets(window, s) as real * l.burst + earned
  }

  lemma WindowBound(l: Limits, bs: Buckets, earlier: seq<Event>, window: seq<Event>, s: nat, earned: real)
    requires LimitsOk(l) && TokensOk(l, bs) && EarnAdds(l.earn, window, s) && l.earn(0.0) == 0.0
    requires earned == l.earn(Forward(window, s))
    ensures var start := After(l, bs, earlier);
            TokensOk(l, After(l, start, window)) && WithinBound(l, start, window, s, earned)
  {
    WindowCovered(l, bs, earlier, window, s);
    IncomeAdds(l, window, s);
    BurstsIs(l.burst, Forgets(window, s));
  }

  /**
   * In every window of every run, whatever the clock does, a session is granted at most one burst for
   * the window and each `forget` in it, plus the rate times the time the clock moved forward.
   */
  lemma GrantsBounded(qps: real, burst: real, bs: Buckets, earlier: seq<Event>, window: seq<Event>, s: nat)
    requires qps >= 1.0 && burst >= 1.0 && TokensOk(MakeLimits(qps, burst), bs)
    ensures var l := MakeLimits(qps, burst);
            var start := After(l, bs, earlier);
            TokensOk(l, After(l, start, window)) && WithinBound(l, start, window, s, Forward(window, s) * qps)
  {
    MakeLimitsOk(qps, burst);
    PerSecondAdds(qps, window, s);
    WindowBound(MakeLimits(qps, burst), bs, earlier, window, s, Forward(window, s) * qps);
  }

  /** The session's calls come at non-decreasing times. */
  predicate Monotone(es: seq<Event>, s: nat) {
    es == [] || (
      && Monotone(es[..|es| - 1], s)
      && (es[|es| - 1].Call? && es[|es| - 1].session == s && LastCall(es[..|es| - 1], s).Some? ==>
            LastCall(es[..|es| - 1], s).value <= es[|es| - 1].now))
  }

  function FirstCall(es: seq<Event>, s: nat): Option<real> {
    if es == [] then None
    else
      var before := FirstCall(es[..|es| - 1], s);
      var e := es[|es| - 1];
      if before.Some? then before else if e.Call? && e.session == s then Some(e.now) else None
  }

  /** The time from the session's first call to its last. */
  function Span(es: seq<Event>, s: nat): real {
    match (FirstCall(es, s), LastCall(es, s))
    case (Some(first), Some(last)) => last - first
    case _ => 0.0
  }

  lemma {:induction false} FirstAndLast(es: seq<Event>, s: nat)
    ensures FirstCall(es, s).Some? <==> LastCall(es, s).Some?
  {
    if es != [] { FirstAndLast(es[..|es| - 1], s); }
  }

  /** The forward time is never less than the time from the first call to the last, and the same exactly on a non-decreasing clock. */
  lemma {:induction false} ForwardIsElapsed(es: seq<Event>, s: nat)
    ensures Forward(es, s) >= Span(es, s)
    ensures Forward(es, s) == Span(es, s) <==> Monotone(es, s)
  {
    if es != [] {
      ForwardIsElapsed(es[..|es| - 1], s);
      FirstAndLast(es[..|es| - 1], s);
    }
  }

  lemma MonotoneCovered(l: Limits, bs: Buckets, earlier: seq<Event>, window: seq<Event>, s: nat, earned: real)
    requires LimitsOk(l) && TokensOk(l, bs) && EarnAdds(l.earn, window, s) && l.earn(0.0) == 0.0
    requires Monotone(window, s) && Forgets(window, s) == 0 && earned == l.earn(Span(window, s))
    ensures Grants(l, After(l, bs, earlier), window, s) as real <= l.burst + earned
  {
    ForwardIsElapsed(window, s);
    WindowBound(l, bs, earlier, window, s, earned);
  }

  /** With a non-decreasing clock and no `forget`: at most one burst plus the rate times the elapsed time. */
  lemma MonotoneBound(qps: real, burst: real, bs: Buckets, earlier: seq<Event>, window: seq<Event>, s: nat)
    requires qps >= 1.0 && burst >= 1.0 && TokensOk(MakeLimits(qps, burst), bs)
    requires Monotone(window, s) && Forgets(window, s) == 0
    ensures var l := MakeLimits(qps, burst);
            Grants(l, After(l, bs, earlier), window, s) as real <= burst + Span(window, s) * qps
  {
    MakeLimitsOk(qps, burst);
    PerSecondAdds(qps, window, s);
    MonotoneCovered(MakeLimits(qps, burst), bs, earlier, window, s, Span(window, s) * qps);
  }

  /** A call at least 1/qps after the previous one is always granted. */
  lemma SpacedCallGranted(qps: real, burst: real, bs: Buckets, s: nat, now: real)
    requires qps >= 1.0 && burst >= 1.0 && TokensOk(MakeLimits(qps, burst), bs)
    requires s in bs ==> now - bs[s].last >= 1.0 / qps
    ensures Step(MakeLimits(qps, burst), bs, Call(s, now)).1
  {
    if s in bs {
      EarnsOne(qps, now - bs[s].last);
    }
  }

  lemma EarnsOne(qps: real, d: real)
    requires qps >= 1.0 && d >= 1.0 / qps
    ensures d > 0.0 && PerSecond(qps)(d) >= 1.0
  {
    var slack := d - 1.0 / qps;
    Distribute(qps, 1.0 / qps, slack);
    assert 1.0 / qps * qps == 1.0;
  }

  /**
   * A clock that jumps back and forth is paid for each time it comes forward. A call reads the clock
   * before it locks its bucket, so concurrent calls of a session can reach the bucket in the other order.
   */
  lemma ClockGoesBack(s: nat)
    ensures var l, es := MakeLimits(1.0, 1.0), [Call(s, 0.0), Call(s, 1.0), Call(s, 0.0), Call(s, 1.0)];
            Grants(l, map[], es, s) == 3 && Grants(l, map[], es, s) as real > 1.0 + 1.0 * (1.0 - 0.0)
  {
    var l, bs: Buckets := MakeLimits(1.0, 1.0), map[];
    var one, two, three := [Call(s, 0.0)], [Call(s, 0.0), Call(s, 1.0)], [Call(s, 0.0), Call(s, 1.0), Call(s, 0.0)];
    OneBucket(l);
    FirstCallGranted(l, bs, s);
    CallAfter(l, bs, one, s, 1.0, Bucket(0.0, 0.0));
    assert one + [Call(s, 1.0)] == two;
    CallAfter(l, bs, two, s, 0.0, Bucket(0.0, 1.0));
    assert two + [Call(s, 0.0)] == three;
    CallAfter(l, bs, three, s, 1.0, Bucket(0.0, 0.0));
    assert three + [Call(s, 1.0)] == [Call(s, 0.0), Call(s, 1.0), Call(s, 0.0), Call(s, 1.0)];
  }

  lemma OneBucket(l: Limits)
    requires l == MakeLimits(1.0, 1.0)
    ensures Called(l, Some(Bucket(0.0, 0.0)), 1.0) == (Bucket(0.0, 1.0), true)
    ensures Called(l, Some(Bucket(0.0, 1.0)), 0.0) == (Bucket(0.0, 0.0), false)
  {
  }

  lemma FirstCallGranted(l: Limits, bs: Buckets, s: nat)
    requires l == MakeLimits(1.0, 1.0) && bs == map[]
    ensures After(l, bs, [Call(s, 0.0)]) == map[s := Bucket(0.0, 0.0)] && Grants(l, bs, [Call(s, 0.0)], s) == 1
  {
    var one := [Call(s, 0.0)];
    assert one[..0] == [];
    assert After(l, bs, one[..0]) == bs && Grants(l, bs, one[..0], s) == 0;
  }

  lemma CallAfter(l: Limits, bs: Buckets, es: seq<Event>, s: nat, now: real, b: Bucket)
    requires After(l, bs, es) == map[s := b]
    ensures var (after, granted) := Called(l, Some(b), now);
            && After(l, bs, es + [Call(s, now)]) == map[s := after]
            && Grants(l, bs, es + [Call(s, now)], s) == Grants(l, bs, es, s) + if granted then 1 else 0
  {
    assert (es + [Call(s, now)])[..|es|] == es;
  }
}
