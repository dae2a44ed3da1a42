/** The memory budget: threads reserving by compare-exchange and releasing on guard drop, step by step. */
module MemoryBudget {
  /** Where a thread is inside `try_reserve`. */
  datatype Phase = Trying(bytes: nat) | Loaded(bytes: nat, seen: nat)

  /**
   * The counter, the sizes of the live guards, and the threads inside `try_reserve`. `wrapped` records
   * that the counter's arithmetic left the machine word.
   */
  datatype State = State(reserved: nat, live: seq<nat>, threads: map<nat, Phase>, wrapped: bool)

  datatype Step =
    | Enter(thread: nat, bytes: nat)
    | Load(thread: nat)
    | Exchange(thread: nat)
    | DropGuard(guard: nat)

  /** The configured limit and the largest machine word. */
  datatype Config = Config(limit: nat, max: nat)

  const INIT := State(0, [], map[], false)

  function Saturating(c: Config, a: nat, b: nat): nat {
    if a + b <= c.max then a + b else c.max
  }

  /** Sums and differences of two machine words wrap around once. */
  function Wrap(c: Config, x: int): nat {
    if x > c.max then x - c.max - 1 else if x >= 0 then x else if x + c.max >= -1 then x + c.max + 1 else 0
  }

  predicate InWord(c: Config, x: int) {
    0 <= x <= c.max
  }

  function Sum(sizes: seq<nat>): nat {
    if sizes == [] then 0 else Sum(sizes[..|sizes| - 1]) + sizes[|sizes| - 1]
  }

  /** One atomic step; a step that is not enabled changes nothing. */
  function Next(c: Config, s: State, step: Step): State {
    match step
    case Enter(t, bytes) => if t in s.threads || bytes > c.max then s else s.(threads := s.threads[t := Trying(bytes)])
    case Load(t) =>
      if t !in s.threads || !s.threads[t].Trying? then s
      else
        var bytes := s.threads[t].bytes;
        if Saturating(c, s.reserved, bytes) > c.limit then s.(threads := s.threads - {t})
        else s.(threads := s.threads[t := Loaded(bytes, s.reserved)])
    case Exchange(t) =>
      if t !in s.threads || !s.threads[t].Loaded? then s
      else
        var Loaded(bytes, seen) := s.threads[t];
        if s.reserved != seen then s.(threads := s.threads[t := Trying(bytes)])
        else State(Wrap(c, seen + bytes), s.live + [bytes], s.threads - {t}, s.wrapped || !InWord(c, seen + bytes))
    case DropGuard(g) =>
      if g >= |s.live| then s
      else
        var bytes := s.live[g];
        State(Wrap(c, s.reserved - bytes), s.live[..g] + s.live[g + 1..], s.threads, s.wrapped || !InWord(c, s.reserved - bytes))
  }

  function Run(c: Config, steps: seq<Step>): State {
    if steps == [] then INIT else Next(c, Run(c, steps[..|steps| - 1]), steps[|steps| - 1])
  }

  /** The counter is the sum of the live guards, within the limit, and never left the machine word. */
  predicate Accounted(c: Config, s: State) {
    s.reserved == Sum(s.live) && s.reserved <= c.limit && !s.wrapped
  }

  /** A loaded value that passed the test leaves room for the reservation. */
  predicate RoomSeen(c: Config, s: State) {
    forall t :: t in s.threads && s.threads[t].Loaded? ==> s.threads[t].seen + s.threads[t].bytes <= c.limit
  }

  lemma {:induction false} SumAppend(a: seq<nat>, b: seq<nat>)
    ensures Sum(a + b) == Sum(a) + Sum(b)
  {
    if b == [] {
      assert a + b == a;
    } else {
      var n := |b| - 1;
      assert (a + b)[..|a + b| - 1] == a + b[..n];
      SumAppend(a, b[..n]);
    }
  }

  lemma SumSnoc(s: seq<nat>, x: nat)
    ensures Sum(s + [x]) == Sum(s) + x
  {
    assert (s + [x])[..|s|] == s;
  }

  lemma SumRemove(s: seq<nat>, g: nat)
    requires g < |s|
    ensures Sum(s) == Sum(s[..g] + s[g + 1..]) + s[g]
  {
    SumAppend(s[..g], s[g + 1..]);
    SumAppend(s[..g + 1], s[g + 1..]);
    assert s == s[..g + 1] + s[g + 1..];
    assert s[..g + 1][..g] == s[..g];
  }

  lemma ExchangeSafe(c: Config, s: State, t: nat)
    requires c.limit < c.max && Accounted(c, s) && RoomSeen(c, s)
    requires t in s.threads && s.threads[t].Loaded? && s.reserved == s.threads[t].seen
    ensures Accounted(c, Next(c, s, Exchange(t)))
  {
    var bytes := s.threads[t].bytes;
    assert s.threads[t].seen + bytes <= c.limit;
    SumSnoc(s.live, bytes);
    var after := Next(c, s, Exchange(t));
    assert after.live == s.live + [bytes];
    assert after.reserved == s.reserved + bytes && !after.wrapped;
  }

  lemma DropSafe(c: Config, s: State, g: nat)
    requires c.limit < c.max && Accounted(c, s)
    ensures Accounted(c, Next(c, s, DropGuard(g)))
  {
    if g < |s.live| { SumRemove(s.live, g); }
  }

  lemma StepSafe(c: Config, s: State, step: Step)
    requires c.limit < c.max && Accounted(c, s) && RoomSeen(c, s)
    ensures Accounted(c, Next(c, s, step)) && RoomSeen(c, Next(c, s, step))
  {
    match step
    case Exchange(t) =>
      if t in s.threads && s.threads[t].Loaded? && s.reserved == s.threads[t].seen { ExchangeSafe(c, s, t); }
    case DropGuard(g) => DropSafe(c, s, g);
    case _ =>
  }

  lemma {:induction false} RunSafe(c: Config, steps: seq<Step>)
    requires c.limit < c.max
    ensures Accounted(c, Run(c, steps)) && RoomSeen(c, Run(c, steps))
  {
    if steps != [] {
      RunSafe(c, steps[..|steps| - 1]);
      StepSafe(c, Run(c, steps[..|steps| - 1]), steps[|steps| - 1]);
    }
  }

  lemma RunSnoc(c: Config, steps: seq<Step>, step: Step)
    ensures Run(c, steps + [step]) == Next(c, Run(c, steps), step)
  {
    assert (steps + [step])[..|steps|] == steps;
  }

  lemma Extend(c: Config, steps: seq<Step>, step: Step, after: State) returns (more: seq<Step>)
    requires Next(c, Run(c, steps), step) == after
    ensures Run(c, more) == after
  {
    more := steps + [step];
    RunSnoc(c, steps, step);
  }

  /** A thread that nobody disturbs reserves what it asks for, when the test lets it. */
  lemma ReserveAlone(c: Config, steps: seq<Step>, s: State, bytes: nat) returns (more: seq<Step>)
    requires Run(c, steps) == s
    requires s.threads == map[] && bytes <= c.max && Saturating(c, s.reserved, bytes) <= c.limit
    ensures Run(c, more) == State(Wrap(c, s.reserved + bytes), s.live + [bytes], map[], s.wrapped || !InWord(c, s.reserved + bytes))
  {
    var entered, loaded := s.(threads := map[0 := Trying(bytes)]), s.(threads := map[0 := Loaded(bytes, s.reserved)]);
    more := Extend(c, steps, Enter(0, bytes), entered);
    assert entered.threads[0 := Loaded(bytes, s.reserved)] == loaded.threads;
    more := Extend(c, more, Load(0), loaded);
    assert loaded.threads - {0} == map[];
    more := Extend(c, more, Exchange(0), Next(c, loaded, Exchange(0)));
  }

  /** With the limit at the largest machine word the test cannot see the overflow. */
  lemma LimitAtMaximum(c: Config) returns (steps: seq<Step>)
    requires c.limit == c.max && c.max > 0
    ensures !Accounted(c, Run(c, steps))
  {
    steps := ReserveAlone(c, [], INIT, c.max);
    steps := ReserveAlone(c, steps, Run(c, steps), 1);
  }

  /** Every interleaving keeps the account exactly when the limit is below the largest machine word. */
  lemma SafeIffBelowMaximum(c: Config)
    requires c.limit <= c.max && c.max > 0
    ensures (forall steps :: Accounted(c, Run(c, steps))) <==> c.limit < c.max
  {
    if c.limit < c.max {
      forall steps ensures Accounted(c, Run(c, steps)) { RunSafe(c, steps); }
    } else {
      var steps := LimitAtMaximum(c);
    }
  }

  // ----- retrying is never in vain -----

  /** Only a successful exchange and a guard drop move the counter. */
  lemma CounterMoves(c: Config, s: State, step: Step)
    requires Next(c, s, step).reserved != s.reserved
    ensures step.DropGuard? || (step.Exchange? && |Next(c, s, step).live| == |s.live| + 1)
  {
  }

  /** If the counter differs, some step in between moved it. */
  lemma {:induction false} CounterMoved(c: Config, start: seq<Step>, between: seq<Step>) returns (k: nat)
    requires Run(c, start + between).reserved != Run(c, start).reserved
    ensures k < |between|
    ensures var s := Run(c, start + between[..k]);
            && Next(c, s, between[k]).reserved != s.reserved
            && (between[k].DropGuard? || (between[k].Exchange? && |Next(c, s, between[k]).live| == |s.live| + 1))
    decreases |between|
  {
    assert start + [] == start;
    k := |between| - 1;
    var s := Run(c, start + between[..k]);
    assert start + between == (start + between[..k]) + [between[k]];
    RunSnoc(c, start + between[..k], between[k]);
    if Next(c, s, between[k]).reserved != s.reserved {
      CounterMoves(c, s, between[k]);
    } else {
      var last := k;
      k := CounterMoved(c, start, between[..last]);
      assert between[..last][..k] == between[..k];
    }
  }

  predicate NoStepsOf(steps: seq<Step>, t: nat) {
    forall i :: 0 <= i < |steps| ==> steps[i].DropGuard? || steps[i].thread != t
  }

  lemma OthersStep(c: Config, s: State, step: Step, t: nat)
    requires step.DropGuard? || step.thread != t
    ensures t in Next(c, s, step).threads <==> t in s.threads
    ensures t in s.threads ==> Next(c, s, step).threads[t] == s.threads[t]
  {
  }

  /** A thread stays as it is until it steps itself. */
  lemma {:induction false} ThreadWaits(c: Config, start: seq<Step>, between: seq<Step>, t: nat)
    requires t in Run(c, start).threads && NoStepsOf(between, t)
    ensures var s := Run(c, start + between); t in s.threads && s.threads[t] == Run(c, start).threads[t]
  {
    if between == [] {
      assert start + between == start;
    } else {
      var k := |between| - 1;
      ThreadWaits(c, start, between[..k], t);
      assert start + between == (start + between[..k]) + [between[k]];
      RunSnoc(c, start + between[..k], between[k]);
      OthersStep(c, Run(c, start + between[..k]), between[k], t);
    }
  }

  /**
   * If an exchange fails, another thread's reservation or some guard's release went through since the
   * load: the retry loop makes progress as a whole.
   */
  lemma FailedExchange(c: Config, before: seq<Step>, between: seq<Step>, t: nat) returns (k: nat)
    requires NoStepsOf(between, t)
    requires var s := Run(c, before); t in s.threads && s.threads[t].Trying?
    requires var s := Run(c, before + [Load(t)] + between);
             t in s.threads && s.threads[t].Loaded? && Next(c, s, Exchange(t)).threads.Keys == s.threads.Keys
    ensures k < |between|
    ensures var s := Run(c, before + [Load(t)] + between[..k]);
            && Next(c, s, between[k]).reserved != s.reserved
            && (between[k].DropGuard? || (between[k].Exchange? && |Next(c, s, between[k]).live| == |s.live| + 1))
  {
    var start := before + [Load(t)];
    RunSnoc(c, before, Load(t));
    if t in Run(c, start).threads {
      ThreadWaits(c, start, between, t);
    } else {
      ThreadAbsent(c, start, between, t);
    }
    assert Run(c, start + between).reserved != Run(c, start).reserved;
    k := CounterMoved(c, start, between);
  }

  lemma {:induction false} ThreadAbsent(c: Config, start: seq<Step>, between: seq<Step>, t: nat)
    requires t !in Run(c, start).threads && NoStepsOf(between, t)
    ensures t !in Run(c, start + between).threads
  {
    if between == [] {
      assert start + between == start;
    } else {
      var k := |between| - 1;
      ThreadAbsent(c, start, between[..k], t);
      assert start + between == (start + between[..k]) + [between[k]];
      RunSnoc(c, start + between[..k], between[k]);
      OthersStep(c, Run(c, start + between[..k]), between[k], t);
    }
  }
}
