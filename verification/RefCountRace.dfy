/** Threads racing through `lean_inc_ref_n` on one object: each loads the field, then updates
    it (crates/lean-rs-sys/src/refcount.rs:68-83). Any schedule of the threads' steps. */
module RefCountRace {
  import opened RefCounts

  /** Where a thread is: before its load, between load and update, or done. A panic of
      `strict_add` also ends the thread. */
  datatype Progress = Ready | Loaded(cur: i32) | Done

  datatype Race = Race(rc: i32, threads: seq<Progress>)

  /** One atomic step of thread `t`, which increments by `increments[t]`. A single-threaded
      count is stored from the value loaded earlier; a negated one is updated by `fetch_sub`. */
  function Step(race: Race, increments: seq<nat>, t: nat): Race
    requires t < |race.threads| == |increments|
  {
    var delta := WrapI32(increments[t]);
    match race.threads[t]
    case Ready => race.(threads := race.threads[t := Loaded(race.rc)])
    case Done => race
    case Loaded(cur) =>
      var done := race.threads[t := Done];
      if cur > 0 then
        Race(if -I32_LIMIT <= cur + delta <= I32_MAX then cur + delta else race.rc, done)
      else if cur != 0 then Race(WrapI32(race.rc - delta), done)
      else race.(threads := done)
  }

  /** A thread that updates what it has just loaded does what `lean_inc_ref_n` does alone. */
  lemma StepAlone(race: Race, increments: seq<nat>, t: nat)
    requires t < |race.threads| == |increments| && race.threads[t] == Loaded(race.rc)
    ensures var alone, next := IncRefN(race.rc, increments[t]), Step(race, increments, t);
            && next.rc == (if alone.Some? then alone.value else race.rc)
            && next.threads == race.threads[t := Done]
  {
  }

  function Execute(race: Race, increments: seq<nat>, schedule: seq<nat>): (end: Race)
    requires |race.threads| == |increments|
    requires forall i :: 0 <= i < |schedule| ==> schedule[i] < |increments|
    ensures |end.threads| == |increments|
  {
    if schedule == [] then race
    else
      Step(Execute(race, increments, schedule[..|schedule| - 1]), increments, schedule[|schedule| - 1])
  }

  function Total(increments: seq<nat>): nat {
    if increments == [] then 0 else Total(increments[..|increments| - 1]) + increments[|increments| - 1]
  }

  /** What the finished threads have added. */
  function Finished(threads: seq<Progress>, increments: seq<nat>): nat
    requires |threads| == |increments|
  {
    if threads == [] then 0
    else
      var n := |threads| - 1;
      Finished(threads[..n], increments[..n]) + if threads[n].Done? then increments[n] else 0
  }

  lemma {:induction false} FinishedUpdate(threads: seq<Progress>, increments: seq<nat>, t: nat, p: Progress)
    requires |threads| == |increments| && t < |threads| && !threads[t].Done?
    ensures Finished(threads[t := p], increments)
         == Finished(threads, increments) + if p.Done? then increments[t] else 0
  {
    var n := |threads| - 1;
    if t < n {
      FinishedUpdate(threads[..n], increments[..n], t, p);
      assert threads[t := p][..n] == threads[..n][t := p];
    } else {
      assert threads[t := p][..n] == threads[..n];
    }
  }

  lemma {:induction false} FinishedAtMostTotal(threads: seq<Progress>, increments: seq<nat>)
    requires |threads| == |increments|
    ensures Finished(threads, increments) <= Total(increments)
    ensures (forall t :: 0 <= t < |threads| ==> threads[t].Done?) ==>
              Finished(threads, increments) == Total(increments)
    ensures (forall t :: 0 <= t < |threads| ==> !threads[t].Done?) ==> Finished(threads, increments) == 0
  {
    if threads != [] {
      var n := |threads| - 1;
      FinishedAtMostTotal(threads[..n], increments[..n]);
    }
  }

  /** The object is multi-threaded, nobody ever saw it otherwise, and its count is the initial
      one plus what the finished threads added. */
  ghost predicate Accounted(race: Race, increments: seq<nat>, initial: nat)
    requires |race.threads| == |increments|
  {
    && race.rc == -(initial + Finished(race.threads, increments))
    && forall t :: 0 <= t < |race.threads| && race.threads[t].Loaded? ==> race.threads[t].cur < 0
  }

  lemma StepKeepsAccounts(race: Race, increments: seq<nat>, t: nat, initial: nat)
    requires t < |race.threads| == |increments| && initial >= 1
    requires initial + Total(increments) <= I32_LIMIT && Accounted(race, increments, initial)
    ensures Accounted(Step(race, increments, t), increments, initial)
  {
    var next := Step(race, increments, t);
    if !race.threads[t].Done? {
      FinishedUpdate(race.threads, increments, t, next.threads[t]);
      FinishedAtMostTotal(next.threads, increments);
      if race.threads[t].Loaded? { IncrementExactly(race.rc, increments[t]); }
    }
  }

  lemma {:induction false} ExecuteKeepsAccounts(race: Race, increments: seq<nat>, schedule: seq<nat>, initial: nat)
    requires |race.threads| == |increments| && initial >= 1
    requires forall i :: 0 <= i < |schedule| ==> schedule[i] < |increments|
    requires initial + Total(increments) <= I32_LIMIT && Accounted(race, increments, initial)
    ensures Accounted(Execute(race, increments, schedule), increments, initial)
  {
    if schedule != [] {
      var n := |schedule| - 1;
      ExecuteKeepsAccounts(race, increments, schedule[..n], initial);
      StepKeepsAccounts(Execute(race, increments, schedule[..n]), increments, schedule[n], initial);
    }
  }

  /** No update is lost on a multi-threaded object: whatever the interleaving, the object
      stays multi-threaded at every point, and once every thread is done its live count is
      the initial one plus the sum of the increments. */
  lemma NoLostUpdates(race: Race, increments: seq<nat>, schedule: seq<nat>)
    requires |race.threads| == |increments| && forall t :: 0 <= t < |race.threads| ==> race.threads[t].Ready?
    requires forall i :: 0 <= i < |schedule| ==> schedule[i] < |increments|
    requires race.rc < 0 && LiveCount(race.rc) + Total(increments) <= I32_LIMIT
    ensures var end := Execute(race, increments, schedule);
            && ModeOf(end.rc) == MultiThreaded
            && LiveCount(end.rc) <= LiveCount(race.rc) + Total(increments)
            && ((forall t :: 0 <= t < |end.threads| ==> end.threads[t].Done?) ==>
                  LiveCount(end.rc) == LiveCount(race.rc) + Total(increments))
  {
    FinishedAtMostTotal(race.threads, increments);
    ExecuteKeepsAccounts(race, increments, schedule, LiveCount(race.rc));
    FinishedAtMostTotal(Execute(race, increments, schedule).threads, increments);
  }

  // ----- a single-threaded object that is shared all the same -----

  /** How often `t` has moved: its first move is its load, its second its update. */
  function Moves(schedule: seq<nat>, t: nat): nat {
    if schedule == [] then 0
    else Moves(schedule[..|schedule| - 1], t) + if schedule[|schedule| - 1] == t then 1 else 0
  }

  /** The updates made by others since the last move of `t`. */
  function UpdatesSince(schedule: seq<nat>, t: nat): nat {
    if schedule == [] then 0
    else
      var front, mover := schedule[..|schedule| - 1], schedule[|schedule| - 1];
      if mover == t then 0 else UpdatesSince(front, t) + if Moves(front, mover) == 1 then 1 else 0
  }

  /** No update of another thread falls between a thread's load and its store. */
  ghost predicate UpdatesAlone(schedule: seq<nat>) {
    forall i :: 0 <= i < |schedule| && Moves(schedule[..i], schedule[i]) == 1 ==>
      UpdatesSince(schedule[..i], schedule[i]) == 0
  }

  /** A thread's progress is the number of its moves. */
  ghost predicate Progressed(race: Race, schedule: seq<nat>) {
    forall t :: 0 <= t < |race.threads| ==>
      && (race.threads[t].Ready? <==> Moves(schedule, t) == 0)
      && (race.threads[t].Loaded? <==> Moves(schedule, t) == 1)
  }

  /** Nothing is lost so far: the count is right, and what a thread has loaded is still right
      exactly if nobody has updated since. */
  ghost predicate Accurate(race: Race, increments: seq<nat>, schedule: seq<nat>, initial: nat)
    requires |race.threads| == |increments|
  {
    && race.rc == initial + Finished(race.threads, increments)
    && forall t :: 0 <= t < |race.threads| && race.threads[t].Loaded? ==>
         && 0 < race.threads[t].cur <= race.rc
         && (race.threads[t].cur == race.rc <==> UpdatesSince(schedule, t) == 0)
  }

  /** Something is lost, for good: the count and everything loaded lag behind. */
  ghost predicate Lagging(race: Race, increments: seq<nat>, initial: nat)
    requires |race.threads| == |increments|
  {
    && 0 < race.rc < initial + Finished(race.threads, increments)
    && forall t :: 0 <= t < |race.threads| && race.threads[t].Loaded? ==>
         0 < race.threads[t].cur < initial + Finished(race.threads, increments)
  }

  ghost predicate Positive(increments: seq<nat>) {
    forall t :: 0 <= t < |increments| ==> increments[t] > 0
  }

  lemma AppendMove(schedule: seq<nat>, t: nat, u: nat)
    ensures Moves(schedule + [t], u) == Moves(schedule, u) + if u == t then 1 else 0
    ensures UpdatesSince(schedule + [t], u)
         == if u == t then 0 else UpdatesSince(schedule, u) + if Moves(schedule, t) == 1 then 1 else 0
  {
    assert (schedule + [t])[..|schedule|] == schedule;
  }

  lemma StepProgresses(race: Race, increments: seq<nat>, schedule: seq<nat>, t: nat)
    requires t < |race.threads| == |increments| && Progressed(race, schedule)
    ensures Progressed(Step(race, increments, t), schedule + [t])
  {
    forall u | 0 <= u < |race.threads|
      ensures var next := Step(race, increments, t);
              && (next.threads[u].Ready? <==> Moves(schedule + [t], u) == 0)
              && (next.threads[u].Loaded? <==> Moves(schedule + [t], u) == 1)
    {
      AppendMove(schedule, t, u);
    }
  }

  lemma SmallWraps(n: nat)
    requires n <= I32_MAX
    ensures WrapI32(n) == n
  {
  }

  /** What a store does to the total, when it cannot overflow. */
  lemma StoreAdds(race: Race, increments: seq<nat>, t: nat, initial: nat)
    requires t < |race.threads| == |increments| && race.threads[t].Loaded? && race.threads[t].cur > 0
    requires race.threads[t].cur <= initial + Finished(race.threads, increments)
    requires initial + Total(increments) <= I32_MAX
    ensures var next := Step(race, increments, t);
            && next.rc == race.threads[t].cur + increments[t]
            && next.threads == race.threads[t := Done]
            && Finished(next.threads, increments) == Finished(race.threads, increments) + increments[t]
  {
    FinishedUpdate(race.threads, increments, t, Done);
    FinishedAtMostTotal(race.threads[t := Done], increments);
    SmallWraps(increments[t]);
  }

  lemma LoadAddsNothing(race: Race, increments: seq<nat>, t: nat)
    requires t < |race.threads| == |increments| && !race.threads[t].Loaded?
    ensures var next := Step(race, increments, t);
            next.rc == race.rc && Finished(next.threads, increments) == Finished(race.threads, increments)
  {
    if race.threads[t].Ready? { FinishedUpdate(race.threads, increments, t, Loaded(race.rc)); }
  }

  lemma LaggingStays(race: Race, increments: seq<nat>, t: nat, initial: nat)
    requires t < |race.threads| == |increments| && Lagging(race, increments, initial)
    requires initial + Total(increments) <= I32_MAX
    ensures Lagging(Step(race, increments, t), increments, initial)
  {
    if race.threads[t].Loaded? {
      StoreAdds(race, increments, t, initial);
    } else {
      LoadAddsNothing(race, increments, t);
    }
  }

  lemma AccurateStep(race: Race, increments: seq<nat>, schedule: seq<nat>, t: nat, initial: nat)
    requires t < |race.threads| == |increments| && initial >= 1 && Positive(increments)
    requires initial + Total(increments) <= I32_MAX
    requires Progressed(race, schedule) && Accurate(race, increments, schedule, initial)
    ensures var next := Step(race, increments, t);
            if Moves(schedule, t) == 1 && UpdatesSince(schedule, t) > 0 then Lagging(next, increments, initial)
            else Accurate(next, increments, schedule + [t], initial)
  {
    var next := Step(race, increments, t);
    if race.threads[t].Loaded? {
      StoreAdds(race, increments, t, initial);
    } else {
      LoadAddsNothing(race, increments, t);
    }
    forall u | 0 <= u < |race.threads|
      ensures UpdatesSince(schedule + [t], u)
           == if u == t then 0 else UpdatesSince(schedule, u) + if Moves(schedule, t) == 1 then 1 else 0
    {
      AppendMove(schedule, t, u);
    }
  }

  lemma AloneSoFar(schedule: seq<nat>, t: nat)
    ensures UpdatesAlone(schedule + [t]) <==>
              UpdatesAlone(schedule) && (Moves(schedule, t) == 1 ==> UpdatesSince(schedule, t) == 0)
  {
    var all, n := schedule + [t], |schedule|;
    assert forall i :: 0 <= i < n ==> all[..i] == schedule[..i] && all[i] == schedule[i];
    assert all[..n] == schedule && all[n] == t;
  }

  ghost predicate Tracked(race: Race, increments: seq<nat>, schedule: seq<nat>, initial: nat)
    requires |race.threads| == |increments|
  {
    && Progressed(race, schedule)
    && if UpdatesAlone(schedule) then Accurate(race, increments, schedule, initial)
       else Lagging(race, increments, initial)
  }

  lemma StepIsTracked(race: Race, increments: seq<nat>, schedule: seq<nat>, t: nat, initial: nat)
    requires t < |race.threads| == |increments| && initial >= 1 && Positive(increments)
    requires initial + Total(increments) <= I32_MAX && Tracked(race, increments, schedule, initial)
    ensures Tracked(Step(race, increments, t), increments, schedule + [t], initial)
  {
    AloneSoFar(schedule, t);
    StepProgresses(race, increments, schedule, t);
    if UpdatesAlone(schedule) {
      AccurateStep(race, increments, schedule, t, initial);
    } else {
      LaggingStays(race, increments, t, initial);
    }
  }

  lemma ExecuteOneMore(race: Race, increments: seq<nat>, schedule: seq<nat>, t: nat, all: seq<nat>)
    requires |race.threads| == |increments| && t < |increments| && all == schedule + [t]
    requires forall i :: 0 <= i < |schedule| ==> schedule[i] < |increments|
    ensures Execute(race, increments, all) == Step(Execute(race, increments, schedule), increments, t)
  {
    assert all[..|all| - 1] == schedule && all[|all| - 1] == t;
  }

  lemma StartIsTracked(race: Race, increments: seq<nat>)
    requires |race.threads| == |increments| && forall t :: 0 <= t < |race.threads| ==> race.threads[t].Ready?
    requires race.rc > 0
    ensures Tracked(race, increments, [], race.rc)
  {
    FinishedAtMostTotal(race.threads, increments);
  }

  lemma {:induction false} ExecuteIsTracked(race: Race, increments: seq<nat>, schedule: seq<nat>)
    requires |race.threads| == |increments| && forall t :: 0 <= t < |race.threads| ==> race.threads[t].Ready?
    requires forall i :: 0 <= i < |schedule| ==> schedule[i] < |increments|
    requires race.rc > 0 && race.rc + Total(increments) <= I32_MAX && Positive(increments)
    ensures Tracked(Execute(race, increments, schedule), increments, schedule, race.rc)
  {
    if schedule == [] {
      StartIsTracked(race, increments);
    } else {
      var front, t := schedule[..|schedule| - 1], schedule[|schedule| - 1];
      ExecuteIsTracked(race, increments, front);
      assert front + [t] == schedule;
      ExecuteOneMore(race, increments, front, t, schedule);
      StepIsTracked(Execute(race, increments, front), increments, front, t, race.rc);
    }
  }

  /** When every thread adds something, no update is lost if and only if no update of another
      thread falls between a thread's load and its store; otherwise the count ends too low. */
  lemma PositiveIncrementsExactly(race: Race, increments: seq<nat>, schedule: seq<nat>)
    requires |race.threads| == |increments| && forall t :: 0 <= t < |race.threads| ==> race.threads[t].Ready?
    requires forall i :: 0 <= i < |schedule| ==> schedule[i] < |increments|
    requires race.rc > 0 && race.rc + Total(increments) <= I32_MAX && Positive(increments)
    requires forall t :: 0 <= t < |increments| ==> Execute(race, increments, schedule).threads[t].Done?
    ensures var end := Execute(race, increments, schedule);
            && (end.rc == race.rc + Total(increments) <==> UpdatesAlone(schedule))
            && 0 < end.rc <= race.rc + Total(increments)
  {
    ExecuteIsTracked(race, increments, schedule);
    FinishedAtMostTotal(Execute(race, increments, schedule).threads, increments);
  }

  // ----- increments of zero included -----

  /** The threads whose updates the field holds after a schedule: a store leaves those its
      thread had loaded, and its own. */
  function Seen(schedule: seq<nat>): set<nat>
    decreases |schedule|
  {
    if schedule == [] then {}
    else
      var front, t := schedule[..|schedule| - 1], schedule[|schedule| - 1];
      if Moves(front, t) == 1 then SeenAtLoad(front, t) + {t} else Seen(front)
  }

  /** The threads whose updates the field held when `t` loaded it. */
  function SeenAtLoad(schedule: seq<nat>, t: nat): set<nat>
    decreases |schedule|
  {
    if schedule == [] then {}
    else
      var front := schedule[..|schedule| - 1];
      if schedule[|schedule| - 1] == t && Moves(front, t) == 0 then Seen(front) else SeenAtLoad(front, t)
  }

  function SumOver(increments: seq<nat>, threads: set<nat>): nat {
    if increments == [] then 0
    else
      var n := |increments| - 1;
      SumOver(increments[..n], threads) + if n in threads then increments[n] else 0
  }

  lemma SeenAfter(schedule: seq<nat>, t: nat, u: nat)
    ensures Seen(schedule + [t]) == if Moves(schedule, t) == 1 then SeenAtLoad(schedule, t) + {t} else Seen(schedule)
    ensures SeenAtLoad(schedule + [t], u)
         == if t == u && Moves(schedule, t) == 0 then Seen(schedule) else SeenAtLoad(schedule, u)
  {
    assert (schedule + [t])[..|schedule|] == schedule;
  }

  lemma {:induction false} SumOverOneMore(increments: seq<nat>, threads: set<nat>, t: nat)
    requires t < |increments| && t !in threads
    ensures SumOver(increments, threads + {t}) == SumOver(increments, threads) + increments[t]
  {
    var n := |increments| - 1;
    if t < n {
      SumOverOneMore(increments[..n], threads, t);
    } else {
      SumOverFrame(increments[..n], threads, threads + {t});
    }
  }

  lemma {:induction false} SumOverFrame(increments: seq<nat>, a: set<nat>, b: set<nat>)
    requires forall i :: 0 <= i < |increments| ==> (i in a <==> i in b)
    ensures SumOver(increments, a) == SumOver(increments, b)
  {
    if increments != [] { SumOverFrame(increments[..|increments| - 1], a, b); }
  }

  /** The sum is the whole total exactly when every thread that adds something is in the set. */
  lemma {:induction false} SumOverIsTotalExactly(increments: seq<nat>, threads: set<nat>)
    ensures SumOver(increments, threads) <= Total(increments)
    ensures SumOver(increments, threads) == Total(increments) <==>
            forall t :: 0 <= t < |increments| && increments[t] > 0 ==> t in threads
  {
    if increments != [] {
      var n := |increments| - 1;
      SumOverIsTotalExactly(increments[..n], threads);
      assert forall t :: 0 <= t < n ==> increments[..n][t] == increments[t];
    }
  }

  /** Only threads that have updated are seen. */
  lemma {:induction false} SeenHaveUpdated(schedule: seq<nat>, t: nat)
    ensures forall u :: u in Seen(schedule) ==> Moves(schedule, u) >= 2
    ensures forall u :: u in SeenAtLoad(schedule, t) ==> Moves(schedule, u) >= 2
  {
    if schedule != [] {
      var front, mover := schedule[..|schedule| - 1], schedule[|schedule| - 1];
      SeenHaveUpdated(front, t);
      SeenHaveUpdated(front, mover);
    }
  }

  /** The field, and what each thread has loaded, hold the updates they have seen. */
  ghost predicate HoldsSeen(race: Race, increments: seq<nat>, schedule: seq<nat>, initial: nat)
    requires |race.threads| == |increments|
  {
    && race.rc == initial + SumOver(increments, Seen(schedule))
    && forall t :: 0 <= t < |race.threads| && race.threads[t].Loaded? ==>
         race.threads[t].cur == initial + SumOver(increments, SeenAtLoad(schedule, t))
  }

  lemma StoreOfSeen(race: Race, increments: seq<nat>, schedule: seq<nat>, t: nat, initial: nat)
    requires t < |race.threads| == |increments| && race.threads[t].Loaded? && Moves(schedule, t) == 1
    requires initial >= 1 && initial + Total(increments) <= I32_MAX
    requires race.threads[t].cur == initial + SumOver(increments, SeenAtLoad(schedule, t))
    ensures var next := Step(race, increments, t);
            && next.threads == race.threads[t := Done]
            && next.rc == initial + SumOver(increments, SeenAtLoad(schedule, t) + {t})
  {
    SeenHaveUpdated(schedule, t);
    SumOverOneMore(increments, SeenAtLoad(schedule, t), t);
    SumOverIsTotalExactly(increments, SeenAtLoad(schedule, t) + {t});
    TotalCovers(increments, t);
    SmallWraps(increments[t]);
  }

  lemma {:induction false} TotalCovers(increments: seq<nat>, t: nat)
    requires t < |increments|
    ensures increments[t] <= Total(increments)
  {
    if t < |increments| - 1 { TotalCovers(increments[..|increments| - 1], t); }
  }

  lemma StepHoldsSeen(race: Race, increments: seq<nat>, schedule: seq<nat>, t: nat, initial: nat)
    requires t < |race.threads| == |increments| && Progressed(race, schedule)
    requires initial >= 1 && initial + Total(increments) <= I32_MAX
    requires HoldsSeen(race, increments, schedule, initial)
    ensures HoldsSeen(Step(race, increments, t), increments, schedule + [t], initial)
  {
    var next := Step(race, increments, t);
    if race.threads[t].Loaded? { StoreOfSeen(race, increments, schedule, t, initial); }
    SeenAfter(schedule, t, t);
    forall u | 0 <= u < |next.threads| && next.threads[u].Loaded?
      ensures next.threads[u].cur == initial + SumOver(increments, SeenAtLoad(schedule + [t], u))
    {
      SeenAfter(schedule, t, u);
    }
  }

  lemma {:induction false} ExecuteHoldsSeen(race: Race, increments: seq<nat>, schedule: seq<nat>)
    requires |race.threads| == |increments| && forall t :: 0 <= t < |race.threads| ==> race.threads[t].Ready?
    requires forall i :: 0 <= i < |schedule| ==> schedule[i] < |increments|
    requires race.rc > 0 && race.rc + Total(increments) <= I32_MAX
    ensures Progressed(Execute(race, increments, schedule), schedule)
    ensures HoldsSeen(Execute(race, increments, schedule), increments, schedule, race.rc)
  {
    if schedule == [] {
      NothingSeen(increments);
    } else {
      var front, t := schedule[..|schedule| - 1], schedule[|schedule| - 1];
      ExecuteHoldsSeen(race, increments, front);
      assert front + [t] == schedule;
      ExecuteOneMore(race, increments, front, t, schedule);
      StepProgresses(Execute(race, increments, front), increments, front, t);
      StepHoldsSeen(Execute(race, increments, front), increments, front, t, race.rc);
    }
  }

  lemma {:induction false} NothingSeen(increments: seq<nat>)
    ensures SumOver(increments, {}) == 0
  {
    if increments != [] { NothingSeen(increments[..|increments| - 1]); }
  }

  /** Why the sign matters. On a single-threaded count that threads share, for every schedule
      and all increments, zero included: the count is at every point the initial one plus the
      increments of the threads seen, so at the end no update is lost if and only if every
      thread that adds something is seen. */
  lemma SingleThreadedPathExactly(race: Race, increments: seq<nat>, schedule: seq<nat>)
    requires |race.threads| == |increments| && forall t :: 0 <= t < |race.threads| ==> race.threads[t].Ready?
    requires forall i :: 0 <= i < |schedule| ==> schedule[i] < |increments|
    requires race.rc > 0 && race.rc + Total(increments) <= I32_MAX
    ensures var end := Execute(race, increments, schedule);
            && end.rc == race.rc + SumOver(increments, Seen(schedule)) <= race.rc + Total(increments)
            && (end.rc == race.rc + Total(increments) <==>
                  forall t :: 0 <= t < |increments| && increments[t] > 0 ==> t in Seen(schedule))
  {
    ExecuteHoldsSeen(race, increments, schedule);
    SumOverIsTotalExactly(increments, Seen(schedule));
  }

  lemma OneMoreMove(schedule: seq<nat>, t: nat, all: seq<nat>)
    requires all == schedule + [t]
    ensures forall u :: Moves(all, u) == Moves(schedule, u) + if u == t then 1 else 0
    ensures forall u :: UpdatesSince(all, u)
                     == if u == t then 0 else UpdatesSince(schedule, u) + if Moves(schedule, t) == 1 then 1 else 0
    ensures Seen(all) == if Moves(schedule, t) == 1 then SeenAtLoad(schedule, t) + {t} else Seen(schedule)
    ensures forall u :: SeenAtLoad(all, u)
                     == if t == u && Moves(schedule, t) == 0 then Seen(schedule) else SeenAtLoad(schedule, u)
  {
    forall u
      ensures Moves(all, u) == Moves(schedule, u) + if u == t then 1 else 0
      ensures UpdatesSince(all, u)
           == if u == t then 0 else UpdatesSince(schedule, u) + if Moves(schedule, t) == 1 then 1 else 0
    {
      AppendMove(schedule, t, u);
    }
    forall u
      ensures SeenAtLoad(all, u)
           == if t == u && Moves(schedule, t) == 0 then Seen(schedule) else SeenAtLoad(schedule, u)
    {
      SeenAfter(schedule, t, u);
    }
    SeenAfter(schedule, t, t);
  }

  /** An update that falls between a load and a store need not be lost: thread 1 updates between
      the load and the store of thread 0, which puts the old count back, but thread 2 had seen
      it, and its store brings it back. With an increment of 0 for thread 0 nothing is missing. */
  lemma SeenThroughAnother() returns (schedule: seq<nat>)
    ensures schedule == [0, 1, 1, 2, 0, 2] && Seen(schedule) == {1, 2}
    ensures Moves(schedule[..4], 0) == 1 && UpdatesSince(schedule[..4], 0) == 1
  {
    var s0: seq<nat> := [];
    var s1, s2, s3 := s0 + [0], s0 + [0] + [1], s0 + [0] + [1] + [1];
    var s4, s5 := s3 + [2], s3 + [2] + [0];
    schedule := s5 + [2];
    OneMoreMove(s0, 0, s1);
    OneMoreMove(s1, 1, s2);
    OneMoreMove(s2, 1, s3);
    OneMoreMove(s3, 2, s4);
    OneMoreMove(s4, 0, s5);
    OneMoreMove(s5, 2, schedule);
    assert schedule[..4] == s4;
  }

  /** The four moves of two threads that both load before either stores. */
  lemma LosingMoves(n: nat, increments: seq<nat>)
    requires |increments| == 2 && 0 < n && n + increments[0] + increments[1] <= I32_MAX
    ensures Step(Race(n, [Ready, Ready]), increments, 0) == Race(n, [Loaded(n), Ready])
    ensures Step(Race(n, [Loaded(n), Ready]), increments, 1) == Race(n, [Loaded(n), Loaded(n)])
    ensures Step(Race(n, [Loaded(n), Loaded(n)]), increments, 0) == Race(n + increments[0], [Done, Loaded(n)])
    ensures Step(Race(n + increments[0], [Done, Loaded(n)]), increments, 1) == Race(n + increments[1], [Done, Done])
  {
    SmallWraps(increments[0]);
    SmallWraps(increments[1]);
  }

  /** Two threads that both load before either stores: the first one's update is lost. */
  lemma SingleThreadedPathLosesUpdates(n: nat, increments: seq<nat>) returns (schedule: seq<nat>)
    requires |increments| == 2 && 0 < n && n + increments[0] + increments[1] <= I32_MAX
    ensures schedule == [0, 1, 0, 1]
    ensures Execute(Race(n, [Ready, Ready]), increments, schedule) == Race(n + increments[1], [Done, Done])
  {
    var r0, r1, r2 := Race(n, [Ready, Ready]), Race(n, [Loaded(n), Ready]), Race(n, [Loaded(n), Loaded(n)]);
    var r3 := Race(n + increments[0], [Done, Loaded(n)]);
    LosingMoves(n, increments);
    var s1: seq<nat>, s2: seq<nat>, s3: seq<nat> := [0], [0, 1], [0, 1, 0];
    schedule := [0, 1, 0, 1];
    ExecuteOneMore(r0, increments, [], 0, s1);
    ExecuteOneMore(r0, increments, s1, 1, s2);
    ExecuteOneMore(r0, increments, s2, 0, s3);
    ExecuteOneMore(r0, increments, s3, 1, schedule);
    assert Execute(r0, increments, s1) == r1;
    assert Execute(r0, increments, s2) == r2;
    assert Execute(r0, increments, s3) == r3;
  }
}
