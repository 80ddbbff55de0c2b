/**
 The Hacker News worker pool: one producer hands job indexes over an unbuffered channel to a few
 workers, stops early if the context is done, closes the channel, waits for every worker to leave,
 and builds the feed from the result slots in source order.
 */
module StoryPool {
  import opened Wrappers
  import opened ResultSlots

  const MAX_STORIES: nat := 30
  const MAX_WORKERS: nat := 8

  datatype Worker = Idle | Busy(index: nat) | Exited

  /** The handler: sending index `next`, waiting after closing the channel, or done. */
  datatype Main = Enqueueing(next: nat) | Waiting | Returned(feed: seq<Item>)

  /** `taken` logs which worker received each job, `finished` the jobs whose fetch has ended. */
  datatype State = State(
    main: Main,
    cancelled: bool,
    workers: seq<Worker>,
    slots: seq<Option<Item>>,
    taken: seq<(nat, nat)>,
    finished: seq<nat>)

  datatype Step =
    | Cancel
    | HandOver(worker: nat)
    | StopEarly
    | Close
    | Finish(worker: nat)
    | Exit(worker: nat)
    | Return

  /** `outcome[i]` is what fetching story `i` yields in this run, if its fetch is ever made. */
  function Init(outcome: seq<Option<Item>>): State {
    State(Enqueueing(0), false,
          seq(Min(MAX_WORKERS, |outcome|), _ => Idle), seq(|outcome|, _ => None), [], [])
  }

  predicate Enabled(outcome: seq<Option<Item>>, s: State, step: Step) {
    match step
    case Cancel => !s.cancelled
    case HandOver(w) => s.main.Enqueueing? && s.main.next < |outcome| && w < |s.workers| && s.workers[w] == Idle
    case StopEarly => s.main.Enqueueing? && s.main.next < |outcome| && s.cancelled
    case Close => s.main.Enqueueing? && s.main.next >= |outcome|
    case Finish(w) => w < |s.workers| && s.workers[w].Busy? && s.workers[w].index < |outcome| == |s.slots|
    case Exit(w) => !s.main.Enqueueing? && w < |s.workers| && s.workers[w] == Idle
    case Return => s.main == Waiting && forall w :: 0 <= w < |s.workers| ==> s.workers[w] == Exited
  }

  function Do(outcome: seq<Option<Item>>, s: State, step: Step): State
    requires Enabled(outcome, s, step)
  {
    match step
    case Cancel => s.(cancelled := true)
    case HandOver(w) =>
      s.(main := Enqueueing(s.main.next + 1),
         workers := s.workers[w := Busy(s.main.next)], taken := s.taken + [(w, s.main.next)])
    case StopEarly => s.(main := Waiting)
    case Close => s.(main := Waiting)
    case Finish(w) =>
      var i := s.workers[w].index;
      s.(workers := s.workers[w := Idle], finished := s.finished + [i],
         slots := if outcome[i].Some? then s.slots[i := outcome[i]] else s.slots)
    case Exit(w) => s.(workers := s.workers[w := Exited])
    case Return => s.(main := Returned(Successes(s.slots)))
  }

  ghost predicate Possible(outcome: seq<Option<Item>>, s: State, steps: seq<Step>)
    decreases |steps|
  {
    steps == [] || (Enabled(outcome, s, steps[0]) && Possible(outcome, Do(outcome, s, steps[0]), steps[1..]))
  }

  ghost function Exec(outcome: seq<Option<Item>>, s: State, steps: seq<Step>): State
    requires Possible(outcome, s, steps)
    decreases |steps|
  {
    if steps == [] then s else Exec(outcome, Do(outcome, s, steps[0]), steps[1..])
  }

  // ----- Safety -----

  /** Job `i` is with the one worker that took it, or its fetch has ended; never both. */
  ghost predicate JobOk(s: State, i: nat)
    requires i < |s.taken|
  {
    && s.taken[i].1 == i && s.taken[i].0 < |s.workers|
    && (s.workers[s.taken[i].0] == Busy(i) <==> i !in s.finished)
  }

  ghost predicate Inv(outcome: seq<Option<Item>>, s: State) {
    && |s.workers| == Min(MAX_WORKERS, |outcome|) && |s.slots| == |outcome|
    && |s.taken| <= |outcome|
    && (s.main.Enqueueing? ==> s.main.next == |s.taken|)
    && (!s.main.Enqueueing? && !s.cancelled ==> |s.taken| == |outcome|)
    && (forall i: nat :: i < |s.taken| ==> JobOk(s, i))
    && WorkersOk(s)
    && (forall j :: 0 <= j < |s.finished| ==> s.finished[j] < |s.taken|)
    && (forall j, k :: 0 <= j < k < |s.finished| ==> s.finished[j] != s.finished[k])
    && (forall i: nat :: i < |s.slots| ==> s.slots[i] == if i in s.finished then outcome[i] else None)
    && (s.main.Returned? ==> AllExited(s) && s.main.feed == Successes(s.slots))
  }

  ghost predicate WorkersOk(s: State) {
    forall w :: 0 <= w < |s.workers| ==>
      && (s.workers[w].Busy? ==> s.workers[w].index < |s.taken| && s.taken[s.workers[w].index].0 == w)
      && (s.workers[w].Exited? ==> !s.main.Enqueueing?)
  }

  ghost predicate AllExited(s: State) {
    forall w :: 0 <= w < |s.workers| ==> s.workers[w] == Exited
  }

  lemma HandOverKeepsInv(outcome: seq<Option<Item>>, s: State, w: nat)
    requires Inv(outcome, s) && Enabled(outcome, s, HandOver(w))
    ensures Inv(outcome, Do(outcome, s, HandOver(w)))
  {
    var after := Do(outcome, s, HandOver(w));
    assert |s.taken| !in s.finished;
    forall i: nat | i < |after.taken| ensures JobOk(after, i) {
      if i < |s.taken| {
        assert JobOk(s, i);
      }
    }
  }

  lemma FinishKeepsInv(outcome: seq<Option<Item>>, s: State, w: nat)
    requires Inv(outcome, s) && Enabled(outcome, s, Finish(w))
    ensures Inv(outcome, Do(outcome, s, Finish(w)))
  {
    var after := Do(outcome, s, Finish(w));
    var done := s.workers[w].index;
    assert JobOk(s, done);
    forall i: nat | i < |after.taken| ensures JobOk(after, i) {
      assert JobOk(s, i);
      assert i in after.finished <==> i in s.finished || i == done;
    }
    assert forall i: nat :: i in after.finished <==> i in s.finished || i == done;
  }

  lemma StepKeepsInv(outcome: seq<Option<Item>>, s: State, step: Step)
    requires Inv(outcome, s) && Enabled(outcome, s, step)
    ensures Inv(outcome, Do(outcome, s, step))
  {
    match step
    case HandOver(w) => HandOverKeepsInv(outcome, s, w);
    case Finish(w) => FinishKeepsInv(outcome, s, w);
    case _ =>
      var after := Do(outcome, s, step);
      forall i: nat | i < |after.taken| ensures JobOk(after, i) {
        assert JobOk(s, i);
      }
  }

  lemma {:induction false} RunKeepsInv(outcome: seq<Option<Item>>, s: State, steps: seq<Step>)
    requires Inv(outcome, s) && Possible(outcome, s, steps)
    ensures Inv(outcome, Exec(outcome, s, steps))
    decreases |steps|
  {
    if steps != [] {
      StepKeepsInv(outcome, s, steps[0]);
      RunKeepsInv(outcome, Do(outcome, s, steps[0]), steps[1..]);
    }
  }

  /**
   Whatever the schedule and whenever the context is cancelled: when the handler returns, the jobs
   handed over are a prefix of the list, each received once, each fetched once and none left over,
   every worker has exited, and the feed is the successes of that prefix in source order. Without
   cancellation the prefix is the whole list.
   */
  lemma FeedIsPrefixInOrder(outcome: seq<Option<Item>>, steps: seq<Step>)
    requires Possible(outcome, Init(outcome), steps) && Exec(outcome, Init(outcome), steps).main.Returned?
    ensures var s := Exec(outcome, Init(outcome), steps);
      && var sent := |s.taken|;
      && sent <= |outcome| && (!s.cancelled ==> sent == |outcome|)
      && (forall i: nat :: i < sent ==> s.taken[i].1 == i)
      && multiset(s.finished) == multiset(set i | 0 <= i < sent :: s.taken[i].1)
      && AllExited(s)
      && IsFeedOf(s.main.feed, outcome[..sent])
  {
    RunKeepsInv(outcome, Init(outcome), steps);
    var s := Exec(outcome, Init(outcome), steps);
    forall i: nat | i < |s.taken| ensures i in s.finished && s.taken[i].1 == i {
      assert JobOk(s, i);
    }
    var jobs := set i | 0 <= i < |s.taken| :: s.taken[i].1;
    assert forall i :: i in jobs ==> i in s.finished;
    assert forall i :: i in s.finished ==> i < |s.taken| && s.taken[i].1 in jobs;
    DistinctIsSet(s.finished, jobs);
    SuccessesOfPrefix(outcome, s.slots, |s.taken|);
    SuccessesAreTheFeed(outcome[..|s.taken|]);
  }

  lemma {:induction false} DistinctIsSet(xs: seq<nat>, all: set<nat>)
    requires forall j, k :: 0 <= j < k < |xs| ==> xs[j] != xs[k]
    requires forall x :: x in all <==> x in xs
    ensures multiset(xs) == multiset(all)
  {
    if xs == [] {
      assert all == {};
    } else {
      var n := |xs| - 1;
      assert xs == xs[..n] + [xs[n]];
      DistinctIsSet(xs[..n], all - {xs[n]});
    }
  }

  // ----- Draining -----

  function Weight(worker: Worker): nat {
    match worker
    case Idle => 1
    case Busy(_) => 2
    case Exited => 0
  }

  function TotalWeight(workers: seq<Worker>): nat {
    if workers == [] then 0 else Weight(workers[0]) + TotalWeight(workers[1..])
  }

  lemma {:induction false} TotalWeightUpdate(workers: seq<Worker>, w: nat, worker: Worker)
    requires w < |workers|
    ensures TotalWeight(workers[w := worker]) == TotalWeight(workers) - Weight(workers[w]) + Weight(worker)
  {
    if w > 0 {
      TotalWeightUpdate(workers[1..], w - 1, worker);
      assert workers[w := worker][1..] == workers[1..][w - 1 := worker];
    } else {
      assert workers[w := worker][1..] == workers[1..];
    }
  }

  lemma {:induction false} AllIdleWeight(n: nat)
    ensures TotalWeight(seq(n, _ => Idle)) == n
  {
    if n > 0 {
      AllIdleWeight(n - 1);
      assert seq(n, _ => Idle)[1..] == seq(n - 1, _ => Idle);
    }
  }

  /** Work left: every step uses some of it up. */
  function Measure(outcome: seq<Option<Item>>, s: State): int {
    2 * (|outcome| - |s.taken|) + TotalWeight(s.workers)
    + (match s.main case Enqueueing(_) => 2 case Waiting => 1 case Returned(_) => 0)
    + (if s.cancelled then 0 else 1)
  }

  lemma StepUsesWork(outcome: seq<Option<Item>>, s: State, step: Step)
    requires Inv(outcome, s) && Enabled(outcome, s, step)
    ensures 0 <= Measure(outcome, Do(outcome, s, step)) < Measure(outcome, s)
  {
    StepKeepsInv(outcome, s, step);
    match step
    case HandOver(w) => TotalWeightUpdate(s.workers, w, Busy(s.main.next));
    case Finish(w) => TotalWeightUpdate(s.workers, w, Idle);
    case Exit(w) => TotalWeightUpdate(s.workers, w, Exited);
    case _ =>
  }

  lemma {:induction false} RunIsBounded(outcome: seq<Option<Item>>, s: State, steps: seq<Step>)
    requires Inv(outcome, s) && Possible(outcome, s, steps)
    ensures |steps| <= Measure(outcome, s)
    decreases |steps|
  {
    if steps != [] {
      StepUsesWork(outcome, s, steps[0]);
      StepKeepsInv(outcome, s, steps[0]);
      RunIsBounded(outcome, Do(outcome, s, steps[0]), steps[1..]);
    }
  }

  /** The step the pool can always take until the handler has returned. */
  ghost function NextStep(outcome: seq<Option<Item>>, s: State): Step
    requires Inv(outcome, s) && !s.main.Returned?
  {
    if exists w: nat :: w < |s.workers| && s.workers[w].Busy? then
      var w: nat :| w < |s.workers| && s.workers[w].Busy?; Finish(w)
    else if s.main.Enqueueing? then
      if s.main.next < |outcome| then HandOver(0) else Close
    else if exists w: nat :: w < |s.workers| && s.workers[w] == Idle then
      var w: nat :| w < |s.workers| && s.workers[w] == Idle; Exit(w)
    else Return
  }

  lemma NextStepIsEnabled(outcome: seq<Option<Item>>, s: State)
    requires Inv(outcome, s) && !s.main.Returned?
    ensures NextStep(outcome, s) != Cancel && Enabled(outcome, s, NextStep(outcome, s))
  {
  }

  /** The pool always drains: no reachable state is stuck before the handler returns, cancelled or
      not, and no run has more than `2n + workers + 3` steps, with at most eight workers. */
  lemma AlwaysDrains(outcome: seq<Option<Item>>, steps: seq<Step>)
    requires Possible(outcome, Init(outcome), steps)
    ensures |steps| <= 2 * |outcome| + (if |outcome| < 8 then |outcome| else 8) + 3
    ensures var s := Exec(outcome, Init(outcome), steps);
      !s.main.Returned? ==> exists step :: step != Cancel && Enabled(outcome, s, step)
  {
    hide *;
    InitKeepsInv(outcome);
    RunKeepsInv(outcome, Init(outcome), steps);
    RunIsBounded(outcome, Init(outcome), steps);
    InitialWork(outcome);
    var s := Exec(outcome, Init(outcome), steps);
    if !s.main.Returned? {
      NextStepIsEnabled(outcome, s);
    }
  }

  lemma InitKeepsInv(outcome: seq<Option<Item>>)
    ensures Inv(outcome, Init(outcome))
  {
  }

  lemma InitialWork(outcome: seq<Option<Item>>)
    ensures Measure(outcome, Init(outcome)) == 2 * |outcome| + (if |outcome| < 8 then |outcome| else 8) + 3
  {
    AllIdleWeight(Min(MAX_WORKERS, |outcome|));
  }

  // ----- What is possible -----

  ghost predicate Reaches(outcome: seq<Option<Item>>, s: State, t: State) {
    exists steps :: Possible(outcome, s, steps) && Exec(outcome, s, steps) == t
  }

  lemma ReachesItself(outcome: seq<Option<Item>>, s: State)
    ensures Reaches(outcome, s, s)
  {
    assert Possible(outcome, s, []) && Exec(outcome, s, []) == s;
  }

  lemma ReachesBack(outcome: seq<Option<Item>>, s: State, step: Step, t: State)
    requires Enabled(outcome, s, step) && Reaches(outcome, Do(outcome, s, step), t)
    ensures Reaches(outcome, s, t)
  {
    var next := Do(outcome, s, step);
    var steps :| Possible(outcome, next, steps) && Exec(outcome, next, steps) == t;
    assert ([step] + steps)[1..] == steps;
    assert Possible(outcome, s, [step] + steps) && Exec(outcome, s, [step] + steps) == t;
  }

  /** Once nothing more is handed over, the pool can finish with what it has. */
  lemma {:induction false} CanFinish(outcome: seq<Option<Item>>, s: State) returns (t: State)
    requires Inv(outcome, s) && !s.main.Enqueueing?
    ensures Reaches(outcome, s, t) && t.main.Returned? && t.taken == s.taken && t.cancelled == s.cancelled
    decreases Measure(outcome, s)
  {
    if s.main.Returned? {
      ReachesItself(outcome, s);
      return s;
    }
    var step := NextStep(outcome, s);
    NextStepIsEnabled(outcome, s);
    StepKeepsInv(outcome, s, step);
    StepUsesWork(outcome, s, step);
    hide Inv, Measure, Reaches;
    t := CanFinish(outcome, Do(outcome, s, step));
    ReachesBack(outcome, s, step, t);
  }

  /** Any number of jobs can be handed over, and then the context can be cancelled. */
  lemma {:induction false} CanHandOver(outcome: seq<Option<Item>>, s: State, k: nat) returns (t: State)
    requires Inv(outcome, s) && s.main.Enqueueing? && |s.taken| <= k <= |outcome| && !s.cancelled
    ensures Reaches(outcome, s, t) && t.main.Returned? && |t.taken| == k
    ensures t.cancelled <==> k < |outcome|
    decreases Measure(outcome, s)
  {
    var step :=
      if |s.taken| < k then NextStep(outcome, s) else if k < |outcome| then Cancel else Close;
    NextStepIsEnabled(outcome, s);
    StepKeepsInv(outcome, s, step);
    StepUsesWork(outcome, s, step);
    var next := Do(outcome, s, step);
    if step == Cancel {
      StepKeepsInv(outcome, next, StopEarly);
      t := CanFinish(outcome, Do(outcome, next, StopEarly));
      ReachesBack(outcome, next, StopEarly, t);
    } else if step == Close {
      t := CanFinish(outcome, next);
    } else {
      t := CanHandOver(outcome, next, k);
    }
    ReachesBack(outcome, s, step, t);
  }

  /** A run of the whole handler that handed over `k` jobs. */
  ghost predicate Sends(outcome: seq<Option<Item>>, t: State, k: nat) {
    Reaches(outcome, Init(outcome), t) && t.main.Returned? && |t.taken| == k && (t.cancelled <==> k < |outcome|)
  }

  /** Cancellation can stop the handler after any number of stories, and without it the handler can
      send them all. */
  lemma EveryPrefixIsPossible(outcome: seq<Option<Item>>, k: nat)
    requires k <= |outcome|
    ensures exists t :: Sends(outcome, t, k)
  {
    InitKeepsInv(outcome);
    var t := CanHandOver(outcome, Init(outcome), k);
    assert Sends(outcome, t, k);
  }

  /** The first jobs go to a worker each. */
  function AllBusy(outcome: seq<Option<Item>>, k: nat): State {
    var n := |Init(outcome).workers|;
    Init(outcome).(
      main := Enqueueing(k),
      workers := seq(n, w requires 0 <= w => if w < k then Busy(w) else Idle),
      taken := seq(k, w requires 0 <= w => (w, w)))
  }

  lemma {:induction false} CanBusy(outcome: seq<Option<Item>>, k: nat, t: State)
    requires k <= |Init(outcome).workers| && Reaches(outcome, AllBusy(outcome, k), t)
    ensures Reaches(outcome, Init(outcome), t)
  {
    if k == 0 {
      assert AllBusy(outcome, 0).workers == Init(outcome).workers && AllBusy(outcome, 0).taken == [];
    } else {
      var before := AllBusy(outcome, k - 1);
      assert Enabled(outcome, before, HandOver(k - 1));
      assert Do(outcome, before, HandOver(k - 1)).workers == AllBusy(outcome, k).workers;
      assert Do(outcome, before, HandOver(k - 1)).taken == AllBusy(outcome, k).taken;
      ReachesBack(outcome, before, HandOver(k - 1), t);
      CanBusy(outcome, k - 1, t);
    }
  }

  /** At most eight stories are fetched at once, and with enough of them eight can be. */
  lemma EightFetchAtOnce(outcome: seq<Option<Item>>)
    ensures forall t :: Reaches(outcome, Init(outcome), t) ==>
      |t.workers| == if |outcome| < 8 then |outcome| else 8
    ensures exists t :: Reaches(outcome, Init(outcome), t) && forall w :: 0 <= w < |t.workers| ==> t.workers[w].Busy?
  {
    InitKeepsInv(outcome);
    forall t | Reaches(outcome, Init(outcome), t) ensures |t.workers| == if |outcome| < 8 then |outcome| else 8 {
      var steps :| Possible(outcome, Init(outcome), steps) && Exec(outcome, Init(outcome), steps) == t;
      RunKeepsInv(outcome, Init(outcome), steps);
    }
    var t := AllBusy(outcome, |Init(outcome).workers|);
    ReachesItself(outcome, t);
    CanBusy(outcome, |Init(outcome).workers|, t);
  }

  /** At most the first thirty stories are fetched. */
  method LimitStories(ids: seq<int>) returns (limited: seq<int>)
    ensures limited <= ids && |limited| == if |ids| < 30 then |ids| else 30
  {
    limited := if |ids| > MAX_STORIES then ids[..MAX_STORIES] else ids;
  }
}
