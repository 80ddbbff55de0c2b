/**
 Semaphore-bounded fan-out: the caller starts one goroutine per entry and waits for all of them;
 each takes a slot of the semaphore, runs its body, gives the slot back, and signs off. The Huxiu
 list handler and the Odaily detail fetcher share this protocol and differ in what a body writes.
 */
module FanOut {
  import opened Wrappers
  import opened ResultSlots

  type Detail = string

  /** Deferred calls run last in, first out: the semaphore is released before the sign-off. */
  datatype Routine = Unborn | Acquiring | Running | Releasing | SigningOff | Gone

  datatype Main = Spawning(next: nat) | Waiting | Returned

  /** `held` is the number of values in the semaphore channel; `log` the bodies in the order in which
      they wrote their result. */
  datatype State = State(main: Main, routines: seq<Routine>, held: nat, log: seq<nat>)

  datatype Step =
    | Spawn
    | SpawnedAll
    | Acquire(i: nat)
    | Body(i: nat)
    | Release(i: nat)
    | SignOff(i: nat)
    | Return

  function Init(n: nat): State {
    State(Spawning(0), seq(n, _ => Unborn), 0, [])
  }

  predicate Enabled(cap: nat, s: State, step: Step) {
    match step
    case Spawn => s.main.Spawning? && s.main.next < |s.routines|
    case SpawnedAll => s.main.Spawning? && s.main.next >= |s.routines|
    case Acquire(i) => i < |s.routines| && s.routines[i] == Acquiring && s.held < cap
    case Body(i) => i < |s.routines| && s.routines[i] == Running
    case Release(i) => i < |s.routines| && s.routines[i] == Releasing && s.held > 0
    case SignOff(i) => i < |s.routines| && s.routines[i] == SigningOff
    case Return => s.main == Waiting && forall i :: 0 <= i < |s.routines| ==> s.routines[i] == Gone
  }

  function Do(cap: nat, s: State, step: Step): State
    requires Enabled(cap, s, step)
  {
    match step
    case Spawn => s.(main := Spawning(s.main.next + 1), routines := s.routines[s.main.next := Acquiring])
    case SpawnedAll => s.(main := Waiting)
    case Acquire(i) => s.(routines := s.routines[i := Running], held := s.held + 1)
    case Body(i) => s.(routines := s.routines[i := Releasing], log := s.log + [i])
    case Release(i) => s.(routines := s.routines[i := SigningOff], held := s.held - 1)
    case SignOff(i) => s.(routines := s.routines[i := Gone])
    case Return => s.(main := Returned)
  }

  ghost predicate Possible(cap: nat, s: State, steps: seq<Step>)
    decreases |steps|
  {
    steps == [] || (Enabled(cap, s, steps[0]) && Possible(cap, Do(cap, s, steps[0]), steps[1..]))
  }

  ghost function Exec(cap: nat, s: State, steps: seq<Step>): State
    requires Possible(cap, s, steps)
    decreases |steps|
  {
    if steps == [] then s else Exec(cap, Do(cap, s, steps[0]), steps[1..])
  }

  // ----- Safety -----

  predicate Holds(r: Routine) {
    r == Running || r == Releasing
  }

  predicate HasWritten(r: Routine) {
    r == Releasing || r == SigningOff || r == Gone
  }

  function Count(routines: seq<Routine>, p: Routine -> bool): nat {
    if routines == [] then 0 else (if p(routines[0]) then 1 else 0) + Count(routines[1..], p)
  }

  lemma {:induction false} CountUpdate(routines: seq<Routine>, i: nat, r: Routine, p: Routine -> bool)
    requires i < |routines|
    ensures Count(routines[i := r], p)
         == Count(routines, p) - (if p(routines[i]) then 1 else 0) + (if p(r) then 1 else 0)
  {
    if i > 0 {
      CountUpdate(routines[1..], i - 1, r, p);
      assert routines[i := r][1..] == routines[1..][i - 1 := r];
    } else {
      assert routines[i := r][1..] == routines[1..];
    }
  }

  lemma {:induction false} CountNone(routines: seq<Routine>, p: Routine -> bool)
    requires forall i :: 0 <= i < |routines| ==> !p(routines[i])
    ensures Count(routines, p) == 0
  {
    if routines != [] {
      CountNone(routines[1..], p);
    }
  }

  lemma {:induction false} CountSome(routines: seq<Routine>, i: nat, p: Routine -> bool)
    requires i < |routines| && p(routines[i])
    ensures Count(routines, p) > 0
  {
    if i > 0 {
      CountSome(routines[1..], i - 1, p);
    }
  }

  lemma {:induction false} CountPositive(routines: seq<Routine>, p: Routine -> bool) returns (i: nat)
    requires Count(routines, p) > 0
    ensures i < |routines| && p(routines[i])
  {
    if p(routines[0]) {
      i := 0;
    } else {
      i := CountPositive(routines[1..], p);
      i := i + 1;
    }
  }

  ghost predicate Distinct(log: seq<nat>) {
    forall j, k :: 0 <= j < k < |log| ==> log[j] != log[k]
  }

  ghost predicate Inv(cap: nat, s: State) {
    && s.held == Count(s.routines, Holds) <= cap
    && Distinct(s.log)
    && (forall j :: 0 <= j < |s.log| ==> s.log[j] < |s.routines|)
    && (forall i: nat :: i < |s.routines| ==> (i in s.log <==> HasWritten(s.routines[i])))
    && (s.main.Spawning? ==> s.main.next <= |s.routines|)
    && (forall i: nat :: i < |s.routines| ==>
         (s.routines[i] == Unborn <==> s.main.Spawning? && s.main.next <= i))
    && (s.main == Returned ==> forall i :: 0 <= i < |s.routines| ==> s.routines[i] == Gone)
  }

  lemma InitInv(cap: nat, n: nat)
    ensures Inv(cap, Init(n))
  {
    CountNone(Init(n).routines, Holds);
  }

  lemma StepKeepsInv(cap: nat, s: State, step: Step)
    requires Inv(cap, s) && Enabled(cap, s, step)
    ensures Inv(cap, Do(cap, s, step))
  {
    hide Count;
    match step
    case Spawn => CountUpdate(s.routines, s.main.next, Acquiring, Holds);
    case Body(i) => BodyKeepsInv(cap, s, i);
    case Acquire(i) => MoveKeepsInv(cap, s, i, Running, Do(cap, s, step));
    case Release(i) => MoveKeepsInv(cap, s, i, SigningOff, Do(cap, s, step));
    case SignOff(i) => MoveKeepsInv(cap, s, i, Gone, Do(cap, s, step));
    case _ =>
  }

  lemma BodyKeepsInv(cap: nat, s: State, i: nat)
    requires Inv(cap, s) && Enabled(cap, s, Body(i))
    ensures Inv(cap, Do(cap, s, Body(i)))
  {
    CountUpdate(s.routines, i, Releasing, Holds);
    hide Count;
    assert forall j: nat :: j in Do(cap, s, Body(i)).log <==> j in s.log || j == i;
  }

  /** A routine that moves on without writing. */
  lemma MoveKeepsInv(cap: nat, s: State, i: nat, r: Routine, after: State)
    requires Inv(cap, s) && i < |s.routines| && s.routines[i] !in {Unborn, Gone} && r != Unborn
    requires HasWritten(r) == HasWritten(s.routines[i])
    requires after == s.(routines := s.routines[i := r], held := after.held)
    requires after.held <= cap
    requires after.held == s.held - (if Holds(s.routines[i]) then 1 else 0) + (if Holds(r) then 1 else 0)
    ensures Inv(cap, after)
  {
    CountUpdate(s.routines, i, r, Holds);
  }

  lemma {:induction false} RunKeepsInv(cap: nat, s: State, steps: seq<Step>)
    requires Inv(cap, s) && Possible(cap, s, steps)
    ensures Inv(cap, Exec(cap, s, steps)) && |Exec(cap, s, steps).routines| == |s.routines|
    decreases |steps|
  {
    if steps != [] {
      StepKeepsInv(cap, s, steps[0]);
      RunKeepsInv(cap, Do(cap, s, steps[0]), steps[1..]);
    }
  }

  /** `log` lists every index below `n` exactly once. */
  ghost predicate Complete(log: seq<nat>, n: nat) {
    Distinct(log) && forall i: nat :: i in log <==> i < n
  }

  /** The routines whose body has begun and that have not given their slot back. */
  ghost function Inside(s: State): set<nat> {
    set i: nat | i < |s.routines| && (s.routines[i] == Running || s.routines[i] == Releasing)
  }

  lemma {:induction false} CountIsSize(s: State)
    ensures Count(s.routines, Holds) == |Inside(s)|
    decreases |s.routines|
  {
    if s.routines == [] {
      assert Inside(s) == {};
    } else {
      var n := |s.routines| - 1;
      var before := s.(routines := s.routines[..n]);
      InsideSnoc(s, n);
      hide *;
      CountIsSize(before);
      assert s.routines == before.routines + [s.routines[n]];
      CountSnoc(before.routines, s.routines[n], Holds);
    }
  }

  lemma InsideSnoc(s: State, n: nat)
    requires |s.routines| == n + 1
    ensures |Inside(s)| == |Inside(s.(routines := s.routines[..n]))| + (if Holds(s.routines[n]) then 1 else 0)
  {
    assert Inside(s) == Inside(s.(routines := s.routines[..n])) + (if Holds(s.routines[n]) then {n} else {});
  }

  lemma {:induction false} CountSnoc(routines: seq<Routine>, r: Routine, p: Routine -> bool)
    ensures Count(routines + [r], p) == Count(routines, p) + (if p(r) then 1 else 0)
  {
    if routines == [] {
      assert [r][1..] == [] && routines + [r] == [r];
    } else {
      assert (routines + [r])[1..] == routines[1..] + [r];
      CountSnoc(routines[1..], r, p);
    }
  }

  /** In every schedule at most `cap` routines are inside at once, as many as the semaphore holds; when
      the wait ends the semaphore is empty and every body has written exactly once. */
  lemma FanOutIsBounded(cap: nat, n: nat, steps: seq<Step>)
    requires Possible(cap, Init(n), steps)
    ensures var s := Exec(cap, Init(n), steps);
      && |Inside(s)| == s.held <= cap && |s.routines| == n
      && (s.main == Returned ==> s.held == 0 && Complete(s.log, n))
  {
    InitInv(cap, n);
    RunKeepsInv(cap, Init(n), steps);
    var s := Exec(cap, Init(n), steps);
    CountIsSize(s);
    if s.main == Returned {
      CountNone(s.routines, Holds);
      assert forall i: nat :: i < n ==> s.routines[i] == Gone;
    }
  }

  // ----- Draining -----

  function Left(r: Routine): nat {
    match r
    case Unborn => 5
    case Acquiring => 4
    case Running => 3
    case Releasing => 2
    case SigningOff => 1
    case Gone => 0
  }

  function TotalLeft(routines: seq<Routine>): nat {
    if routines == [] then 0 else Left(routines[0]) + TotalLeft(routines[1..])
  }

  lemma {:induction false} TotalLeftUpdate(routines: seq<Routine>, i: nat, r: Routine)
    requires i < |routines|
    ensures TotalLeft(routines[i := r]) == TotalLeft(routines) - Left(routines[i]) + Left(r)
  {
    if i > 0 {
      TotalLeftUpdate(routines[1..], i - 1, r);
      assert routines[i := r][1..] == routines[1..][i - 1 := r];
    } else {
      assert routines[i := r][1..] == routines[1..];
    }
  }

  lemma {:induction false} UnbornLeft(n: nat)
    ensures TotalLeft(seq(n, _ => Unborn)) == 5 * n
  {
    if n > 0 {
      UnbornLeft(n - 1);
      assert seq(n, _ => Unborn)[1..] == seq(n - 1, _ => Unborn);
    }
  }

  function Measure(s: State): nat {
    TotalLeft(s.routines) + (match s.main case Spawning(_) => 2 case Waiting => 1 case Returned => 0)
  }

  lemma UnbornNext(cap: nat, s: State)
    requires Inv(cap, s)
    ensures s.main.Spawning? && s.main.next < |s.routines| ==> s.routines[s.main.next] == Unborn
  {
  }

  lemma StepUsesWork(cap: nat, s: State, step: Step)
    requires Inv(cap, s) && Enabled(cap, s, step)
    ensures Measure(Do(cap, s, step)) + 1 == Measure(s)
  {
    hide Inv, Count, TotalLeft;
    assert step.Spawn? ==> s.routines[s.main.next] == Unborn by {
      UnbornNext(cap, s);
    }
    match step
    case Spawn => TotalLeftUpdate(s.routines, s.main.next, Acquiring);
    case Acquire(i) => TotalLeftUpdate(s.routines, i, Running);
    case Body(i) => TotalLeftUpdate(s.routines, i, Releasing);
    case Release(i) => TotalLeftUpdate(s.routines, i, SigningOff);
    case SignOff(i) => TotalLeftUpdate(s.routines, i, Gone);
    case _ =>
  }

  lemma {:induction false} RunUsesWork(cap: nat, s: State, steps: seq<Step>)
    requires Inv(cap, s) && Possible(cap, s, steps)
    ensures Measure(Exec(cap, s, steps)) + |steps| == Measure(s)
    decreases |steps|
  {
    if steps != [] {
      StepKeepsInv(cap, s, steps[0]);
      StepUsesWork(cap, s, steps[0]);
      RunUsesWork(cap, Do(cap, s, steps[0]), steps[1..]);
    }
  }

  lemma SomeStepIsEnabled(cap: nat, s: State)
    requires cap > 0 && Inv(cap, s) && s.main != Returned
    ensures exists step :: Enabled(cap, s, step)
  {
    if s.main.Spawning? {
      assert if s.main.next < |s.routines| then Enabled(cap, s, Spawn) else Enabled(cap, s, SpawnedAll);
    } else if s.held > 0 {
      var i := CountPositive(s.routines, Holds);
      assert if s.routines[i] == Running then Enabled(cap, s, Body(i)) else Enabled(cap, s, Release(i));
    } else if i: nat :| i < |s.routines| && s.routines[i] != Gone {
      if Holds(s.routines[i]) {
        CountSome(s.routines, i, Holds);
      }
      assert if s.routines[i] == Acquiring then Enabled(cap, s, Acquire(i)) else Enabled(cap, s, SignOff(i));
    } else {
      assert Enabled(cap, s, Return);
    }
  }

  /** Every run returns: none is stuck before that, and none takes more than 5n + 2 steps. */
  lemma FanOutDrains(cap: nat, n: nat, steps: seq<Step>)
    requires cap > 0 && Possible(cap, Init(n), steps)
    ensures |steps| <= 5 * n + 2
    ensures Exec(cap, Init(n), steps).main != Returned ==>
      exists step :: Enabled(cap, Exec(cap, Init(n), steps), step)
  {
    InitInv(cap, n);
    RunKeepsInv(cap, Init(n), steps);
    RunUsesWork(cap, Init(n), steps);
    UnbornLeft(n);
    var s := Exec(cap, Init(n), steps);
    if s.main != Returned {
      SomeStepIsEnabled(cap, s);
    }
  }

  // ----- What the bodies leave behind -----

  /** Huxiu: goroutine `i` builds entry `i` into slot `i` of a slice as long as the list. */
  function HuxiuSlots(built: seq<Item>, log: seq<nat>): (slots: seq<Option<Item>>)
    ensures |slots| == |built|
  {
    if log == [] then seq(|built|, _ => None)
    else
      var slots := HuxiuSlots(built, log[..|log| - 1]);
      var i := log[|log| - 1];
      if i < |built| then slots[i := Some(built[i])] else slots
  }

  lemma {:induction false} SlotsAreWritten(built: seq<Item>, log: seq<nat>, i: nat)
    requires i < |built|
    ensures HuxiuSlots(built, log)[i] == if i in log then Some(built[i]) else None
  {
    if log != [] {
      var n := |log| - 1;
      SlotsAreWritten(built, log[..n], i);
      assert i in log <==> i in log[..n] || i == log[n];
    }
  }

  /** Whatever the schedule, the Huxiu feed is the entries below the limit, built, in list order. There
      is one goroutine for each of them. */
  lemma HuxiuFeedIsScheduleIndependent(built: seq<Item>, limit: nat, n: nat, steps: seq<Step>)
    requires n == if limit < |built| then limit else |built|
    requires Possible(4, Init(n), steps) && Exec(4, Init(n), steps).main == Returned
    ensures Successes(HuxiuSlots(built, Exec(4, Init(n), steps).log)) == built[..n]
  {
    FanOutIsBounded(4, n, steps);
    var log := Exec(4, Init(n), steps).log;
    var all := seq(|built|, i requires 0 <= i < |built| => Some(built[i]));
    forall i: nat | i < |built|
      ensures HuxiuSlots(built, log)[i] == if i < n then all[i] else None
    {
      SlotsAreWritten(built, log, i);
    }
    SuccessesOfPrefix(all, HuxiuSlots(built, log), n);
    SuccessesOfAll(all[..n], built[..n]);
  }

  /** Odaily: goroutine `i` stores its detail under `ids[i]` if the fetch succeeded. */
  function OdailyMap(ids: seq<string>, fetched: seq<Option<Detail>>, log: seq<nat>): map<string, Detail>
    requires |ids| == |fetched|
  {
    if log == [] then map[]
    else
      var out := OdailyMap(ids, fetched, log[..|log| - 1]);
      var i := log[|log| - 1];
      if i < |ids| && fetched[i].Some? then out[ids[i] := fetched[i].value] else out
  }

  ghost predicate SucceededFor(ids: seq<string>, fetched: seq<Option<Detail>>, id: string, detail: Detail)
    requires |ids| == |fetched|
  {
    exists i :: 0 <= i < |ids| && ids[i] == id && fetched[i] == Some(detail)
  }

  lemma {:induction false} MapHoldsFetched(ids: seq<string>, fetched: seq<Option<Detail>>, log: seq<nat>, id: string)
    requires |ids| == |fetched|
    ensures var out := OdailyMap(ids, fetched, log);
      && (id in out <==> exists i: nat :: i in log && i < |ids| && ids[i] == id && fetched[i].Some?)
      && (id in out ==> SucceededFor(ids, fetched, id, out[id]))
  {
    if log != [] {
      var n := |log| - 1;
      MapHoldsFetched(ids, fetched, log[..n], id);
      assert forall i: nat :: i in log <==> i in log[..n] || i == log[n];
    }
  }

  /** The last fetch to succeed for an id is the one the map holds. */
  lemma {:induction false} LastFetchWins(ids: seq<string>, fetched: seq<Option<Detail>>, log: seq<nat>, k: nat)
    requires |ids| == |fetched| && k < |log| && log[k] < |ids| && fetched[log[k]].Some?
    requires forall m :: k < m < |log| && log[m] < |ids| && ids[log[m]] == ids[log[k]] ==> fetched[log[m]].None?
    ensures ids[log[k]] in OdailyMap(ids, fetched, log)
    ensures OdailyMap(ids, fetched, log)[ids[log[k]]] == fetched[log[k]].value
  {
    var n := |log| - 1;
    if k < n {
      LastFetchWins(ids, fetched, log[..n], k);
    }
  }

  /** Equal ids fetch equal details whenever both fetches succeed. */
  ghost predicate Consistent(ids: seq<string>, fetched: seq<Option<Detail>>)
    requires |ids| == |fetched|
  {
    forall i, j :: 0 <= i < |ids| && 0 <= j < |ids| && ids[i] == ids[j] && fetched[i].Some? && fetched[j].Some? ==>
      fetched[i] == fetched[j]
  }

  /** In every schedule the map has exactly the ids some fetch of which succeeded, each with a
      detail fetched for it. */
  lemma OdailyMapHoldsSuccesses(ids: seq<string>, fetched: seq<Option<Detail>>, log: seq<nat>, id: string)
    requires |ids| == |fetched| && Complete(log, |ids|)
    ensures var out := OdailyMap(ids, fetched, log);
      && (id in out <==> exists detail :: SucceededFor(ids, fetched, id, detail))
      && (id in out ==> SucceededFor(ids, fetched, id, out[id]))
  {
    MapHoldsFetched(ids, fetched, log, id);
    if detail :| SucceededFor(ids, fetched, id, detail) {
      var i :| 0 <= i < |ids| && ids[i] == id && fetched[i] == Some(detail);
      assert i in log;
    }
  }

  // ----- Every order of the bodies is some schedule -----

  ghost predicate Reaches(cap: nat, s: State, t: State) {
    exists steps :: Possible(cap, s, steps) && Exec(cap, s, steps) == t
  }

  lemma ReachesByStep(cap: nat, s: State, step: Step)
    requires Enabled(cap, s, step)
    ensures Reaches(cap, s, Do(cap, s, step))
  {
    var after := Do(cap, s, step);
    assert Possible(cap, after, []) && Exec(cap, after, []) == after;
    assert [step][1..] == [];
    assert Possible(cap, s, [step]) && Exec(cap, s, [step]) == after;
  }

  lemma {:induction false} ExecConcat(cap: nat, s: State, a: seq<Step>, b: seq<Step>)
    requires Possible(cap, s, a) && Possible(cap, Exec(cap, s, a), b)
    ensures Possible(cap, s, a + b) && Exec(cap, s, a + b) == Exec(cap, Exec(cap, s, a), b)
    decreases |a|
  {
    if a == [] {
      assert a + b == b;
    } else {
      ExecConcat(cap, Do(cap, s, a[0]), a[1..], b);
      assert (a + b)[1..] == a[1..] + b;
    }
  }

  lemma ReachesTransitive(cap: nat, s: State, t: State, u: State)
    requires Reaches(cap, s, t) && Reaches(cap, t, u)
    ensures Reaches(cap, s, u)
  {
    var a :| Possible(cap, s, a) && Exec(cap, s, a) == t;
    var b :| Possible(cap, t, b) && Exec(cap, t, b) == u;
    ExecConcat(cap, s, a, b);
  }

  lemma {:induction false} SpawnsAll(cap: nat, n: nat, k: nat)
    requires k <= n
    ensures Reaches(cap, Init(n), State(Spawning(k), seq(n, i => if i < k then Acquiring else Unborn), 0, []))
  {
    var s := State(Spawning(k), seq(n, i => if i < k then Acquiring else Unborn), 0, []);
    if k == 0 {
      assert Init(n).routines == s.routines;
      assert Possible(cap, s, []) && Exec(cap, s, []) == s;
    } else {
      SpawnsAll(cap, n, k - 1);
      var before := State(Spawning(k - 1), seq(n, i => if i < k - 1 then Acquiring else Unborn), 0, []);
      ReachesByStep(cap, before, Spawn);
      assert Do(cap, before, Spawn).routines == s.routines;
      ReachesTransitive(cap, Init(n), before, s);
    }
  }

  /** The bodies in `log` have run to the end, one after the other; the rest wait their turn. */
  function After(n: nat, log: seq<nat>): State {
    State(Waiting, seq(n, i => if i in log then Gone else Acquiring), 0, log)
  }

  lemma RunsOne(cap: nat, n: nat, log: seq<nat>, i: nat)
    requires cap > 0 && i < n && i !in log
    ensures Reaches(cap, After(n, log), After(n, log + [i]))
  {
    var s0 := After(n, log);
    var s1 := Do(cap, s0, Acquire(i));
    var s2 := Do(cap, s1, Body(i));
    var s3 := Do(cap, s2, Release(i));
    var s4 := Do(cap, s3, SignOff(i));
    assert s4.routines == After(n, log + [i]).routines;
    ReachesByStep(cap, s0, Acquire(i));
    ReachesByStep(cap, s1, Body(i));
    ReachesByStep(cap, s2, Release(i));
    ReachesByStep(cap, s3, SignOff(i));
    ReachesTransitive(cap, s0, s1, s2);
    ReachesTransitive(cap, s0, s2, s3);
    ReachesTransitive(cap, s0, s3, s4);
  }

  lemma {:induction false} RunsInOrder(cap: nat, n: nat, log: seq<nat>)
    requires cap > 0 && Distinct(log) && forall j :: 0 <= j < |log| ==> log[j] < n
    ensures Reaches(cap, Init(n), After(n, log))
  {
    if log == [] {
      SpawnsAll(cap, n, n);
      var spawned := State(Spawning(n), seq(n, i => if i < n then Acquiring else Unborn), 0, []);
      ReachesByStep(cap, spawned, SpawnedAll);
      assert Do(cap, spawned, SpawnedAll).routines == After(n, []).routines;
      ReachesTransitive(cap, Init(n), spawned, After(n, []));
    } else {
      var m := |log| - 1;
      RunsInOrder(cap, n, log[..m]);
      RunsOne(cap, n, log[..m], log[m]);
      assert log[..m] + [log[m]] == log;
      ReachesTransitive(cap, Init(n), After(n, log[..m]), After(n, log));
    }
  }

  /** The first `k` of `n` routines, all started, are inside. */
  function FirstInside(n: nat, k: nat): State {
    State(Waiting, seq(n, i => if i < k then Running else Acquiring), k, [])
  }

  /** The semaphore does not hold back more than it has to: `cap` routines can be inside at once. */
  lemma {:induction false} CapCanBeReached(cap: nat, n: nat, k: nat)
    requires k <= cap && k <= n
    ensures Reaches(cap, Init(n), FirstInside(n, k))
  {
    if k == 0 {
      SpawnsAll(cap, n, n);
      var spawned := State(Spawning(n), seq(n, i => if i < n then Acquiring else Unborn), 0, []);
      ReachesByStep(cap, spawned, SpawnedAll);
      assert Do(cap, spawned, SpawnedAll).routines == FirstInside(n, 0).routines;
      ReachesTransitive(cap, Init(n), spawned, FirstInside(n, 0));
    } else {
      var before := FirstInside(n, k - 1);
      CapCanBeReached(cap, n, k - 1);
      ReachesByStep(cap, before, Acquire(k - 1));
      assert Do(cap, before, Acquire(k - 1)).routines == FirstInside(n, k).routines;
      ReachesTransitive(cap, Init(n), before, FirstInside(n, k));
    }
  }

  /** A run of the whole fan-out in which the bodies wrote in the order `log`. */
  ghost predicate Completes(cap: nat, n: nat, steps: seq<Step>, log: seq<nat>) {
    Possible(cap, Init(n), steps) && Exec(cap, Init(n), steps).main == Returned && Exec(cap, Init(n), steps).log == log
  }

  /** Any order in which every body writes once is the order of some complete schedule. */
  lemma EveryOrderIsASchedule(cap: nat, n: nat, log: seq<nat>)
    requires cap > 0 && Complete(log, n)
    ensures exists steps :: Completes(cap, n, steps, log)
  {
    forall j | 0 <= j < |log| ensures log[j] < n {
      assert log[j] in log;
    }
    RunsInOrder(cap, n, log);
    ReachesByStep(cap, After(n, log), Return);
    var last := Do(cap, After(n, log), Return);
    ReachesTransitive(cap, Init(n), After(n, log), last);
    var steps :| Possible(cap, Init(n), steps) && Exec(cap, Init(n), steps) == last;
    assert Completes(cap, n, steps, log);
  }

  /** The identity order with `i` moved to the end. */
  lemma OrderEndingIn(n: nat, i: nat) returns (log: seq<nat>)
    requires i < n
    ensures |log| == n && Complete(log, n) && log[n - 1] == i
  {
    log := seq(n, k requires 0 <= k < n => if k < i then k else if k + 1 < n then k + 1 else i);
    forall j: nat | j < n ensures j in log {
      if j < i {
        assert log[j] == j;
      } else if j == i {
        assert log[n - 1] == i;
      } else {
        assert log[j - 1] == j;
      }
    }
  }

  lemma ConsistentMapsAgree(ids: seq<string>, fetched: seq<Option<Detail>>, a: seq<nat>, b: seq<nat>)
    requires |ids| == |fetched| && Consistent(ids, fetched) && Complete(a, |ids|) && Complete(b, |ids|)
    ensures OdailyMap(ids, fetched, a) == OdailyMap(ids, fetched, b)
  {
    var left, right := OdailyMap(ids, fetched, a), OdailyMap(ids, fetched, b);
    forall id ensures (id in left <==> id in right) && (id in left ==> left[id] == right[id]) {
      OdailyMapHoldsSuccesses(ids, fetched, a, id);
      OdailyMapHoldsSuccesses(ids, fetched, b, id);
    }
  }

  /** The Odaily map is the same in every schedule exactly when repeated ids fetch the same detail;
      with distinct ids that always holds. */
  lemma OdailyMapIsScheduleIndependentIff(ids: seq<string>, fetched: seq<Option<Detail>>)
    requires |ids| == |fetched|
    ensures Consistent(ids, fetched) <==>
      forall s, a, t, b :: Completes(5, |ids|, s, a) && Completes(5, |ids|, t, b) ==>
        OdailyMap(ids, fetched, a) == OdailyMap(ids, fetched, b)
  {
    if Consistent(ids, fetched) {
      forall s, a, t, b | Completes(5, |ids|, s, a) && Completes(5, |ids|, t, b)
        ensures OdailyMap(ids, fetched, a) == OdailyMap(ids, fetched, b)
      {
        FanOutIsBounded(5, |ids|, s);
        FanOutIsBounded(5, |ids|, t);
        ConsistentMapsAgree(ids, fetched, a, b);
      }
    } else {
      var i: nat, j: nat :| i < |ids| && j < |ids| && ids[i] == ids[j] && fetched[i].Some? && fetched[j].Some?
        && fetched[i] != fetched[j];
      var a := OrderEndingIn(|ids|, i);
      var b := OrderEndingIn(|ids|, j);
      EveryOrderIsASchedule(5, |ids|, a);
      EveryOrderIsASchedule(5, |ids|, b);
      assert OdailyMap(ids, fetched, a)[ids[i]] == fetched[i].value;
      assert OdailyMap(ids, fetched, b)[ids[i]] == fetched[j].value;
    }
  }
}
