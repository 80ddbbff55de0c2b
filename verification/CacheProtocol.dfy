/**
 The two-tier cache under concurrency. Each operation is split where it takes or releases a lock
 or spawns a goroutine, and a locked read of the cold tier at its clock readings too; a run is any
 sequence of clock ticks, new operations, single steps of operations in flight, LRU evictions and
 cleanup scans.
 */
module CacheProtocol {
  import opened Wrappers

  type Key = string
  type Value = string  // nothing here looks inside a value

  /** The deadline one Set computed for its value in one tier, and when. */
  datatype Write = Write(key: Key, value: Option<Value>, at: int, exp: int)

  /** How the value of a hit reached the reader. */
  datatype Origin =
    | Hot(write: Write)
    | Promoted(write: Write, readAt: int, installedAt: int)
    | Cold(write: Write)

  datatype HotEntry = HotEntry(value: Option<Value>, exp: int, origin: Origin)
  datatype ColdEntry = ColdEntry(value: Option<Value>, deadline: int, write: Write)
  datatype Hit = Hit(key: Key, value: Option<Value>, at: int, origin: Origin)

  /** An operation in flight, named after the section it enters next. */
  datatype Task =
    | SetHot(key: Key, setValue: Option<Value>, ttl: int)
    | SetEncode(key: Key, setValue: Option<Value>, ttl: int)
    | SetCold(key: Key, write: Write)
    | DeleteHot(key: Key)
    | DeleteCold(key: Key)
    | GetHot(key: Key)
    | GetDropHot(key: Key)
    | GetCold(key: Key)
    | GetRecheck(key: Key, snapshot: ColdEntry)
    | GetDecode(key: Key, snapshot: ColdEntry, checkedAt: int)
    | DropCold(key: Key)
    | Promote(key: Key, value: Value, remaining: int, from: Write, readAt: int)
    | ExistsHot(key: Key)
    | ExistsCheck(key: Key, entry: HotEntry)
    | ExistsDropHot(key: Key)
    | ExistsCold(key: Key)
    | ExistsRecheck(key: Key, snapshot: ColdEntry)

  datatype State = State(
    now: int,
    hot: map<Key, HotEntry>,
    cold: map<Key, ColdEntry>,
    tasks: multiset<Task>,
    writes: set<Write>,
    hits: seq<Hit>,
    found: seq<Hit>)

  datatype Step =
    | Tick(passed: nat)
    | Begin(task: Task)
    | Run(task: Task, slack: nat)
    | Evict(key: Key)
    | Cleanup

  function Init(now: int): State {
    State(now, map[], map[], multiset{}, {}, [], [])
  }

  /** Callers start operations; the later sections and promotions are only ever spawned. */
  predicate IsCall(task: Task) {
    task.SetHot? || task.DeleteHot? || task.GetHot? || task.ExistsHot?
  }

  /** What the section of `task` does to the tiers. `slack` is how far before the encoded deadline the
      cold store starts hiding an entry: it rounds to whole seconds. `found` are the answers of Exists. */
  function Effect(s: State, task: Task, slack: nat): State {
    match task
    case SetHot(key, value, ttl) =>
      var write := Write(key, value, s.now, s.now + ttl);
      s.(hot := s.hot[key := HotEntry(value, write.exp, Hot(write))], writes := s.writes + {write})
    case SetEncode(key, value, ttl) =>
      s.(writes := s.writes + {Write(key, value, s.now, s.now + ttl)})
    case SetCold(key, write) =>
      s.(cold := s.cold[key := ColdEntry(write.value, write.exp - slack, write)])
    case GetHot(key) =>
      if key in s.hot && s.now <= s.hot[key].exp
      then s.(hits := s.hits + [Hit(key, s.hot[key].value, s.now, s.hot[key].origin)])
      else s
    case GetDecode(key, snapshot, checkedAt) =>
      if snapshot.value.Some?
      then s.(hits := s.hits + [Hit(key, snapshot.value, checkedAt, Cold(snapshot.write))])
      else s
    case ExistsCheck(key, entry) =>
      if s.now > entry.exp then s
      else s.(found := s.found + [Hit(key, entry.value, s.now, entry.origin)])
    case ExistsRecheck(key, snapshot) =>
      if snapshot.deadline <= s.now then s
      else s.(found := s.found + [Hit(key, snapshot.value, s.now, Cold(snapshot.write))])
    case Promote(key, value, remaining, from, readAt) =>
      if remaining <= 0 then s
      else s.(hot := s.hot[key := HotEntry(Some(value), s.now + remaining, Promoted(from, readAt, s.now))])
    case _ =>
      if task.DeleteHot? || task.GetDropHot? || task.ExistsDropHot? then s.(hot := s.hot - {task.key})
      else if task.DeleteCold? || task.DropCold? then s.(cold := s.cold - {task.key})
      else s
  }

  /** Where the operation goes next, or the goroutine it starts. */
  function Follow(s: State, task: Task): Option<Task> {
    match task
    case SetHot(key, value, ttl) => Some(SetEncode(key, value, ttl))
    case SetEncode(key, value, ttl) => Some(SetCold(key, Write(key, value, s.now, s.now + ttl)))
    case DeleteHot(key) => Some(DeleteCold(key))
    case GetHot(key) =>
      if key !in s.hot then Some(GetCold(key))
      else if s.now > s.hot[key].exp then Some(GetDropHot(key)) else None
    case GetDropHot(key) => Some(GetCold(key))
    case GetCold(key) =>
      if key !in s.cold || s.cold[key].deadline <= s.now then None else Some(GetRecheck(key, s.cold[key]))
    case GetRecheck(key, snapshot) =>
      if snapshot.deadline <= s.now then Some(DropCold(key)) else Some(GetDecode(key, snapshot, s.now))
    case GetDecode(key, snapshot, checkedAt) =>
      if snapshot.value.None? then None
      else Some(Promote(key, snapshot.value.value, snapshot.write.exp - s.now, snapshot.write, s.now))
    case ExistsHot(key) =>
      if key !in s.hot then Some(ExistsCold(key)) else Some(ExistsCheck(key, s.hot[key]))
    case ExistsCheck(key, entry) => if s.now > entry.exp then Some(ExistsDropHot(key)) else None
    case ExistsDropHot(key) => Some(ExistsCold(key))
    case ExistsCold(key) =>
      if key !in s.cold || s.cold[key].deadline <= s.now then None else Some(ExistsRecheck(key, s.cold[key]))
    case ExistsRecheck(key, snapshot) => if snapshot.deadline <= s.now then Some(DropCold(key)) else None
    case _ => None
  }

  function Spawn(s: State, task: Task): State {
    s.(tasks := s.tasks + multiset{task})
  }

  /** One critical section of `task`, which has just been taken off the tasks in flight. */
  function Advance(s: State, task: Task, slack: nat): State {
    match Follow(s, task)
    case None => Effect(s, task, slack)
    case Some(next) => Spawn(Effect(s, task, slack), next)
  }

  /** A read of the cold tier spans several clock readings, all under the read lock. */
  predicate HoldsReadLock(task: Task) {
    task.GetRecheck? || task.GetDecode? || task.ExistsRecheck?
  }

  predicate TakesWriteLock(task: Task) {
    task.SetCold? || task.DeleteCold? || task.DropCold?
  }

  ghost predicate ReadLocked(s: State) {
    exists task :: task in s.tasks && HoldsReadLock(task)
  }

  ghost predicate Enabled(s: State, step: Step) {
    match step
    case Begin(task) => IsCall(task)
    case Run(task, slack) => task in s.tasks && (TakesWriteLock(task) ==> !ReadLocked(s)) && slack < 1_000_000_000
    case Cleanup => !ReadLocked(s)
    case _ => true
  }

  ghost function Do(s: State, step: Step): State
    requires Enabled(s, step)
  {
    match step
    case Tick(passed) => s.(now := s.now + passed)
    case Begin(task) => Spawn(s, task)
    case Run(task, slack) => Advance(s.(tasks := s.tasks - multiset{task}), task, slack)
    case Evict(key) => s.(hot := s.hot - {key})
    case Cleanup => s.(cold := map key | key in s.cold && s.now < s.cold[key].deadline :: s.cold[key])
  }

  ghost predicate Possible(s: State, steps: seq<Step>)
    decreases |steps|
  {
    steps == [] || (Enabled(s, steps[0]) && Possible(Do(s, steps[0]), steps[1..]))
  }

  ghost function Exec(s: State, steps: seq<Step>): State
    requires Possible(s, steps)
    decreases |steps|
  {
    if steps == [] then s else Exec(Do(s, steps[0]), steps[1..])
  }

  // ----- Safety: where every hit comes from -----

  ghost predicate Recorded(s: State, write: Write, key: Key, value: Option<Value>) {
    write in s.writes && write.key == key && write.value == value && write.at <= s.now
  }

  /** The copy behind an origin may answer up to this instant. A promoted copy outlives the Set's
      deadline by the time its one promotion took, and by nothing else. */
  ghost function LastAnswer(origin: Origin): int {
    match origin
    case Hot(write) => write.exp
    case Promoted(write, readAt, installedAt) => write.exp + (installedAt - readAt)
    case Cold(write) => write.exp - 1
  }

  ghost predicate OriginOk(s: State, key: Key, value: Option<Value>, origin: Origin) {
    && Recorded(s, origin.write, key, value)
    && (origin.Promoted? ==>
          origin.write.at <= origin.readAt < origin.write.exp && origin.readAt <= origin.installedAt <= s.now)
  }

  ghost predicate SnapshotOk(s: State, key: Key, snapshot: ColdEntry) {
    Recorded(s, snapshot.write, key, snapshot.value) && snapshot.deadline <= snapshot.write.exp
  }

  ghost predicate TaskOk(s: State, task: Task) {
    match task
    case SetCold(key, write) => Recorded(s, write, key, write.value)
    case GetRecheck(key, snapshot) => SnapshotOk(s, key, snapshot)
    case ExistsCheck(key, entry) => HotOk(s, key, entry)
    case ExistsRecheck(key, snapshot) => SnapshotOk(s, key, snapshot)
    case GetDecode(key, snapshot, checkedAt) =>
      SnapshotOk(s, key, snapshot) && snapshot.write.at <= checkedAt < snapshot.deadline && checkedAt <= s.now
    case Promote(key, value, remaining, from, readAt) =>
      Recorded(s, from, key, Some(value)) && from.at <= readAt <= s.now && remaining == from.exp - readAt
    case _ => true
  }

  /** A hit carries the value of a Set of that key, made no later than the hit, and comes no later
      than that Set's deadline plus the wait of one promotion. */
  ghost predicate HitOk(s: State, hit: Hit) {
    && hit.at <= s.now
    && hit.origin.write in s.writes
    && hit.origin.write.key == hit.key && hit.origin.write.value == hit.value
    && hit.origin.write.at <= hit.at <= LastAnswer(hit.origin)
    && (hit.origin.Promoted? ==>
          hit.origin.write.at <= hit.origin.readAt < hit.origin.write.exp
          && hit.origin.readAt <= hit.origin.installedAt <= hit.at)
  }

  ghost predicate Inv(s: State) {
    TiersOk(s) && forall task :: task in s.tasks ==> TaskOk(s, task)
  }

  ghost predicate HotOk(s: State, key: Key, entry: HotEntry) {
    !entry.origin.Cold? && entry.exp == LastAnswer(entry.origin) && OriginOk(s, key, entry.value, entry.origin)
  }

  /** What the invariant says, but for the tasks in flight. */
  ghost predicate TiersOk(s: State) {
    && (forall key :: key in s.hot ==> HotOk(s, key, s.hot[key]))
    && (forall key :: key in s.cold ==> SnapshotOk(s, key, s.cold[key]))
    && (forall hit :: hit in s.hits ==> HitOk(s, hit))
    && (forall hit :: hit in s.found ==> HitOk(s, hit))
  }

  lemma EffectOnlyAdds(s: State, task: Task, slack: nat)
    ensures Effect(s, task, slack).now == s.now && Effect(s, task, slack).writes >= s.writes
    ensures Effect(s, task, slack).tasks == s.tasks
  {
  }

  lemma EffectKeepsHot(s: State, task: Task, slack: nat)
    requires TiersOk(s) && TaskOk(s, task)
    ensures var after := Effect(s, task, slack); forall key :: key in after.hot ==> HotOk(after, key, after.hot[key])
  {
  }

  lemma EffectKeepsCold(s: State, task: Task, slack: nat)
    requires TiersOk(s) && TaskOk(s, task)
    ensures var after := Effect(s, task, slack); forall key :: key in after.cold ==> SnapshotOk(after, key, after.cold[key])
  {
  }

  lemma EffectKeepsHits(s: State, task: Task, slack: nat)
    requires TiersOk(s) && TaskOk(s, task)
    ensures var after := Effect(s, task, slack); forall hit :: hit in after.hits ==> HitOk(after, hit)
  {
  }

  lemma EffectKeepsFound(s: State, task: Task, slack: nat)
    requires TiersOk(s) && TaskOk(s, task)
    ensures var after := Effect(s, task, slack); forall hit :: hit in after.found ==> HitOk(after, hit)
  {
  }

  lemma EffectKeepsTiers(s: State, task: Task, slack: nat)
    requires TiersOk(s) && TaskOk(s, task)
    ensures TiersOk(Effect(s, task, slack))
    ensures Effect(s, task, slack).now == s.now && Effect(s, task, slack).writes >= s.writes
    ensures Effect(s, task, slack).tasks == s.tasks
  {
    hide Effect;
    EffectOnlyAdds(s, task, slack);
    EffectKeepsHot(s, task, slack);
    EffectKeepsCold(s, task, slack);
    EffectKeepsHits(s, task, slack);
    EffectKeepsFound(s, task, slack);
  }

  lemma FollowIsOk(s: State, task: Task, slack: nat)
    requires TiersOk(s) && TaskOk(s, task) && Follow(s, task).Some?
    ensures TaskOk(Effect(s, task, slack), Follow(s, task).value)
  {
  }

  /** Time passing and more writes explain no task less. */
  lemma TasksStayOk(before: State, after: State, tasks: multiset<Task>)
    requires forall task :: task in tasks ==> TaskOk(before, task)
    requires before.now <= after.now && before.writes <= after.writes
    ensures forall task :: task in tasks ==> TaskOk(after, task)
  {
  }

  lemma AdvanceKeepsInv(s: State, task: Task, slack: nat)
    requires Inv(s) && TaskOk(s, task)
    ensures Inv(Advance(s, task, slack))
  {
    hide Effect, Follow;
    var after := Effect(s, task, slack);
    EffectKeepsTiers(s, task, slack);
    TasksStayOk(s, after, s.tasks);
    if Follow(s, task).Some? {
      FollowIsOk(s, task, slack);
    }
  }

  lemma StepKeepsInv(s: State, step: Step)
    requires Inv(s) && Enabled(s, step)
    ensures Inv(Do(s, step))
  {
    if step.Run? {
      assert TaskOk(s, step.task);
      var taken := s.(tasks := s.tasks - multiset{step.task});
      TasksStayOk(s, taken, taken.tasks);
      AdvanceKeepsInv(taken, step.task, step.slack);
    } else {
      TasksStayOk(s, Do(s, step), s.tasks);
    }
  }

  lemma {:induction false} RunKeepsInv(s: State, steps: seq<Step>)
    requires Inv(s) && Possible(s, steps)
    ensures Inv(Exec(s, steps))
    decreases |steps|
  {
    if steps != [] {
      StepKeepsInv(s, steps[0]);
      RunKeepsInv(Do(s, steps[0]), steps[1..]);
    }
  }

  /** In every interleaving, from a new cache, every hit, and every Exists that finds the key, is
      explained by one Set of the key. */
  lemma EveryHitIsExplained(now: int, steps: seq<Step>, hit: Hit)
    requires Possible(Init(now), steps)
    requires hit in Exec(Init(now), steps).hits || hit in Exec(Init(now), steps).found
    ensures HitOk(Exec(Init(now), steps), hit)
  {
    RunKeepsInv(Init(now), steps);
  }

  // ----- When a key can answer again without a Set -----

  /** Steps that start no Set of `key`. */
  ghost predicate NoSetOf(steps: seq<Step>, key: Key) {
    forall i :: 0 <= i < |steps| ==> !StartsSet(steps[i], key)
  }

  predicate StartsSet(step: Step, key: Key) {
    step.Begin? && step.task.SetHot? && step.task.key == key
  }

  ghost predicate HitsAdded(before: State, after: State, key: Key) {
    exists i :: |before.hits| <= i < |after.hits| && after.hits[i].key == key
  }

  /** Some continuation without a Set of `key` hits it. */
  ghost predicate CanHit(s: State, key: Key) {
    exists steps :: Possible(s, steps) && NoSetOf(steps, key) && HitsAdded(s, Exec(s, steps), key)
  }

  /** `task` still has a value of `key` to write or to answer, with lifetime left to be read in. */
  predicate Revives(now: int, task: Task, key: Key) {
    task.key == key &&
    match task
    case SetHot(_, value, ttl) => ttl >= 0
    case SetEncode(_, value, ttl) => ttl > 0 && value.Some?
    case SetCold(_, write) => write.exp > now && write.value.Some?
    case GetRecheck(_, snapshot) => snapshot.deadline > now && snapshot.value.Some?
    case GetDecode(_, snapshot, _) => snapshot.value.Some?
    case Promote(_, _, remaining, _, _) => remaining > 0
    case _ => false
  }

  predicate HotAnswers(s: State, key: Key) {
    key in s.hot && s.now <= s.hot[key].exp
  }

  predicate ColdAnswers(s: State, key: Key) {
    key in s.cold && s.now < s.cold[key].deadline && s.cold[key].value.Some?
  }

  /** A live copy in a tier, or an operation in flight that carries one. */
  ghost predicate Alive(s: State, key: Key) {
    HotAnswers(s, key) || ColdAnswers(s, key) || exists task :: task in s.tasks && Revives(s.now, task, key)
  }

  // Without a live copy there is no hit.

  lemma EffectRevivesNothing(s: State, task: Task, slack: nat, key: Key)
    requires !HotAnswers(s, key) && !ColdAnswers(s, key) && !Revives(s.now, task, key)
    ensures var after := Effect(s, task, slack);
      && !HotAnswers(after, key) && !ColdAnswers(after, key) && after.tasks == s.tasks && after.now == s.now
      && !HitsAdded(s, after, key)
  {
  }

  lemma FollowRevivesNothing(s: State, task: Task, key: Key)
    requires !ColdAnswers(s, key) && !Revives(s.now, task, key) && Follow(s, task).Some?
    ensures !Revives(s.now, Follow(s, task).value, key)
  {
  }

  lemma AdvanceRevivesNothing(s: State, task: Task, slack: nat, key: Key)
    requires !Alive(s, key) && !Revives(s.now, task, key)
    ensures var after := Advance(s, task, slack);
      !Alive(after, key) && !HitsAdded(s, after, key)
  {
    hide Effect, Follow, Revives;
    EffectRevivesNothing(s, task, slack, key);
    if Follow(s, task).Some? {
      FollowRevivesNothing(s, task, key);
    }
  }

  lemma StepRevivesNothing(s: State, step: Step, key: Key)
    requires Enabled(s, step) && !Alive(s, key) && !StartsSet(step, key)
    ensures var after := Do(s, step); !Alive(after, key) && !HitsAdded(s, after, key)
  {
    if step.Run? {
      AdvanceRevivesNothing(s.(tasks := s.tasks - multiset{step.task}), step.task, step.slack, key);
    } else {
      assert forall task :: task in Do(s, step).tasks ==> task in s.tasks || (step.Begin? && task == step.task);
    }
  }

  lemma HitsAddedInTwo(before: State, between: State, after: State, key: Key)
    requires before.hits <= between.hits <= after.hits
    requires !HitsAdded(before, between, key) && !HitsAdded(between, after, key)
    ensures !HitsAdded(before, after, key)
  {
    assert forall i :: 0 <= i < |between.hits| ==> after.hits[i] == between.hits[i];
  }

  lemma {:induction false} RunRevivesNothing(s: State, steps: seq<Step>, key: Key)
    requires Possible(s, steps) && NoSetOf(steps, key) && !Alive(s, key)
    ensures !HitsAdded(s, Exec(s, steps), key)
    decreases |steps|
  {
    hide Alive, Do, Enabled;
    if steps != [] {
      var next := Do(s, steps[0]);
      StepRevivesNothing(s, steps[0], key);
      RunRevivesNothing(next, steps[1..], key);
      StepKeepsHits(s, steps[0]);
      RunKeepsHits(next, steps[1..]);
      HitsAddedInTwo(s, next, Exec(s, steps), key);
    }
  }

  lemma EffectOnlyAppends(s: State, task: Task, slack: nat)
    ensures s.hits <= Effect(s, task, slack).hits
  {
  }

  lemma StepKeepsHits(s: State, step: Step)
    requires Enabled(s, step)
    ensures s.hits <= Do(s, step).hits
  {
    hide Effect, Follow;
    if step.Run? {
      EffectOnlyAppends(s.(tasks := s.tasks - multiset{step.task}), step.task, step.slack);
    }
  }

  lemma {:induction false} RunKeepsHits(s: State, steps: seq<Step>)
    requires Possible(s, steps)
    ensures s.hits <= Exec(s, steps).hits
    decreases |steps|
  {
    if steps != [] {
      StepKeepsHits(s, steps[0]);
      RunKeepsHits(Do(s, steps[0]), steps[1..]);
    }
  }

  // With one there is: each operation in flight has a way to its hit.

  lemma HitBack(s: State, step: Step, key: Key)
    requires Enabled(s, step) && !StartsSet(step, key)
    requires CanHit(Do(s, step), key) || HitsAdded(s, Do(s, step), key)
    ensures CanHit(s, key)
  {
    var next := Do(s, step);
    StepKeepsHits(s, step);
    var rest: seq<Step> :=
      if CanHit(next, key) then var steps :| Possible(next, steps) && NoSetOf(steps, key) && HitsAdded(next, Exec(next, steps), key); steps
      else [];
    ExecOne(s, step, rest);
    assert NoSetOf([step] + rest, key);
    assert HitsAdded(s, Exec(next, rest), key);
  }

  lemma ExecOne(s: State, step: Step, rest: seq<Step>)
    requires Enabled(s, step) && Possible(Do(s, step), rest)
    ensures Possible(s, [step] + rest) && Exec(s, [step] + rest) == Exec(Do(s, step), rest)
  {
    assert ([step] + rest)[1..] == rest;
  }

  lemma {:induction false} HitBackRun(s: State, steps: seq<Step>, key: Key)
    requires Possible(s, steps) && NoSetOf(steps, key) && CanHit(Exec(s, steps), key)
    ensures CanHit(s, key)
    decreases |steps|
  {
    hide CanHit, Do, Enabled;
    if steps != [] {
      HitBackRun(Do(s, steps[0]), steps[1..], key);
      HitBack(s, steps[0], key);
    }
  }

  // Readers never wait, so a writer can always get the lock without time passing.

  /** `t` is `s` with every read in progress finished: no time has passed and no tier has changed. */
  ghost predicate Drained(s: State, t: State) {
    && Quiet(s, t) && !ReadLocked(t)
    && forall task :: task in s.tasks && !HoldsReadLock(task) ==> task in t.tasks
  }

  ghost predicate Quiet(s: State, t: State) {
    t.now == s.now && t.hot == s.hot && t.cold == s.cold
  }

  ghost predicate OnlyRuns(steps: seq<Step>) {
    forall i :: 0 <= i < |steps| ==> steps[i].Run?
  }

  ghost predicate NoReads(tasks: multiset<Task>) {
    forall task :: task in tasks ==> !HoldsReadLock(task)
  }

  lemma ReadFollows(s: State, task: Task) returns (more: multiset<Task>)
    requires HoldsReadLock(task)
    ensures Quiet(s, Advance(s, task, 0)) && Advance(s, task, 0).tasks == s.tasks + more
    ensures if task.GetRecheck? && s.now < task.snapshot.deadline
            then more == multiset{GetDecode(task.key, task.snapshot, s.now)} else NoReads(more)
  {
    more := match Follow(s, task) case None => multiset{} case Some(next) => multiset{next};
  }

  /** One section of a read. */
  lemma ReadStep(s: State, task: Task) returns (steps: seq<Step>, more: multiset<Task>)
    requires task in s.tasks && HoldsReadLock(task)
    ensures Possible(s, steps) && OnlyRuns(steps) && Quiet(s, Exec(s, steps))
    ensures Exec(s, steps).tasks == s.tasks - multiset{task} + more
    ensures if task.GetRecheck? && s.now < task.snapshot.deadline
            then more == multiset{GetDecode(task.key, task.snapshot, s.now)} else NoReads(more)
  {
    more := ReadFollows(s.(tasks := s.tasks - multiset{task}), task);
    hide Advance, NoReads;
    steps := [Run(task, 0)];
    ExecLast(s, Run(task, 0));
  }

  lemma FinishRead(s: State, task: Task) returns (steps: seq<Step>, more: multiset<Task>)
    requires task in s.tasks && HoldsReadLock(task)
    ensures Possible(s, steps) && OnlyRuns(steps) && Quiet(s, Exec(s, steps))
    ensures Exec(s, steps).tasks == s.tasks - multiset{task} + more && NoReads(more)
  {
    hide Possible, Exec, NoReads;
    steps, more := ReadStep(s, task);
    if task.GetRecheck? && s.now < task.snapshot.deadline {
      var decode := GetDecode(task.key, task.snapshot, s.now);
      var next := Exec(s, steps);
      assert decode in next.tasks;
      var last, rest := ReadStep(next, decode);
      ExecConcat(s, steps, last);
      steps, more := steps + last, rest;
    }
  }

  lemma DrainedAfter(s: State, between: State, t: State)
    requires Quiet(s, between) && Drained(between, t)
    requires forall task :: task in s.tasks && !HoldsReadLock(task) ==> task in between.tasks
    ensures Drained(s, t)
  {
  }

  lemma NothingToDrain(s: State)
    requires NoReads(s.tasks)
    ensures Possible(s, []) && Drained(s, Exec(s, []))
  {
  }

  lemma {:induction false} Drain(s: State, left: multiset<Task>, rest: multiset<Task>) returns (steps: seq<Step>)
    requires s.tasks == left + rest && NoReads(rest)
    ensures Possible(s, steps) && OnlyRuns(steps) && Drained(s, Exec(s, steps))
    decreases |left|
  {
    hide Do, Enabled, Exec, Possible, Drained;
    if left == multiset{} {
      NothingToDrain(s);
      return [];
    }
    var task :| task in left;
    var others := left - multiset{task};
    if HoldsReadLock(task) {
      var first, more := FinishRead(s, task);
      var between := Exec(s, first);
      assert between.tasks == others + (rest + more);
      assert forall other :: other in s.tasks && !HoldsReadLock(other) ==> other in between.tasks;
      var second := Drain(between, others, rest + more);
      DrainedAfter(s, between, Exec(between, second));
      ExecConcat(s, first, second);
      steps := first + second;
    } else {
      assert left + rest == others + (rest + multiset{task});
      steps := Drain(s, others, rest + multiset{task});
    }
  }

  lemma DrainAll(s: State) returns (steps: seq<Step>)
    ensures Possible(s, steps) && OnlyRuns(steps) && Drained(s, Exec(s, steps))
  {
    assert s.tasks == s.tasks + multiset{};
    steps := Drain(s, s.tasks, multiset{});
  }

  lemma HotGetHits(s: State, key: Key)
    requires HotAnswers(s, key)
    ensures CanHit(s, key)
  {
    hide CanHit;
    var started := Do(s, Begin(GetHot(key)));
    var done := Do(started, Run(GetHot(key), 0));
    assert done.hits[|s.hits|].key == key;
    HitBack(started, Run(GetHot(key), 0), key);
    HitBack(s, Begin(GetHot(key)), key);
  }

  lemma DecodeHits(s: State, task: Task)
    requires task in s.tasks && task.GetDecode? && task.snapshot.value.Some?
    ensures CanHit(s, task.key)
  {
    hide CanHit;
    assert Do(s, Run(task, 0)).hits[|s.hits|].key == task.key;
    HitBack(s, Run(task, 0), task.key);
  }

  lemma RecheckHits(s: State, task: Task)
    requires task in s.tasks && task.GetRecheck? && s.now < task.snapshot.deadline && task.snapshot.value.Some?
    ensures CanHit(s, task.key)
  {
    hide CanHit;
    DecodeHits(Do(s, Run(task, 0)), GetDecode(task.key, task.snapshot, s.now));
    HitBack(s, Run(task, 0), task.key);
  }

  lemma ColdGetHits(s: State, key: Key)
    requires GetCold(key) in s.tasks && ColdAnswers(s, key)
    ensures CanHit(s, key)
  {
    hide CanHit;
    RecheckHits(Do(s, Run(GetCold(key), 0)), GetRecheck(key, s.cold[key]));
    HitBack(s, Run(GetCold(key), 0), key);
  }

  /** A Get falls through to the cold tier when the hot tier does not answer. */
  lemma ColdHits(s: State, key: Key)
    requires ColdAnswers(s, key)
    ensures CanHit(s, key)
  {
    hide CanHit;
    if HotAnswers(s, key) {
      HotGetHits(s, key);
    } else {
      var started := Do(s, Begin(GetHot(key)));
      MissedGetHits(started, key);
      HitBack(s, Begin(GetHot(key)), key);
    }
  }

  lemma DroppedGetHits(s: State, key: Key)
    requires GetDropHot(key) in s.tasks && ColdAnswers(s, key)
    ensures CanHit(s, key)
  {
    hide CanHit;
    ColdGetHits(Do(s, Run(GetDropHot(key), 0)), key);
    HitBack(s, Run(GetDropHot(key), 0), key);
  }

  lemma MissedGetHits(s: State, key: Key)
    requires GetHot(key) in s.tasks && !HotAnswers(s, key) && ColdAnswers(s, key)
    ensures CanHit(s, key)
  {
    hide CanHit;
    var looked := Do(s, Run(GetHot(key), 0));
    if key in s.hot {
      DroppedGetHits(looked, key);
    } else {
      ColdGetHits(looked, key);
    }
    HitBack(s, Run(GetHot(key), 0), key);
  }

  lemma SetColdHits(s: State, task: Task)
    requires task in s.tasks && task.SetCold? && s.now < task.write.exp && task.write.value.Some?
    ensures CanHit(s, task.key)
  {
    hide CanHit;
    var steps := DrainAll(s);
    var drained := Exec(s, steps);
    ColdHits(Do(drained, Run(task, 0)), task.key);
    HitBack(drained, Run(task, 0), task.key);
    HitBackRun(s, steps, task.key);
  }

  lemma SetEncodeHits(s: State, task: Task)
    requires task in s.tasks && task.SetEncode? && task.ttl > 0 && task.setValue.Some?
    ensures CanHit(s, task.key)
  {
    hide CanHit;
    SetColdHits(Do(s, Run(task, 0)), SetCold(task.key, Write(task.key, task.setValue, s.now, s.now + task.ttl)));
    HitBack(s, Run(task, 0), task.key);
  }

  lemma ReviverHits(s: State, task: Task, key: Key)
    requires task in s.tasks && Revives(s.now, task, key)
    ensures CanHit(s, key)
  {
    hide CanHit;
    if task.GetDecode? {
      DecodeHits(s, task);
    } else if task.GetRecheck? {
      RecheckHits(s, task);
    } else if task.SetCold? {
      SetColdHits(s, task);
    } else if task.SetEncode? {
      SetEncodeHits(s, task);
    } else {
      HotGetHits(Do(s, Run(task, 0)), key);
      HitBack(s, Run(task, 0), key);
    }
  }

  /** In every state, reachable or not: a key can be hit again without another Set if and only if a
      tier holds a live copy of it or an operation in flight still carries one. */
  lemma CanHitIffAlive(s: State, key: Key)
    ensures CanHit(s, key) <==> Alive(s, key)
  {
    if HotAnswers(s, key) {
      HotGetHits(s, key);
    } else if ColdAnswers(s, key) {
      ColdHits(s, key);
    } else if task :| task in s.tasks && Revives(s.now, task, key) {
      ReviverHits(s, task, key);
    } else {
      forall steps | Possible(s, steps) && NoSetOf(steps, key) ensures !HitsAdded(s, Exec(s, steps), key) {
        RunRevivesNothing(s, steps, key);
      }
    }
  }

  /** The last section of a Delete: what can still answer then is a copy that entered the hot tier
      since its first section, or an operation still in flight. */
  lemma FinishedDeleteAnswersIff(s: State, key: Key, slack: nat)
    requires Enabled(s, Run(DeleteCold(key), slack))
    ensures CanHit(Do(s, Run(DeleteCold(key), slack)), key) <==>
      HotAnswers(s, key) || exists task :: task in s.tasks && Revives(s.now, task, key)
  {
    var after := Do(s, Run(DeleteCold(key), slack));
    CanHitIffAlive(after, key);
    assert forall task :: task in after.tasks ==> task in s.tasks;
    assert forall task :: task in s.tasks && Revives(s.now, task, key) ==> task in after.tasks;
  }

  function DeleteSteps(key: Key): seq<Step> {
    [Begin(DeleteHot(key))] + ([Run(DeleteHot(key), 0)] + [Run(DeleteCold(key), 0)])
  }

  lemma DeleteRuns(s: State, key: Key) returns (halfway: State)
    requires !ReadLocked(s)
    ensures halfway == s.(hot := s.hot - {key}, tasks := s.tasks + multiset{DeleteCold(key)})
    ensures Enabled(halfway, Run(DeleteCold(key), 0))
    ensures Possible(s, DeleteSteps(key))
    ensures Exec(s, DeleteSteps(key)) == Do(halfway, Run(DeleteCold(key), 0))
  {
    hide Possible, Exec;
    var begun := Do(s, Begin(DeleteHot(key)));
    halfway := Do(begun, Run(DeleteHot(key), 0));
    var last := [Run(DeleteCold(key), 0)];
    assert begun.tasks - multiset{DeleteHot(key)} == s.tasks;
    ExecLast(halfway, last[0]);
    hide Do;
    ExecOne(begun, Run(DeleteHot(key), 0), last);
    ExecOne(s, Begin(DeleteHot(key)), [Run(DeleteHot(key), 0)] + last);
  }

  /** A whole undisturbed Delete, from any state in which it can get the lock at once: the key can be
      hit again without a Set if and only if, when the Delete was called, some operation in flight still
      carried a live value of the key. */
  lemma DeletedKeyAnswersIff(s: State, key: Key)
    requires !ReadLocked(s)
    ensures Possible(s, DeleteSteps(key))
    ensures CanHit(Exec(s, DeleteSteps(key)), key) <==> exists task :: task in s.tasks && Revives(s.now, task, key)
  {
    var halfway := DeleteRuns(s, key);
    DeleteCarriesNothing(s.now, key);
    assert key !in halfway.hot && halfway.now == s.now;
    assert forall task :: task in halfway.tasks <==> task in s.tasks || task == DeleteCold(key);
    hide CanHit, Revives, Possible, Exec, Do, DeleteSteps, Enabled;
    FinishedDeleteAnswersIff(halfway, key, 0);
  }

  lemma DeleteCarriesNothing(now: int, key: Key)
    ensures !Revives(now, DeleteCold(key), key)
  {
  }

  lemma ExecLast(s: State, step: Step)
    requires Enabled(s, step)
    ensures Possible(s, [step]) && Exec(s, [step]) == Do(s, step)
  {
    ExecOne(s, step, []);
    assert [step] + [] == [step];
  }

  ghost predicate Reaches(s: State, t: State) {
    exists steps :: Possible(s, steps) && Exec(s, steps) == t
  }

  lemma {:induction false} ExecConcat(s: State, a: seq<Step>, b: seq<Step>)
    requires Possible(s, a) && Possible(Exec(s, a), b)
    ensures Possible(s, a + b) && Exec(s, a + b) == Exec(Exec(s, a), b)
    decreases |a|
  {
    if a == [] {
      assert a + b == b;
    } else {
      ExecConcat(Do(s, a[0]), a[1..], b);
      assert (a + b)[1..] == a[1..] + b;
    }
  }

  lemma ReachesBy(s: State, t: State, step: Step)
    requires Reaches(s, t) && Enabled(t, step)
    ensures Reaches(s, Do(t, step))
  {
    var steps :| Possible(s, steps) && Exec(s, steps) == t;
    ExecLast(t, step);
    ExecConcat(s, steps, [step]);
  }

  lemma ReachesStart(s: State)
    ensures Reaches(s, s)
  {
    assert Possible(s, []) && Exec(s, []) == s;
  }

  /** A task just spawned runs next; `after` is what it leaves, and `next` what follows it. */
  lemma RunsNext(start: State, s: State, task: Task, after: State, next: Task)
    requires Reaches(start, Spawn(s, task))
    requires Effect(s, task, 0) == after && Follow(s, task) == Some(next) && !TakesWriteLock(task)
    ensures Reaches(start, Spawn(after, next))
  {
    hide Effect, Follow;
    var before := Spawn(s, task);
    ReachesBy(start, before, Run(task, 0));
    assert before.(tasks := before.tasks - multiset{task}) == s;
  }

  function AfterSet(s: State, key: Key, value: Option<Value>, ttl: int): State {
    var write := Write(key, value, s.now, s.now + ttl);
    s.(hot := s.hot[key := HotEntry(value, s.now + ttl, Hot(write))],
       cold := s.cold[key := ColdEntry(value, s.now + ttl, write)], writes := s.writes + {write})
  }

  lemma SetCompletes(start: State, s: State, key: Key, value: Option<Value>, ttl: int)
    requires Reaches(start, s) && NoReads(s.tasks)
    ensures Reaches(start, AfterSet(s, key, value, ttl))
  {
    hide Reaches;
    var write := Write(key, value, s.now, s.now + ttl);
    var warm := s.(hot := s.hot[key := HotEntry(value, s.now + ttl, Hot(write))], writes := s.writes + {write});
    ReachesBy(start, s, Begin(SetHot(key, value, ttl)));
    RunsNext(start, s, SetHot(key, value, ttl), warm, SetEncode(key, value, ttl));
    assert warm.writes + {write} == warm.writes;
    RunsNext(start, warm, SetEncode(key, value, ttl), warm, SetCold(key, write));
    var last := Spawn(warm, SetCold(key, write));
    ReachesBy(start, last, Run(SetCold(key, write), 0));
    assert last.(tasks := last.tasks - multiset{SetCold(key, write)}) == warm;
  }

  /** A Get that misses the hot tier finds a live persisted entry, and waits to recheck it. */
  lemma GetFindsCold(start: State, s: State, key: Key)
    requires Reaches(start, s) && key !in s.hot && ColdAnswers(s, key)
    ensures Reaches(start, Spawn(s, GetRecheck(key, s.cold[key])))
  {
    hide Reaches;
    ReachesBy(start, s, Begin(GetHot(key)));
    RunsNext(start, s, GetHot(key), s, GetCold(key));
    RunsNext(start, s, GetCold(key), s, GetRecheck(key, s.cold[key]));
  }

  /** It is served, and starts a promotion. */
  lemma ColdGetStartsPromotion(start: State, s: State, key: Key) returns (after: State)
    requires Reaches(start, s) && key !in s.hot && ColdAnswers(s, key)
    ensures Reaches(start, after) && after.now == s.now
    ensures var entry := s.cold[key];
      after.tasks == s.tasks
        + multiset{Promote(key, entry.value.value, entry.write.exp - s.now, entry.write, s.now)}
  {
    hide Reaches;
    var entry := s.cold[key];
    GetFindsCold(start, s, key);
    RunsNext(start, s, GetRecheck(key, entry), s, GetDecode(key, entry, s.now));
    var served := s.(hits := s.hits + [Hit(key, entry.value, s.now, Cold(entry.write))]);
    var promote := Promote(key, entry.value.value, entry.write.exp - s.now, entry.write, s.now);
    RunsNext(start, s, GetDecode(key, entry, s.now), served, promote);
    after := Spawn(served, promote);
  }

  /** After a Set of a new cache, with the hot copy evicted: the value is in the cold tier alone. */
  lemma OnlyColdHolds(now: int, key: Key, value: Value, ttl: nat) returns (s: State)
    ensures Reaches(Init(now), s) && s.now == now && s.tasks == multiset{} && key !in s.hot
    ensures s.cold == map[key := ColdEntry(Some(value), now + ttl, Write(key, Some(value), now, now + ttl))]
  {
    ReachesStart(Init(now));
    hide Reaches;
    SetCompletes(Init(now), Init(now), key, Some(value), ttl);
    var done := AfterSet(Init(now), key, Some(value), ttl);
    ReachesBy(Init(now), done, Evict(key));
    s := Do(done, Evict(key));
  }

  /** The code can get there: some run from a new cache ends in a Delete after which, with no Set in
      flight, the deleted value is hit again. */
  lemma DeletedValueCanReturn(now: int, key: Key, value: Value, ttl: nat)
    requires ttl > 0
    ensures exists s ::
      && Reaches(Init(now), s) && (forall task :: task in s.tasks ==> task.Promote?)
      && Possible(s, DeleteSteps(key)) && CanHit(Exec(s, DeleteSteps(key)), key)
  {
    hide CanHit, Reaches, Possible, Exec;
    var stored := OnlyColdHolds(now, key, value, ttl);
    var s := ColdGetStartsPromotion(Init(now), stored, key);
    DeletedKeyAnswersIff(s, key);
    var promote := Promote(key, value, ttl, Write(key, Some(value), now, now + ttl), now);
    assert promote in s.tasks && Revives(s.now, promote, key);
  }

  // ----- When a live persisted entry is lost -----

  /** Steps that start no Set and no Delete of `key`. */
  ghost predicate NoWriteOf(steps: seq<Step>, key: Key) {
    forall i :: 0 <= i < |steps| ==> !StartsWrite(steps[i], key)
  }

  predicate StartsWrite(step: Step, key: Key) {
    step.Begin? && (step.task.SetHot? || step.task.DeleteHot?) && step.task.key == key
  }

  predicate Holds(s: State, key: Key, entry: ColdEntry) {
    key in s.cold && s.cold[key] == entry
  }

  /** Some continuation without a new write of `key` loses `entry` before its deadline. */
  ghost predicate CanLose(s: State, key: Key, entry: ColdEntry) {
    exists steps :: Possible(s, steps) && NoWriteOf(steps, key)
      && Exec(s, steps).now < entry.deadline && !Holds(Exec(s, steps), key, entry)
  }

  /** A write of the key, or the deletion of an entry that a read found expired. */
  predicate Destroys(task: Task, key: Key) {
    task.key == key && (task.SetHot? || task.SetEncode? || task.SetCold? || task.DeleteHot? || task.DeleteCold? || task.DropCold?)
  }

  /** The lock keeps the entry a read holds in place until the read is done with it. */
  ghost predicate SnapshotsCurrent(s: State) {
    forall task :: task in s.tasks && (task.GetRecheck? || task.ExistsRecheck?) ==>
      Holds(s, task.key, task.snapshot)
  }

  lemma EffectWritesUnderLock(s: State, task: Task, slack: nat)
    ensures TakesWriteLock(task) || Effect(s, task, slack).cold == s.cold
    ensures Effect(s, task, slack).tasks == s.tasks
  {
  }

  lemma FollowTakesCurrent(s: State, task: Task)
    requires Follow(s, task).Some?
    ensures var next := Follow(s, task).value;
      next.GetRecheck? || next.ExistsRecheck? ==> !TakesWriteLock(task) && Holds(s, next.key, next.snapshot)
  {
  }

  lemma StepKeepsSnapshots(s: State, step: Step)
    requires SnapshotsCurrent(s) && Enabled(s, step)
    ensures SnapshotsCurrent(Do(s, step))
  {
    if step.Run? {
      hide Effect, Follow;
      var taken := s.(tasks := s.tasks - multiset{step.task});
      EffectWritesUnderLock(taken, step.task, step.slack);
      if Follow(taken, step.task).Some? {
        FollowTakesCurrent(taken, step.task);
      }
    }
  }

  lemma {:induction false} RunKeepsSnapshots(s: State, steps: seq<Step>)
    requires SnapshotsCurrent(s) && Possible(s, steps)
    ensures SnapshotsCurrent(Exec(s, steps))
    decreases |steps|
  {
    if steps != [] {
      StepKeepsSnapshots(s, steps[0]);
      RunKeepsSnapshots(Do(s, steps[0]), steps[1..]);
    }
  }

  ghost predicate Unharmed(s: State, key: Key, entry: ColdEntry) {
    Holds(s, key, entry) && forall task :: task in s.tasks ==> !Destroys(task, key)
  }

  ghost predicate Safe(s: State, key: Key, entry: ColdEntry) {
    Unharmed(s, key, entry) && SnapshotsCurrent(s)
  }

  lemma EffectKeepsEntry(s: State, task: Task, slack: nat, key: Key, entry: ColdEntry)
    requires Holds(s, key, entry) && !Destroys(task, key)
    ensures Holds(Effect(s, task, slack), key, entry) && Effect(s, task, slack).tasks == s.tasks
  {
  }

  lemma FollowDestroysNothing(s: State, task: Task, key: Key, entry: ColdEntry)
    requires Holds(s, key, entry) && s.now < entry.deadline && !Destroys(task, key) && Follow(s, task).Some?
    requires task.GetRecheck? || task.ExistsRecheck? ==> Holds(s, task.key, task.snapshot)
    ensures !Destroys(Follow(s, task).value, key)
  {
  }

  lemma AdvanceKeepsEntry(s: State, task: Task, slack: nat, key: Key, entry: ColdEntry)
    requires Unharmed(s, key, entry) && s.now < entry.deadline && !Destroys(task, key)
    requires task.GetRecheck? || task.ExistsRecheck? ==> Holds(s, task.key, task.snapshot)
    ensures Unharmed(Advance(s, task, slack), key, entry)
  {
    hide Effect, Follow, Destroys;
    EffectKeepsEntry(s, task, slack, key, entry);
    if Follow(s, task).Some? {
      FollowDestroysNothing(s, task, key, entry);
    }
  }

  lemma SafeToTake(s: State, task: Task, key: Key, entry: ColdEntry)
    requires Safe(s, key, entry) && task in s.tasks
    ensures Unharmed(s.(tasks := s.tasks - multiset{task}), key, entry) && !Destroys(task, key)
    ensures task.GetRecheck? || task.ExistsRecheck? ==> Holds(s, task.key, task.snapshot)
  {
    hide Destroys;
  }

  lemma Taken(s: State, task: Task)
    requires task in s.tasks
    ensures Spawn(s.(tasks := s.tasks - multiset{task}), task) == s
  {
  }

  lemma RunStepIs(s: State, task: Task, slack: nat)
    requires Enabled(s, Run(task, slack))
    ensures task in s.tasks
    ensures Do(s, Run(task, slack)) == Advance(s.(tasks := s.tasks - multiset{task}), task, slack)
  {
  }

  lemma OtherStepKeepsEntry(s: State, step: Step, key: Key, entry: ColdEntry)
    requires Enabled(s, step) && Unharmed(s, key, entry) && !StartsWrite(step, key) && s.now < entry.deadline
    requires !step.Run?
    ensures Unharmed(Do(s, step), key, entry)
  {
    assert forall task :: task in Do(s, step).tasks ==> task in s.tasks || (step.Begin? && task == step.task);
  }

  lemma StepKeepsEntry(s: State, step: Step, key: Key, entry: ColdEntry)
    requires Enabled(s, step) && Safe(s, key, entry) && !StartsWrite(step, key) && s.now < entry.deadline
    ensures Safe(Do(s, step), key, entry)
  {
    StepKeepsSnapshots(s, step);
    hide Advance, Do, Enabled, SnapshotsCurrent, Unharmed, Holds, StartsWrite;
    if step.Run? {
      RunStepIs(s, step.task, step.slack);
      SafeToTake(s, step.task, key, entry);
      TakenHolds(s, step.task);
      AdvanceKeepsEntry(s.(tasks := s.tasks - multiset{step.task}), step.task, step.slack, key, entry);
    } else {
      OtherStepKeepsEntry(s, step, key, entry);
    }
  }

  lemma TakenHolds(s: State, task: Task)
    ensures forall key, entry ::
      Holds(s.(tasks := s.tasks - multiset{task}), key, entry) == Holds(s, key, entry)
  {
  }

  lemma EffectKeepsTime(s: State, task: Task, slack: nat)
    ensures Effect(s, task, slack).now == s.now
  {
  }

  lemma {:induction false} TimeMovesOn(s: State, steps: seq<Step>)
    requires Possible(s, steps)
    ensures s.now <= Exec(s, steps).now
    decreases |steps|
  {
    if steps != [] {
      TimeMovesOn(Do(s, steps[0]), steps[1..]);
      if steps[0].Run? {
        hide Effect, Follow;
        EffectKeepsTime(s.(tasks := s.tasks - multiset{steps[0].task}), steps[0].task, steps[0].slack);
      }
    }
  }

  lemma {:induction false} RunKeepsEntry(s: State, steps: seq<Step>, key: Key, entry: ColdEntry)
    requires Possible(s, steps) && NoWriteOf(steps, key) && Safe(s, key, entry)
    requires Exec(s, steps).now < entry.deadline
    ensures Holds(Exec(s, steps), key, entry)
    decreases |steps|
  {
    hide Do, Enabled, Destroys, SnapshotsCurrent;
    TimeMovesOn(s, steps);
    if steps != [] {
      StepKeepsEntry(s, steps[0], key, entry);
      RunKeepsEntry(Do(s, steps[0]), steps[1..], key, entry);
    }
  }

  lemma LoseBack(s: State, step: Step, key: Key, entry: ColdEntry)
    requires Enabled(s, step) && !StartsWrite(step, key)
    requires CanLose(Do(s, step), key, entry)
          || (Do(s, step).now < entry.deadline && !Holds(Do(s, step), key, entry))
    ensures CanLose(s, key, entry)
  {
    var next := Do(s, step);
    var rest: seq<Step> :=
      if CanLose(next, key, entry) then
        var steps :| Possible(next, steps) && NoWriteOf(steps, key)
          && Exec(next, steps).now < entry.deadline && !Holds(Exec(next, steps), key, entry); steps
      else [];
    ExecOne(s, step, rest);
    assert NoWriteOf([step] + rest, key);
  }

  lemma {:induction false} LoseBackRun(s: State, steps: seq<Step>, key: Key, entry: ColdEntry)
    requires Possible(s, steps) && OnlyRuns(steps) && CanLose(Exec(s, steps), key, entry)
    ensures CanLose(s, key, entry)
    decreases |steps|
  {
    hide CanLose, Do, Enabled;
    if steps != [] {
      LoseBackRun(Do(s, steps[0]), steps[1..], key, entry);
      LoseBack(s, steps[0], key, entry);
    }
  }

  /** A write that waits for the lock gets it in time. The store may round the deadline of a new entry
      down as far as it takes for the entries to differ. */
  lemma WriteLoses(s: State, task: Task, entry: ColdEntry)
    requires task in s.tasks && s.now < entry.deadline && TakesWriteLock(task)
    ensures CanLose(s, task.key, entry)
  {
    hide CanLose;
    var steps := DrainAll(s);
    var drained := Exec(s, steps);
    var slack := if task.SetCold? && ColdEntry(task.write.value, task.write.exp, task.write) == entry then 1 else 0;
    LoseBack(drained, Run(task, slack), task.key, entry);
    LoseBackRun(s, steps, task.key, entry);
  }

  lemma SetEncodeLoses(s: State, task: Task, entry: ColdEntry)
    requires task in s.tasks && s.now < entry.deadline && task.SetEncode?
    ensures CanLose(s, task.key, entry)
  {
    hide CanLose;
    WriteLoses(Do(s, Run(task, 0)), SetCold(task.key, Write(task.key, task.setValue, s.now, s.now + task.ttl)), entry);
    LoseBack(s, Run(task, 0), task.key, entry);
  }

  lemma DestroyerLoses(s: State, task: Task, key: Key, entry: ColdEntry)
    requires task in s.tasks && Destroys(task, key) && s.now < entry.deadline
    ensures CanLose(s, key, entry)
  {
    hide CanLose;
    if task.SetHot? {
      SetEncodeLoses(Do(s, Run(task, 0)), SetEncode(key, task.setValue, task.ttl), entry);
      LoseBack(s, Run(task, 0), key, entry);
    } else if task.SetEncode? {
      SetEncodeLoses(s, task, entry);
    } else if task.DeleteHot? {
      WriteLoses(Do(s, Run(task, 0)), DeleteCold(key), entry);
      LoseBack(s, Run(task, 0), key, entry);
    } else {
      WriteLoses(s, task, entry);
    }
  }

  /** In every reachable state: a live persisted entry can be lost before its deadline, without a new
      write of its key, if and only if a write of the key is in flight already, or the deletion of an
      entry that some earlier read found expired. */
  lemma LiveEntryIsLostIff(now: int, s: State, key: Key)
    requires Reaches(Init(now), s) && key in s.cold && s.now < s.cold[key].deadline
    ensures CanLose(s, key, s.cold[key]) <==> exists task :: task in s.tasks && Destroys(task, key)
  {
    var entry := s.cold[key];
    if task :| task in s.tasks && Destroys(task, key) {
      DestroyerLoses(s, task, key, entry);
    } else {
      var before :| Possible(Init(now), before) && Exec(Init(now), before) == s;
      RunKeepsSnapshots(Init(now), before);
      forall steps | Possible(s, steps) && NoWriteOf(steps, key) && Exec(s, steps).now < entry.deadline
        ensures Holds(Exec(s, steps), key, entry)
      {
        RunKeepsEntry(s, steps, key, entry);
      }
    }
  }

  /** A Set has completed and its time to live has just begun, nothing but the deletion of an earlier,
      expired entry is in flight, and once that has run and the hot copy is evicted nothing answers. */
  ghost predicate LosesCompletedSet(s: State, key: Key, value: Value, ttl: nat) {
    && s.tasks == multiset{DropCold(key)}
    && Holds(s, key, ColdEntry(Some(value), s.now + ttl, Write(key, Some(value), s.now, s.now + ttl)))
    && HotAnswers(s, key) && CanLose(s, key, s.cold[key])
    && var evicted := Do(s, Evict(key));
    && Enabled(evicted, Run(DropCold(key), 0))
    && var lost := Do(evicted, Run(DropCold(key), 0));
    lost.now == s.now && lost.tasks == multiset{} && !CanHit(lost, key)
  }

  /** The code can get there too: a Get found the entry before it expired. */
  lemma CompletedSetCanBeLost(now: int, key: Key, earlier: Value, ttl: nat, value: Value, longer: nat)
    requires 0 < ttl && 0 < longer
    ensures exists s :: Reaches(Init(now), s) && LosesCompletedSet(s, key, value, longer)
  {
    hide Reaches, CanLose;
    var start := Init(now);
    var before := OnlyColdHolds(now, key, earlier, ttl);
    var recheck := GetRecheck(key, before.cold[key]);
    GetFindsCold(start, before, key);
    ReachesBy(start, Spawn(before, recheck), Tick(ttl));
    var expired := before.(now := now + ttl);
    RunsNext(start, expired, recheck, expired, DropCold(key));
    SetCompletes(start, Spawn(expired, DropCold(key)), key, Some(value), longer);
    var s := AfterSet(Spawn(expired, DropCold(key)), key, Some(value), longer);
    assert Destroys(DropCold(key), key);
    LiveEntryIsLostIff(now, s, key);
    NothingAnswersOnceDropped(s, key);
    assert LosesCompletedSet(s, key, value, longer);
  }

  lemma NothingAnswersOnceDropped(s: State, key: Key)
    requires s.tasks == multiset{DropCold(key)}
    ensures var evicted := Do(s, Evict(key));
      && Enabled(evicted, Run(DropCold(key), 0))
      && var lost := Do(evicted, Run(DropCold(key), 0));
      lost.now == s.now && lost.tasks == multiset{} && !CanHit(lost, key)
  {
    var lost := Do(Do(s, Evict(key)), Run(DropCold(key), 0));
    CanHitIffAlive(lost, key);
  }
}
