/**
 Runs of the cache protocol seen from outside: which call, and which later section of it, each answer
 goes back to, and for how long a copy answers. Everything here is stated over the steps of a run, the
 instants they were taken at, and the times to live of the calls among them.
 */
module CacheTrace {
  import opened Wrappers
  import opened Sequences
  import opened CacheProtocol

  /** A step and the instant it was taken at. */
  datatype Moment = Moment(step: Step, at: int)

  /** The steps of a run that begins at `now`: only ticks take time. */
  ghost function Past(now: int, steps: seq<Step>): (past: seq<Moment>)
    ensures |past| == |steps|
    decreases |steps|
  {
    if steps == [] then []
    else [Moment(steps[0], now)] + Past(now + (if steps[0].Tick? then steps[0].passed else 0), steps[1..])
  }

  // ----- What an answer goes back to -----

  ghost predicate CallsSet(m: Moment, key: Key, value: Option<Value>, ttl: int) {
    m.step == Begin(SetHot(key, value, ttl))
  }

  /** One of the two sections in which a Set computes a deadline. */
  ghost predicate SetsDeadline(m: Moment, key: Key, value: Option<Value>, ttl: int) {
    m.step.Run? && (m.step.task == SetHot(key, value, ttl) || m.step.task == SetEncode(key, value, ttl))
  }

  /** A Set of the value was called, and a later section of it ran at `at`; `exp` is its time to live
      after that. */
  ghost predicate SetMade(past: seq<Moment>, key: Key, value: Option<Value>, at: int, exp: int) {
    exists b, c, ttl :: 0 <= b < c < |past| && CallsSet(past[b], key, value, ttl) && SetsDeadline(past[c], key, value, ttl)
      && at == past[c].at && exp == at + ttl
  }

  ghost predicate ReadBy(past: seq<Moment>, key: Key, at: int) {
    exists r :: 0 <= r < |past| && past[r].step.Run? && past[r].step.task.GetDecode? && past[r].step.task.key == key
      && past[r].at == at
  }

  /** A promotion of the key read its lifetime at `readAt` and was run at `installedAt`. */
  ghost predicate PromotedBy(past: seq<Moment>, key: Key, readAt: int, installedAt: int) {
    exists r, p :: 0 <= r < p < |past|
      && past[r].step.Run? && past[r].step.task.GetDecode? && past[r].step.task.key == key && past[r].at == readAt
      && past[p].step.Run? && past[p].step.task.Promote? && past[p].step.task.key == key && past[p].at == installedAt
  }

  ghost predicate OriginTraced(past: seq<Moment>, key: Key, origin: Origin) {
    && origin.write.key == key && WriteTraced(past, origin.write)
    && (origin.Promoted? ==> PromotedBy(past, key, origin.readAt, origin.installedAt))
  }

  ghost predicate WriteTraced(past: seq<Moment>, write: Write) {
    SetMade(past, write.key, write.value, write.at, write.exp)
  }

  ghost predicate TaskTraced(past: seq<Moment>, task: Task) {
    match task
    case SetHot(key, value, ttl) => exists b :: 0 <= b < |past| && CallsSet(past[b], key, value, ttl)
    case SetEncode(key, value, ttl) => exists b :: 0 <= b < |past| && CallsSet(past[b], key, value, ttl)
    case SetCold(key, write) => write.key == key && WriteTraced(past, write)
    case GetRecheck(key, snapshot) => SnapshotTraced(past, key, snapshot)
    case GetDecode(key, snapshot, _) => SnapshotTraced(past, key, snapshot)
    case ExistsCheck(key, entry) => OriginTraced(past, key, entry.origin)
    case ExistsRecheck(key, snapshot) => SnapshotTraced(past, key, snapshot)
    case Promote(key, value, _, from, readAt) => from.key == key && WriteTraced(past, from) && ReadBy(past, key, readAt)
    case _ => true
  }

  ghost predicate SnapshotTraced(past: seq<Moment>, key: Key, snapshot: ColdEntry) {
    snapshot.write.key == key && WriteTraced(past, snapshot.write)
  }

  ghost predicate Traced(past: seq<Moment>, s: State) {
    && (forall key :: key in s.hot ==> OriginTraced(past, key, s.hot[key].origin))
    && (forall key :: key in s.cold ==> SnapshotTraced(past, key, s.cold[key]))
    && (forall task :: task in s.tasks ==> TaskTraced(past, task))
    && (forall hit :: hit in s.hits ==> OriginTraced(past, hit.key, hit.origin))
    && (forall hit :: hit in s.found ==> OriginTraced(past, hit.key, hit.origin))
  }

  // More past explains no less.

  lemma SetMadeLater(past: seq<Moment>, m: Moment, key: Key, value: Option<Value>, at: int, exp: int)
    requires SetMade(past, key, value, at, exp)
    ensures SetMade(past + [m], key, value, at, exp)
  {
    var b, c, ttl :| 0 <= b < c < |past| && CallsSet(past[b], key, value, ttl) && SetsDeadline(past[c], key, value, ttl)
      && at == past[c].at && exp == at + ttl;
    assert (past + [m])[b] == past[b] && (past + [m])[c] == past[c];
  }

  lemma OriginTracedLater(past: seq<Moment>, m: Moment, key: Key, origin: Origin)
    requires OriginTraced(past, key, origin)
    ensures OriginTraced(past + [m], key, origin)
  {
    SetMadeLater(past, m, origin.write.key, origin.write.value, origin.write.at, origin.write.exp);
    hide SetMade;
    if origin.Promoted? {
      var r, p :| 0 <= r < p < |past|
        && past[r].step.Run? && past[r].step.task.GetDecode? && past[r].step.task.key == key && past[r].at == origin.readAt
        && past[p].step.Run? && past[p].step.task.Promote? && past[p].step.task.key == key && past[p].at == origin.installedAt;
      assert (past + [m])[r] == past[r] && (past + [m])[p] == past[p];
    }
  }

  lemma TaskTracedLater(past: seq<Moment>, m: Moment, task: Task)
    requires TaskTraced(past, task)
    ensures TaskTraced(past + [m], task)
  {
    var longer := past + [m];
    assert forall i :: 0 <= i < |past| ==> longer[i] == past[i];
    match task
    case SetHot(key, value, ttl) =>
      var b :| 0 <= b < |past| && CallsSet(past[b], key, value, ttl);
      assert CallsSet(longer[b], key, value, ttl);
    case SetEncode(key, value, ttl) =>
      var b :| 0 <= b < |past| && CallsSet(past[b], key, value, ttl);
      assert CallsSet(longer[b], key, value, ttl);
    case SetCold(key, write) => SetMadeLater(past, m, write.key, write.value, write.at, write.exp);
    case GetRecheck(key, snapshot) => SnapshotTracedLater(past, m, key, snapshot);
    case GetDecode(key, snapshot, _) => SnapshotTracedLater(past, m, key, snapshot);
    case ExistsCheck(key, entry) => OriginTracedLater(past, m, key, entry.origin);
    case ExistsRecheck(key, snapshot) => SnapshotTracedLater(past, m, key, snapshot);
    case Promote(key, _, _, from, readAt) =>
      SetMadeLater(past, m, from.key, from.value, from.at, from.exp);
      hide SetMade;
      var r :| 0 <= r < |past| && past[r].step.Run? && past[r].step.task.GetDecode? && past[r].step.task.key == key
        && past[r].at == readAt;
      assert longer[r] == past[r];
    case _ =>
  }

  lemma SnapshotTracedLater(past: seq<Moment>, m: Moment, key: Key, snapshot: ColdEntry)
    requires SnapshotTraced(past, key, snapshot)
    ensures SnapshotTraced(past + [m], key, snapshot)
  {
    SetMadeLater(past, m, snapshot.write.key, snapshot.write.value, snapshot.write.at, snapshot.write.exp);
  }

  lemma TracedLater(past: seq<Moment>, m: Moment, s: State)
    requires Traced(past, s)
    ensures Traced(past + [m], s)
  {
    hide OriginTraced, SnapshotTraced, TaskTraced;
    forall key, origin | OriginTraced(past, key, origin) ensures OriginTraced(past + [m], key, origin) {
      OriginTracedLater(past, m, key, origin);
    }
    forall key, snapshot | SnapshotTraced(past, key, snapshot) ensures SnapshotTraced(past + [m], key, snapshot) {
      SnapshotTracedLater(past, m, key, snapshot);
    }
    forall task | TaskTraced(past, task) ensures TaskTraced(past + [m], task) {
      TaskTracedLater(past, m, task);
    }
  }

  // Each section leaves traces only of what it had, and of itself.

  /** The deadline a Set's section computes goes back to the call and to this section. */
  lemma SectionMakesSet(past: seq<Moment>, m: Moment, key: Key, value: Option<Value>, ttl: int)
    requires SetsDeadline(m, key, value, ttl) && exists b :: 0 <= b < |past| && CallsSet(past[b], key, value, ttl)
    ensures SetMade(past + [m], key, value, m.at, m.at + ttl)
  {
    var b :| 0 <= b < |past| && CallsSet(past[b], key, value, ttl);
    assert (past + [m])[b] == past[b] && (past + [m])[|past|] == m;
  }

  lemma PromotionIsTraced(past: seq<Moment>, m: Moment, task: Task)
    requires task.Promote? && TaskTraced(past, task) && m.step.Run? && m.step.task == task
    ensures PromotedBy(past + [m], task.key, task.readAt, m.at)
  {
    var r :| 0 <= r < |past| && past[r].step.Run? && past[r].step.task.GetDecode? && past[r].step.task.key == task.key
      && past[r].at == task.readAt;
    assert (past + [m])[r] == past[r] && (past + [m])[|past|] == m;
  }

  lemma ReadIsTraced(past: seq<Moment>, m: Moment, key: Key)
    requires m.step.Run? && m.step.task.GetDecode? && m.step.task.key == key
    ensures ReadBy(past + [m], key, m.at)
  {
    assert (past + [m])[|past|] == m;
  }

  /** Where what a section leaves in the tiers and the answers comes from. */
  lemma EffectOrigins(s: State, task: Task, slack: nat)
    ensures var after := Effect(s, task, slack);
      && after.tasks == s.tasks
      && (forall key :: key in after.hot ==>
           || (key in s.hot && after.hot[key] == s.hot[key])
           || (key == task.key && after.hot[key].origin in NewOrigins(s, task)))
      && (forall key :: key in after.cold ==>
           || (key in s.cold && after.cold[key] == s.cold[key])
           || (task.SetCold? && key == task.key && after.cold[key].write == task.write))
      && (forall hit :: hit in after.hits ==> hit in s.hits || (hit.key == task.key && hit.origin in OldOrigins(s, task)))
      && (forall hit :: hit in after.found ==> hit in s.found || (hit.key == task.key && hit.origin in OldOrigins(s, task)))
  {
  }

  ghost function NewOrigins(s: State, task: Task): set<Origin> {
    match task
    case SetHot(key, value, ttl) => {Hot(Write(key, value, s.now, s.now + ttl))}
    case Promote(_, _, _, from, readAt) => {Promoted(from, readAt, s.now)}
    case _ => {}
  }

  ghost function OldOrigins(s: State, task: Task): set<Origin> {
    match task
    case GetHot(key) => if key in s.hot then {s.hot[key].origin} else {}
    case GetDecode(_, snapshot, _) => {Cold(snapshot.write)}
    case ExistsCheck(_, entry) => {entry.origin}
    case ExistsRecheck(_, snapshot) => {Cold(snapshot.write)}
    case _ => {}
  }

  lemma NewOriginsTraced(past: seq<Moment>, s: State, task: Task, slack: nat, origin: Origin)
    requires TaskTraced(past, task) && origin in NewOrigins(s, task)
    ensures OriginTraced(past + [Moment(Run(task, slack), s.now)], task.key, origin)
  {
    var m := Moment(Run(task, slack), s.now);
    match task
    case SetHot(key, value, ttl) =>
      SectionMakesSet(past, m, key, value, ttl);
      hide SetMade;
    case Promote(_, _, _, from, _) =>
      PromotionIsTraced(past, m, task);
      SetMadeLater(past, m, from.key, from.value, from.at, from.exp);
      hide SetMade, PromotedBy, ReadBy;
  }

  lemma OldOriginsTraced(past: seq<Moment>, s: State, task: Task, origin: Origin)
    requires Traced(past, s) && TaskTraced(past, task) && origin in OldOrigins(s, task)
    ensures OriginTraced(past, task.key, origin)
  {
    hide SetMade, PromotedBy;
  }

  lemma PersistedIsTraced(past: seq<Moment>, m: Moment, task: Task)
    requires TaskTraced(past, task) && task.SetCold?
    ensures forall entry: ColdEntry :: entry.write == task.write ==> SnapshotTraced(past + [m], task.key, entry)
  {
    TaskTracedLater(past, m, task);
    hide WriteTraced;
  }

  /** What the section adds to the tiers and the answers is traced. */
  lemma EffectIsTraced(past: seq<Moment>, s: State, task: Task, slack: nat)
    requires Traced(past, s) && TaskTraced(past, task)
    ensures Traced(past + [Moment(Run(task, slack), s.now)], Effect(s, task, slack))
  {
    var m := Moment(Run(task, slack), s.now);
    var origins := NewOrigins(s, task) + OldOrigins(s, task);
    hide *;
    TracedLater(past, m, s);
    EffectOrigins(s, task, slack);
    forall origin | origin in origins ensures OriginTraced(past + [m], task.key, origin) {
      if origin in NewOrigins(s, task) {
        NewOriginsTraced(past, s, task, slack, origin);
      } else {
        OldOriginsTraced(past, s, task, origin);
        OriginTracedLater(past, m, task.key, origin);
      }
    }
    if task.SetCold? {
      PersistedIsTraced(past, m, task);
    }
    StillTraced(past + [m], s, Effect(s, task, slack), task.key, origins);
  }

  /** A state is traced if all that is new in it is. */
  lemma StillTraced(past: seq<Moment>, s: State, after: State, key: Key, origins: set<Origin>)
    requires Traced(past, s) && after.tasks == s.tasks
    requires forall origin :: origin in origins ==> OriginTraced(past, key, origin)
    requires forall k :: k in after.hot ==>
      (k in s.hot && after.hot[k] == s.hot[k]) || (k == key && after.hot[k].origin in origins)
    requires forall k :: k in after.cold ==>
      (k in s.cold && after.cold[k] == s.cold[k]) || (k == key && SnapshotTraced(past, key, after.cold[k]))
    requires forall hit :: hit in after.hits ==> hit in s.hits || (hit.key == key && hit.origin in origins)
    requires forall hit :: hit in after.found ==> hit in s.found || (hit.key == key && hit.origin in origins)
    ensures Traced(past, after)
  {
    hide OriginTraced, SnapshotTraced, TaskTraced;
  }

  /** What comes next carries nothing else either: a call stays the same call, */
  lemma NextOfSet(s: State, task: Task, next: Task)
    requires Follow(s, task) == Some(next)
    ensures next.SetEncode? ==> task == SetHot(next.key, next.setValue, next.ttl)
    ensures next.SetCold? ==> task.SetEncode? && task.key == next.key
    ensures next.SetCold? ==> next.write == Write(task.key, task.setValue, s.now, s.now + task.ttl)
    ensures !next.SetHot?
  {
  }

  /** a read takes what a tier holds, or keeps what it took, */
  lemma NextOfRead(s: State, task: Task, next: Task)
    requires Follow(s, task) == Some(next)
    ensures next.GetRecheck? || next.ExistsRecheck? ==> next.key in s.cold && next.snapshot == s.cold[next.key]
    ensures next.GetDecode? ==> task.GetRecheck? && next.key == task.key && next.snapshot == task.snapshot
    ensures next.ExistsCheck? ==> next.key in s.hot && next.entry == s.hot[next.key]
  {
  }

  /** and a promotion takes what was decoded. */
  lemma NextOfDecode(s: State, task: Task, next: Task)
    requires Follow(s, task) == Some(next) && next.Promote?
    ensures task.GetDecode? && next.key == task.key && next.from == task.snapshot.write && next.readAt == s.now
  {
  }

  lemma NextSetIsTraced(past: seq<Moment>, m: Moment, s: State, task: Task, next: Task)
    requires TaskTraced(past, task) && Follow(s, task) == Some(next) && m.step.Run? && m.step.task == task && m.at == s.now
    requires next.SetEncode? || next.SetCold?
    ensures TaskTraced(past + [m], next)
  {
    NextOfSet(s, task, next);
    hide Follow;
    if next.SetEncode? {
      TaskTracedLater(past, m, task);
      hide CallsSet;
    } else {
      SectionMakesSet(past, m, task.key, task.setValue, task.ttl);
      hide SetMade;
    }
  }

  lemma TierIsTraced(past: seq<Moment>, s: State, key: Key)
    requires Traced(past, s)
    ensures key in s.hot ==> OriginTraced(past, key, s.hot[key].origin)
    ensures key in s.cold ==> SnapshotTraced(past, key, s.cold[key])
  {
  }

  lemma ReadTaskIsTraced(past: seq<Moment>, task: Task)
    ensures task.GetRecheck? || task.ExistsRecheck? || task.GetDecode? ==>
      (TaskTraced(past, task) <==> SnapshotTraced(past, task.key, task.snapshot))
    ensures task.ExistsCheck? ==> (TaskTraced(past, task) <==> OriginTraced(past, task.key, task.entry.origin))
  {
  }

  lemma NextCheckIsTraced(past: seq<Moment>, m: Moment, s: State, task: Task, next: Task)
    requires Traced(past, s) && Follow(s, task) == Some(next) && next.ExistsCheck?
    ensures TaskTraced(past + [m], next)
  {
    hide *;
    NextOfRead(s, task, next);
    TierIsTraced(past, s, next.key);
    OriginTracedLater(past, m, next.key, next.entry.origin);
    ReadTaskIsTraced(past + [m], next);
  }

  lemma NextSnapshotIsTraced(past: seq<Moment>, m: Moment, s: State, task: Task, next: Task)
    requires Traced(past, s) && TaskTraced(past, task) && Follow(s, task) == Some(next)
    requires next.GetRecheck? || next.ExistsRecheck? || next.GetDecode?
    ensures TaskTraced(past + [m], next)
  {
    hide *;
    NextOfRead(s, task, next);
    TierIsTraced(past, s, next.key);
    ReadTaskIsTraced(past, task);
    SnapshotTracedLater(past, m, next.key, next.snapshot);
    ReadTaskIsTraced(past + [m], next);
  }

  lemma NextPromotionIsTraced(past: seq<Moment>, m: Moment, s: State, task: Task, next: Task)
    requires TaskTraced(past, task) && Follow(s, task) == Some(next) && m.step.Run? && m.step.task == task && m.at == s.now
    requires next.Promote?
    ensures TaskTraced(past + [m], next)
  {
    NextOfDecode(s, task, next);
    hide Follow;
    SnapshotTracedLater(past, m, task.key, task.snapshot);
    ReadIsTraced(past, m, task.key);
    hide WriteTraced, ReadBy;
  }

  lemma FollowIsTraced(past: seq<Moment>, s: State, task: Task, slack: nat)
    requires Traced(past, s) && TaskTraced(past, task) && Follow(s, task).Some?
    ensures TaskTraced(past + [Moment(Run(task, slack), s.now)], Follow(s, task).value)
  {
    var m, next := Moment(Run(task, slack), s.now), Follow(s, task).value;
    if next.SetEncode? || next.SetCold? {
      hide *;
      NextSetIsTraced(past, m, s, task, next);
    } else if next.GetRecheck? || next.ExistsRecheck? || next.GetDecode? {
      hide *;
      NextSnapshotIsTraced(past, m, s, task, next);
    } else if next.ExistsCheck? {
      hide *;
      NextCheckIsTraced(past, m, s, task, next);
    } else if next.Promote? {
      hide *;
      NextPromotionIsTraced(past, m, s, task, next);
    } else {
      NextOfSet(s, task, next);
      hide Follow, Traced;
    }
  }

  lemma TakenIsTraced(past: seq<Moment>, s: State, task: Task)
    requires Traced(past, s) && task in s.tasks
    ensures Traced(past, s.(tasks := s.tasks - multiset{task})) && TaskTraced(past, task)
  {
    hide OriginTraced, SnapshotTraced, TaskTraced;
  }

  /** A call is traced to itself. */
  lemma BeginIsTraced(past: seq<Moment>, s: State, task: Task)
    requires Traced(past, s) && IsCall(task)
    ensures Traced(past + [Moment(Begin(task), s.now)], Spawn(s, task))
  {
    var m := Moment(Begin(task), s.now);
    TracedLater(past, m, s);
    assert TaskTraced(past + [m], task) by {
      if task.SetHot? {
        assert CallsSet((past + [m])[|past|], task.key, task.setValue, task.ttl);
      }
    }
    hide OriginTraced, SnapshotTraced, TaskTraced;
  }

  lemma OtherStepIsTraced(past: seq<Moment>, s: State, step: Step)
    requires Traced(past, s) && Enabled(s, step) && !step.Run? && !step.Begin?
    ensures Traced(past, Do(s, step))
  {
    hide OriginTraced, SnapshotTraced, TaskTraced;
  }

  lemma StepIsTraced(past: seq<Moment>, s: State, step: Step)
    requires Traced(past, s) && Enabled(s, step)
    ensures Traced(past + [Moment(step, s.now)], Do(s, step))
  {
    match step
    case Run(task, slack) =>
      RunStepIs(s, task, slack);
      hide *;
      TakenIsTraced(past, s, task);
      AdvanceIsTraced(past, s.(tasks := s.tasks - multiset{task}), task, slack);
    case Begin(task) =>
      hide Traced;
      BeginIsTraced(past, s, task);
    case _ =>
      hide Traced, Do;
      OtherStepIsTraced(past, s, step);
      TracedLater(past, Moment(step, s.now), Do(s, step));
  }

  lemma AdvanceIsTraced(past: seq<Moment>, s: State, task: Task, slack: nat)
    requires Traced(past, s) && TaskTraced(past, task)
    ensures Traced(past + [Moment(Run(task, slack), s.now)], Advance(s, task, slack))
  {
    EffectIsTraced(past, s, task, slack);
    if Follow(s, task).Some? {
      FollowIsTraced(past, s, task, slack);
      SpawnIsTraced(past + [Moment(Run(task, slack), s.now)], Effect(s, task, slack), Follow(s, task).value);
    }
    hide Effect, Follow, Traced, TaskTraced;
  }

  lemma SpawnIsTraced(past: seq<Moment>, s: State, task: Task)
    requires Traced(past, s) && TaskTraced(past, task)
    ensures Traced(past, Spawn(s, task))
  {
    hide OriginTraced, SnapshotTraced, TaskTraced;
  }

  /** Time passes by ticks alone. */
  lemma StepTakes(s: State, step: Step)
    requires Enabled(s, step)
    ensures Do(s, step).now == s.now + (if step.Tick? then step.passed else 0)
  {
    if step.Run? {
      RunStepIs(s, step.task, step.slack);
      EffectOnlyAdds(s.(tasks := s.tasks - multiset{step.task}), step.task, step.slack);
      hide Effect, Follow;
    }
  }

  lemma {:induction false} RunIsTraced(past: seq<Moment>, s: State, steps: seq<Step>)
    requires Traced(past, s) && Possible(s, steps)
    ensures Traced(past + Past(s.now, steps), Exec(s, steps))
    decreases |steps|
  {
    if steps == [] {
      assert past + [] == past;
    } else {
      var m := Moment(steps[0], s.now);
      StepIsTraced(past, s, steps[0]);
      StepTakes(s, steps[0]);
      var rest := Past(Do(s, steps[0]).now, steps[1..]);
      assert Past(s.now, steps) == [m] + rest;
      assert Possible(Do(s, steps[0]), steps[1..]) && Exec(s, steps) == Exec(Do(s, steps[0]), steps[1..]);
      hide *;
      RunIsTraced(past + [m], Do(s, steps[0]), steps[1..]);
      Regroup(past, [m], rest);
    }
  }

  /** An answer given at `at` with this value: some Set of the key with the value was called; a later
      section of it, no later than the answer, ran; and the answer came within the call's time to live
      after that section, plus the wait of one promotion of the key that ran in between. */
  ghost predicate FollowsASet(past: seq<Moment>, hit: Hit) {
    exists b, c, ttl :: 0 <= b < c < |past|
      && CallsSet(past[b], hit.key, hit.value, ttl) && SetsDeadline(past[c], hit.key, hit.value, ttl)
      && past[c].at <= hit.at && WithinLifetime(past, hit, past[c].at + ttl)
  }

  ghost predicate WithinLifetime(past: seq<Moment>, hit: Hit, exp: int) {
    hit.at <= exp || exists readAt, installedAt ::
      PromotedBy(past, hit.key, readAt, installedAt) && readAt < exp && installedAt <= hit.at
      && hit.at <= exp + (installedAt - readAt)
  }

  lemma HitFollows(past: seq<Moment>, s: State, hit: Hit)
    requires HitOk(s, hit) && OriginTraced(past, hit.key, hit.origin)
    ensures FollowsASet(past, hit)
  {
    hide PromotedBy;
    var write := hit.origin.write;
    var b, c, ttl :| 0 <= b < c < |past| && CallsSet(past[b], write.key, write.value, ttl)
      && SetsDeadline(past[c], write.key, write.value, ttl) && write.at == past[c].at && write.exp == write.at + ttl;
    assert WithinLifetime(past, hit, past[c].at + ttl);
    hide WithinLifetime, OriginTraced, HitOk;
    assert CallsSet(past[b], hit.key, hit.value, ttl) && SetsDeadline(past[c], hit.key, hit.value, ttl);
  }

  lemma NothingTraced(now: int)
    ensures Traced([], Init(now))
  {
  }

  /** In every run from a new cache: every hit, and every Exists that finds the key, follows a Set. */
  lemma EveryHitFollowsASet(now: int, steps: seq<Step>, hit: Hit)
    requires Possible(Init(now), steps)
    requires hit in Exec(Init(now), steps).hits || hit in Exec(Init(now), steps).found
    ensures FollowsASet(Past(now, steps), hit)
  {
    EveryHitIsExplained(now, steps, hit);
    assert Init(now).now == now;
    hide *;
    NothingTraced(now);
    RunIsTraced([], Init(now), steps);
    var past, end := Past(now, steps), Exec(Init(now), steps);
    assert [] + past == past;
    TracedHit(past, end, hit);
    HitFollows(past, end, hit);
  }

  lemma TracedHit(past: seq<Moment>, s: State, hit: Hit)
    requires Traced(past, s) && (hit in s.hits || hit in s.found)
    ensures OriginTraced(past, hit.key, hit.origin)
  {
  }

  // ----- For how long a copy answers -----

  /** The step evicts, overwrites or deletes the hot copy of the key. */
  ghost predicate TouchesHot(step: Step, key: Key) {
    || step == Evict(key)
    || (step.Run? && step.task.key == key
        && (step.task.SetHot? || step.task.DeleteHot? || step.task.GetDropHot? || step.task.ExistsDropHot?
            || step.task.Promote?))
  }

  ghost predicate HoldsHot(s: State, key: Key, value: Option<Value>, exp: int) {
    key in s.hot && s.hot[key].value == value && s.hot[key].exp == exp
  }

  lemma EffectKeepsHotCopy(s: State, task: Task, slack: nat, key: Key, value: Option<Value>, exp: int)
    requires HoldsHot(s, key, value, exp) && !TouchesHot(Run(task, slack), key)
    ensures HoldsHot(Effect(s, task, slack), key, value, exp)
  {
  }

  lemma StepKeepsHotCopy(s: State, step: Step, key: Key, value: Option<Value>, exp: int)
    requires Enabled(s, step) && HoldsHot(s, key, value, exp) && !TouchesHot(step, key)
    ensures HoldsHot(Do(s, step), key, value, exp)
  {
    if step.Run? {
      RunStepIs(s, step.task, step.slack);
      EffectKeepsHotCopy(s.(tasks := s.tasks - multiset{step.task}), step.task, step.slack, key, value, exp);
      hide Effect, Follow;
    }
  }

  lemma {:induction false} RunKeepsHotCopy(s: State, steps: seq<Step>, key: Key, value: Option<Value>, exp: int)
    requires Possible(s, steps) && HoldsHot(s, key, value, exp)
    requires forall i :: 0 <= i < |steps| ==> !TouchesHot(steps[i], key)
    ensures HoldsHot(Exec(s, steps), key, value, exp)
    decreases |steps|
  {
    hide HoldsHot, TouchesHot, Do, Enabled;
    if steps != [] {
      StepKeepsHotCopy(s, steps[0], key, value, exp);
      RunKeepsHotCopy(Do(s, steps[0]), steps[1..], key, value, exp);
    }
  }

  /** What a Get of the key answers when it looks into the hot tier now: the state after that section. */
  ghost function Looked(s: State, key: Key): State {
    Do(Do(s, Begin(GetHot(key))), Run(GetHot(key), 0))
  }

  /** The look hits the value, or hits nothing. */
  ghost predicate Answers(s: State, key: Key, value: Option<Value>) {
    var after := Looked(s, key).hits;
    |after| == |s.hits| + 1 && after[|s.hits|].key == key && after[|s.hits|].value == value && after[|s.hits|].at == s.now
  }

  lemma HeldCopyAnswers(s: State, key: Key, value: Option<Value>, exp: int)
    requires HoldsHot(s, key, value, exp)
    ensures if s.now <= exp then Answers(s, key, value) else Looked(s, key).hits == s.hits
  {
    var begun := Do(s, Begin(GetHot(key)));
    assert begun.tasks - multiset{GetHot(key)} == s.tasks;
    RunStepIs(begun, GetHot(key), 0);
  }

  /** The hot copy that a Set writes answers until the call's time to live after that section, and not
      afterwards, unless a step evicts, overwrites or deletes it. */
  lemma SetAnswersUntilDeadline(s: State, key: Key, value: Option<Value>, ttl: int, steps: seq<Step>)
    requires SetHot(key, value, ttl) in s.tasks && Possible(Do(s, Run(SetHot(key, value, ttl), 0)), steps)
    requires forall i :: 0 <= i < |steps| ==> !TouchesHot(steps[i], key)
    ensures var after := Exec(Do(s, Run(SetHot(key, value, ttl), 0)), steps);
      if after.now <= s.now + ttl then Answers(after, key, value) else Looked(after, key).hits == after.hits
  {
    var written := Do(s, Run(SetHot(key, value, ttl), 0));
    assert HoldsHot(written, key, value, s.now + ttl) by {
      RunStepIs(s, SetHot(key, value, ttl), 0);
    }
    hide *;
    RunKeepsHotCopy(written, steps, key, value, s.now + ttl);
    HeldCopyAnswers(Exec(written, steps), key, value, s.now + ttl);
  }

  /** So does the copy that a promotion installs, for the lifetime that was left when it was read. */
  lemma PromotionAnswersUntilDeadline(s: State, task: Task, steps: seq<Step>)
    requires task in s.tasks && task.Promote? && task.remaining > 0 && Possible(Do(s, Run(task, 0)), steps)
    requires forall i :: 0 <= i < |steps| ==> !TouchesHot(steps[i], task.key)
    ensures var after := Exec(Do(s, Run(task, 0)), steps);
      if after.now <= s.now + task.remaining then Answers(after, task.key, Some(task.value))
      else Looked(after, task.key).hits == after.hits
  {
    var written := Do(s, Run(task, 0));
    assert HoldsHot(written, task.key, Some(task.value), s.now + task.remaining) by {
      RunStepIs(s, task, 0);
    }
    hide *;
    RunKeepsHotCopy(written, steps, task.key, Some(task.value), s.now + task.remaining);
    HeldCopyAnswers(Exec(written, steps), task.key, Some(task.value), s.now + task.remaining);
  }

  /** A cleanup removes the entries that the store hides by now, and no others. */
  lemma CleanupDropsExpired(s: State, key: Key)
    requires Enabled(s, Cleanup)
    ensures var after := Do(s, Cleanup);
      && after == s.(cold := after.cold)
      && (key in after.cold <==> key in s.cold && s.now < s.cold[key].deadline)
      && (key in after.cold ==> after.cold[key] == s.cold[key])
  {
  }

  /** The entry that a Set persists hides less than a second before the call's time to live is over. */
  lemma PersistedFor(s: State, key: Key, write: Write, slack: nat)
    requires Enabled(s, Run(SetCold(key, write), slack))
    ensures var after := Do(s, Run(SetCold(key, write), slack));
      && key in after.cold && after.cold[key].value == write.value
      && write.exp - 1_000_000_000 < after.cold[key].deadline <= write.exp
  {
    RunStepIs(s, SetCold(key, write), slack);
  }

  /** Some state that `s` leads to without time passing, in which Exists has found the key once more. */
  ghost predicate Finds(s: State, t: State, key: Key) {
    && Reaches(s, t) && t.now == s.now && |t.found| == |s.found| + 1 && s.found <= t.found
    && t.found[|s.found|].key == key
  }

  /** Exists finds a key that has a live copy in either tier. */
  lemma ExistsFinds(s: State, key: Key)
    requires HotAnswers(s, key) || (key in s.cold && s.now < s.cold[key].deadline)
    ensures exists t :: Finds(s, t, key)
  {
    hide Reaches;
    ReachesStart(s);
    ReachesBy(s, s, Begin(ExistsHot(key)));
    if key !in s.hot {
      RunsNext(s, s, ExistsHot(key), s, ExistsCold(key));
      ColdIsFound(s, s, key);
    } else {
      var entry := s.hot[key];
      RunsNext(s, s, ExistsHot(key), s, ExistsCheck(key, entry));
      if s.now > entry.exp {
        RunsNext(s, s, ExistsCheck(key, entry), s, ExistsDropHot(key));
        var dropped := s.(hot := s.hot - {key});
        RunsNext(s, s, ExistsDropHot(key), dropped, ExistsCold(key));
        ColdIsFound(s, dropped, key);
      } else {
        var waiting := Spawn(s, ExistsCheck(key, entry));
        ReachesBy(s, waiting, Run(ExistsCheck(key, entry), 0));
        RunStepIs(waiting, ExistsCheck(key, entry), 0);
        assert Finds(s, Do(waiting, Run(ExistsCheck(key, entry), 0)), key);
      }
    }
  }

  lemma ColdIsFound(start: State, s: State, key: Key)
    requires Reaches(start, Spawn(s, ExistsCold(key))) && s.now == start.now && s.found == start.found
    requires key in s.cold && s.now < s.cold[key].deadline
    ensures exists t :: Finds(start, t, key)
  {
    hide Reaches;
    var recheck := ExistsRecheck(key, s.cold[key]);
    RunsNext(start, s, ExistsCold(key), s, recheck);
    var waiting := Spawn(s, recheck);
    ReachesBy(start, waiting, Run(recheck, 0));
    RunStepIs(waiting, recheck, 0);
    assert Finds(start, Do(waiting, Run(recheck, 0)), key);
  }
}
