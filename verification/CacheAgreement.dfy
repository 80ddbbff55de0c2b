/**
 When the two tiers of a key can end up holding different values. A Set writes the hot tier in one
 section and the cold tier in a later one, so Sets that overlap, or overlap a promotion, may leave
 their writes in different orders; nothing later repairs that.
 */
module CacheAgreement {
  import opened Wrappers
  import opened CacheProtocol

  predicate IsSetting(task: Task, key: Key) {
    task.key == key && (task.SetHot? || task.SetEncode? || task.SetCold?)
  }

  ghost predicate NoSetting(tasks: multiset<Task>, key: Key) {
    forall task :: task in tasks ==> !IsSetting(task, key)
  }

  ghost predicate NoSetHot(tasks: multiset<Task>, key: Key) {
    forall task :: task in tasks && task.SetHot? ==> task.key != key
  }

  /** No Set of the key is in flight, and readers get one value while the hot copy lasts and another
      once it is evicted. */
  ghost predicate Differ(s: State, key: Key) {
    NoSetting(s.tasks, key) && HotAnswers(s, key) && ColdAnswers(s, key) && s.hot[key].value != s.cold[key].value
  }

  ghost predicate CanDiffer(s: State, key: Key) {
    exists steps :: Possible(s, steps) && NoSetOf(steps, key) && Differ(Exec(s, steps), key)
  }

  // ----- What each tier can end up with -----

  /** A Set in flight that can still persist the value with lifetime left. */
  predicate Settles(now: int, task: Task, key: Key, value: Option<Value>) {
    task.key == key && value.Some? &&
    match task
    case SetHot(_, v, ttl) => v == value && ttl > 0
    case SetEncode(_, v, ttl) => v == value && ttl > 0
    case SetCold(_, write) => write.value == value && write.exp > now
    case _ => false
  }

  /** An operation in flight by which the value can still enter the hot tier with lifetime left. */
  predicate Carries(now: int, task: Task, key: Key, value: Option<Value>) {
    task.key == key &&
    match task
    case SetHot(_, v, ttl) => v == value && ttl >= 0
    case GetRecheck(_, snapshot) =>
      value.Some? && snapshot.value == value && now < snapshot.deadline && now < snapshot.write.exp
    case GetDecode(_, snapshot, _) => value.Some? && snapshot.value == value && now < snapshot.write.exp
    case Promote(_, v, remaining, _, _) => Some(v) == value && remaining > 0
    case _ => Settles(now, task, key, value)
  }

  /** The persisted entry answers and can be promoted. */
  predicate Promotable(s: State, key: Key) {
    ColdAnswers(s, key) && s.now < s.cold[key].write.exp
  }

  /** Where a value that can end up in the hot tier is now: there, unless a Set is about to replace it;
      in the cold tier; or with an operation in flight. */
  datatype Source = InHot | InCold | InTask(task: Task)

  ghost predicate Provides(s: State, key: Key, source: Source, value: Option<Value>) {
    match source
    case InHot => HotAnswers(s, key) && s.hot[key].value == value && NoSetHot(s.tasks, key)
    case InCold => Promotable(s, key) && s.cold[key].value == value
    case InTask(task) => task in s.tasks && Carries(s.now, task, key, value)
  }

  ghost predicate HotCanEndWith(s: State, key: Key, value: Option<Value>) {
    exists source :: Provides(s, key, source, value)
  }

  /** The persisted value once no Set is in flight; with Sets in flight, the value of one of them. */
  ghost predicate ColdCanEndWith(s: State, key: Key, value: Option<Value>) {
    || (ColdAnswers(s, key) && s.cold[key].value == value && NoSetting(s.tasks, key))
    || exists task :: task in s.tasks && Settles(s.now, task, key, value)
  }

  // ----- No step adds to that -----

  lemma EffectAddsNoEnd(s: State, task: Task, slack: nat, key: Key)
    ensures var after := Effect(s, task, slack);
      && after.now == s.now && after.tasks == s.tasks
      && (HotAnswers(after, key) ==>
            Carries(s.now, task, key, after.hot[key].value)
            || (HotAnswers(s, key) && s.hot[key] == after.hot[key] && !(task.SetHot? && task.key == key)))
      && (ColdAnswers(after, key) ==>
            Settles(s.now, task, key, after.cold[key].value)
            || (ColdAnswers(s, key) && s.cold[key] == after.cold[key] && !(task.SetCold? && task.key == key)))
      && (Promotable(after, key) ==>
            Settles(s.now, task, key, after.cold[key].value)
            || (Promotable(s, key) && s.cold[key] == after.cold[key]))
  {
  }

  lemma FollowAddsNoEnd(s: State, task: Task, key: Key, value: Option<Value>)
    requires Follow(s, task).Some?
    ensures var next := Follow(s, task).value;
      && !next.SetHot?
      && (Settles(s.now, next, key, value) ==> Settles(s.now, task, key, value))
      && (Carries(s.now, next, key, value) ==>
            Carries(s.now, task, key, value) || (Promotable(s, key) && s.cold[key].value == value))
  {
  }

  lemma SetGoesOn(s: State, task: Task, key: Key)
    requires IsSetting(task, key) && !task.SetCold?
    ensures Follow(s, task).Some? && IsSetting(Follow(s, task).value, key)
  {
  }

  lemma SettlersCarry(now: int, task: Task, key: Key, value: Option<Value>)
    requires Settles(now, task, key, value)
    ensures Carries(now, task, key, value)
  {
  }

  lemma HotCopyWasAvailable(s: State, task: Task, slack: nat, key: Key)
    requires var after := Advance(s, task, slack); HotAnswers(after, key) && NoSetHot(after.tasks, key)
    ensures HotCanEndWith(Spawn(s, task), key, Advance(s, task, slack).hot[key].value)
  {
    var before, value := Spawn(s, task), Advance(s, task, slack).hot[key].value;
    EffectAddsNoEnd(s, task, slack, key);
    hide Effect, Follow, Carries, ColdAnswers;
    if Carries(s.now, task, key, value) {
      assert Provides(before, key, InTask(task), value);
    } else {
      assert Provides(before, key, InHot, value);
    }
  }

  lemma ColdCopyWasAvailable(s: State, task: Task, slack: nat, key: Key)
    requires Promotable(Advance(s, task, slack), key)
    ensures HotCanEndWith(Spawn(s, task), key, Advance(s, task, slack).cold[key].value)
  {
    var before, value := Spawn(s, task), Advance(s, task, slack).cold[key].value;
    EffectAddsNoEnd(s, task, slack, key);
    hide Effect, Follow, Carries, HotAnswers, Settles;
    if Settles(s.now, task, key, value) {
      SettlersCarry(s.now, task, key, value);
      assert Provides(before, key, InTask(task), value);
    } else {
      assert Provides(before, key, InCold, value);
    }
  }

  lemma CarrierWasAvailable(s: State, task: Task, slack: nat, key: Key, other: Task, value: Option<Value>)
    requires other in Advance(s, task, slack).tasks && Carries(s.now, other, key, value)
    ensures HotCanEndWith(Spawn(s, task), key, value)
  {
    var before := Spawn(s, task);
    EffectOnlyAdds(s, task, slack);
    if Follow(s, task).Some? {
      FollowAddsNoEnd(s, task, key, value);
    }
    hide Effect, Follow, Carries, HotAnswers, ColdAnswers;
    if Carries(s.now, task, key, value) {
      assert Provides(before, key, InTask(task), value);
    } else if other in s.tasks {
      assert Provides(before, key, InTask(other), value);
    } else {
      assert Provides(before, key, InCold, value);
    }
  }

  lemma AdvanceAddsNoHotEnd(s: State, task: Task, slack: nat, key: Key, value: Option<Value>)
    requires HotCanEndWith(Advance(s, task, slack), key, value)
    ensures HotCanEndWith(Spawn(s, task), key, value)
  {
    var source :| Provides(Advance(s, task, slack), key, source, value);
    EffectOnlyAdds(s, task, slack);
    assert Advance(s, task, slack).now == s.now;
    hide Advance, Effect, Follow, Carries, HotAnswers, HotCanEndWith;
    match source
    case InHot => HotCopyWasAvailable(s, task, slack, key);
    case InCold => ColdCopyWasAvailable(s, task, slack, key);
    case InTask(other) => CarrierWasAvailable(s, task, slack, key, other, value);
  }

  lemma AdvanceAddsNoColdEnd(s: State, task: Task, slack: nat, key: Key, value: Option<Value>)
    requires ColdCanEndWith(Advance(s, task, slack), key, value)
    ensures ColdCanEndWith(Spawn(s, task), key, value)
  {
    hide Effect, Follow, Settles;
    var before, after := Spawn(s, task), Advance(s, task, slack);
    EffectAddsNoEnd(s, task, slack, key);
    if Follow(s, task).Some? {
      FollowAddsNoEnd(s, task, key, value);
    }
    if IsSetting(task, key) && !task.SetCold? {
      SetGoesOn(s, task, key);
    }
    if Settles(s.now, task, key, value) {
      assert task in before.tasks;
    } else if other :| other in after.tasks && Settles(s.now, other, key, value) {
      assert other in before.tasks;
    }
  }

  lemma OtherStepAddsNoHotEnd(s: State, step: Step, key: Key, value: Option<Value>)
    requires Enabled(s, step) && !StartsSet(step, key) && !step.Run?
    requires HotCanEndWith(Do(s, step), key, value)
    ensures HotCanEndWith(s, key, value)
  {
    var after := Do(s, step);
    var source :| Provides(after, key, source, value);
    hide Settles;
    assert Provides(s, key, source, value);
  }

  lemma OtherStepAddsNoColdEnd(s: State, step: Step, key: Key, value: Option<Value>)
    requires Enabled(s, step) && !StartsSet(step, key) && !step.Run?
    requires ColdCanEndWith(Do(s, step), key, value)
    ensures ColdCanEndWith(s, key, value)
  {
    var after := Do(s, step);
    if task :| task in after.tasks && Settles(after.now, task, key, value) {
      assert task in s.tasks && Settles(s.now, task, key, value);
    }
  }

  lemma StepAddsNoEnd(s: State, step: Step, key: Key, value: Option<Value>)
    requires Enabled(s, step) && !StartsSet(step, key)
    ensures HotCanEndWith(Do(s, step), key, value) ==> HotCanEndWith(s, key, value)
    ensures ColdCanEndWith(Do(s, step), key, value) ==> ColdCanEndWith(s, key, value)
  {
    hide *;
    var hot, cold := HotCanEndWith(Do(s, step), key, value), ColdCanEndWith(Do(s, step), key, value);
    if step.Run? {
      RunStepIs(s, step.task, step.slack);
      Taken(s, step.task);
      if hot {
        AdvanceAddsNoHotEnd(s.(tasks := s.tasks - multiset{step.task}), step.task, step.slack, key, value);
      }
      if cold {
        AdvanceAddsNoColdEnd(s.(tasks := s.tasks - multiset{step.task}), step.task, step.slack, key, value);
      }
    } else {
      if hot {
        OtherStepAddsNoHotEnd(s, step, key, value);
      }
      if cold {
        OtherStepAddsNoColdEnd(s, step, key, value);
      }
    }
  }

  lemma {:induction false} RunAddsNoEnd(s: State, steps: seq<Step>, key: Key, value: Option<Value>)
    requires Possible(s, steps) && NoSetOf(steps, key)
    ensures HotCanEndWith(Exec(s, steps), key, value) ==> HotCanEndWith(s, key, value)
    ensures ColdCanEndWith(Exec(s, steps), key, value) ==> ColdCanEndWith(s, key, value)
    decreases |steps|
  {
    hide HotCanEndWith, ColdCanEndWith, Do, Enabled;
    if steps != [] {
      StepAddsNoEnd(s, steps[0], key, value);
      RunAddsNoEnd(Do(s, steps[0]), steps[1..], key, value);
    }
  }

  // ----- Work left -----

  /** Sections that Sets of the key, and reads of the cold tier, still have to go through. */
  function Need(task: Task, key: Key): nat {
    match task
    case SetHot(k, _, _) => if k == key then 3 else 0
    case SetEncode(k, _, _) => if k == key then 2 else 0
    case SetCold(k, _) => if k == key then 1 else 0
    case GetRecheck(_, _) => 2
    case GetDecode(_, _, _) => 1
    case ExistsRecheck(_, _) => 1
    case _ => 0
  }

  ghost function Sections(tasks: multiset<Task>, key: Key): nat
    decreases |tasks|
  {
    if tasks == multiset{} then 0
    else
      var task :| task in tasks;
      Need(task, key) + Sections(tasks - multiset{task}, key)
  }

  lemma TakeTwo(tasks: multiset<Task>, a: Task, b: Task)
    requires a in tasks && b in tasks && a != b
    ensures tasks - multiset{a} - multiset{b} == tasks - multiset{b} - multiset{a}
    ensures b in tasks - multiset{a} && a in tasks - multiset{b}
  {
  }

  lemma {:induction false} SectionsSplit(tasks: multiset<Task>, key: Key, task: Task)
    requires task in tasks
    ensures Sections(tasks, key) == Need(task, key) + Sections(tasks - multiset{task}, key)
    decreases |tasks|
  {
    var picked :| picked in tasks
      && Sections(tasks, key) == Need(picked, key) + Sections(tasks - multiset{picked}, key);
    hide *;
    if picked != task {
      TakeTwo(tasks, picked, task);
      SectionsSplit(tasks - multiset{picked}, key, task);
      SectionsSplit(tasks - multiset{task}, key, picked);
    }
  }

  lemma NextNeedsLess(s: State, task: Task, key: Key)
    requires Need(task, key) > 0
    ensures Follow(s, task).Some? ==> Need(Follow(s, task).value, key) < Need(task, key)
  {
  }

  lemma SectionsAdd(tasks: multiset<Task>, key: Key, task: Task)
    ensures Sections(tasks + multiset{task}, key) == Need(task, key) + Sections(tasks, key)
  {
    SectionsSplit(tasks + multiset{task}, key, task);
    assert tasks + multiset{task} - multiset{task} == tasks;
  }

  /** Sections of a Set of the key or of a read. */
  predicate Counts(task: Task, key: Key) {
    IsSetting(task, key) || HoldsReadLock(task)
  }

  lemma AdvanceUsesSection(s: State, task: Task, key: Key)
    requires Counts(task, key)
    ensures Sections(Advance(s, task, 0).tasks, key) < Sections(Spawn(s, task).tasks, key)
  {
    hide Effect, Follow, Sections;
    SectionsAdd(s.tasks, key, task);
    NextNeedsLess(s, task, key);
    EffectOnlyAdds(s, task, 0);
    if Follow(s, task).Some? {
      SectionsAdd(s.tasks, key, Follow(s, task).value);
    }
  }

  // ----- Steps towards a difference -----

  lemma DifferBack(s: State, step: Step, key: Key)
    requires Enabled(s, step) && !StartsSet(step, key) && CanDiffer(Do(s, step), key)
    ensures CanDiffer(s, key)
  {
    var next := Do(s, step);
    var steps :| Possible(next, steps) && NoSetOf(steps, key) && Differ(Exec(next, steps), key);
    hide Do, Enabled, Differ;
    ExecOne(s, step, steps);
    assert NoSetOf([step] + steps, key);
  }

  lemma DiffersNow(s: State, key: Key)
    requires Differ(s, key)
    ensures CanDiffer(s, key)
  {
    assert Possible(s, []) && Exec(s, []) == s && NoSetOf([], key);
  }

  /** One section of a task in flight, as the state without it sees it. */
  lemma AdvanceBack(s: State, task: Task, key: Key)
    requires HoldsReadLock(task) || !TakesWriteLock(task) || !ReadLocked(Spawn(s, task))
    requires CanDiffer(Advance(s, task, 0), key)
    ensures CanDiffer(Spawn(s, task), key)
  {
    hide CanDiffer, Advance;
    var before := Spawn(s, task);
    assert before.(tasks := before.tasks - multiset{task}) == s;
    DifferBack(before, Run(task, 0), key);
  }

  lemma ReadLeaves(s: State, task: Task, key: Key)
    requires HoldsReadLock(task)
    ensures var after := Advance(s, task, 0);
      && Quiet(s, after) && s.tasks <= after.tasks
      && (forall other :: other in after.tasks ==> other in s.tasks || !IsSetting(other, key))
      && (Follow(s, task).Some? ==> Follow(s, task).value in after.tasks)
  {
    ReadEffect(s, task);
    if Follow(s, task).Some? {
      ReadFollow(s, task, key);
    }
    hide Effect, Follow, IsSetting, HoldsReadLock;
  }

  lemma ReadEffect(s: State, task: Task)
    requires HoldsReadLock(task)
    ensures Quiet(s, Effect(s, task, 0)) && Effect(s, task, 0).tasks == s.tasks
  {
  }

  lemma ReadFollow(s: State, task: Task, key: Key)
    requires HoldsReadLock(task) && Follow(s, task).Some?
    ensures !IsSetting(Follow(s, task).value, key)
  {
  }

  lemma ReadCarries(s: State, task: Task, key: Key, value: Option<Value>)
    requires HoldsReadLock(task) && Carries(s.now, task, key, value)
    ensures Follow(s, task).Some? && Carries(s.now, Follow(s, task).value, key, value)
  {
  }

  /** A read in progress goes on; what it carries, its next section carries. */
  lemma ReadGoesOn(s: State, task: Task, key: Key, source: Source, v: Option<Value>, w: Option<Value>)
    returns (next: Source)
    requires HoldsReadLock(task)
    requires Provides(Spawn(s, task), key, source, v) && ColdCanEndWith(Spawn(s, task), key, w)
    ensures Provides(Advance(s, task, 0), key, next, v) && ColdCanEndWith(Advance(s, task, 0), key, w)
  {
    var after := Advance(s, task, 0);
    ReadLeaves(s, task, key);
    next := source;
    if source == InTask(task) {
      ReadCarries(s, task, key, v);
      next := InTask(Follow(s, task).value);
    }
    hide Advance, Follow, Carries;
    ReadSettlesNothing(s.now, task, key, w);
    hide Settles;
    if other :| other in s.tasks && Settles(s.now, other, key, w) {
      assert other in after.tasks;
    }
  }

  lemma ReadSettlesNothing(now: int, task: Task, key: Key, value: Option<Value>)
    requires HoldsReadLock(task)
    ensures !Settles(now, task, key, value) && !IsSetting(task, key) && !task.SetHot?
  {
  }

  /** One section of a Set. Its value can still end in the cold tier if it goes on, or persists last. */
  lemma SetGoesOnTowards(s: State, task: Task, key: Key, w: Option<Value>)
    requires IsSetting(task, key)
    requires (exists other :: other in s.tasks && Settles(s.now, other, key, w))
          || (Settles(s.now, task, key, w) && (task.SetCold? ==> NoSetting(s.tasks, key)))
    ensures ColdCanEndWith(Advance(s, task, 0), key, w)
  {
    var after := Advance(s, task, 0);
    if other :| other in s.tasks && Settles(s.now, other, key, w) {
      assert other in after.tasks && Settles(after.now, other, key, w);
    } else if task.SetCold? {
      assert after.tasks == s.tasks && ColdAnswers(after, key) && after.cold[key].value == w;
    } else {
      assert Follow(s, task).value in after.tasks && Settles(after.now, Follow(s, task).value, key, w);
    }
  }

  /** A Set past its hot section does not touch the hot tier. */
  lemma SetKeepsSource(s: State, task: Task, key: Key, source: Source, v: Option<Value>)
    requires IsSetting(task, key) && Provides(s, key, source, v) && !source.InCold?
    requires source.InHot? ==> !task.SetHot?
    ensures Provides(Advance(s, task, 0), key, source, v)
  {
  }

  /** The Set that carries the value takes its next section, and the value moves on with it. */
  lemma SetMovesSource(s: State, task: Task, key: Key, v: Option<Value>) returns (next: Source)
    requires IsSetting(task, key) && Carries(s.now, task, key, v)
    requires task.SetHot? ==> NoSetHot(s.tasks, key)
    ensures Provides(Advance(s, task, 0), key, next, v)
  {
    next := if task.SetHot? then InHot else if task.SetEncode? then InTask(Follow(s, task).value) else InCold;
  }

  function Promotion(s: State, key: Key): Task
    requires Promotable(s, key)
  {
    var entry := s.cold[key];
    Promote(key, entry.value.value, entry.write.exp - s.now, entry.write, s.now)
  }

  function Served(s: State, key: Key): State
    requires Promotable(s, key)
  {
    s.(hits := s.hits + [Hit(key, s.cold[key].value, s.now, Cold(s.cold[key].write))])
  }

  /** An eviction and a Get put the persisted value into a promotion. */
  lemma GetPromotes(s: State, key: Key)
    requires Promotable(s, key) && key !in s.hot && CanDiffer(Spawn(Served(s, key), Promotion(s, key)), key)
    ensures CanDiffer(s, key)
  {
    hide CanDiffer;
    var entry := s.cold[key];
    assert Advance(s, GetDecode(key, entry, s.now), 0) == Spawn(Served(s, key), Promotion(s, key));
    AdvanceBack(s, GetDecode(key, entry, s.now), key);
    assert Advance(s, GetRecheck(key, entry), 0) == Spawn(s, GetDecode(key, entry, s.now));
    AdvanceBack(s, GetRecheck(key, entry), key);
    assert Advance(s, GetCold(key), 0) == Spawn(s, GetRecheck(key, entry));
    AdvanceBack(s, GetCold(key), key);
    assert Advance(s, GetHot(key), 0) == Spawn(s, GetCold(key));
    AdvanceBack(s, GetHot(key), key);
    DifferBack(s, Begin(GetHot(key)), key);
  }

  /** With no Set in flight the persisted value stays, and another value gets into the hot tier. */
  lemma SettledDiffers(s: State, key: Key, source: Source, v: Option<Value>, w: Option<Value>)
    requires v != w && Provides(s, key, source, v) && ColdCanEndWith(s, key, w) && NoSetting(s.tasks, key)
    requires !source.InCold? && !ReadLocked(s)
    ensures CanDiffer(s, key)
  {
    if source.InHot? {
      DiffersNow(s, key);
    } else {
      var rest := s.(tasks := s.tasks - multiset{source.task});
      assert Spawn(rest, source.task) == s;
      DiffersNow(Advance(rest, source.task, 0), key);
      AdvanceBack(rest, source.task, key);
    }
  }

  /** Which Set goes on next, so that `w` is persisted last and `v` stays available. */
  lemma NextSetter(s: State, key: Key, source: Source, v: Option<Value>, w: Option<Value>) returns (task: Task)
    requires v != w && Provides(s, key, source, v) && ColdCanEndWith(s, key, w) && !NoSetting(s.tasks, key)
    requires !source.InCold? && (source.InTask? ==> !IsSetting(source.task, key))
    ensures task in s.tasks && IsSetting(task, key) && (source.InHot? ==> !task.SetHot?)
    ensures Provides(s.(tasks := s.tasks - multiset{task}), key, source, v)
    ensures var others := s.tasks - multiset{task};
      || (exists other :: other in others && Settles(s.now, other, key, w))
      || (Settles(s.now, task, key, w) && NoSetting(others, key))
  {
    var last :| last in s.tasks && Settles(s.now, last, key, w);
    if other :| other in s.tasks - multiset{last} && IsSetting(other, key) {
      task := other;
      assert last in s.tasks - multiset{task};
    } else {
      task := last;
    }
  }

  lemma {:induction false} EndsMeet(s: State, key: Key, source: Source, v: Option<Value>, w: Option<Value>)
    requires v != w && Provides(s, key, source, v) && ColdCanEndWith(s, key, w)
    ensures CanDiffer(s, key)
    decreases Sections(s.tasks, key), if source.InCold? then 1 else 0, 2
  {
    if ReadLocked(s) {
      var reader :| reader in s.tasks && HoldsReadLock(reader);
      var rest := s.(tasks := s.tasks - multiset{reader});
      assert Counts(reader, key);
      hide *;
      Taken(s, reader);
      var next := ReadGoesOn(rest, reader, key, source, v, w);
      AdvanceUsesSection(rest, reader, key);
      EndsMeet(Advance(rest, reader, 0), key, next, v, w);
      AdvanceBack(rest, reader, key);
    } else if source.InCold? {
      hide *;
      PromotedEndsMeet(s, key, v, w);
    } else if source.InTask? && IsSetting(source.task, key) {
      hide *;
      SetterEndsMeet(s, key, source.task, v, w);
    } else if NoSetting(s.tasks, key) {
      hide *;
      SettledDiffers(s, key, source, v, w);
    } else {
      hide *;
      var task := NextSetter(s, key, source, v, w);
      SetSection(s, key, task, source, source, v, w);
    }
  }

  /** After one section of a Set, both values are still to be had. */
  lemma SetSection(s: State, key: Key, task: Task, source: Source, next: Source, v: Option<Value>, w: Option<Value>)
    requires task in s.tasks && IsSetting(task, key) && !ReadLocked(s) && v != w
    requires var rest := s.(tasks := s.tasks - multiset{task});
      || (next == source && !source.InCold? && Provides(rest, key, source, v) && (source.InHot? ==> !task.SetHot?))
      || Provides(Advance(rest, task, 0), key, next, v)
    requires var others := s.tasks - multiset{task};
      || (exists other :: other in others && Settles(s.now, other, key, w))
      || (Settles(s.now, task, key, w) && (task.SetCold? ==> NoSetting(others, key)))
    ensures CanDiffer(s, key)
    decreases Sections(s.tasks, key), 0, 0
  {
    var rest := s.(tasks := s.tasks - multiset{task});
    assert Counts(task, key);
    hide *;
    Taken(s, task);
    SetGoesOnTowards(rest, task, key, w);
    if !Provides(Advance(rest, task, 0), key, next, v) {
      SetKeepsSource(rest, task, key, source, v);
    }
    AdvanceUsesSection(rest, task, key);
    EndsMeet(Advance(rest, task, 0), key, next, v, w);
    AdvanceBack(rest, task, key);
  }

  lemma PromotedEndsMeet(s: State, key: Key, v: Option<Value>, w: Option<Value>)
    requires v != w && Provides(s, key, InCold, v) && ColdCanEndWith(s, key, w)
    ensures CanDiffer(s, key)
    decreases Sections(s.tasks, key), 1, 0
  {
    hide CanDiffer, Settles, Sections;
    var evicted := Do(s, Evict(key));
    var promotion := Promotion(evicted, key);
    var after := Spawn(Served(evicted, key), promotion);
    SectionsAdd(s.tasks, key, promotion);
    assert forall task :: task in after.tasks ==> task in s.tasks || task == promotion;
    if other :| other in s.tasks && Settles(s.now, other, key, w) {
      assert other in after.tasks;
    }
    EndsMeet(after, key, InTask(promotion), v, w);
    GetPromotes(evicted, key);
    DifferBack(s, Evict(key), key);
  }

  /** The value is with a Set that goes on; other Sets write the hot tier before it does. */
  lemma SetterEndsMeet(s: State, key: Key, task: Task, v: Option<Value>, w: Option<Value>)
    requires v != w && Provides(s, key, InTask(task), v) && ColdCanEndWith(s, key, w)
    requires IsSetting(task, key) && !ReadLocked(s)
    ensures CanDiffer(s, key)
    decreases Sections(s.tasks, key), 0, 1
  {
    var last := LastSetter(s, key, task, v, w);
    if other :| other in s.tasks - multiset{task} && other.SetHot? && other.key == key && task.SetHot? {
      assert task in s.tasks - multiset{other} && (last == other || last in s.tasks - multiset{other});
      assert Provides(s.(tasks := s.tasks - multiset{other}), key, InTask(task), v);
      hide *;
      SetSection(s, key, other, InTask(task), InTask(task), v, w);
    } else {
      var rest := s.(tasks := s.tasks - multiset{task});
      assert last in rest.tasks;
      assert task.SetHot? ==> NoSetHot(rest.tasks, key);
      var next := SetMovesSource(rest, task, key, v);
      hide *;
      SetSection(s, key, task, next, next, v, w);
    }
  }

  lemma LastSetter(s: State, key: Key, task: Task, v: Option<Value>, w: Option<Value>) returns (last: Task)
    requires v != w && Provides(s, key, InTask(task), v) && ColdCanEndWith(s, key, w) && IsSetting(task, key)
    ensures last in s.tasks && last != task && Settles(s.now, last, key, w)
  {
    last :| last in s.tasks && Settles(s.now, last, key, w);
  }

  /** In every state: some continuation without another Set ends, with every Set finished, in tiers that
      hold different live values if and only if a value that can end up in the hot tier differs from one
      that can be persisted last. */
  lemma TiersCanDifferIff(s: State, key: Key)
    ensures CanDiffer(s, key) <==>
      exists v, w :: v != w && HotCanEndWith(s, key, v) && ColdCanEndWith(s, key, w)
  {
    if CanDiffer(s, key) {
      var steps :| Possible(s, steps) && NoSetOf(steps, key) && Differ(Exec(s, steps), key);
      var end := Exec(s, steps);
      var v, w := end.hot[key].value, end.cold[key].value;
      assert Provides(end, key, InHot, v);
      RunAddsNoEnd(s, steps, key, v);
      RunAddsNoEnd(s, steps, key, w);
    }
    if v, w :| v != w && HotCanEndWith(s, key, v) && ColdCanEndWith(s, key, w) {
      var source :| Provides(s, key, source, v);
      EndsMeet(s, key, source, v, w);
    }
  }

  /** The code can get there: two overlapping Sets, from a new cache, leave different live values in the
      tiers with nothing in flight. */
  lemma OverlappingSetsDiffer(now: int, key: Key, a: Value, b: Value, ttl: nat)
    requires a != b && ttl > 0
    ensures exists s ::
      && Reaches(Init(now), s) && s.tasks == multiset{} && Differ(s, key)
      && s.hot[key].value == Some(b) && s.cold[key].value == Some(a)
  {
    hide Reaches;
    var start := Init(now);
    var write := Write(key, Some(a), now, now + ttl);
    var warm := start.(hot := start.hot[key := HotEntry(Some(a), now + ttl, Hot(write))], writes := start.writes + {write});
    var first, second := SetHot(key, Some(a), ttl), SetEncode(key, Some(a), ttl);
    var last := SetCold(key, write);
    ReachesStart(start);
    ReachesBy(start, start, Begin(first));
    RunsNext(start, start, first, warm, second);
    assert warm.writes + {write} == warm.writes;
    RunsNext(start, warm, second, warm, last);
    var waiting := Spawn(warm, last);
    SetCompletes(start, waiting, key, Some(b), ttl);
    var both := AfterSet(waiting, key, Some(b), ttl);
    assert both.tasks == multiset{last};
    ReachesBy(start, both, Run(last, 0));
    var s := Do(both, Run(last, 0));
    assert s.tasks == multiset{} && Differ(s, key);
  }
}
