/**
 The two-tier cache with every operation run to completion: an LRU hot tier over a persistent
 cold tier. `model` is the plain TTL map the pair stands for. Goroutines that promote a cold
 value are queued in `promotions` and run later, in any order, by `RunPromotion`.
 */
module TwoTierCache {
  import opened Wrappers
  import opened MonotoneClock
  import opened MemoryTier

  /** A persisted entry. The store hides it from `deadline` on, which is at or before `exp`,
      the deadline encoded beside the value. A nil interface value is `None`. */
  datatype ColdEntry<+V> = ColdEntry(value: Option<V>, exp: int, deadline: int)

  datatype Promotion<+V> = Promotion(key: string, value: V, remaining: int)

  ghost predicate Pending<V>(promotions: seq<Promotion<V>>, key: string) {
    exists i :: 0 <= i < |promotions| && promotions[i].key == key
  }

  /** The cold tier is the model, less entries that are already past their deadline. */
  ghost predicate ColdAgrees<V>(cold: map<string, ColdEntry<V>>, model: map<string, ColdEntry<V>>, now: int) {
    && (forall key :: key in cold ==> key in model && cold[key] == model[key])
    && (forall key :: key in model ==> model[key].deadline <= model[key].exp)
    && (forall key :: key in model && key !in cold ==> model[key].deadline <= now)
  }

  ghost predicate HotAgrees<V>(items: map<string, CacheValue<Option<V>>>, model: map<string, ColdEntry<V>>,
                               tainted: set<string>, lag: nat)
  {
    forall key :: key in items && key !in tainted ==>
      && key in model
      && items[key].value == model[key].value
      && items[key].exp <= model[key].exp + lag
  }

  ghost predicate PromotionsAgree<V>(promotions: seq<Promotion<V>>, readings: seq<int>, model: map<string, ColdEntry<V>>,
                                     tainted: set<string>, now: int)
  {
    && |readings| == |promotions|
    && forall i :: 0 <= i < |promotions| ==>
      && readings[i] <= now
      && (promotions[i].key !in tainted ==> Copies(promotions[i], readings[i], model))
  }

  ghost predicate Copies<V>(p: Promotion<V>, reading: int, model: map<string, ColdEntry<V>>) {
    && p.key in model
    && model[p.key].value == Some(p.value)
    && p.remaining == model[p.key].exp - reading
  }

  /** Keys overwritten or deleted from under a queued promotion are the ones the model gives up on. */
  ghost function Retaint<V>(tainted: set<string>, promotions: seq<Promotion<V>>, key: string): set<string> {
    if Pending(promotions, key) then tainted + {key} else tainted - {key}
  }

  /** Neither time nor the loss of hot copies disturbs the agreement. */
  lemma TimePasses<V>(c: map<string, ColdEntry<V>>, ps: seq<Promotion<V>>, readings: seq<int>,
                      model: map<string, ColdEntry<V>>, tainted: set<string>, now: int, later: int)
    requires now <= later
    ensures ColdAgrees(c, model, now) ==> ColdAgrees(c, model, later)
    ensures PromotionsAgree(ps, readings, model, tainted, now) ==> PromotionsAgree(ps, readings, model, tainted, later)
  {
  }

  lemma Dequeued<V>(ps: seq<Promotion<V>>, readings: seq<int>, model: map<string, ColdEntry<V>>, tainted: set<string>,
                    now: int, i: nat)
    requires PromotionsAgree(ps, readings, model, tainted, now) && i < |ps|
    ensures PromotionsAgree(ps[..i] + ps[i + 1..], readings[..i] + readings[i + 1..], model, tainted, now)
  {
    var left, read := ps[..i] + ps[i + 1..], readings[..i] + readings[i + 1..];
    forall j | 0 <= j < |left|
      ensures read[j] <= now && (left[j].key !in tainted ==> Copies(left[j], read[j], model))
    {
      var k := if j < i then j else j + 1;
      assert left[j] == ps[k] && read[j] == readings[k];
    }
  }

  /** A promotion still in the queue when its key is rewritten taints the key, so what the queue
      says about untainted keys survives any change at `key`. */
  lemma Rewritten<V>(ps: seq<Promotion<V>>, readings: seq<int>, model: map<string, ColdEntry<V>>,
                     changed: map<string, ColdEntry<V>>, tainted: set<string>, now: int, key: string)
    requires PromotionsAgree(ps, readings, model, tainted, now)
    requires changed - {key} == model - {key}
    ensures PromotionsAgree(ps, readings, changed, Retaint(tainted, ps, key), now)
  {
    forall i | 0 <= i < |ps| && ps[i].key !in Retaint(tainted, ps, key) ensures Copies(ps[i], readings[i], changed) {
      assert Pending(ps, ps[i].key);
      assert ps[i].key in model - {key};
      assert (changed - {key})[ps[i].key] == (model - {key})[ps[i].key];
    }
  }

  lemma WrittenThrough<V>(c: map<string, ColdEntry<V>>, model: map<string, ColdEntry<V>>, now: int, key: string,
                          entry: ColdEntry<V>)
    requires ColdAgrees(c, model, now) && entry.deadline <= entry.exp
    ensures ColdAgrees(c[key := entry], model[key := entry], now)
    ensures model[key := entry] - {key} == model - {key}
  {
  }

  /** Hot entries of other keys stay explained by a model that changed only at `key`. */
  lemma StillExplained<V>(items: map<string, CacheValue<Option<V>>>, newer: map<string, CacheValue<Option<V>>>,
                          model: map<string, ColdEntry<V>>, changed: map<string, ColdEntry<V>>,
                          tainted: set<string>, retainted: set<string>, lag: nat, longer: nat, key: string)
    requires HotAgrees(items, model, tainted, lag) && lag <= longer
    requires forall other :: other in newer && other != key ==> other in items && newer[other] == items[other]
    requires changed - {key} == model - {key} && tainted - {key} <= retainted
    requires key in newer && key !in retainted ==>
      key in changed && newer[key].value == changed[key].value && newer[key].exp <= changed[key].exp + longer
    ensures HotAgrees(newer, changed, retainted, longer)
  {
    forall other | other in newer && other !in retainted && other != key
      ensures other in changed && newer[other].value == changed[other].value
              && newer[other].exp <= changed[other].exp + longer
    {
      assert other in model - {key};
      assert (changed - {key})[other] == (model - {key})[other];
    }
  }

  lemma ColdFacts<V>(c: map<string, ColdEntry<V>>, model: map<string, ColdEntry<V>>, now: int, key: string)
    requires ColdAgrees(c, model, now)
    ensures key in c ==> key in model && c[key] == model[key] && c[key].deadline <= c[key].exp
    ensures key in model && key !in c ==> model[key].deadline <= now
  {
  }

  lemma Expired<V>(c: map<string, ColdEntry<V>>, model: map<string, ColdEntry<V>>, now: int, key: string)
    requires ColdAgrees(c, model, now) && key in c && c[key].deadline <= now
    ensures ColdAgrees(c - {key}, model, now)
  {
  }

  lemma DeletedEverywhere<V>(c: map<string, ColdEntry<V>>, model: map<string, ColdEntry<V>>, now: int, key: string)
    requires ColdAgrees(c, model, now)
    ensures ColdAgrees(c - {key}, model - {key}, now) && (model - {key}) - {key} == model - {key}
  {
  }

  lemma Enqueued<V>(ps: seq<Promotion<V>>, readings: seq<int>, model: map<string, ColdEntry<V>>, tainted: set<string>,
                    now: int, key: string)
    requires PromotionsAgree(ps, readings, model, tainted, now) && key in model && model[key].value.Some?
    ensures PromotionsAgree(ps + [Promotion(key, model[key].value.value, model[key].exp - now)], readings + [now],
                            model, tainted, now)
  {
  }

  // ----- Every Set ever made -----

  /** A Set, and the deadline it computed. */
  datatype Written<+V> = Written(key: string, value: Option<V>, exp: int)

  /** A Set of `key` wrote `value`, and its deadline is at most `lag` before `at`. */
  ghost predicate WasSet<V>(ledger: set<Written<V>>, key: string, value: Option<V>, at: int, lag: nat) {
    exists exp :: Written(key, value, exp) in ledger && at <= exp + lag
  }

  ghost predicate HotRecorded<V>(items: map<string, CacheValue<Option<V>>>, ledger: set<Written<V>>, lag: nat) {
    forall key :: key in items ==> WasSet(ledger, key, items[key].value, items[key].exp, lag)
  }

  ghost predicate ModelRecorded<V>(model: map<string, ColdEntry<V>>, ledger: set<Written<V>>) {
    forall key :: key in model ==> Written(key, model[key].value, model[key].exp) in ledger
  }

  ghost predicate QueueRecorded<V>(promotions: seq<Promotion<V>>, readings: seq<int>, ledger: set<Written<V>>) {
    && |readings| == |promotions|
    && forall i :: 0 <= i < |promotions| ==>
      Written(promotions[i].key, Some(promotions[i].value), promotions[i].remaining + readings[i]) in ledger
  }

  lemma StillRecorded<V>(items: map<string, CacheValue<Option<V>>>, newer: map<string, CacheValue<Option<V>>>,
                         ledger: set<Written<V>>, longer: set<Written<V>>, lag: nat, later: nat, key: string)
    requires HotRecorded(items, ledger, lag) && ledger <= longer && lag <= later
    requires forall other :: other in newer && other != key ==> other in items && newer[other] == items[other]
    requires key in newer ==> WasSet(longer, key, newer[key].value, newer[key].exp, later)
    ensures HotRecorded(newer, longer, later)
  {
    forall other | other in newer && other != key
      ensures WasSet(longer, other, newer[other].value, newer[other].exp, later)
    {
      assert WasSet(ledger, other, items[other].value, items[other].exp, lag);
    }
  }

  lemma DequeuedRecorded<V>(ps: seq<Promotion<V>>, readings: seq<int>, ledger: set<Written<V>>, i: nat)
    requires QueueRecorded(ps, readings, ledger) && i < |ps|
    ensures QueueRecorded(ps[..i] + ps[i + 1..], readings[..i] + readings[i + 1..], ledger)
  {
    var left, read := ps[..i] + ps[i + 1..], readings[..i] + readings[i + 1..];
    forall j | 0 <= j < |left| ensures Written(left[j].key, Some(left[j].value), left[j].remaining + read[j]) in ledger {
      var k := if j < i then j else j + 1;
      assert left[j] == ps[k] && read[j] == readings[k];
    }
  }

  lemma QueuedRecorded<V>(ps: seq<Promotion<V>>, readings: seq<int>, ledger: set<Written<V>>, p: Promotion<V>, reading: int)
    requires QueueRecorded(ps, readings, ledger) && Written(p.key, Some(p.value), p.remaining + reading) in ledger
    ensures QueueRecorded(ps + [p], readings + [reading], ledger)
  {
  }

  lemma ShorterModel<V>(model: map<string, ColdEntry<V>>, ledger: set<Written<V>>, key: string)
    requires ModelRecorded(model, ledger)
    ensures ModelRecorded(model - {key}, ledger)
  {
  }

  lemma ModelWasSet<V>(model: map<string, ColdEntry<V>>, ledger: set<Written<V>>, key: string)
    requires ModelRecorded(model, ledger) && key in model
    ensures Written(key, model[key].value, model[key].exp) in ledger
  {
  }

  lemma LongerLedger<V>(ps: seq<Promotion<V>>, readings: seq<int>, model: map<string, ColdEntry<V>>,
                        ledger: set<Written<V>>, key: string, entry: ColdEntry<V>)
    requires QueueRecorded(ps, readings, ledger) && ModelRecorded(model, ledger)
    ensures var longer := ledger + {Written(key, entry.value, entry.exp)};
      QueueRecorded(ps, readings, longer) && ModelRecorded(model[key := entry], longer)
  {
  }

  class BadgerCache<V> {
    const clock: Clock
    const memory: MemoryCache<Option<V>>
    var cold: map<string, ColdEntry<V>>
    var promotions: seq<Promotion<V>>

    /** The latest Set of each key that no Delete followed. */
    ghost var model: map<string, ColdEntry<V>>
    /** Keys that were Set or Deleted while a promotion of theirs was still queued. */
    ghost var tainted: set<string>
    /** When each queued promotion read its remaining lifetime. */
    ghost var readings: seq<int>
    /** The longest any promotion has waited between that reading and its write. */
    ghost var lag: nat
    /** Every Set so far. */
    ghost var ledger: set<Written<V>>

    ghost predicate Valid()
      reads this, memory, clock
    {
      && memory.Valid() && memory.clock == clock
      && ColdAgrees(cold, model, clock.now)
      && HotAgrees(memory.items, model, tainted, lag)
      && PromotionsAgree(promotions, readings, model, tainted, clock.now)
      && HotRecorded(memory.items, ledger, lag)
      && ModelRecorded(model, ledger)
      && QueueRecorded(promotions, readings, ledger)
    }

    /** Time that passes elsewhere changes nothing here. */
    twostate lemma StaysValid()
      requires old(Valid()) && unchanged(this) && unchanged(memory) && old(clock.now) <= clock.now
      ensures Valid()
    {
      hide ColdAgrees, HotAgrees, PromotionsAgree, HotRecorded, ModelRecorded, QueueRecorded;
      TimePasses(cold, promotions, readings, model, tainted, old(clock.now), clock.now);
    }

    constructor (memoryEntries: int, clock: Clock)
      ensures Valid() && fresh(memory) && this.clock == clock
      ensures model == map[] && tainted == {} && promotions == [] && ledger == {}
    {
      this.clock := clock;
      memory := new MemoryCache(memoryEntries, clock);
      cold := map[];
      promotions := [];
      model := map[];
      tainted := {};
      readings := [];
      lag := 0;
      ledger := {};
    }

    /**
     Every hit carries the value of some Set of the key, no later than that Set's deadline plus the
     wait of one promotion. For a key that is not tainted this is a lookup in `model`: a hit carries the value of the
     latest Set, a live entry always hits whatever the hot tier evicted, and a key that was never
     set or was deleted misses. Between the store's deadline and `exp` (plus the wait of one
     promotion) a hot copy may still answer; after that nothing does.
     */
    method Get(key: string) returns (value: Option<V>, ok: bool)
      requires Valid()
      modifies this`cold, this`promotions, this`readings, memory, clock
      ensures Valid() && old(clock.now) <= clock.now
      ensures key !in tainted && ok ==>
        key in model && value == model[key].value && old(clock.now) <= model[key].exp + lag
      ensures ok ==> WasSet(ledger, key, value, old(clock.now), lag)
      ensures key in model && model[key].value.Some? && clock.now < model[key].deadline ==> ok
      ensures !ok ==> value == None
      ensures promotions == old(promotions) || (ok && Queued(old(promotions), old(clock.now), key, value))
      ensures key in old(memory.items) && clock.now <= old(memory.items)[key].exp ==>
        ok && value == old(memory.items)[key].value && promotions == old(promotions) && cold == old(cold)
      ensures memory.items == old(memory.items) || memory.items == old(memory.items) - {key}
      ensures DropsOnlyExpired(old(cold), key)
    {
      hide ColdAgrees, PromotionsAgree, ModelRecorded, QueueRecorded;
      var hot := memory.Get(key);
      TimePasses(cold, promotions, readings, model, tainted, old(clock.now), clock.now);
      if hot.Some? {
        return hot.value, true;
      }
      value, ok := GetCold(key);
    }

    /** At most the entry of the key left the cold tier, past its deadline. */
    ghost predicate DropsOnlyExpired(before: map<string, ColdEntry<V>>, key: string)
      reads this, clock
    {
      cold == before || (key in before && before[key].deadline <= clock.now && cold == before - {key})
    }

    /** Exactly one promotion was queued: of this value, for what is left of its lifetime at some
        instant since `begin`. */
    ghost predicate Queued(before: seq<Promotion<V>>, begin: int, key: string, value: Option<V>)
      reads this, clock
    {
      exists reading :: begin <= reading <= clock.now && QueuedAt(before, reading, key, value)
    }

    ghost predicate QueuedAt(before: seq<Promotion<V>>, reading: int, key: string, value: Option<V>)
      reads this
    {
      value.Some? && key in model && promotions == before + [Promotion(key, value.value, model[key].exp - reading)]
    }

    /** The slow path: a live persisted entry answers and queues its promotion. */
    method GetCold(key: string) returns (value: Option<V>, ok: bool)
      requires Valid()
      modifies this`cold, this`promotions, this`readings, clock
      ensures Valid() && old(clock.now) <= clock.now
      ensures ok ==> key in model && value == model[key].value && old(clock.now) < model[key].deadline
      ensures ok ==> WasSet(ledger, key, value, old(clock.now), lag)
      ensures key in model && model[key].value.Some? && clock.now < model[key].deadline ==> ok
      ensures !ok ==> value == None
      ensures if ok then Queued(old(promotions), old(clock.now), key, value) else promotions == old(promotions)
      ensures DropsOnlyExpired(old(cold), key)
    {
      hide ColdAgrees, HotAgrees, PromotionsAgree, HotRecorded, ModelRecorded, QueueRecorded;
      var read := clock.Now();
      TimePasses(cold, promotions, readings, model, tainted, old(clock.now), clock.now);
      ColdFacts(cold, model, clock.now, key);
      if key !in cold || cold[key].deadline <= read {
        return None, false;
      }
      ghost var before := read;
      read := clock.Now();
      TimePasses(cold, promotions, readings, model, tainted, before, clock.now);
      if cold[key].deadline <= read {
        Expired(cold, model, read, key);
        DeleteExpiredKey(key);
        return None, false;
      }
      var entry := cold[key];
      before := read;
      read := clock.Now();
      TimePasses(cold, promotions, readings, model, tainted, before, clock.now);
      if entry.value.None? {
        return None, false;
      }
      ModelWasSet(model, ledger, key);
      Enqueued(promotions, readings, model, tainted, read, key);
      QueuedRecorded(promotions, readings, ledger, Promotion(key, entry.value.value, entry.exp - read), read);
      promotions := promotions + [Promotion(key, entry.value.value, entry.exp - read)];
      readings := readings + [read];
      value, ok := entry.value, true;
      assert Written(key, value, entry.exp) in ledger;
      assert QueuedAt(old(promotions), read, key, value);
    }

    /** One queued promotion runs: a value with no lifetime left is dropped, any other is added to
        the hot tier for the lifetime it had when it was read. */
    method RunPromotion(i: nat)
      requires Valid() && i < |promotions|
      modifies this`promotions, this`readings, this`lag, memory, clock
      ensures Valid() && old(clock.now) <= clock.now
      ensures promotions == old(promotions)[..i] + old(promotions)[i + 1..]
      ensures old(lag) <= lag && (lag == old(lag) || lag == clock.now - old(readings)[i])
      ensures var p := old(promotions)[i];
        if p.remaining <= 0 then unchanged(memory)
        else p.key in memory.items && memory.items[p.key] == CacheValue(Some(p.value), clock.now + p.remaining)
             && memory.recency != [] && memory.recency[|memory.recency| - 1] == p.key
      ensures forall other :: other in memory.items && other != old(promotions)[i].key ==>
        other in old(memory.items) && memory.items[other] == old(memory.items)[other]
    {
      hide ColdAgrees, HotAgrees, HotRecorded, ModelRecorded;
      var p := promotions[i];
      ghost var reading := readings[i];
      Dequeued(promotions, readings, model, tainted, clock.now, i);
      DequeuedRecorded(promotions, readings, ledger, i);
      assert Written(p.key, Some(p.value), p.remaining + reading) in ledger;
      promotions := promotions[..i] + promotions[i + 1..];
      readings := readings[..i] + readings[i + 1..];
      if p.remaining <= 0 {
        return;
      }
      memory.Set(p.key, Some(p.value), p.remaining);
      if clock.now - reading > lag {
        lag := clock.now - reading;
      }
      StillExplained(old(memory.items), memory.items, model, model, tainted, tainted, old(lag), lag, p.key);
      StillRecorded(old(memory.items), memory.items, ledger, ledger, old(lag), lag, p.key);
      hide PromotionsAgree, QueueRecorded;
      TimePasses(cold, promotions, readings, model, tainted, old(clock.now), clock.now);
    }

    /** A promotion that ran with lifetime left: until that lifetime is over, a Get answers from the hot
        tier and queues nothing. */
    method PromoteAndGet(i: nat) returns (value: Option<V>, ok: bool, ghost installed: int)
      requires Valid() && i < |promotions|
      modifies this`cold, this`promotions, this`readings, this`lag, memory, clock
      ensures Valid() && old(clock.now) <= installed <= clock.now
      ensures old(promotions)[i].remaining > 0 && clock.now <= installed + old(promotions)[i].remaining ==>
        && ok && value == Some(old(promotions)[i].value)
        && promotions == old(promotions)[..i] + old(promotions)[i + 1..]
    {
      hide ColdAgrees, HotAgrees, PromotionsAgree, HotRecorded, ModelRecorded, QueueRecorded;
      var key := promotions[i].key;
      RunPromotion(i);
      installed := clock.now;
      value, ok := Get(key);
    }

    /** Writes through both tiers, hot first. */
    method Set(key: string, value: Option<V>, ttl: int)
      requires Valid()
      modifies this`cold, this`model, this`tainted, this`ledger, memory, clock
      ensures Valid() && old(clock.now) <= clock.now
      ensures key in model && model == old(model)[key := model[key]] && model[key].value == value
      ensures old(clock.now) + ttl <= model[key].exp <= clock.now + ttl
      ensures model[key].exp - 1_000_000_000 < model[key].deadline <= model[key].exp
      ensures cold == old(cold)[key := model[key]]
      ensures key in memory.items && memory.items[key].value == value
      ensures old(clock.now) + ttl <= memory.items[key].exp <= model[key].exp
      ensures forall other :: other in memory.items && other != key ==>
        other in old(memory.items) && memory.items[other] == old(memory.items)[other]
      ensures ledger == old(ledger) + {Written(key, value, model[key].exp)}
      ensures key in tainted <==> exists i :: 0 <= i < |promotions| && promotions[i].key == key
      ensures tainted - {key} == old(tainted) - {key}
    {
      hide ColdAgrees, HotAgrees, PromotionsAgree, HotRecorded, ModelRecorded, QueueRecorded;
      memory.Set(key, value, ttl);
      SetInBadger(key, value, ttl);
      model := model[key := cold[key]];
      TimePasses(old(cold), promotions, readings, old(model), old(tainted), old(clock.now), clock.now);
      WrittenThrough(old(cold), old(model), clock.now, key, cold[key]);
      tainted := Retaint(tainted, promotions, key);
      Rewritten(promotions, readings, old(model), model, old(tainted), clock.now, key);
      StillExplained(old(memory.items), memory.items, old(model), model, old(tainted), tainted, lag, lag, key);
      ledger := ledger + {Written(key, value, clock.now + ttl)};
      LongerLedger(promotions, readings, old(model), old(ledger), key, cold[key]);
      assert WasSet(ledger, key, value, memory.items[key].exp, lag);
      StillRecorded(old(memory.items), memory.items, old(ledger), ledger, lag, lag, key);
    }

    /** The store hides the entry from a whole second on, less than one before the encoded deadline. */
    method SetInBadger(key: string, value: Option<V>, ttl: int)
      modifies this`cold, clock
      ensures old(clock.now) <= clock.now && key in cold && cold == old(cold)[key := cold[key]]
      ensures cold[key] == ColdEntry(value, clock.now + ttl, cold[key].deadline)
      ensures cold[key].exp - 1_000_000_000 < cold[key].deadline <= cold[key].exp
    {
      var now := clock.Now();
      var slack: int :| 0 <= slack < SECOND;
      cold := cold[key := ColdEntry(value, now + ttl, now + ttl - slack)];
    }

    method DeleteExpiredKey(key: string)
      modifies this`cold
      ensures cold == old(cold) - {key}
    {
      cold := cold - {key};
    }

    method Delete(key: string)
      requires Valid()
      modifies this`cold, this`model, this`tainted, memory
      ensures Valid()
      ensures model == old(model) - {key} && cold == old(cold) - {key}
      ensures memory.items == old(memory.items) - {key}
      ensures key in tainted <==> exists i :: 0 <= i < |promotions| && promotions[i].key == key
      ensures tainted - {key} == old(tainted) - {key}
    {
      hide ColdAgrees, HotAgrees, PromotionsAgree, HotRecorded, ModelRecorded, QueueRecorded;
      memory.Delete(key);
      DeletedEverywhere(cold, model, clock.now, key);
      ShorterModel(model, ledger, key);
      StillRecorded(old(memory.items), memory.items, ledger, ledger, lag, lag, key);
      DeleteExpiredKey(key);
      model := model - {key};
      tainted := Retaint(tainted, promotions, key);
      Rewritten(promotions, readings, old(model), model, old(tainted), clock.now, key);
      StillExplained(old(memory.items), memory.items, old(model), model, old(tainted), tainted, lag, lag, key);
    }

    method Exists(key: string) returns (found: bool)
      requires Valid()
      modifies this`cold, memory, clock
      ensures Valid() && old(clock.now) <= clock.now
      ensures key !in tainted && found ==> key in model && old(clock.now) <= model[key].exp + lag
      ensures key in model && clock.now < model[key].deadline ==> found
      ensures key in old(memory.items) && clock.now <= old(memory.items)[key].exp ==> found
      ensures found ==>
        || (key in old(memory.items) && old(clock.now) <= old(memory.items)[key].exp)
        || (key in old(cold) && old(clock.now) < old(cold)[key].deadline)
      ensures DropsOnlyExpired(old(cold), key)
    {
      var hot := memory.Exists(key);
      if hot {
        return true;
      }
      var read := clock.Now();
      if key !in cold || cold[key].deadline <= read {
        return false;
      }
      read := clock.Now();
      if cold[key].deadline <= read {
        DeleteExpiredKey(key);
        return false;
      }
      return true;
    }

    /** The periodic scan removes only expired entries, and every entry expired when it starts. */
    method CleanupBadger()
      requires Valid()
      modifies this`cold, clock
      ensures Valid() && old(clock.now) <= clock.now
      ensures forall key :: key in cold ==> key in old(cold) && cold[key] == old(cold)[key]
      ensures forall key :: key in old(cold) && old(cold)[key].deadline <= old(clock.now) ==> key !in cold
      ensures forall key :: key in old(cold) && clock.now < old(cold)[key].deadline ==> key in cold
    {
      var left := cold.Keys;
      var keysToDelete: set<string> := {};
      while left != {}
        invariant left <= cold.Keys && keysToDelete <= cold.Keys - left
        invariant old(clock.now) <= clock.now
        invariant forall key :: key in keysToDelete ==> cold[key].deadline <= clock.now
        invariant forall key :: key in cold.Keys - left && cold[key].deadline <= old(clock.now) ==> key in keysToDelete
        invariant forall i :: 0 <= i < |readings| ==> readings[i] <= clock.now
        modifies clock
        decreases left
      {
        var key :| key in left;
        left := left - {key};
        var now := clock.Now();
        if cold[key].deadline <= now {
          keysToDelete := keysToDelete + {key};
        }
      }
      cold := cold - keysToDelete;
    }

    /** Time passes; promotions run, in any number and order, and so do cleanups. */
    method Background()
      requires Valid()
      modifies this`cold, this`promotions, this`readings, this`lag, memory, clock
      ensures Valid() && old(clock.now) <= clock.now && old(lag) <= lag
    {
      hide ColdAgrees, HotAgrees, PromotionsAgree, HotRecorded, ModelRecorded, QueueRecorded;
      var _ := clock.Now();
      TimePasses(cold, promotions, readings, model, tainted, old(clock.now), clock.now);
      var rounds: int :| 0 <= rounds;
      for k := 0 to rounds
        invariant Valid() && old(clock.now) <= clock.now && old(lag) <= lag
      {
        var i: int :| 0 <= i;
        if i < |promotions| {
          RunPromotion(i);
        } else {
          CleanupBadger();
        }
      }
    }
  }
}
