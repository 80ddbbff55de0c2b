/**
 The hot tier: an LRU list of keys beside the table it indexes, with a deadline per entry.
 The list library itself is foreign; here it is a sequence, least recently used key first.
 */
module MemoryTier {
  import opened Wrappers
  import opened MonotoneClock
  import opened Sequences

  const DEFAULT_SIZE: nat := 1024

  datatype CacheValue<+V> = CacheValue(value: V, exp: int)

  ghost predicate NoDuplicates(keys: seq<string>) {
    forall i, j :: 0 <= i < j < |keys| ==> keys[i] != keys[j]
  }

  ghost function Elements(keys: seq<string>): set<string> {
    set key | key in keys
  }

  /** The list with `key` unlinked, the others in their order. */
  function Without(keys: seq<string>, key: string): seq<string> {
    if keys == [] then []
    else if keys[0] == key then Without(keys[1..], key)
    else [keys[0]] + Without(keys[1..], key)
  }

  /** The list with `key` used last. */
  function Touch(keys: seq<string>, key: string): seq<string> {
    Without(keys, key) + [key]
  }

  /** The list after an add to a table of at most `size` entries. */
  function Push(keys: seq<string>, key: string, size: nat): seq<string> {
    var touched := Touch(keys, key);
    if |touched| > size then touched[1..] else touched
  }

  lemma {:induction false} WithoutKeepsTheRest(keys: seq<string>, key: string)
    requires NoDuplicates(keys)
    ensures NoDuplicates(Without(keys, key))
    ensures Elements(Without(keys, key)) == Elements(keys) - {key}
    ensures |Without(keys, key)| == |keys| - (if key in keys then 1 else 0)
  {
    if keys != [] {
      WithoutKeepsTheRest(keys[1..], key);
      assert forall other :: other in keys <==> other == keys[0] || other in keys[1..];
      var rest := Without(keys[1..], key);
      assert forall other :: other in rest <==> other in Elements(rest);
      if keys[0] != key {
        assert keys[0] !in rest;
        assert NoDuplicates([keys[0]] + rest);
      }
    }
  }

  lemma TouchMovesToTheEnd(keys: seq<string>, key: string)
    requires NoDuplicates(keys)
    ensures NoDuplicates(Touch(keys, key))
    ensures Elements(Touch(keys, key)) == Elements(keys) + {key}
    ensures |Touch(keys, key)| == |keys| + (if key in keys then 0 else 1)
    ensures Without(Touch(keys, key), key) == Without(keys, key)
  {
    var rest := Without(keys, key);
    assert Touch(keys, key) == rest + [key];
    assert key in Elements(keys) <==> key in keys;
    hide *;
    WithoutKeepsTheRest(keys, key);
    SnocKeeps(rest, key);
  }

  lemma SnocKeeps(rest: seq<string>, key: string)
    requires NoDuplicates(rest) && key !in Elements(rest)
    ensures NoDuplicates(rest + [key]) && Elements(rest + [key]) == Elements(rest) + {key}
    ensures Without(rest + [key], key) == rest
  {
    assert Without([key], key) == [];
    WithoutConcat(rest, [key], key);
    WithoutAbsent(rest, key);
    assert rest + [] == rest;
  }

  /** Removing a key that a list does not hold changes nothing. */
  lemma {:induction false} WithoutAbsent(keys: seq<string>, key: string)
    requires key !in keys
    ensures Without(keys, key) == keys
  {
    if keys != [] {
      WithoutAbsent(keys[1..], key);
    }
  }

  lemma {:induction false} WithoutConcat(a: seq<string>, b: seq<string>, key: string)
    ensures Without(a + b, key) == Without(a, key) + Without(b, key)
  {
    if a == [] {
      assert a + b == b;
    } else {
      WithoutConcat(a[1..], b, key);
      assert (a + b)[0] == a[0] && (a + b)[1..] == a[1..] + b;
      Regroup([a[0]], Without(a[1..], key), Without(b, key));
    }
  }

  /** An add to a full table of a key it does not hold drops the first key; any other drops none. */
  lemma PushDropsTheOldest(keys: seq<string>, key: string, size: nat)
    requires size > 0 && NoDuplicates(keys) && |keys| <= size
    ensures NoDuplicates(Push(keys, key, size)) && 0 < |Push(keys, key, size)| <= size
    ensures Push(keys, key, size)[|Push(keys, key, size)| - 1] == key
    ensures Elements(Push(keys, key, size)) ==
      if key !in keys && |keys| == size then Elements(keys) + {key} - {keys[0]} else Elements(keys) + {key}
  {
    TouchMovesToTheEnd(keys, key);
    if key !in keys {
      WithoutAbsent(keys, key);
    }
    TailDropsFirst(Touch(keys, key));
  }

  lemma TailDropsFirst(keys: seq<string>)
    requires NoDuplicates(keys) && keys != []
    ensures NoDuplicates(keys[1..]) && Elements(keys[1..]) == Elements(keys) - {keys[0]}
  {
    assert forall key :: key in keys <==> key == keys[0] || key in keys[1..];
  }

  /** What a caller does to a key that is in the list, or that it adds or removes. */
  datatype Use = Added(key: string) | Hit(key: string) | Removed(key: string)

  predicate IsUse(use: Use, key: string) {
    !use.Removed? && use.key == key
  }

  /** The keys used and not removed since, ordered by last use: what an unbounded list would hold. */
  ghost function LastUses(uses: seq<Use>): seq<string> {
    if uses == [] then []
    else
      var before, last := LastUses(uses[..|uses| - 1]), uses[|uses| - 1];
      if last.Removed? then Without(before, last.key) else Touch(before, last.key)
  }

  /** What the list of at most `size` keys holds. */
  ghost function Kept(uses: seq<Use>, size: nat): seq<string> {
    if uses == [] then [] else AfterUse(Kept(uses[..|uses| - 1], size), uses[|uses| - 1], size)
  }

  function AfterUse(keys: seq<string>, use: Use, size: nat): seq<string> {
    match use
    case Added(key) => Push(keys, key, size)
    case Hit(key) => Touch(keys, key)
    case Removed(key) => Without(keys, key)
  }

  /** Only a key that is in the list can be hit. */
  ghost predicate HitsArePresent(uses: seq<Use>, size: nat) {
    forall i :: 0 <= i < |uses| && uses[i].Hit? ==> uses[i].key in Kept(uses[..i], size)
  }

  lemma KeptSnoc(uses: seq<Use>, use: Use, size: nat)
    requires HitsArePresent(uses, size) && (use.Hit? ==> use.key in Kept(uses, size))
    ensures HitsArePresent(uses + [use], size)
    ensures Kept(uses + [use], size) == AfterUse(Kept(uses, size), use, size)
  {
    var all := uses + [use];
    assert all[..|uses|] == uses;
    forall i | 0 <= i < |all| && all[i].Hit? ensures all[i].key in Kept(all[..i], size) {
      if i < |uses| {
        assert all[..i] == uses[..i];
      }
    }
  }

  ghost predicate Present(uses: seq<Use>, key: string) {
    exists k :: 0 <= k < |uses| && IsUse(uses[k], key) && Removed(key) !in uses[k..]
  }

  /** `b` was used after the last use of `a`. */
  ghost predicate UsedLater(uses: seq<Use>, a: string, b: string) {
    exists k :: 0 <= k < |uses| && IsUse(uses[k], b) && forall j :: k <= j < |uses| ==> !IsUse(uses[j], a)
  }

  lemma {:induction false} WithoutKeepsOrder(keys: seq<string>, key: string, i: nat, j: nat) returns (x: nat, y: nat)
    requires i < j < |Without(keys, key)|
    ensures x < y < |keys| && keys[x] == Without(keys, key)[i] && keys[y] == Without(keys, key)[j]
    ensures keys[x] != key && keys[y] != key
  {
    if keys[0] == key {
      x, y := WithoutKeepsOrder(keys[1..], key, i, j);
      x, y := x + 1, y + 1;
    } else if i == 0 {
      y := WithoutFinds(keys[1..], key, j - 1);
      x, y := 0, y + 1;
    } else {
      x, y := WithoutKeepsOrder(keys[1..], key, i - 1, j - 1);
      x, y := x + 1, y + 1;
    }
  }

  lemma {:induction false} WithoutFinds(keys: seq<string>, key: string, i: nat) returns (x: nat)
    requires i < |Without(keys, key)|
    ensures x < |keys| && keys[x] == Without(keys, key)[i] != key
  {
    if keys[0] != key && i == 0 {
      x := 0;
    } else {
      x := WithoutFinds(keys[1..], key, if keys[0] == key then i else i - 1);
      x := x + 1;
    }
  }

  lemma {:induction false} LastUsesHaveNoDuplicates(uses: seq<Use>)
    ensures NoDuplicates(LastUses(uses))
  {
    if uses != [] {
      var before, last := uses[..|uses| - 1], uses[|uses| - 1];
      LastUsesHaveNoDuplicates(before);
      TouchMovesToTheEnd(LastUses(before), last.key);
      WithoutKeepsTheRest(LastUses(before), last.key);
    }
  }

  lemma {:induction false} LastUsesArePresent(uses: seq<Use>, key: string)
    ensures key in LastUses(uses) <==> Present(uses, key)
  {
    if uses != [] {
      var n := |uses| - 1;
      var before := LastUses(uses[..n]);
      LastUsesArePresent(uses[..n], key);
      LastUsesHaveNoDuplicates(uses[..n]);
      TouchMovesToTheEnd(before, uses[n].key);
      WithoutKeepsTheRest(before, uses[n].key);
      assert key in LastUses(uses) <==> key in Elements(LastUses(uses));
      assert key in before <==> key in Elements(before);
      assert uses == uses[..n] + [uses[n]];
      PresentSnoc(uses[..n], uses[n], key);
    }
  }

  lemma PresentSnoc(uses: seq<Use>, use: Use, key: string)
    ensures Present(uses + [use], key) <==> IsUse(use, key) || (Present(uses, key) && use != Removed(key))
  {
    var all := uses + [use];
    if IsUse(use, key) {
      assert all[|uses|..] == [use];
    }
    forall k | 0 <= k < |uses| ensures all[k..] == uses[k..] + [use] {
    }
  }

  /** The list holds exactly the keys that were used and not removed since, each before the keys that
      were used after its last use. */
  lemma {:induction false} LastUsesAreOrdered(uses: seq<Use>)
    ensures forall key :: key in LastUses(uses) <==> Present(uses, key)
    ensures forall i, j :: 0 <= i < j < |LastUses(uses)| ==> UsedLater(uses, LastUses(uses)[i], LastUses(uses)[j])
  {
    forall key ensures key in LastUses(uses) <==> Present(uses, key) {
      LastUsesArePresent(uses, key);
    }
    if uses != [] {
      var n := |uses| - 1;
      var before, all := LastUses(uses[..n]), LastUses(uses);
      LastUsesAreOrdered(uses[..n]);
      assert uses == uses[..n] + [uses[n]];
      forall i: nat, j: nat | i < j < |all| ensures UsedLater(uses, all[i], all[j]) {
        if uses[n].Removed? || j < |all| - 1 {
          var x, y := WithoutKeepsOrder(before, uses[n].key, i, j);
          UsedLaterStill(uses[..n], uses[n], before[x], before[y]);
        } else {
          var x := WithoutFinds(before, uses[n].key, i);
          assert IsUse(uses[n], all[j]);
        }
      }
    }
  }

  lemma UsedLaterStill(uses: seq<Use>, last: Use, a: string, b: string)
    requires UsedLater(uses, a, b) && !IsUse(last, a)
    ensures UsedLater(uses + [last], a, b)
  {
    var k :| 0 <= k < |uses| && IsUse(uses[k], b) && forall j :: k <= j < |uses| ==> !IsUse(uses[j], a);
    assert IsUse((uses + [last])[k], b);
  }

  // ----- Eviction -----

  ghost predicate IsSuffix(end: seq<string>, all: seq<string>) {
    |end| <= |all| && end == all[|all| - |end|..]
  }

  lemma SuffixIs(older: seq<string>, end: seq<string>)
    ensures IsSuffix(end, older + end)
  {
  }

  /** Eviction only ever drops the least recently used: after any adds, hits and removals the bounded
      list is the most recently used end of what an unbounded list would hold. */
  lemma {:induction false} LruKeepsTheMostRecent(uses: seq<Use>, size: nat)
    requires size > 0 && HitsArePresent(uses, size)
    ensures IsSuffix(Kept(uses, size), LastUses(uses)) && |Kept(uses, size)| <= size
  {
    if uses != [] {
      var before, last := uses[..|uses| - 1], uses[|uses| - 1];
      assert forall i :: 0 <= i < |before| ==> before[..i] == uses[..i];
      LruKeepsTheMostRecent(before, size);
      LastUsesHaveNoDuplicates(before);
      assert NoDuplicates(Kept(before, size));
      UseKeepsSuffix(LastUses(before), Kept(before, size), last, size);
      UseKeepsSize(Kept(before, size), last, size);
    }
  }

  lemma WithoutKeepsSuffix(all: seq<string>, kept: seq<string>, key: string)
    requires IsSuffix(kept, all)
    ensures IsSuffix(Without(kept, key), Without(all, key))
  {
    var older := all[..|all| - |kept|];
    assert all == older + kept;
    WithoutConcat(older, kept, key);
    SuffixIs(Without(older, key), Without(kept, key));
  }

  lemma SnocKeepsSuffix(all: seq<string>, end: seq<string>, key: string)
    requires IsSuffix(end, all)
    ensures IsSuffix(end + [key], all + [key])
  {
  }

  lemma UseKeepsSuffix(all: seq<string>, kept: seq<string>, use: Use, size: nat)
    requires IsSuffix(kept, all)
    ensures IsSuffix(AfterUse(kept, use, size), if use.Removed? then Without(all, use.key) else Touch(all, use.key))
  {
    hide Without, IsSuffix;
    WithoutKeepsSuffix(all, kept, use.key);
    SnocKeepsSuffix(Without(all, use.key), Without(kept, use.key), use.key);
    SuffixTail(Touch(kept, use.key), Touch(all, use.key));
  }

  lemma UseKeepsSize(kept: seq<string>, use: Use, size: nat)
    requires size > 0 && NoDuplicates(kept) && |kept| <= size && (use.Hit? ==> use.key in kept)
    ensures |AfterUse(kept, use, size)| <= size
  {
    WithoutKeepsTheRest(kept, use.key);
    TouchMovesToTheEnd(kept, use.key);
  }

  lemma SuffixTail(end: seq<string>, all: seq<string>)
    requires IsSuffix(end, all)
    ensures end != [] ==> IsSuffix(end[1..], all)
  {
  }

  /** Without removals it is as long as it may be: exactly the `size` most recently used keys. */
  lemma {:induction false} LruIsFull(uses: seq<Use>, size: nat)
    requires size > 0 && HitsArePresent(uses, size) && forall i :: 0 <= i < |uses| ==> !uses[i].Removed?
    ensures |Kept(uses, size)| == if |LastUses(uses)| <= size then |LastUses(uses)| else size
  {
    if uses != [] {
      var before, key := uses[..|uses| - 1], uses[|uses| - 1].key;
      var all, kept := LastUses(before), Kept(before, size);
      assert forall i :: 0 <= i < |before| ==> before[..i] == uses[..i];
      LruIsFull(before, size);
      LruKeepsTheMostRecent(before, size);
      LastUsesHaveNoDuplicates(before);
      TouchMovesToTheEnd(all, key);
      TouchMovesToTheEnd(kept, key);
      assert |kept| == |all| ==> kept == all;
    }
  }

  class MemoryCache<V> {
    const size: nat
    const clock: Clock
    var recency: seq<string>
    var items: map<string, CacheValue<V>>
    /** What was done to the list since it was last empty. */
    ghost var history: seq<Use>

    ghost predicate Valid()
      reads this
    {
      && 0 < size
      && |recency| <= size
      && NoDuplicates(recency)
      && items.Keys == Elements(recency)
      && recency == Kept(history, size) && HitsArePresent(history, size)
    }

    /** The recency list is the most recently used end of the keys used and not removed; without
        removals it is as long as the table allows. */
    lemma RecencyIsTheMostRecent()
      requires Valid()
      ensures IsSuffix(recency, LastUses(history))
      ensures (forall i :: 0 <= i < |history| ==> !history[i].Removed?) ==>
        |recency| == if |LastUses(history)| <= size then |LastUses(history)| else size
    {
      LruKeepsTheMostRecent(history, size);
      if forall i :: 0 <= i < |history| ==> !history[i].Removed? {
        LruIsFull(history, size);
      }
    }

    constructor (requested: int, clock: Clock)
      ensures Valid() && items == map[] && this.clock == clock
      ensures size == if requested <= 0 then 1024 else requested
    {
      this.size := if requested <= 0 then DEFAULT_SIZE else requested;
      this.clock := clock;
      recency := [];
      items := map[];
      history := [];
    }

    /** A hit is an entry whose deadline is not behind the reading; an expired entry is dropped. */
    method Get(key: string) returns (value: Option<V>)
      requires Valid()
      modifies this, clock
      ensures Valid() && old(clock.now) <= clock.now
      ensures value.Some? <==> key in old(items) && clock.now <= old(items)[key].exp
      ensures value.Some? ==> value.value == old(items)[key].value && items == old(items)
                              && recency == Touch(old(recency), key) && history == old(history) + [Hit(key)]
      ensures value.None? ==> items == old(items) - {key} && recency == Without(old(recency), key)
    {
      if key !in items {
        var _ := clock.Now();
        WithoutAbsent(recency, key);
        assert items - {key} == items;
        return None;
      }
      var found := items[key];
      TouchMovesToTheEnd(recency, key);
      KeptSnoc(history, Hit(key), size);
      recency, history := Touch(recency, key), history + [Hit(key)];
      var now := clock.Now();
      if now > found.exp {
        Delete(key);
        return None;
      }
      return Some(found.value);
    }

    /** Adds or replaces, evicting the least recently used entry when the table is full. */
    method Set(key: string, value: V, ttl: int)
      requires Valid()
      modifies this, clock
      ensures Valid() && old(clock.now) <= clock.now
      ensures recency == Push(old(recency), key, size) && history == old(history) + [Added(key)]
      ensures key in items && items[key] == CacheValue(value, clock.now + ttl)
      ensures recency != [] && recency[|recency| - 1] == key
      ensures forall other :: other in items && other != key ==> other in old(items) && items[other] == old(items)[other]
      ensures forall other :: other in old(items) && other !in items ==>
        key !in old(items) && |old(recency)| == size && other == old(recency)[0]
    {
      KeptSnoc(history, Added(key), size);
      PushDropsTheOldest(recency, key, size);
      hide Kept, HitsArePresent, Without, Push, NoDuplicates;
      var now := clock.Now();
      items := items[key := CacheValue(value, now + ttl)];
      if key !in recency && |recency| == size {
        items := items - {recency[0]};
      }
      recency, history := Push(recency, key, size), history + [Added(key)];
    }

    method Delete(key: string)
      requires Valid()
      modifies this
      ensures Valid() && items == old(items) - {key} && recency == Without(old(recency), key)
      ensures history == old(history) + [Removed(key)]
    {
      WithoutKeepsTheRest(recency, key);
      KeptSnoc(history, Removed(key), size);
      history := history + [Removed(key)];
      recency := Without(recency, key);
      items := items - {key};
    }

    method Exists(key: string) returns (found: bool)
      requires Valid()
      modifies this, clock
      ensures Valid() && old(clock.now) <= clock.now
      ensures found <==> key in old(items) && clock.now <= old(items)[key].exp
      ensures items == if found then old(items) else old(items) - {key}
    {
      var value := Get(key);
      found := value.Some?;
    }

    method Clear()
      requires Valid()
      modifies this
      ensures Valid() && items == map[] && recency == []
    {
      recency := [];
      items := map[];
      history := [];
    }

    method Len() returns (n: nat)
      requires Valid()
      ensures n == |items| <= size
    {
      LengthIsCardinality(recency);
      n := |recency|;
    }

    /** Returns the live entry without computing, or stores what `fn` computed; `fn` runs only on a
        miss and a failed `fn` stores nothing. */
    method TryGet<E>(key: string, ttl: int, fn: () -> Result<V, E>) returns (value: Result<V, E>, called: bool)
      requires Valid()
      modifies this, clock
      ensures Valid() && old(clock.now) <= clock.now
      ensures !called ==> key in old(items) && old(clock.now) <= old(items)[key].exp
                          && value == Ok(old(items)[key].value) && items == old(items)
      ensures called ==> value == fn()
      ensures called && value.Err? ==> items == old(items) - {key}
      ensures called && value.Ok? ==> key in items && items[key] == CacheValue(value.value, clock.now + ttl)
      ensures called ==> key !in old(items) || old(items)[key].exp < clock.now
    {
      var hit := Get(key);
      if hit.Some? {
        return Ok(hit.value), false;
      }
      called := true;
      value := fn();
      if value.Ok? {
        Set(key, value.value, ttl);
      }
    }
  }

  lemma {:induction false} LengthIsCardinality(keys: seq<string>)
    requires NoDuplicates(keys)
    ensures |Elements(keys)| == |keys|
  {
    if keys != [] {
      LengthIsCardinality(keys[1..]);
      assert Elements(keys) == {keys[0]} + Elements(keys[1..]);
    }
  }
}
