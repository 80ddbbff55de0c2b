/**
 Query-parameter processing of a feed's items: filter by time, keep, drop, sort, limit, shorten.
 The input may be the backing array of a cached feed, so nothing here writes to it.
 */
module FeedPipeline {
  import opened Wrappers
  import opened MonotoneClock
  import opened LetterCase

  const DEFAULT_BRIEF: nat := 100

  /** `pubDate` is `None` for the zero time. */
  datatype Item = Item(
    title: string,
    description: string,
    link: string,
    pubDate: Option<int>,
    guid: string,
    author: Option<string>,
    categories: seq<string>)

  /** A query value that is read as a decimal number. */
  datatype Param = Absent | Malformed | Number(n: int)

  /** A query value that is compiled as a regular expression. */
  datatype Pattern = NoPattern | BadPattern | Matching(matches: string -> bool)

  datatype Query = Query(
    filterTime: Param,
    filter: Pattern,
    filterOut: Pattern,
    sorted: string,
    limit: Param,
    brief: Param)

  /** A slice: the first `len` elements of a backing array. */
  datatype Slice = Slice(backing: array<Item>, len: nat) {
    ghost predicate Valid() {
      len <= backing.Length
    }

    function View(): seq<Item>
      requires Valid()
      reads backing
    {
      backing[..len]
    }
  }

  // ----- Reference definitions -----

  predicate MatchesFilter(matches: string -> bool, item: Item) {
    || matches(item.title)
    || matches(item.description)
    || (item.author.Some? && matches(item.author.value))
    || exists k :: 0 <= k < |item.categories| && matches(item.categories[k])
  }

  function Keep(items: seq<Item>, p: Item -> bool): seq<Item> {
    if items == [] then []
    else Keep(items[..|items| - 1], p) + (if p(items[|items| - 1]) then [items[|items| - 1]] else [])
  }

  /** Dated, and later than the window's start; an absent or malformed window admits everything. */
  function TimeTest(filterTime: Param, now: int): Item -> bool {
    (item: Item) => filterTime.Number? ==> item.pubDate.Some? && item.pubDate.value > now - filterTime.n * SECOND
  }

  /** Matching, or not matching when `exclude`; a pattern that is absent or does not compile admits everything. */
  function PatternTest(pattern: Pattern, exclude: bool): Item -> bool {
    item => pattern.Matching? ==> MatchesFilter(pattern.matches, item) != exclude
  }

  function And(p: Item -> bool, q: Item -> bool): Item -> bool {
    item => p(item) && q(item)
  }

  function Wanted(q: Query, now: int): Item -> bool {
    And(And(TimeTest(q.filterTime, now), PatternTest(q.filter, false)), PatternTest(q.filterOut, true))
  }

  predicate WantsSorting(q: Query) {
    q.sorted == "" || ToLower(q.sorted) == "true"
  }

  /** Strictly earlier in the output: dated before undated, then newest first. */
  predicate Newer(a: Item, b: Item) {
    a.pubDate.Some? && (b.pubDate.Some? ==> a.pubDate.value > b.pubDate.value)
  }

  ghost predicate Sorted(items: seq<Item>) {
    forall i, j :: 0 <= i < j < |items| ==> !Newer(items[j], items[i])
  }

  /** Up to `maxLength` characters of a text, marked if that is not all of it. */
  function Truncate(text: string, maxLength: nat): (short: string)
    ensures |text| <= maxLength ==> short == text
    ensures |text| > maxLength ==>
      |short| == maxLength + 3 && short[..maxLength] == text[..maxLength] && short[maxLength..] == "..."
  {
    if |text| <= maxLength then text else text[..maxLength] + "..."
  }

  function BriefLength(brief: Param): nat {
    if brief.Number? && brief.n > 0 then brief.n else DEFAULT_BRIEF
  }

  function Shorten(brief: Param, item: Item): Item {
    if brief.Absent? then item else item.(description := Truncate(item.description, BriefLength(brief)))
  }

  function Limited(limit: Param, items: seq<Item>): (first: seq<Item>)
    ensures first <= items
    ensures |first| == if limit.Number? && 0 < limit.n < |items| then limit.n else |items|
  {
    if limit.Number? && 0 < limit.n <= |items| then items[..limit.n] else items
  }

  /** `order` is some order the sort may leave `kept` in, or `kept` itself when sorting is off. */
  ghost predicate Arranged(q: Query, kept: seq<Item>, order: seq<Item>) {
    if WantsSorting(q) then Sorted(order) && multiset(order) == multiset(kept) else order == kept
  }

  function Shortened(brief: Param, items: seq<Item>): seq<Item> {
    seq(|items|, i requires 0 <= i < |items| => Shorten(brief, items[i]))
  }

  /** What the pipeline may answer at `now`: one filter, one arrangement of it, cut and shortened. */
  ghost predicate Processed(q: Query, now: int, items: seq<Item>, out: seq<Item>) {
    exists order :: Arranged(q, Keep(items, Wanted(q, now)), order)
      && out == Shortened(q.brief, Limited(q.limit, order))
  }

  // ----- Properties of the reference -----

  /** The filter mentions an item by its title, description, author or one of its categories. */
  ghost predicate Mentions(matches: string -> bool, item: Item) {
    exists text :: matches(text)
      && (text in {item.title, item.description} || item.author == Some(text) || text in item.categories)
  }

  /** An item is wanted if it lies in the window, given in seconds back from now, is mentioned by the
      filter, and is not mentioned by the one that excludes. What is absent or malformed asks nothing. */
  lemma WantedIs(q: Query, now: int, item: Item)
    ensures Wanted(q, now)(item) <==>
      && (q.filterTime.Number? ==> item.pubDate.Some? && item.pubDate.value > now - q.filterTime.n * 1_000_000_000)
      && (q.filter.Matching? ==> Mentions(q.filter.matches, item))
      && (q.filterOut.Matching? ==> !Mentions(q.filterOut.matches, item))
  {
    if q.filter.Matching? {
      MentionsIff(q.filter.matches, item);
    }
    if q.filterOut.Matching? {
      MentionsIff(q.filterOut.matches, item);
    }
    hide MatchesFilter, Mentions;
  }

  lemma MentionsIff(matches: string -> bool, item: Item)
    ensures MatchesFilter(matches, item) <==> Mentions(matches, item)
  {
    if k :| 0 <= k < |item.categories| && matches(item.categories[k]) {
      assert item.categories[k] in item.categories;
    }
  }

  ghost predicate SpellsTrue(s: string) {
    |s| == 4 && s[0] in {'t', 'T'} && s[1] in {'r', 'R'} && s[2] in {'u', 'U'} && s[3] in {'e', 'E'}
  }

  /** Sorting is on unless the query says something else than "true", in any case. */
  lemma WantsSortingIs(q: Query)
    ensures WantsSorting(q) <==> q.sorted == "" || SpellsTrue(q.sorted)
  {
    var lower := ToLower(q.sorted);
    if |q.sorted| == 4 {
      assert lower == [lower[0], lower[1], lower[2], lower[3]];
      forall i | 0 <= i < 4
        ensures lower[i] == "true"[i] <==> q.sorted[i] == "true"[i] || q.sorted[i] == "TRUE"[i]
      {
      }
    }
  }

  /** Newest first, and nothing dated after anything undated. */
  lemma SortedIs(items: seq<Item>)
    ensures Sorted(items) <==> forall i, j :: 0 <= i < j < |items| && items[j].pubDate.Some? ==>
      items[i].pubDate.Some? && items[i].pubDate.value >= items[j].pubDate.value
  {
  }

  /** Only the description is shortened, to the length asked for or else to a hundred characters. */
  lemma ShortenIs(brief: Param, item: Item)
    ensures var length := if brief.Number? && brief.n > 0 then brief.n else 100;
      Shorten(brief, item) ==
        if brief.Absent? || |item.description| <= length then item
        else item.(description := item.description[..length] + "...")
  {
  }

  /** A filter goes through a list item by item. */
  lemma {:induction false} KeepGoesThrough(a: seq<Item>, b: seq<Item>, item: Item, p: Item -> bool)
    ensures Keep(a + b, p) == Keep(a, p) + Keep(b, p)
    ensures Keep([item], p) == if p(item) then [item] else []
  {
    assert [item][..0] == [];
    if b == [] {
      assert a + b == a;
    } else {
      var n := |b| - 1;
      KeepGoesThrough(a, b[..n], item, p);
      assert (a + b)[..|a| + n] == a + b[..n] && (a + b)[|a| + n] == b[n];
    }
  }

  lemma {:induction false} KeepOfKeep(items: seq<Item>, p: Item -> bool, q: Item -> bool)
    ensures Keep(Keep(items, p), q) == Keep(items, And(p, q))
  {
    if items != [] {
      var n := |items| - 1;
      KeepOfKeep(items[..n], p, q);
      var before := Keep(items[..n], p);
      assert (before + [items[n]])[..|before|] == before;
      assert before + [] == before;
    }
  }

  /** A filter loses nothing it admits and adds nothing. */
  lemma {:induction false} KeepsExactly(items: seq<Item>, p: Item -> bool, item: Item)
    ensures multiset(Keep(items, p))[item] == if p(item) then multiset(items)[item] else 0
  {
    if items != [] {
      var n := |items| - 1;
      KeepsExactly(items[..n], p, item);
      assert items == items[..n] + [items[n]];
    }
  }

  lemma {:induction false} KeepAll(items: seq<Item>, p: Item -> bool)
    requires forall item :: p(item)
    ensures Keep(items, p) == items
  {
    if items != [] {
      KeepAll(items[..|items| - 1], p);
    }
  }

  lemma UntimedKeepsAll(items: seq<Item>, filterTime: Param, now: int)
    requires !filterTime.Number?
    ensures Keep(items, TimeTest(filterTime, now)) == items
  {
    KeepAll(items, TimeTest(filterTime, now));
  }

  lemma UnmatchedKeepsAll(items: seq<Item>, pattern: Pattern, exclude: bool)
    requires !pattern.Matching?
    ensures Keep(items, PatternTest(pattern, exclude)) == items
  {
    KeepAll(items, PatternTest(pattern, exclude));
  }

  lemma ArrangedBySort(q: Query, kept: seq<Item>, order: seq<Item>)
    requires if WantsSorting(q) then Sorted(order) && multiset(order) == multiset(kept) else order == kept
    ensures Arranged(q, kept, order)
  {
  }

  lemma NoLimit(items: seq<Item>)
    ensures Limited(Absent, items) == items
  {
  }

  lemma FullTextStays(items: seq<Item>)
    ensures Shortened(Absent, items) == items
  {
  }

  /** The three passes are one filter by the conjunction. */
  lemma ThreePassesAreOne(q: Query, now: int, items: seq<Item>)
    ensures Keep(Keep(Keep(items, TimeTest(q.filterTime, now)), PatternTest(q.filter, false)), PatternTest(q.filterOut, true))
         == Keep(items, Wanted(q, now))
  {
    var timed := TimeTest(q.filterTime, now);
    KeepOfKeep(items, timed, PatternTest(q.filter, false));
    KeepOfKeep(items, And(timed, PatternTest(q.filter, false)), PatternTest(q.filterOut, true));
  }

  /** `best` is the `k` best of `matches`, best first. */
  ghost predicate BestOf(matches: seq<Item>, k: nat, best: seq<Item>) {
    && Sorted(best) && |best| == (if k <= |matches| then k else |matches|)
    && multiset(best) <= multiset(matches)
    && forall lost, item :: lost in multiset(matches) - multiset(best) && item in best ==> !Newer(lost, item)
  }

  /** Cutting a sorted order after `k` keeps the `k` best: what stays comes from the input, is as
      many as asked for or there are, is sorted, and nothing dropped ranks before anything kept. */
  lemma LimitKeepsTheBest(kept: seq<Item>, order: seq<Item>, k: nat)
    requires k > 0 && Sorted(order) && multiset(order) == multiset(kept)
    ensures BestOf(kept, k, Limited(Number(k), order))
  {
    var out := Limited(Number(k), order);
    SameCount(order, kept);
    var rest := order[|out|..];
    assert order == out + rest;
    assert multiset(kept) == multiset(out) + multiset(rest);
    NothingLostIsNewer(out, rest);
    assert forall lost :: lost in multiset(kept) - multiset(out) ==> lost in rest;
  }

  lemma NothingLostIsNewer(out: seq<Item>, rest: seq<Item>)
    requires Sorted(out + rest)
    ensures Sorted(out)
    ensures forall lost, item :: lost in rest && item in out ==> !Newer(lost, item)
  {
    var order := out + rest;
    assert forall i :: 0 <= i < |out| ==> out[i] == order[i];
    forall lost, item | lost in rest && item in out ensures !Newer(lost, item) {
      var i :| 0 <= i < |rest| && rest[i] == lost;
      var j :| 0 <= j < |out| && out[j] == item;
      assert order[|out| + i] == lost && order[j] == item;
    }
  }

  /** Sorted and limited to `k`, the pipeline answers with the `k` best of one filter, shortened. */
  lemma ProcessedIsBestOf(q: Query, now: int, items: seq<Item>, out: seq<Item>)
    requires Processed(q, now, items, out) && WantsSorting(q) && q.limit.Number? && q.limit.n > 0
    ensures exists best :: BestOf(Keep(items, Wanted(q, now)), q.limit.n, best) && out == Shortened(q.brief, best)
  {
    var kept := Keep(items, Wanted(q, now));
    var order :| Arranged(q, kept, order) && out == Shortened(q.brief, Limited(q.limit, order));
    LimitKeepsTheBest(kept, order, q.limit.n);
    assert BestOf(kept, q.limit.n, Limited(q.limit, order));
  }

  /** The unstable sort leaves only ties open: any two sorted orders of the same items agree on the
      date at every position. */
  lemma {:induction false} SortedOrdersAgreeOnDates(a: seq<Item>, b: seq<Item>)
    requires Sorted(a) && Sorted(b) && multiset(a) == multiset(b)
    ensures |a| == |b| && forall i :: 0 <= i < |a| ==> a[i].pubDate == b[i].pubDate
    decreases |a|
  {
    SameCount(a, b);
    if a != [] {
      var n := |a| - 1;
      var j := LastHasEqualDate(a, b);
      UnlinkBoth(a, b, j);
      hide Sorted;
      SortedOrdersAgreeOnDates(Unlinked(a, n), Unlinked(b, j));
      forall i: nat | i < n ensures a[i].pubDate == b[i].pubDate {
        assert Unlinked(a, n)[i] == a[i];
        UnlinkKeepsDates(b, j, i);
      }
    }
  }

  lemma UnlinkBoth(a: seq<Item>, b: seq<Item>, j: nat)
    requires Sorted(a) && Sorted(b) && multiset(a) == multiset(b) && a != [] && j < |b| && b[j] == a[|a| - 1]
    ensures Sorted(Unlinked(a, |a| - 1)) && Sorted(Unlinked(b, j))
    ensures multiset(Unlinked(a, |a| - 1)) == multiset(Unlinked(b, j))
  {
    UnlinkKeepsSorted(a, |a| - 1);
    UnlinkKeepsSorted(b, j);
    UnlinkDropsOne(a, |a| - 1);
    UnlinkDropsOne(b, j);
  }

  lemma SameCount(a: seq<Item>, b: seq<Item>)
    requires multiset(a) == multiset(b)
    ensures |a| == |b|
  {
    assert |a| == |multiset(a)| == |multiset(b)| == |b|;
  }

  /** The last of `a` is somewhere in `b`, and everything from there on in `b` has its date. */
  lemma LastHasEqualDate(a: seq<Item>, b: seq<Item>) returns (j: nat)
    requires Sorted(a) && Sorted(b) && multiset(a) == multiset(b) && |a| == |b| > 0
    ensures j < |b| && b[j] == a[|a| - 1]
    ensures forall i :: j <= i < |b| ==> b[i].pubDate == b[j].pubDate
  {
    var n := |a| - 1;
    assert a[n] in multiset(b) && b[n] in multiset(a);
    j :| 0 <= j <= n && b[j] == a[n];
    var m :| 0 <= m <= n && a[m] == b[n];
    assert m < n ==> !Newer(a[n], a[m]);
    assert j < n ==> !Newer(b[n], b[j]);
  }

  function Unlinked(items: seq<Item>, j: nat): seq<Item>
    requires j < |items|
  {
    items[..j] + items[j + 1..]
  }

  lemma UnlinkKeepsSorted(items: seq<Item>, j: nat)
    requires j < |items| && Sorted(items)
    ensures Sorted(Unlinked(items, j))
  {
    var rest := Unlinked(items, j);
    forall x, y | 0 <= x < y < |rest| ensures !Newer(rest[y], rest[x]) {
      var x', y' := if x < j then x else x + 1, if y < j then y else y + 1;
      assert rest[x] == items[x'] && rest[y] == items[y'];
    }
  }

  lemma UnlinkDropsOne(items: seq<Item>, j: nat)
    requires j < |items|
    ensures multiset(Unlinked(items, j)) == multiset(items) - multiset{items[j]}
  {
    assert items == items[..j] + [items[j]] + items[j + 1..];
  }

  /** With equal dates from `j` on, what moves up one place finds its date there. */
  lemma UnlinkKeepsDates(items: seq<Item>, j: nat, i: nat)
    requires j < |items| && i < |items| - 1
    requires forall k :: j <= k < |items| ==> items[k].pubDate == items[j].pubDate
    ensures Unlinked(items, j)[i].pubDate == items[i].pubDate
  {
    assert Unlinked(items, j)[i] == if i < j then items[i] else items[i + 1];
  }

  // ----- The sort library: any in-place sort by `Newer` -----

  function Insert(item: Item, items: seq<Item>): seq<Item> {
    if items != [] && Newer(item, items[|items| - 1])
    then Insert(item, items[..|items| - 1]) + [items[|items| - 1]]
    else items + [item]
  }

  lemma {:induction false} InsertAdds(item: Item, items: seq<Item>)
    ensures multiset(Insert(item, items)) == multiset(items) + multiset{item}
  {
    if items != [] && Newer(item, items[|items| - 1]) {
      InsertAdds(item, items[..|items| - 1]);
      assert items == items[..|items| - 1] + [items[|items| - 1]];
    }
  }

  lemma SortedSnoc(items: seq<Item>, last: Item)
    requires Sorted(items) && forall item :: item in items ==> !Newer(last, item)
    ensures Sorted(items + [last])
  {
  }

  lemma {:induction false} InsertKeepsSorted(item: Item, items: seq<Item>)
    requires Sorted(items)
    ensures Sorted(Insert(item, items))
  {
    if items != [] && Newer(item, items[|items| - 1]) {
      var before, last := items[..|items| - 1], items[|items| - 1];
      InsertKeepsSorted(item, before);
      InsertAdds(item, before);
      forall other | other in Insert(item, before) ensures !Newer(last, other) {
        assert other in multiset(before) + multiset{item};
        assert other in before || other == item;
      }
      SortedSnoc(Insert(item, before), last);
    } else {
      SortedSnoc(items, item);
    }
  }

  method SortSlice(a: array<Item>)
    modifies a
    ensures Sorted(a[..]) && multiset(a[..]) == multiset(old(a[..]))
  {
    var order: seq<Item> := [];
    for i := 0 to a.Length
      invariant a[..] == old(a[..])
      invariant |order| == i && Sorted(order) && multiset(order) == multiset(a[..i])
    {
      assert a[..i + 1] == a[..i] + [a[i]];
      InsertKeepsSorted(a[i], order);
      InsertAdds(a[i], order);
      order := Insert(a[i], order);
      assert |order| == |multiset(order)| == |multiset(a[..i + 1])| == i + 1;
    }
    assert a[..a.Length] == a[..];
    assert multiset(order) == multiset(old(a[..]));
    forall i | 0 <= i < a.Length {
      a[i] := order[i];
    }
    assert a[..] == order;
  }

  // ----- The pipeline as it runs -----

  method FromItems(items: seq<Item>) returns (out: Slice)
    ensures out.Valid() && fresh(out.backing) && out.View() == items && out.len == out.backing.Length
  {
    var backing := new Item[|items|](i requires 0 <= i < |items| => items[i]);
    out := Slice(backing, |items|);
  }

  method CopyItems(items: Slice) returns (out: Slice)
    requires items.Valid()
    ensures out.Valid() && fresh(out.backing) && out.View() == items.View() && out.len == out.backing.Length
  {
    out := FromItems(items.View());
  }

  method FilterByTime(items: Slice, filterTime: Param, clock: Clock) returns (out: Slice)
    requires items.Valid()
    modifies clock
    ensures old(clock.now) <= clock.now
    ensures out.Valid() && (out == items || fresh(out.backing))
    ensures out.View() == Keep(items.View(), TimeTest(filterTime, clock.now))
  {
    var all := items.View();
    if !filterTime.Number? {
      UntimedKeepsAll(all, filterTime, clock.now);
      return items;
    }
    var now := clock.Now();
    var cutoff := now - filterTime.n * SECOND;
    var result: seq<Item> := [];
    for i := 0 to |all|
      invariant result == Keep(all[..i], TimeTest(filterTime, now))
    {
      assert all[..i + 1][..i] == all[..i];
      if all[i].pubDate.Some? && all[i].pubDate.value > cutoff {
        result := result + [all[i]];
      }
    }
    assert all[..|all|] == all;
    out := FromItems(result);
  }

  method FilterItems(items: Slice, pattern: Pattern, exclude: bool) returns (out: Slice)
    requires items.Valid()
    ensures out.Valid() && (out == items || fresh(out.backing))
    ensures out.View() == Keep(items.View(), PatternTest(pattern, exclude))
  {
    var all := items.View();
    if !pattern.Matching? {
      UnmatchedKeepsAll(all, pattern, exclude);
      return items;
    }
    var result: seq<Item> := [];
    for i := 0 to |all|
      invariant result == Keep(all[..i], PatternTest(pattern, exclude))
    {
      assert all[..i + 1][..i] == all[..i];
      var matched := MatchesFilter(pattern.matches, all[i]);
      if exclude {
        if !matched {
          result := result + [all[i]];
        }
      } else {
        if matched {
          result := result + [all[i]];
        }
      }
    }
    assert all[..|all|] == all;
    out := FromItems(result);
  }

  method SortItemsByPubDate(items: Slice) returns (out: Slice)
    requires items.Valid()
    ensures out.Valid() && fresh(out.backing)
    ensures Sorted(out.View()) && multiset(out.View()) == multiset(items.View())
  {
    out := CopyItems(items);
    assert out.View() == out.backing[..];
    SortSlice(out.backing);
    assert out.View() == out.backing[..];
  }

  method LimitItems(items: Slice, limit: Param) returns (out: Slice)
    requires items.Valid()
    ensures out.Valid() && out.backing == items.backing && out.View() == Limited(limit, items.View())
  {
    if !limit.Number? || limit.n <= 0 {
      return items;
    }
    if limit.n > items.len {
      return items;
    }
    out := items.(len := limit.n);
  }

  /** Writes in place: the caller's slice must not be the cached one. */
  method ApplyBriefMode(items: Slice, brief: Param)
    requires items.Valid() && !brief.Absent?
    modifies items.backing
    ensures items.View() == Shortened(brief, old(items.View()))
  {
    var maxLength := if !brief.Number? || brief.n <= 0 then DEFAULT_BRIEF else brief.n;
    for i := 0 to items.len
      invariant forall j :: 0 <= j < i ==> items.backing[j] == Shorten(brief, old(items.backing[j]))
      invariant forall j :: i <= j < items.len ==> items.backing[j] == old(items.backing[j])
    {
      items.backing[i] := items.backing[i].(description := Truncate(items.backing[i].description, maxLength));
    }
  }

  /** The first three passes, on a slice the caller owns. */
  method SelectItems(q: Query, own: Slice, clock: Clock) returns (items: Slice)
    requires own.Valid()
    modifies clock
    ensures old(clock.now) <= clock.now
    ensures items.Valid() && (items == own || fresh(items.backing))
    ensures items.View() == Keep(own.View(), Wanted(q, clock.now))
  {
    hide Keep, TimeTest, PatternTest, MatchesFilter;
    items := own;
    ghost var all := items.View();
    if !q.filterTime.Absent? {
      items := FilterByTime(items, q.filterTime, clock);
    } else {
      UntimedKeepsAll(all, q.filterTime, clock.now);
    }
    ghost var timed := items.View();
    if !q.filter.NoPattern? {
      items := FilterItems(items, q.filter, false);
    } else {
      UnmatchedKeepsAll(timed, q.filter, false);
    }
    ghost var included := items.View();
    if !q.filterOut.NoPattern? {
      items := FilterItems(items, q.filterOut, true);
    } else {
      UnmatchedKeepsAll(included, q.filterOut, true);
    }
    ThreePassesAreOne(q, clock.now, all);
  }

  /**
   Answers with a slice of its own: the result never aliases the input, which keeps its contents
   (only the clock and new arrays are written), and is one the reference allows.
   */
  method ProcessFeed(q: Query, input: Slice, clock: Clock) returns (out: Slice)
    requires input.Valid()
    modifies clock
    ensures old(clock.now) <= clock.now
    ensures out.Valid() && fresh(out.backing)
    ensures Processed(q, clock.now, input.View(), out.View())
  {
    hide Keep, Sorted, Shortened, Wanted, Limited, WantsSorting, Arranged;
    var items := CopyItems(input);
    items := SelectItems(q, items, clock);
    if WantsSorting(q) {
      items := SortItemsByPubDate(items);
    }
    ghost var order := items.View();
    ArrangedBySort(q, Keep(input.View(), Wanted(q, clock.now)), order);
    NoLimit(order);
    if !q.limit.Absent? {
      items := LimitItems(items, q.limit);
    }
    if !q.brief.Absent? {
      ApplyBriefMode(items, q.brief);
    } else {
      FullTextStays(items.View());
    }
    assert items.View() == Shortened(q.brief, Limited(q.limit, order));
    out := items;
  }
}
