/** Indexed result slots that goroutines fill and the handler then reads in order. */
module ResultSlots {
  import opened Wrappers

  type Item = string

  function Min(a: nat, b: nat): nat {
    if a < b then a else b
  }

  /** The items that were built, in slot order. */
  function Successes(slots: seq<Option<Item>>): seq<Item> {
    if slots == [] then []
    else Successes(slots[..|slots| - 1]) + (if slots[|slots| - 1].Some? then [slots[|slots| - 1].value] else [])
  }

  /** The filled slots before slot `n`. */
  ghost function Filled(slots: seq<Option<Item>>, n: nat): set<nat>
    requires n <= |slots|
  {
    set i: nat | i < n && slots[i].Some?
  }

  /** A feed of as many items as slots are filled, in which the item of a filled slot comes after one
      item for each filled slot before it. */
  ghost predicate IsFeedOf(feed: seq<Item>, slots: seq<Option<Item>>) {
    && |feed| == |Filled(slots, |slots|)|
    && forall i: nat :: i < |slots| && slots[i].Some? ==>
      |Filled(slots, i)| < |feed| && feed[|Filled(slots, i)|] == slots[i].value
  }

  lemma FilledSnoc(slots: seq<Option<Item>>, n: nat)
    requires n < |slots|
    ensures Filled(slots, n + 1) == Filled(slots, n) + (if slots[n].Some? then {n} else {})
    ensures |Filled(slots, n + 1)| == |Filled(slots, n)| + (if slots[n].Some? then 1 else 0)
  {
  }

  lemma FilledOfPrefix(slots: seq<Option<Item>>, m: nat, n: nat)
    requires n <= m <= |slots|
    ensures Filled(slots[..m], n) == Filled(slots, n)
  {
  }

  /** The successes are the values of the filled slots, all of them and in slot order. */
  lemma {:induction false} SuccessesAreTheFeed(slots: seq<Option<Item>>)
    ensures IsFeedOf(Successes(slots), slots)
  {
    if slots == [] {
      assert Filled(slots, 0) == {};
    } else {
      var n := |slots| - 1;
      var before, feed := slots[..n], Successes(slots);
      SuccessesAreTheFeed(before);
      FilledSnoc(slots, n);
      FilledOfPrefix(slots, n, n);
      assert |Successes(before)| == |Filled(slots, n)|;
      forall i: nat | i < |slots| && slots[i].Some?
        ensures |Filled(slots, i)| < |feed| && feed[|Filled(slots, i)|] == slots[i].value
      {
        if i < n {
          FilledOfPrefix(slots, n, i);
          assert before[i] == slots[i];
        }
      }
    }
  }

  lemma {:induction false} SuccessesOfPrefix(outcome: seq<Option<Item>>, slots: seq<Option<Item>>, k: nat)
    requires k <= |outcome| == |slots|
    requires forall i: nat :: i < |slots| ==> slots[i] == if i < k then outcome[i] else None
    ensures Successes(slots) == Successes(outcome[..k])
  {
    if |slots| == 0 {
    } else if |slots| == k {
      assert slots == outcome[..k];
    } else {
      var n := |slots| - 1;
      SuccessesOfPrefix(outcome[..n], slots[..n], k);
      assert outcome[..n][..k] == outcome[..k];
    }
  }

  lemma {:induction false} SuccessesOfAll(slots: seq<Option<Item>>, built: seq<Item>)
    requires |slots| == |built| && forall i :: 0 <= i < |slots| ==> slots[i] == Some(built[i])
    ensures Successes(slots) == built
  {
    if slots != [] {
      SuccessesOfAll(slots[..|slots| - 1], built[..|slots| - 1]);
    }
  }

  /** The final loop skips empty slots and keeps the order of the others. */
  method CollectItems(slots: seq<Option<Item>>) returns (feed: seq<Item>)
    ensures feed == Successes(slots) && IsFeedOf(feed, slots)
  {
    SuccessesAreTheFeed(slots);
    feed := [];
    for i := 0 to |slots|
      invariant feed == Successes(slots[..i])
    {
      assert slots[..i + 1][..i] == slots[..i];
      if slots[i].Some? {
        feed := feed + [slots[i].value];
      }
    }
    assert slots[..|slots|] == slots;
  }
}
