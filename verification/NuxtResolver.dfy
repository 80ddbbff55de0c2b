/**
 Resolver for Nuxt payloads: a top-level array whose objects and arrays refer to other entries by
 number. References may be shared and may form cycles.
 */
module NuxtResolver {
  import opened Wrappers
  import opened Conversions

  datatype Json =
    | Null
    | Bool(b: bool)
    | Num(n: real)
    | Str(s: string)
    | Arr(elements: seq<Json>)
    | Obj(fields: map<string, Json>)

  type Doc = seq<Json>

  predicate IsRef(doc: Doc, value: Json) {
    value.Num? && Truncated(value.n) < |doc|
  }

  /** How an entry is read. */
  datatype Shape = Wrapper(target: int) | EmptySet | Sequence | Fields | Scalar

  function ShapeOf(item: Json): Shape {
    if item.Arr? then
      if |item.elements| == 2 && item.elements[0] in [Str("ShallowReactive"), Str("Reactive")] && item.elements[1].Num?
      then Wrapper(Truncated(item.elements[1].n))
      else if |item.elements| >= 1 && item.elements[0] == Str("Set") then EmptySet
      else Sequence
    else if item.Obj? then Fields
    else Scalar
  }

  predicate IsIndex(doc: Doc, i: int) {
    0 <= i < |doc|
  }

  ghost function Indices(doc: Doc): set<int> {
    set i | 0 <= i < |doc| && IsIndex(doc, i)
  }

  /** The entries that reading entry `i` refers to. Neither a wrapper's target nor a negative
      reference is checked against the array. */
  ghost function Refs(doc: Doc, i: int): set<int>
    requires 0 <= i < |doc|
  {
    match ShapeOf(doc[i])
    case Wrapper(target) => {target}
    case Sequence => set k | 0 <= k < |doc[i].elements| && IsRef(doc, doc[i].elements[k]) :: Truncated(doc[i].elements[k].n)
    case Fields => set key | key in doc[i].fields && IsRef(doc, doc[i].fields[key]) :: Truncated(doc[i].fields[key].n)
    case _ => {}
  }

  /** Whether resolving index `i` runs into one that is out of range, which panics. */
  ghost predicate Panics(doc: Doc, i: int, visited: set<int>)
    decreases |Indices(doc) - visited|
  {
    !IsIndex(doc, i) || (i !in visited && (
      CardinalityDrops(Indices(doc), visited, i);
      exists child :: child in Refs(doc, i) && Panics(doc, child, visited + {i})))
  }

  /** The value at `i` when nothing panics, given the entries already being resolved: those are
      returned as they are. */
  ghost function Resolve(doc: Doc, i: int, visited: set<int>): Json
    decreases |Indices(doc) - visited|
  {
    if !IsIndex(doc, i) then Null
    else if i in visited then doc[i]
    else
      var item, now := doc[i], visited + {i};
      CardinalityDrops(Indices(doc), visited, i);
      match ShapeOf(item)
      case Wrapper(target) => Resolve(doc, target, now)
      case EmptySet => Arr([])
      case Sequence =>
        Arr(seq(|item.elements|, k requires 0 <= k < |item.elements| =>
          if IsRef(doc, item.elements[k]) then Resolve(doc, Truncated(item.elements[k].n), now) else item.elements[k]))
      case Fields =>
        Obj(map key | key in item.fields ::
          if IsRef(doc, item.fields[key]) then Resolve(doc, Truncated(item.fields[key].n), now) else item.fields[key])
      case Scalar => item
  }

  lemma CardinalityDrops(all: set<int>, visited: set<int>, i: int)
    requires i in all && i !in visited
    ensures |all - (visited + {i})| < |all - visited|
  {
    assert all - visited == (all - (visited + {i})) + {i};
  }

  // ----- Reachability -----

  ghost predicate IsPath(doc: Doc, path: seq<int>) {
    && path != []
    && (forall k :: 0 <= k < |path| ==> 0 <= path[k] < |doc|)
    && (forall k :: 0 < k < |path| ==> path[k] in Refs(doc, path[k - 1]))
  }

  ghost predicate Reaches(doc: Doc, i: int, j: int) {
    exists path :: IsPath(doc, path) && path[0] == i && path[|path| - 1] == j
  }

  ghost function Reach(doc: Doc, i: int): set<int> {
    set j | 0 <= j < |doc| && Reaches(doc, i, j)
  }

  lemma ReachGrows(doc: Doc, i: int, child: int)
    requires IsIndex(doc, i) && child in Refs(doc, i)
    ensures Reach(doc, child) <= Reach(doc, i)
  {
    forall j | j in Reach(doc, child) ensures j in Reach(doc, i) {
      var path :| IsPath(doc, path) && path[0] == child && path[|path| - 1] == j;
      assert IsPath(doc, [i] + path);
    }
  }

  lemma ReachesItself(doc: Doc, i: int)
    requires IsIndex(doc, i)
    ensures i in Reach(doc, i)
  {
    assert IsPath(doc, [i]);
  }

  // ----- When resolving panics -----

  /** Entry `p` refers to an index that is out of range. */
  ghost predicate IsBad(doc: Doc, p: int) {
    IsIndex(doc, p) && exists j :: j in Refs(doc, p) && !IsIndex(doc, j)
  }

  lemma {:induction false} PanicReachesBad(doc: Doc, i: int, visited: set<int>)
    requires IsIndex(doc, i) && Panics(doc, i, visited)
    ensures exists p :: p in Reach(doc, i) && IsBad(doc, p)
    decreases |Indices(doc) - visited|
  {
    CardinalityDrops(Indices(doc), visited, i);
    var child :| child in Refs(doc, i) && Panics(doc, child, visited + {i});
    if IsIndex(doc, child) {
      PanicReachesBad(doc, child, visited + {i});
      ReachGrows(doc, i, child);
    } else {
      ReachesItself(doc, i);
      assert IsBad(doc, i);
    }
  }

  /** A path to a bad entry that avoids what is visited is walked, or a shorter one after it. */
  lemma {:induction false} BadPathPanics(doc: Doc, path: seq<int>, visited: set<int>)
    requires IsPath(doc, path) && IsBad(doc, path[|path| - 1])
    requires forall k :: 0 <= k < |path| ==> path[k] !in visited
    ensures Panics(doc, path[0], visited)
    decreases |path|
  {
    var i := path[0];
    if k :| 0 < k < |path| && path[k] == i {
      BadPathPanics(doc, path[k..], visited);
    } else if |path| == 1 {
      var j :| j in Refs(doc, i) && !IsIndex(doc, j);
      assert Panics(doc, j, visited + {i});
    } else {
      assert path[1] in Refs(doc, path[0]);
      BadPathPanics(doc, path[1..], visited + {i});
    }
  }

  /** Resolving an index panics if and only if it is out of range itself or some entry reachable from
      it refers out of range: cycles neither hide a bad reference nor reach one twice. */
  lemma PanicsIff(doc: Doc, i: int)
    ensures Panics(doc, i, {}) <==> !IsIndex(doc, i) || exists p :: p in Reach(doc, i) && IsBad(doc, p)
  {
    if IsIndex(doc, i) {
      if Panics(doc, i, {}) {
        PanicReachesBad(doc, i, {});
      }
      if p :| p in Reach(doc, i) && IsBad(doc, p) {
        var path :| IsPath(doc, path) && path[0] == i && path[|path| - 1] == p;
        BadPathPanics(doc, path, {});
      }
    }
  }

  // ----- What the visited set can change -----

  /** Only the visited entries that are reachable matter, on any graph. */
  lemma {:induction false} VisitedFrame(doc: Doc, i: int, v1: set<int>, v2: set<int>)
    requires v1 * Reach(doc, i) == v2 * Reach(doc, i)
    ensures Resolve(doc, i, v1) == Resolve(doc, i, v2)
    decreases |Indices(doc) - v1|
  {
    if IsIndex(doc, i) {
      ReachesItself(doc, i);
      assert i in v1 <==> i in v1 * Reach(doc, i);
      assert i in v2 <==> i in v2 * Reach(doc, i);
      if i !in v1 {
        CardinalityDrops(Indices(doc), v1, i);
        var value := (j: int) => Resolve(doc, j, v2 + {i});
        forall child | child in Refs(doc, i) ensures Resolve(doc, child, v1 + {i}) == value(child) {
          ReachGrows(doc, i, child);
          SameWithin(v1, v2, i, Reach(doc, i), Reach(doc, child));
          VisitedFrame(doc, child, v1 + {i}, v2 + {i});
        }
        ChildrenDecideValue(doc, i, v1, value);
        ChildrenDecideValue(doc, i, v2, value);
      }
    }
  }

  lemma SameWithin(a: set<int>, b: set<int>, i: int, large: set<int>, small: set<int>)
    requires a * large == b * large && small <= large
    ensures (a + {i}) * small == (b + {i}) * small
  {
    assert a * small == (a * large) * small;
    assert b * small == (b * large) * small;
    assert (a + {i}) * small == a * small + {i} * small;
    assert (b + {i}) * small == b * small + {i} * small;
  }

  /** Entry `i` with every reference replaced by the value given for it. */
  ghost function Unfold(doc: Doc, i: int, value: int -> Json): Json
    requires IsIndex(doc, i)
  {
    var item := doc[i];
    match ShapeOf(item)
    case Wrapper(target) => value(target)
    case EmptySet => Arr([])
    case Sequence => Arr(seq(|item.elements|, k requires 0 <= k < |item.elements| =>
      if IsRef(doc, item.elements[k]) then value(Truncated(item.elements[k].n)) else item.elements[k]))
    case Fields => Obj(map key | key in item.fields ::
      if IsRef(doc, item.fields[key]) then value(Truncated(item.fields[key].n)) else item.fields[key])
    case Scalar => item
  }

  lemma ChildrenDecideValue(doc: Doc, i: int, visited: set<int>, value: int -> Json)
    requires IsIndex(doc, i) && i !in visited
    requires forall child :: child in Refs(doc, i) ==> Resolve(doc, child, visited + {i}) == value(child)
    ensures Resolve(doc, i, visited) == Unfold(doc, i, value)
  {
    var item := doc[i];
    var r, u := Resolve(doc, i, visited), Unfold(doc, i, value);
    match ShapeOf(item)
    case Sequence =>
      forall k | 0 <= k < |item.elements| ensures r.elements[k] == u.elements[k] {
        if IsRef(doc, item.elements[k]) {
          assert Truncated(item.elements[k].n) in Refs(doc, i);
        }
      }
      assert r.elements == u.elements;
    case Fields =>
      forall key | key in item.fields ensures r.fields[key] == u.fields[key] {
        if IsRef(doc, item.fields[key]) {
          assert Truncated(item.fields[key].n) in Refs(doc, i);
        }
      }
      assert r.fields == u.fields;
    case _ =>
  }

  // ----- Arrays that store a tree -----

  /** Entry `i` stores the tree `v`, possibly sharing entries, with a derivation of at most `depth` levels. */
  ghost predicate Stores(doc: Doc, i: int, v: Json, depth: nat)
    decreases depth
  {
    depth > 0 && 0 <= i < |doc| &&
    var item := doc[i];
    match ShapeOf(item)
    case Wrapper(target) => Stores(doc, target, v, depth - 1)
    case EmptySet => v == Arr([])
    case Sequence =>
      v.Arr? && |v.elements| == |item.elements| && forall k :: 0 <= k < |v.elements| ==>
        if IsRef(doc, item.elements[k]) then Stores(doc, Truncated(item.elements[k].n), v.elements[k], depth - 1)
        else v.elements[k] == item.elements[k]
    case Fields =>
      v.Obj? && v.fields.Keys == item.fields.Keys && forall key :: key in v.fields ==>
        if IsRef(doc, item.fields[key]) then Stores(doc, Truncated(item.fields[key].n), v.fields[key], depth - 1)
        else v.fields[key] == item.fields[key]
    case Scalar => v == item
  }

  ghost predicate StoresSome(doc: Doc, i: int, depth: nat) {
    exists v :: Stores(doc, i, v, depth)
  }

  /** An entry stores one tree. */
  lemma {:induction false} StoresOne(doc: Doc, i: int, v: Json, d: nat, w: Json, e: nat)
    requires Stores(doc, i, v, d) && Stores(doc, i, w, e)
    ensures v == w
    decreases d
  {
    var item := doc[i];
    match ShapeOf(item)
    case Wrapper(target) => StoresOne(doc, target, v, d - 1, w, e - 1);
    case Sequence =>
      forall k | 0 <= k < |v.elements| ensures v.elements[k] == w.elements[k] {
        if IsRef(doc, item.elements[k]) {
          StoresOne(doc, Truncated(item.elements[k].n), v.elements[k], d - 1, w.elements[k], e - 1);
        }
      }
      assert v.elements == w.elements;
    case Fields =>
      forall key | key in v.fields ensures v.fields[key] == w.fields[key] {
        if IsRef(doc, item.fields[key]) {
          StoresOne(doc, Truncated(item.fields[key].n), v.fields[key], d - 1, w.fields[key], e - 1);
        }
      }
      assert v.fields == w.fields;
    case _ =>
  }

  lemma {:induction false} LeastDepth(doc: Doc, i: int, depth: nat) returns (least: nat)
    requires StoresSome(doc, i, depth)
    ensures least <= depth && StoresSome(doc, i, least)
    ensures forall d: nat :: d < least ==> !StoresSome(doc, i, d)
  {
    least := 0;
    while !StoresSome(doc, i, least)
      invariant least <= depth
      invariant forall d: nat :: d < least ==> !StoresSome(doc, i, d)
      decreases depth - least
    {
      least := least + 1;
    }
  }

  /** An entry that stores a tree resolves to it while nothing visited has as shallow a derivation;
      in particular a stored tree is never reached again from inside itself. */
  lemma {:induction false} StoredResolves(doc: Doc, i: int, v: Json, depth: nat, visited: set<int>)
    requires Stores(doc, i, v, depth)
    requires forall d: nat :: d < depth ==> !StoresSome(doc, i, d)
    requires forall u, d: nat :: u in visited && d <= depth ==> !StoresSome(doc, u, d)
    ensures Resolve(doc, i, visited) == v
    decreases depth
  {
    assert StoresSome(doc, i, depth);
    var now := visited + {i};
    var item := doc[i];
    match ShapeOf(item)
    case Wrapper(target) =>
      StoredChildResolves(doc, target, v, depth, now);
    case Sequence =>
      forall k | 0 <= k < |v.elements| && IsRef(doc, item.elements[k])
        ensures Truncated(item.elements[k].n) in Refs(doc, i)
        ensures Resolve(doc, Truncated(item.elements[k].n), now) == v.elements[k]
      {
        assert Truncated(item.elements[k].n) in Refs(doc, i);
        StoredChildResolves(doc, Truncated(item.elements[k].n), v.elements[k], depth, now);
      }
      assert Resolve(doc, i, visited).elements == v.elements;
    case Fields =>
      forall key | key in v.fields && IsRef(doc, item.fields[key])
        ensures Truncated(item.fields[key].n) in Refs(doc, i)
        ensures Resolve(doc, Truncated(item.fields[key].n), now) == v.fields[key]
      {
        assert Truncated(item.fields[key].n) in Refs(doc, i);
        StoredChildResolves(doc, Truncated(item.fields[key].n), v.fields[key], depth, now);
      }
      assert Resolve(doc, i, visited).fields == v.fields;
    case _ =>
  }

  lemma {:induction false} StoredChildResolves(doc: Doc, child: int, v: Json, depth: nat, now: set<int>)
    requires depth > 0 && Stores(doc, child, v, depth - 1)
    requires forall u, d: nat :: u in now && d < depth ==> !StoresSome(doc, u, d)
    ensures 0 <= child < |doc| && Resolve(doc, child, now) == v
    decreases depth, 0
  {
    assert StoresSome(doc, child, depth - 1);
    var least := LeastDepth(doc, child, depth - 1);
    var w :| Stores(doc, child, w, least);
    StoresOne(doc, child, v, depth - 1, w, least);
    StoredResolves(doc, child, w, least, now);
  }

  /** An array that stores a tree at `i`, however it shares entries and whatever cycles it has
      elsewhere, resolves to that tree. */
  lemma StoredTreeResolves(doc: Doc, i: int, v: Json, depth: nat)
    requires Stores(doc, i, v, depth)
    ensures Resolve(doc, i, {}) == v
  {
    StoredChildResolves(doc, i, v, depth + 1, {});
  }

  // ----- Which entries store a tree -----

  lemma {:induction false} StoresDeeper(doc: Doc, i: int, v: Json, depth: nat, deeper: nat)
    requires Stores(doc, i, v, depth) && depth <= deeper
    ensures Stores(doc, i, v, deeper)
    decreases depth
  {
    var item := doc[i];
    match ShapeOf(item)
    case Wrapper(target) => StoresDeeper(doc, target, v, depth - 1, deeper - 1);
    case Sequence =>
      forall k | 0 <= k < |v.elements| && IsRef(doc, item.elements[k])
        ensures Stores(doc, Truncated(item.elements[k].n), v.elements[k], deeper - 1)
      {
        StoresDeeper(doc, Truncated(item.elements[k].n), v.elements[k], depth - 1, deeper - 1);
      }
    case Fields =>
      forall key | key in v.fields && IsRef(doc, item.fields[key])
        ensures Stores(doc, Truncated(item.fields[key].n), v.fields[key], deeper - 1)
      {
        StoresDeeper(doc, Truncated(item.fields[key].n), v.fields[key], depth - 1, deeper - 1);
      }
    case _ =>
  }

  lemma ChildStores(doc: Doc, i: int, depth: nat, child: int)
    requires IsIndex(doc, i) && StoresSome(doc, i, depth) && child in Refs(doc, i)
    ensures depth > 0 && StoresSome(doc, child, depth - 1)
  {
    var v :| Stores(doc, i, v, depth);
    var item := doc[i];
    match ShapeOf(item)
    case Wrapper(target) => assert Stores(doc, child, v, depth - 1);
    case Sequence =>
      var k :| 0 <= k < |item.elements| && IsRef(doc, item.elements[k]) && Truncated(item.elements[k].n) == child;
      assert Stores(doc, child, v.elements[k], depth - 1);
    case Fields =>
      var key :| key in item.fields && IsRef(doc, item.fields[key]) && Truncated(item.fields[key].n) == child;
      assert Stores(doc, child, v.fields[key], depth - 1);
  }

  lemma {:induction false} ReachedStores(doc: Doc, path: seq<int>, depth: nat)
    requires IsPath(doc, path) && StoresSome(doc, path[0], depth)
    ensures StoresSome(doc, path[|path| - 1], depth)
    decreases |path|
  {
    if |path| > 1 {
      assert path[1] in Refs(doc, path[0]);
      ChildStores(doc, path[0], depth, path[1]);
      ReachedStores(doc, path[1..], depth - 1);
      var v :| Stores(doc, path[|path| - 1], v, depth - 1);
      StoresDeeper(doc, path[|path| - 1], v, depth - 1, depth);
    }
  }

  /** An entry on a cycle would store a tree at less than its least depth. */
  lemma StoredIsAcyclic(doc: Doc, i: int, depth: nat)
    requires StoresSome(doc, i, depth)
    ensures IsIndex(doc, i) && Acyclic(doc, i)
  {
    forall j, child | j in Reach(doc, i) && child in Refs(doc, j) ensures j !in Reach(doc, child) {
      var path :| IsPath(doc, path) && path[0] == i && path[|path| - 1] == j;
      ReachedStores(doc, path, depth);
      var least := LeastDepth(doc, j, depth);
      ChildStores(doc, j, least, child);
      if j in Reach(doc, child) {
        var back :| IsPath(doc, back) && back[0] == child && back[|back| - 1] == j;
        ReachedStores(doc, back, least - 1);
      }
    }
  }

  lemma StoredNeverPanics(doc: Doc, i: int, depth: nat)
    requires StoresSome(doc, i, depth)
    ensures !Panics(doc, i, {})
  {
    PanicsIff(doc, i);
    forall p | p in Reach(doc, i) ensures !IsBad(doc, p) {
      var path :| IsPath(doc, path) && path[0] == i && path[|path| - 1] == p;
      ReachedStores(doc, path, depth);
      forall j | j in Refs(doc, p) ensures IsIndex(doc, j) {
        ChildStores(doc, p, depth, j);
      }
    }
  }

  /** Nothing reachable from `i` refers back to itself. */
  ghost predicate Acyclic(doc: Doc, i: int) {
    forall j, child :: j in Reach(doc, i) && child in Refs(doc, j) ==> j !in Reach(doc, child)
  }

  ghost predicate Sound(doc: Doc, i: int) {
    IsIndex(doc, i) && forall p :: p in Reach(doc, i) ==> !IsBad(doc, p)
  }

  lemma ChildIsSmaller(doc: Doc, i: int, child: int)
    requires Sound(doc, i) && Acyclic(doc, i) && child in Refs(doc, i)
    ensures Sound(doc, child) && Acyclic(doc, child) && i !in Reach(doc, child)
    ensures |Reach(doc, child)| < |Reach(doc, i)|
  {
    ReachesItself(doc, i);
    ReachGrows(doc, i, child);
    assert Reach(doc, i) == Reach(doc, child) + (Reach(doc, i) - Reach(doc, child));
    assert i in Reach(doc, i) - Reach(doc, child);
  }

  lemma {:induction false} AcyclicStores(doc: Doc, i: int)
    requires Sound(doc, i) && Acyclic(doc, i)
    ensures Stores(doc, i, Resolve(doc, i, {}), |Reach(doc, i)|)
    decreases |Reach(doc, i)|
  {
    hide *;
    SoundReachesItself(doc, i);
    var depth := |Reach(doc, i)|;
    forall child | child in Refs(doc, i) ensures Stores(doc, child, Resolve(doc, child, {i}), depth - 1) {
      ChildIsSmaller(doc, i, child);
      AcyclicStores(doc, child);
      StoresWithParentVisited(doc, i, child, |Reach(doc, child)|, depth - 1);
    }
    UnfoldStores(doc, i, depth);
  }

  lemma SoundReachesItself(doc: Doc, i: int)
    requires Sound(doc, i)
    ensures 0 <= i < |doc| && IsIndex(doc, i) && |Reach(doc, i)| > 0
  {
    ReachesItself(doc, i);
    hide Reach;
    assert Reach(doc, i) != {};
  }

  lemma StoresWithParentVisited(doc: Doc, i: int, child: int, depth: nat, deeper: nat)
    requires i !in Reach(doc, child) && depth <= deeper && Stores(doc, child, Resolve(doc, child, {}), depth)
    ensures Stores(doc, child, Resolve(doc, child, {i}), deeper)
  {
    hide *;
    assert {i} * Reach(doc, child) == {} * Reach(doc, child);
    VisitedFrame(doc, child, {i}, {});
    StoresDeeper(doc, child, Resolve(doc, child, {}), depth, deeper);
  }

  lemma UnfoldStores(doc: Doc, i: int, depth: nat)
    requires IsIndex(doc, i) && depth > 0
    requires forall child :: child in Refs(doc, i) ==> Stores(doc, child, Resolve(doc, child, {i}), depth - 1)
    ensures Stores(doc, i, Resolve(doc, i, {}), depth)
  {
    assert {} + {i} == {i};
    var item, v := doc[i], Resolve(doc, i, {});
    match ShapeOf(item)
    case Wrapper(target) => assert target in Refs(doc, i);
    case Sequence =>
      forall k | 0 <= k < |item.elements| && IsRef(doc, item.elements[k])
        ensures Stores(doc, Truncated(item.elements[k].n), v.elements[k], depth - 1)
      {
        assert Truncated(item.elements[k].n) in Refs(doc, i);
      }
    case Fields =>
      forall key | key in item.fields && IsRef(doc, item.fields[key])
        ensures Stores(doc, Truncated(item.fields[key].n), v.fields[key], depth - 1)
      {
        assert Truncated(item.fields[key].n) in Refs(doc, i);
      }
    case _ =>
  }

  /** An entry stores a tree, the plain and finite unfolding of its references, if and only if it
      reaches no cycle and no reference out of range. */
  lemma StoresIffAcyclic(doc: Doc, i: int)
    ensures (exists v, depth :: Stores(doc, i, v, depth)) <==> !Panics(doc, i, {}) && Acyclic(doc, i)
  {
    if v, depth :| Stores(doc, i, v, depth) {
      assert StoresSome(doc, i, depth);
      StoredIsAcyclic(doc, i, depth);
      StoredNeverPanics(doc, i, depth);
    }
    if !Panics(doc, i, {}) && Acyclic(doc, i) {
      PanicsIff(doc, i);
      AcyclicStores(doc, i);
    }
  }

  /** Without cycles the visited set is unobservable: for any initial set disjoint from what is
      reachable, resolving gives the plain unfolding. */
  lemma AcyclicResolveUnfolds(doc: Doc, i: int, visited: set<int>)
    requires !Panics(doc, i, {}) && Acyclic(doc, i) && visited !! Reach(doc, i)
    ensures Stores(doc, i, Resolve(doc, i, visited), |Reach(doc, i)|)
  {
    PanicsIff(doc, i);
    AcyclicStores(doc, i);
    assert visited * Reach(doc, i) == {} * Reach(doc, i);
    VisitedFrame(doc, i, visited, {});
  }

  // ----- Writing a tree down -----

  /** Every container holds references only, all inside the array: what an encoder produces. */
  ghost predicate Encoded(doc: Doc) {
    forall i :: 0 <= i < |doc| ==> EncodedItem(doc[i], |doc|)
  }

  ghost predicate IsEncodedRef(value: Json, size: nat) {
    value.Num? && 0 <= Truncated(value.n) < size
  }

  ghost predicate EncodedItem(item: Json, size: nat) {
    && (item.Arr? ==> forall k :: 0 <= k < |item.elements| ==> IsEncodedRef(item.elements[k], size))
    && (item.Obj? ==> forall key :: key in item.fields ==> IsEncodedRef(item.fields[key], size))
  }

  lemma {:induction false} StoresSurvivesAppend(doc: Doc, more: Doc, i: int, v: Json, depth: nat, extra: nat)
    requires Encoded(doc) && Stores(doc, i, v, depth)
    ensures Stores(doc + more, i, v, depth + extra)
    decreases depth
  {
    var item := doc[i];
    assert (doc + more)[i] == item && EncodedItem(item, |doc|);
    hide Encoded, Truncated;
    match ShapeOf(item)
    case Wrapper(target) => StoresSurvivesAppend(doc, more, target, v, depth - 1, extra);
    case Sequence =>
      forall k | 0 <= k < |v.elements|
        ensures Stores(doc + more, Truncated(item.elements[k].n), v.elements[k], depth - 1 + extra)
      {
        assert IsEncodedRef(item.elements[k], |doc|);
        StoresSurvivesAppend(doc, more, Truncated(item.elements[k].n), v.elements[k], depth - 1, extra);
      }
    case Fields =>
      forall key | key in v.fields
        ensures Stores(doc + more, Truncated(item.fields[key].n), v.fields[key], depth - 1 + extra)
      {
        assert IsEncodedRef(item.fields[key], |doc|);
        StoresSurvivesAppend(doc, more, Truncated(item.fields[key].n), v.fields[key], depth - 1, extra);
      }
    case _ =>
  }

  lemma EncodedAppend(doc: Doc, item: Json)
    requires Encoded(doc) && EncodedItem(item, |doc|)
    ensures Encoded(doc + [item])
  {
    forall i | 0 <= i < |doc| + 1 ensures EncodedItem((doc + [item])[i], |doc| + 1) {
      if i < |doc| {
        assert EncodedItem(doc[i], |doc|);
      }
    }
  }

  /** The entries to append to `doc` so that the last one stores `v`. */
  ghost function Encode(doc: Doc, v: Json): (more: Doc)
    decreases v
  {
    match v
    case Arr(elements) =>
      var (parts, refs) := EncodeElements(doc, v, elements);
      parts + [Arr(refs)]
    case Obj(fields) =>
      var (parts, refs) := EncodeFields(doc, v, fields, fields.Keys);
      parts + [Obj(refs)]
    case _ => [v]
  }

  function RefTo(i: int): (ref: Json)
    ensures ref.Num? && Truncated(ref.n) == i
  {
    Num(i as real)
  }

  ghost function EncodeElements(doc: Doc, whole: Json, elements: seq<Json>): (Doc, seq<Json>)
    requires forall k :: 0 <= k < |elements| ==> elements[k] < whole
    decreases whole, |elements|
  {
    if elements == [] then ([], [])
    else
      var last := elements[|elements| - 1];
      var (parts, refs) := EncodeElements(doc, whole, elements[..|elements| - 1]);
      var more := Encode(doc + parts, last);
      (parts + more, refs + [RefTo(|doc| + |parts| + |more| - 1)])
  }

  ghost function PickKey(keys: set<string>): string
    requires keys != {}
    ensures PickKey(keys) in keys
  {
    var key :| key in keys; key
  }

  ghost function EncodeFields(doc: Doc, whole: Json, fields: map<string, Json>, keys: set<string>): (Doc, map<string, Json>)
    requires keys <= fields.Keys && forall key :: key in fields ==> fields[key] < whole
    decreases whole, |keys|
  {
    if keys == {} then ([], map[])
    else
      var key := PickKey(keys);
      var (parts, refs) := EncodeFields(doc, whole, fields, keys - {key});
      var more := Encode(doc + parts, fields[key]);
      (parts + more, refs[key := RefTo(|doc| + |parts| + |more| - 1)])
  }

  lemma {:induction false} EncodeStores(doc: Doc, v: Json) returns (depth: nat)
    requires Encoded(doc)
    ensures var all := doc + Encode(doc, v);
      && |Encode(doc, v)| > 0 && Encoded(all) && Stores(all, |all| - 1, v, depth)
    decreases v, 1
  {
    hide Encoded, Stores, StoredAt;
    match v
    case Arr(elements) =>
      var (parts, refs) := EncodeElements(doc, v, elements);
      depth := EncodeElementsStore(doc, v, elements);
      AppendArray(doc + parts, refs, elements, depth);
      assert doc + Encode(doc, v) == doc + parts + [Arr(refs)];
      depth := depth + 1;
    case Obj(fields) =>
      var (parts, refs) := EncodeFields(doc, v, fields, fields.Keys);
      depth := EncodeFieldsStore(doc, v, fields, fields.Keys);
      assert FieldsStored(doc, (parts, refs), fields, fields.Keys, depth);
      AppendObject(doc + parts, refs, fields, depth);
      assert doc + Encode(doc, v) == doc + parts + [Obj(refs)];
      depth := depth + 1;
    case _ =>
      AppendScalar(doc, v);
      depth := 1;
  }

  lemma AppendScalar(doc: Doc, v: Json)
    requires Encoded(doc) && !v.Arr? && !v.Obj?
    ensures Encoded(doc + [v]) && Stores(doc + [v], |doc|, v, 1)
  {
    EncodedAppend(doc, v);
  }

  /** An array of references to the elements' entries stores the array they make. */
  lemma AppendArray(doc: Doc, refs: seq<Json>, elements: seq<Json>, depth: nat)
    requires Encoded(doc) && |refs| == |elements|
    requires forall k :: 0 <= k < |elements| ==> StoredAt(doc, refs[k], elements[k], depth)
    ensures Encoded(doc + [Arr(refs)]) && Stores(doc + [Arr(refs)], |doc|, Arr(elements), depth + 1)
  {
    var all := doc + [Arr(refs)];
    EncodedAppend(doc, Arr(refs));
    forall k | 0 <= k < |elements| ensures StoredAt(all, refs[k], elements[k], depth) {
      StoredAtSurvives(doc, [Arr(refs)], refs[k], elements[k], depth, 0);
    }
  }

  /** An object of references to the fields' entries stores the object they make. */
  lemma AppendObject(doc: Doc, refs: map<string, Json>, fields: map<string, Json>, depth: nat)
    requires Encoded(doc) && refs.Keys == fields.Keys
    requires forall key :: key in fields ==> StoredAt(doc, refs[key], fields[key], depth)
    ensures Encoded(doc + [Obj(refs)]) && Stores(doc + [Obj(refs)], |doc|, Obj(fields), depth + 1)
  {
    var all := doc + [Obj(refs)];
    EncodedAppend(doc, Obj(refs));
    forall key | key in fields ensures StoredAt(all, refs[key], fields[key], depth) {
      StoredAtSurvives(doc, [Obj(refs)], refs[key], fields[key], depth, 0);
    }
  }

  /** `ref` is a reference inside `doc` to an entry that stores `v`. */
  ghost predicate StoredAt(doc: Doc, ref: Json, v: Json, depth: nat) {
    IsEncodedRef(ref, |doc|) && Stores(doc, Truncated(ref.n), v, depth)
  }

  lemma StoredAtSurvives(doc: Doc, more: Doc, ref: Json, v: Json, depth: nat, extra: nat)
    requires Encoded(doc) && StoredAt(doc, ref, v, depth)
    ensures StoredAt(doc + more, ref, v, depth + extra)
  {
    StoresSurvivesAppend(doc, more, Truncated(ref.n), v, depth, extra);
  }

  /** The entry just written, at a depth that suits its earlier siblings too. */
  lemma EncodeStoredAt(doc: Doc, v: Json, before: nat) returns (here: nat)
    requires Encoded(doc)
    ensures var all := doc + Encode(doc, v);
      Encode(doc, v) != [] && Encoded(all) && StoredAt(all, RefTo(|all| - 1), v, before + here)
    decreases v, 2
  {
    here := EncodeStores(doc, v);
    var all := doc + Encode(doc, v);
    StoredAtSurvives(all, [], RefTo(|all| - 1), v, here, before);
    assert all + [] == all;
  }

  lemma {:induction false} EncodeElementsStore(doc: Doc, whole: Json, elements: seq<Json>) returns (depth: nat)
    requires Encoded(doc) && forall k :: 0 <= k < |elements| ==> elements[k] < whole
    ensures var (parts, refs) := EncodeElements(doc, whole, elements);
      && Encoded(doc + parts) && |refs| == |elements|
      && forall k :: 0 <= k < |refs| ==> StoredAt(doc + parts, refs[k], elements[k], depth)
    decreases whole, 0, |elements|
  {
    hide StoredAt, Encoded, Encode;
    if elements == [] {
      assert doc + [] == doc;
      return 0;
    }
    var n := |elements| - 1;
    var (parts, refs) := EncodeElements(doc, whole, elements[..n]);
    var before := EncodeElementsStore(doc, whole, elements[..n]);
    var more := Encode(doc + parts, elements[n]);
    var here := EncodeStoredAt(doc + parts, elements[n], before);
    depth := before + here;
    assert doc + (parts + more) == doc + parts + more;
    forall k | 0 <= k < n ensures StoredAt(doc + parts + more, refs[k], elements[k], depth) {
      StoredAtSurvives(doc + parts, more, refs[k], elements[k], before, here);
    }
  }

  /** Encoded fields, with the entries they refer to, store the values of the given keys. */
  ghost predicate FieldsStored(doc: Doc, encoded: (Doc, map<string, Json>), fields: map<string, Json>,
                               keys: set<string>, depth: nat)
  {
    && keys <= fields.Keys && encoded.1.Keys == keys
    && Encoded(doc + encoded.0)
    && forall key :: key in keys ==> StoredAt(doc + encoded.0, encoded.1[key], fields[key], depth)
  }

  lemma NoFieldsStored(doc: Doc, fields: map<string, Json>)
    requires Encoded(doc)
    ensures FieldsStored(doc, ([], map[]), fields, {}, 0)
  {
    assert doc + [] == doc;
  }

  lemma {:induction false} EncodeFieldsStore(doc: Doc, whole: Json, fields: map<string, Json>, keys: set<string>)
    returns (depth: nat)
    requires Encoded(doc) && keys <= fields.Keys && forall key :: key in fields ==> fields[key] < whole
    ensures FieldsStored(doc, EncodeFields(doc, whole, fields, keys), fields, keys, depth)
    decreases whole, 0, |keys|
  {
    hide Encode, FieldsStored, Encoded, Stores;
    if keys == {} {
      NoFieldsStored(doc, fields);
      return 0;
    }
    var key := PickKey(keys);
    var before := EncodeFieldsStore(doc, whole, fields, keys - {key});
    depth := StoreOneField(doc, EncodeFields(doc, whole, fields, keys - {key}), fields, keys, key, before);
  }

  /** The fields written so far are stored in the longer array too, and so is the new one. */
  lemma StoreOneField(doc: Doc, encoded: (Doc, map<string, Json>), fields: map<string, Json>,
                      keys: set<string>, key: string, before: nat)
    returns (depth: nat)
    requires key in keys && keys <= fields.Keys && FieldsStored(doc, encoded, fields, keys - {key}, before)
    ensures var (parts, refs) := encoded;
      var more := Encode(doc + parts, fields[key]);
      FieldsStored(doc, (parts + more, refs[key := RefTo(|doc| + |parts| + |more| - 1)]), fields, keys, depth)
    decreases fields[key], 3
  {
    hide StoredAt, Encoded, Encode;
    var (parts, refs) := encoded;
    var more := Encode(doc + parts, fields[key]);
    var here := EncodeStoredAt(doc + parts, fields[key], before);
    depth := before + here;
    assert doc + (parts + more) == doc + parts + more;
    forall other | other in refs ensures StoredAt(doc + parts + more, refs[other], fields[other], depth) {
      StoredAtSurvives(doc + parts, more, refs[other], fields[other], before, here);
    }
  }

  lemma StoredResolvesWithoutPanic(doc: Doc, i: int, v: Json, depth: nat)
    requires Stores(doc, i, v, depth)
    ensures !Panics(doc, i, {}) && Resolve(doc, i, {}) == v
  {
    assert StoresSome(doc, i, depth);
    hide *;
    StoredNeverPanics(doc, i, depth);
    StoredTreeResolves(doc, i, v, depth);
  }

  lemma NothingIsEncoded()
    ensures Encoded([])
  {
  }

  /** Writing any tree down and resolving the entry it ended in gives the tree back. */
  lemma RoundTrip(v: Json)
    ensures var doc := Encode([], v);
      doc != [] && !Panics(doc, |doc| - 1, {}) && Resolve(doc, |doc| - 1, {}) == v
  {
    hide *;
    NothingIsEncoded();
    var doc := Encode([], v);
    var depth := EncodeStores([], v);
    assert [] + doc == doc;
    StoredResolvesWithoutPanic(doc, |doc| - 1, v, depth);
  }

  // ----- The decoder as it runs: a visited map that is shared by wrappers and cloned for siblings -----

  class Visited {
    var members: set<int>

    constructor (members: set<int>)
      ensures this.members == members
    {
      this.members := members;
    }

    method Clone() returns (copy: Visited)
      ensures fresh(copy) && copy.members == members
    {
      copy := new Visited(members);
    }
  }

  /** `path` leads from the root of a decoding to entry `i` by references, without repeating. */
  ghost predicate Trail(doc: Doc, path: seq<int>, i: int) {
    && (path != [] ==> IsPath(doc, path) && i in Refs(doc, path[|path| - 1]))
    && forall j, k :: 0 <= j < k < |path| ==> path[j] != path[k]
  }

  ghost function Members(path: seq<int>): set<int> {
    set i | i in path
  }

  lemma {:induction false} DistinctFitIn(path: seq<int>, all: set<int>)
    requires forall k :: 0 <= k < |path| ==> path[k] in all
    requires forall j, k :: 0 <= j < k < |path| ==> path[j] != path[k]
    ensures |path| <= |all|
  {
    if path != [] {
      var n := |path| - 1;
      DistinctFitIn(path[..n], all - {path[n]});
    }
  }

  lemma {:induction false} IndicesCount(doc: Doc)
    ensures |Indices(doc)| == |doc|
  {
    if doc != [] {
      var n := |doc| - 1;
      IndicesCount(doc[..n]);
      assert Indices(doc) == Indices(doc[..n]) + {n};
    }
  }

  /** A decoding never goes deeper than the array is long. */
  lemma TrailIsShort(doc: Doc, path: seq<int>, i: int)
    requires Trail(doc, path, i)
    ensures |path| <= |doc|
  {
    DistinctFitIn(path, Indices(doc));
    IndicesCount(doc);
  }

  lemma TrailExtends(doc: Doc, path: seq<int>, i: int, child: int)
    requires 0 <= i < |doc| && Trail(doc, path, i) && i !in Members(path) && child in Refs(doc, i)
    ensures Trail(doc, path + [i], child) && Members(path + [i]) == Members(path) + {i}
  {
  }

  /** The cases that look at no sibling. */
  lemma ResolveEdges(doc: Doc, i: int, visited: set<int>)
    requires IsIndex(doc, i)
    ensures i in visited ==> !Panics(doc, i, visited) && Resolve(doc, i, visited) == doc[i]
    ensures i !in visited ==>
      match ShapeOf(doc[i])
      case Wrapper(target) =>
        && Panics(doc, i, visited) == Panics(doc, target, visited + {i})
        && Resolve(doc, i, visited) == Resolve(doc, target, visited + {i})
      case EmptySet => !Panics(doc, i, visited) && Resolve(doc, i, visited) == Arr([])
      case Scalar => !Panics(doc, i, visited) && Resolve(doc, i, visited) == doc[i]
      case _ => true
  {
  }

  /** What a call answers: nothing if it panics. */
  ghost function Outcome(doc: Doc, i: int, visited: set<int>): Option<Json> {
    if Panics(doc, i, visited) then None else Some(Resolve(doc, i, visited))
  }

  /**
   At every call `visited` holds exactly the entries on the way from the root, so a call is at most
   `|doc|` deep. The call panics, which is `None`, or answers what `Resolve` gives.
   */
  method ResolveInPlace(doc: Doc, i: int, visited: Visited, ghost path: seq<int>) returns (value: Option<Json>)
    requires Trail(doc, path, i) && visited.members == Members(path)
    modifies visited
    ensures value == Outcome(doc, i, Members(path))
    ensures |path| <= |doc|
    ensures old(visited.members) + {i} <= visited.members
    ensures !IsIndex(doc, i) || ShapeOf(doc[i]).Wrapper? || visited.members == old(visited.members) + {i}
    decreases |Indices(doc) - visited.members|, 0
  {
    TrailIsShort(doc, path, i);
    if !IsIndex(doc, i) {
      visited.members := visited.members + {i};
      return None;
    }
    ResolveEdges(doc, i, Members(path));
    hide Resolve, Panics, Trail, IsPath;
    if i in visited.members {
      assert visited.members + {i} == visited.members;
      return Some(doc[i]);
    }
    CardinalityDrops(Indices(doc), visited.members, i);
    visited.members := visited.members + {i};
    var item := doc[i];
    match ShapeOf(item) {
      case Wrapper(target) =>
        assert target in Refs(doc, i);
        TrailExtends(doc, path, i, target);
        value := ResolveInPlace(doc, target, visited, path + [i]);
      case EmptySet =>
        value := Some(Arr([]));
      case Sequence =>
        var out := ResolveElements(doc, i, visited, path);
        value := if out.None? then None else Some(Arr(out.value));
      case Fields =>
        var out := ResolveFields(doc, i, visited, path);
        value := if out.None? then None else Some(Obj(out.value));
      case Scalar =>
        value := Some(item);
    }
  }

  /** A sibling is resolved with a clone, so what it visits is not seen by the next. */
  method ResolveSibling(doc: Doc, i: int, child: int, visited: Visited, ghost path: seq<int>)
    returns (value: Option<Json>)
    requires IsIndex(doc, i) && child in Refs(doc, i) && i !in Members(path)
    requires Trail(doc, path, i) && visited.members == Members(path) + {i}
    ensures value == Outcome(doc, child, Members(path) + {i})
    decreases |Indices(doc) - visited.members|, 1
  {
    TrailExtends(doc, path, i, child);
    var copy := visited.Clone();
    value := ResolveInPlace(doc, child, copy, path + [i]);
  }

  ghost function ResolvedValue(doc: Doc, value: Json, now: set<int>): Json {
    if IsRef(doc, value) then Resolve(doc, Truncated(value.n), now) else value
  }

  ghost predicate ValuePanics(doc: Doc, value: Json, now: set<int>) {
    IsRef(doc, value) && Panics(doc, Truncated(value.n), now)
  }

  /** An array resolves element by element, and panics if a reference among them does. */
  lemma ElementsDecide(doc: Doc, i: int, visited: set<int>)
    requires IsIndex(doc, i) && i !in visited && ShapeOf(doc[i]).Sequence?
    ensures var elements, whole, now := doc[i].elements, Resolve(doc, i, visited), visited + {i};
      && whole.Arr? && |whole.elements| == |elements|
      && (forall k :: 0 <= k < |elements| ==>
           whole.elements[k] == ResolvedValue(doc, elements[k], now))
      && (!Panics(doc, i, visited) <==>
           forall k :: 0 <= k < |elements| ==> !ValuePanics(doc, elements[k], now))
  {
  }

  /** So does an object, field by field. */
  lemma FieldsDecide(doc: Doc, i: int, visited: set<int>)
    requires IsIndex(doc, i) && i !in visited && ShapeOf(doc[i]).Fields?
    ensures var fields, whole, now := doc[i].fields, Resolve(doc, i, visited), visited + {i};
      && whole.Obj? && whole.fields.Keys == fields.Keys
      && (forall key :: key in fields ==>
           whole.fields[key] == ResolvedValue(doc, fields[key], now))
      && (!Panics(doc, i, visited) <==>
           forall key :: key in fields ==> !ValuePanics(doc, fields[key], now))
  {
  }

  lemma ElementsRefer(doc: Doc, i: int)
    requires IsIndex(doc, i) && ShapeOf(doc[i]).Sequence?
    ensures forall k :: 0 <= k < |doc[i].elements| && IsRef(doc, doc[i].elements[k]) ==>
      Truncated(doc[i].elements[k].n) in Refs(doc, i)
  {
  }

  lemma FieldsRefer(doc: Doc, i: int)
    requires IsIndex(doc, i) && ShapeOf(doc[i]).Fields?
    ensures forall key :: key in doc[i].fields && IsRef(doc, doc[i].fields[key]) ==>
      Truncated(doc[i].fields[key].n) in Refs(doc, i)
  {
  }

  /** An element or a field: a reference is resolved, any other value stands for itself. */
  method ResolveValue(doc: Doc, i: int, value: Json, visited: Visited, ghost path: seq<int>)
    returns (resolved: Option<Json>)
    requires IsIndex(doc, i) && i !in Members(path) && (IsRef(doc, value) ==> Truncated(value.n) in Refs(doc, i))
    requires Trail(doc, path, i) && visited.members == Members(path) + {i}
    ensures var now := Members(path) + {i};
      resolved == if ValuePanics(doc, value, now) then None else Some(ResolvedValue(doc, value, now))
    decreases |Indices(doc) - visited.members|, 2
  {
    hide Resolve, Panics, Trail, Refs, Indices;
    if IsRef(doc, value) {
      resolved := ResolveSibling(doc, i, Truncated(value.n), visited, path);
    } else {
      resolved := Some(value);
    }
  }

  method ResolveElements(doc: Doc, i: int, visited: Visited, ghost path: seq<int>) returns (out: Option<seq<Json>>)
    requires IsIndex(doc, i) && ShapeOf(doc[i]).Sequence? && i !in Members(path)
    requires Trail(doc, path, i) && visited.members == Members(path) + {i}
    ensures (if out.None? then None else Some(Arr(out.value))) == Outcome(doc, i, Members(path))
    decreases |Indices(doc) - visited.members|, 3
  {
    ElementsRefer(doc, i);
    ghost var before := Members(path);
    var elements := doc[i].elements;
    hide *;
    var done: seq<Json> := [];
    for k := 0 to |elements|
      invariant |done| == k
      invariant forall j :: 0 <= j < k ==> done[j] == ResolvedValue(doc, elements[j], before + {i})
      invariant forall j :: 0 <= j < k ==> !ValuePanics(doc, elements[j], before + {i})
    {
      var resolved := ResolveValue(doc, i, elements[k], visited, path);
      if resolved.None? {
        ElementPanics(doc, i, before, k);
        return None;
      }
      done := done + [resolved.value];
    }
    ElementsDone(doc, i, before, done);
    out := Some(done);
  }

  lemma ElementsDone(doc: Doc, i: int, visited: set<int>, done: seq<Json>)
    requires IsIndex(doc, i) && i !in visited && ShapeOf(doc[i]).Sequence? && |done| == |doc[i].elements|
    requires forall k :: 0 <= k < |done| ==> done[k] == ResolvedValue(doc, doc[i].elements[k], visited + {i})
    requires forall k :: 0 <= k < |done| ==> !ValuePanics(doc, doc[i].elements[k], visited + {i})
    ensures Outcome(doc, i, visited) == Some(Arr(done))
  {
    ElementsDecide(doc, i, visited);
    hide Resolve, Panics, ResolvedValue, ValuePanics;
    assert Resolve(doc, i, visited).elements == done;
  }

  lemma ElementPanics(doc: Doc, i: int, visited: set<int>, k: nat)
    requires IsIndex(doc, i) && i !in visited && ShapeOf(doc[i]).Sequence? && k < |doc[i].elements|
    requires ValuePanics(doc, doc[i].elements[k], visited + {i})
    ensures Outcome(doc, i, visited) == None
  {
    ElementsDecide(doc, i, visited);
    hide Resolve, Panics, ResolvedValue, ValuePanics;
  }

  method ResolveFields(doc: Doc, i: int, visited: Visited, ghost path: seq<int>) returns (out: Option<map<string, Json>>)
    requires IsIndex(doc, i) && ShapeOf(doc[i]).Fields? && i !in Members(path)
    requires Trail(doc, path, i) && visited.members == Members(path) + {i}
    ensures (if out.None? then None else Some(Obj(out.value))) == Outcome(doc, i, Members(path))
    decreases |Indices(doc) - visited.members|, 3
  {
    FieldsRefer(doc, i);
    ghost var before := Members(path);
    var fields := doc[i].fields;
    hide *;
    var done: map<string, Json> := map[];
    var left := fields.Keys;
    while left != {}
      invariant left <= fields.Keys && done.Keys == fields.Keys - left
      invariant forall key :: key in done ==> done[key] == ResolvedValue(doc, fields[key], before + {i})
      invariant forall key :: key in done ==> !ValuePanics(doc, fields[key], before + {i})
      decreases left
    {
      var key :| key in left;
      left := left - {key};
      var resolved := ResolveValue(doc, i, fields[key], visited, path);
      if resolved.None? {
        FieldPanics(doc, i, before, key);
        return None;
      }
      done := done[key := resolved.value];
    }
    FieldsDone(doc, i, before, done);
    out := Some(done);
  }

  lemma FieldsDone(doc: Doc, i: int, visited: set<int>, done: map<string, Json>)
    requires IsIndex(doc, i) && i !in visited && ShapeOf(doc[i]).Fields? && done.Keys == doc[i].fields.Keys
    requires forall key :: key in done ==> done[key] == ResolvedValue(doc, doc[i].fields[key], visited + {i})
    requires forall key :: key in done ==> !ValuePanics(doc, doc[i].fields[key], visited + {i})
    ensures Outcome(doc, i, visited) == Some(Obj(done))
  {
    FieldsDecide(doc, i, visited);
    hide Resolve, Panics, ResolvedValue, ValuePanics;
    assert Resolve(doc, i, visited).fields == done;
  }

  lemma FieldPanics(doc: Doc, i: int, visited: set<int>, key: string)
    requires IsIndex(doc, i) && i !in visited && ShapeOf(doc[i]).Fields? && key in doc[i].fields
    requires ValuePanics(doc, doc[i].fields[key], visited + {i})
    ensures Outcome(doc, i, visited) == None
  {
    FieldsDecide(doc, i, visited);
    hide Resolve, Panics, ResolvedValue, ValuePanics;
  }

  // ----- What each kind of entry decodes to -----

  /** A wrapper stands for the entry it refers to. */
  lemma WrapperDecodes(doc: Doc, i: int, visited: set<int>, tag: string, target: real)
    requires 0 <= i < |doc| && i !in visited
    requires tag in {"ShallowReactive", "Reactive"} && doc[i] == Arr([Str(tag), Num(target)])
    ensures Outcome(doc, i, visited) == Outcome(doc, Truncated(target), visited + {i})
  {
    ResolveEdges(doc, i, visited);
  }

  /** What does not refer anywhere: an index out of range panics; an entry already being resolved and a
      scalar are answered as they are; a set is answered as an empty array. */
  lemma PlainDecodes(doc: Doc, i: int, visited: set<int>)
    ensures !(0 <= i < |doc|) ==> Outcome(doc, i, visited) == None
    ensures 0 <= i < |doc| && (i in visited || doc[i].Null? || doc[i].Bool? || doc[i].Num? || doc[i].Str?) ==>
      Outcome(doc, i, visited) == Some(doc[i])
    ensures 0 <= i < |doc| && i !in visited && doc[i].Arr? && doc[i].elements != [] && doc[i].elements[0] == Str("Set") ==>
      Outcome(doc, i, visited) == Some(Arr([]))
  {
  }

  /** A value inside a container: a number below the array's length is an index, anything else stands
      for itself. */
  ghost function ValueOutcome(doc: Doc, value: Json, visited: set<int>): Option<Json> {
    if value.Num? && Truncated(value.n) < |doc| then Outcome(doc, Truncated(value.n), visited) else Some(value)
  }

  /** Any other array decodes element by element, and panics if one of them does. */
  lemma ArrayDecodes(doc: Doc, i: int, visited: set<int>)
    requires 0 <= i < |doc| && i !in visited && doc[i].Arr?
    requires !(doc[i].elements != [] && doc[i].elements[0] == Str("Set"))
    requires !(|doc[i].elements| == 2 && doc[i].elements[1].Num?
               && doc[i].elements[0] in {Str("ShallowReactive"), Str("Reactive")})
    ensures var elements, now, outcome := doc[i].elements, visited + {i}, Outcome(doc, i, visited);
      && (outcome.None? <==> exists k :: 0 <= k < |elements| && ValueOutcome(doc, elements[k], now).None?)
      && (outcome.Some? ==> outcome.value.Arr? && |outcome.value.elements| == |elements|)
      && (outcome.Some? ==> forall k :: 0 <= k < |elements| ==>
           Some(outcome.value.elements[k]) == ValueOutcome(doc, elements[k], now))
  {
    ElementsDecide(doc, i, visited);
    forall k | 0 <= k < |doc[i].elements| {
      ValueOutcomeIs(doc, doc[i].elements[k], visited + {i});
    }
    hide Resolve, Panics, ValuePanics, ResolvedValue, ValueOutcome;
  }

  /** An object decodes field by field, and panics if one of them does. */
  lemma ObjectDecodes(doc: Doc, i: int, visited: set<int>)
    requires 0 <= i < |doc| && i !in visited && doc[i].Obj?
    ensures var fields, now, outcome := doc[i].fields, visited + {i}, Outcome(doc, i, visited);
      && (outcome.None? <==> exists key :: key in fields && ValueOutcome(doc, fields[key], now).None?)
      && (outcome.Some? ==> outcome.value.Obj? && outcome.value.fields.Keys == fields.Keys)
      && (outcome.Some? ==> forall key :: key in fields ==>
           Some(outcome.value.fields[key]) == ValueOutcome(doc, fields[key], now))
  {
    FieldsDecide(doc, i, visited);
    forall key | key in doc[i].fields {
      ValueOutcomeIs(doc, doc[i].fields[key], visited + {i});
    }
    hide Resolve, Panics, ValuePanics, ResolvedValue, ValueOutcome;
  }

  lemma ValueOutcomeIs(doc: Doc, value: Json, now: set<int>)
    ensures ValueOutcome(doc, value, now) ==
      if ValuePanics(doc, value, now) then None else Some(ResolvedValue(doc, value, now))
  {
  }

  // ----- Searching for an object by key -----

  datatype Search = Found(fields: map<string, Json>) | NotFound | Panicked

  /** Entry `i` has the key, it has the prefix, and it refers to index `target`. */
  ghost predicate Points(doc: Doc, prefix: string, i: int, key: string, target: int) {
    && IsIndex(doc, i) && doc[i].Obj? && key in doc[i].fields && prefix <= key
    && doc[i].fields[key].Num? && target == Truncated(doc[i].fields[key].n)
  }

  /** Some such key of entry `i` refers to an object that resolves to `found`. */
  ghost predicate Answers(doc: Doc, prefix: string, i: int, found: map<string, Json>) {
    exists key, target :: Points(doc, prefix, i, key, target) && Outcome(doc, target, {}) == Some(Obj(found))
  }

  ghost predicate PanicsAt(doc: Doc, prefix: string, i: int) {
    exists key, target :: Points(doc, prefix, i, key, target) && Panics(doc, target, {})
  }

  /** Every such key of entry `i` resolves, and to no object. */
  ghost predicate PassesOver(doc: Doc, prefix: string, i: int) {
    !PanicsAt(doc, prefix, i) && forall found :: !Answers(doc, prefix, i, found)
  }

  /** The search stops at the earliest entry that has an answer or panics, and looks through the keys
      of an entry in any order. */
  method FindObjectWithKey(doc: Doc, prefix: string) returns (search: Search)
    ensures match search
      case Found(found) => exists i ::
        Answers(doc, prefix, i, found) && forall j :: 0 <= j < i ==> PassesOver(doc, prefix, j)
      case Panicked => exists i ::
        PanicsAt(doc, prefix, i) && forall j :: 0 <= j < i ==> PassesOver(doc, prefix, j)
      case NotFound => forall i :: 0 <= i < |doc| ==> PassesOver(doc, prefix, i)
  {
    hide Resolve, Panics;
    for i := 0 to |doc|
      invariant forall j :: 0 <= j < i ==> PassesOver(doc, prefix, j)
    {
      if doc[i].Obj? {
        var fields := doc[i].fields;
        var left := fields.Keys;
        while left != {}
          invariant left <= fields.Keys
          invariant forall key, target :: key in fields.Keys - left && Points(doc, prefix, i, key, target) ==>
            Outcome(doc, target, {}).Some? && !Outcome(doc, target, {}).value.Obj?
          decreases left
        {
          var key :| key in left;
          left := left - {key};
          if prefix <= key && fields[key].Num? {
            var target := Truncated(fields[key].n);
            assert Points(doc, prefix, i, key, target);
            var visited := new Visited({});
            assert Members([]) == {};
            var value := ResolveInPlace(doc, target, visited, []);
            if value.None? {
              assert PanicsAt(doc, prefix, i);
              return Panicked;
            }
            if value.value.Obj? {
              assert Answers(doc, prefix, i, value.value.fields);
              return Found(value.value.fields);
            }
          }
        }
      }
    }
    return NotFound;
  }
}
