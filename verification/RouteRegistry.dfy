/** Route registration: a table by path beside one list of routes per namespace. */
module RouteRegistry {
  import opened Wrappers

  datatype Route = Route(path: string, name: string)

  // ----- Namespaces of paths -----

  /** The position of the first slash, or -1. */
  function IndexOfSlash(s: string): (i: int)
    ensures -1 <= i < |s|
    ensures i >= 0 ==> s[i] == '/' && '/' !in s[..i]
    ensures i == -1 ==> '/' !in s
  {
    if s == "" then -1
    else if s[0] == '/' then 0
    else
      var i := IndexOfSlash(s[1..]);
      assert i >= 0 ==> s[..i + 1] == [s[0]] + s[1..][..i];
      if i == -1 then -1 else i + 1
  }

  /** The first path segment, one leading slash aside: it ends at the next slash or with the path. A
      path that still starts with a slash is its own namespace. */
  function FirstSegment(path: string): (segment: string)
    ensures var rest := if "/" <= path then path[1..] else path;
      if "/" <= rest then segment == rest
      else '/' !in segment && (segment == rest || segment + "/" <= rest)
  {
    var rest := if path != "" && path[0] == '/' then path[1..] else path;
    var slash := IndexOfSlash(rest);
    if slash > 0 then rest[..slash] else rest
  }

  // ----- What a registration order determines -----

  function ByPath(order: seq<Route>): map<string, Route> {
    if order == [] then map[]
    else ByPath(order[..|order| - 1])[order[|order| - 1].path := order[|order| - 1]]
  }

  function InNamespace(order: seq<Route>, namespace: string): seq<Route> {
    if order == [] then []
    else
      var last := order[|order| - 1];
      InNamespace(order[..|order| - 1], namespace) + (if FirstSegment(last.path) == namespace then [last] else [])
  }

  function Names(order: seq<Route>): set<string> {
    if order == [] then {} else Names(order[..|order| - 1]) + {FirstSegment(order[|order| - 1].path)}
  }

  /** The routes of a list that are the first with their path. */
  function FirstByPath(routes: seq<Route>): seq<Route> {
    if routes == [] then []
    else
      var before := FirstByPath(routes[..|routes| - 1]);
      if routes[|routes| - 1].path in ByPath(before) then before else before + [routes[|routes| - 1]]
  }

  ghost predicate DistinctPaths(order: seq<Route>) {
    forall i, j :: 0 <= i < j < |order| ==> order[i].path != order[j].path
  }

  ghost predicate HasPath(order: seq<Route>, path: string) {
    exists i :: 0 <= i < |order| && order[i].path == path
  }

  lemma {:induction false} ByPathKeys(order: seq<Route>)
    ensures forall path :: path in ByPath(order) <==> HasPath(order, path)
  {
    if order != [] {
      var n := |order| - 1;
      ByPathKeys(order[..n]);
      forall path ensures HasPath(order, path) <==> HasPath(order[..n], path) || path == order[n].path {
        if HasPath(order, path) {
          var i :| 0 <= i < |order| && order[i].path == path;
          assert i < n ==> order[..n][i].path == path;
        }
        if HasPath(order[..n], path) {
          var i :| 0 <= i < n && order[..n][i].path == path;
          assert order[i].path == path;
        }
      }
    }
  }

  lemma {:induction false} ByPathValues(order: seq<Route>)
    requires DistinctPaths(order)
    ensures forall i :: 0 <= i < |order| ==> order[i].path in ByPath(order) && ByPath(order)[order[i].path] == order[i]
  {
    if order != [] {
      var n := |order| - 1;
      ByPathValues(order[..n]);
      forall i | 0 <= i < n ensures order[i].path in ByPath(order) && ByPath(order)[order[i].path] == order[i] {
        assert order[..n][i] == order[i];
      }
    }
  }

  lemma {:induction false} ByPathSize(order: seq<Route>)
    requires DistinctPaths(order)
    ensures |ByPath(order)| == |order|
  {
    if order != [] {
      var n := |order| - 1;
      ByPathSize(order[..n]);
      ByPathKeys(order[..n]);
      assert order[n].path !in ByPath(order[..n]);
    }
  }

  lemma ByPathLookup(order: seq<Route>)
    requires DistinctPaths(order)
    ensures forall path :: path in ByPath(order) <==> HasPath(order, path)
    ensures forall i :: 0 <= i < |order| ==> order[i].path in ByPath(order) && ByPath(order)[order[i].path] == order[i]
    ensures |ByPath(order)| == |order|
  {
    ByPathKeys(order);
    ByPathValues(order);
    ByPathSize(order);
  }

  lemma DistinctBefore(before: seq<Route>, last: Route)
    requires DistinctPaths(before + [last])
    ensures DistinctPaths(before) && last !in before
  {
    var all := before + [last];
    assert forall i :: 0 <= i < |before| ==> all[i] == before[i] && all[i].path != all[|before|].path;
  }

  /** A namespace's list goes through the order route by route. */
  lemma {:induction false} NamespaceGoesThrough(a: seq<Route>, b: seq<Route>, route: Route, namespace: string)
    ensures InNamespace(a + b, namespace) == InNamespace(a, namespace) + InNamespace(b, namespace)
    ensures InNamespace([route], namespace) == if FirstSegment(route.path) == namespace then [route] else []
  {
    assert [route][..0] == [];
    if b == [] {
      assert a + b == a;
    } else {
      var n := |b| - 1;
      NamespaceGoesThrough(a, b[..n], route, namespace);
      assert (a + b)[..|a| + n] == a + b[..n] && (a + b)[|a| + n] == b[n];
    }
  }

  ghost predicate HasNamespace(order: seq<Route>, name: string) {
    exists i :: 0 <= i < |order| && FirstSegment(order[i].path) == name
  }

  lemma HasNamespaceSnoc(before: seq<Route>, last: Route, name: string)
    ensures HasNamespace(before + [last], name) <==> HasNamespace(before, name) || FirstSegment(last.path) == name
  {
    var all := before + [last];
    assert all[|before|] == last;
    if i :| 0 <= i < |before| && FirstSegment(before[i].path) == name {
      assert all[i] == before[i];
    }
  }

  /** The namespaces are the first segments of the routes. */
  lemma {:induction false} NamesAre(order: seq<Route>, name: string)
    ensures name in Names(order) <==> HasNamespace(order, name)
  {
    if order != [] {
      var before, last := order[..|order| - 1], order[|order| - 1];
      assert order == before + [last];
      NamesAre(before, name);
      HasNamespaceSnoc(before, last, name);
      hide HasNamespace, FirstSegment;
    }
  }

  lemma InNamespaceSnoc(before: seq<Route>, last: Route, namespace: string)
    ensures InNamespace(before + [last], namespace) ==
      InNamespace(before, namespace) + (if FirstSegment(last.path) == namespace then [last] else [])
  {
    assert (before + [last])[..|before|] == before;
  }

  /** A route is listed once under its own namespace and nowhere else. */
  lemma {:induction false} ListedOnce(order: seq<Route>, namespace: string, route: Route)
    requires DistinctPaths(order)
    ensures multiset(InNamespace(order, namespace))[route]
         == if route in order && FirstSegment(route.path) == namespace then 1 else 0
  {
    if order != [] {
      hide *;
      var before, last := order[..|order| - 1], order[|order| - 1];
      assert order == before + [last];
      DistinctBefore(before, last);
      ListedOnce(before, namespace, route);
      InNamespaceSnoc(before, last, namespace);
    }
  }

  /** No earlier route of the list has the path of route `i`. */
  ghost predicate IsFirst(routes: seq<Route>, i: int) {
    0 <= i < |routes| && forall j :: 0 <= j < i ==> routes[j].path != routes[i].path
  }

  ghost predicate ComesFirst(routes: seq<Route>, route: Route) {
    exists i :: IsFirst(routes, i) && routes[i] == route
  }

  /** Exactly the routes that come first with their path are kept. */
  lemma {:induction false} FirstOfEachPath(routes: seq<Route>)
    ensures DistinctPaths(FirstByPath(routes))
    ensures forall route :: route in FirstByPath(routes) <==> ComesFirst(routes, route)
    ensures forall path :: HasPath(FirstByPath(routes), path) <==> HasPath(routes, path)
  {
    if routes != [] {
      var n := |routes| - 1;
      var before := FirstByPath(routes[..n]);
      FirstOfEachPath(routes[..n]);
      ByPathKeys(before);
      HasPathSnoc(routes[..n], routes[n]);
      HasPathSnoc(before, routes[n]);
      FirstSnoc(routes[..n], routes[n]);
      assert routes == routes[..n] + [routes[n]];
      hide ComesFirst, HasPath, ByPath;
      if routes[n].path !in ByPath(before) {
        DistinctSnoc(before, routes[n]);
      }
    }
  }

  lemma DistinctSnoc(order: seq<Route>, route: Route)
    requires DistinctPaths(order) && !HasPath(order, route.path)
    ensures DistinctPaths(order + [route])
  {
    assert forall i :: 0 <= i < |order| ==> order[i].path != route.path;
  }

  lemma HasPathSnoc(routes: seq<Route>, route: Route)
    ensures forall path :: HasPath(routes + [route], path) <==> HasPath(routes, path) || path == route.path
  {
    var all := routes + [route];
    assert all[|routes|] == route;
    forall path | HasPath(routes, path) ensures HasPath(all, path) {
      var i :| 0 <= i < |routes| && routes[i].path == path;
      assert all[i].path == path;
    }
  }

  lemma FirstSnoc(routes: seq<Route>, route: Route)
    ensures forall other :: ComesFirst(routes + [route], other) <==>
      ComesFirst(routes, other) || (other == route && !HasPath(routes, route.path))
  {
    var all := routes + [route];
    assert forall j :: 0 <= j < |routes| ==> all[j] == routes[j];
    forall i | 0 <= i < |routes| ensures IsFirst(all, i) <==> IsFirst(routes, i) {
    }
    assert IsFirst(all, |routes|) <==> !HasPath(routes, route.path);
    forall other | ComesFirst(routes, other) ensures ComesFirst(all, other) {
      var i :| IsFirst(routes, i) && routes[i] == other;
      assert IsFirst(all, i) && all[i] == other;
    }
  }

  // ----- Lengths -----

  ghost function SumOver(names: set<string>, f: string -> nat): nat {
    if names == {} then 0
    else
      var name :| name in names;
      f(name) + SumOver(names - {name}, f)
  }

  lemma {:induction false} SumSplits(names: set<string>, f: string -> nat, name: string)
    requires name in names
    ensures SumOver(names, f) == f(name) + SumOver(names - {name}, f)
    decreases |names|
  {
    var picked :| picked in names && SumOver(names, f) == f(picked) + SumOver(names - {picked}, f);
    if picked != name {
      SumSplits(names - {picked}, f, name);
      SumSplits(names - {name}, f, picked);
      assert names - {picked} - {name} == names - {name} - {picked};
    }
  }

  lemma {:induction false} SumSame(names: set<string>, f: string -> nat, g: string -> nat)
    requires forall name :: name in names ==> f(name) == g(name)
    ensures SumOver(names, f) == SumOver(names, g)
    decreases |names|
  {
    if names != {} {
      var name :| name in names;
      SumSplits(names, f, name);
      SumSplits(names, g, name);
      SumSame(names - {name}, f, g);
    }
  }

  function LengthIn(order: seq<Route>): string -> nat {
    name => |InNamespace(order, name)|
  }

  lemma {:induction false} AbsentIsEmpty(order: seq<Route>, name: string)
    requires name !in Names(order)
    ensures InNamespace(order, name) == []
  {
    if order != [] {
      AbsentIsEmpty(order[..|order| - 1], name);
    }
  }

  /** The lists together are as long as the order. */
  lemma {:induction false} LengthsSum(order: seq<Route>)
    ensures SumOver(Names(order), LengthIn(order)) == |order|
  {
    if order != [] {
      var n := |order| - 1;
      var before, name := order[..n], FirstSegment(order[n].path);
      LengthsSum(before);
      SumSplits(Names(order), LengthIn(order), name);
      SumSame(Names(order) - {name}, LengthIn(order), LengthIn(before));
      if name in Names(before) {
        assert Names(order) == Names(before);
        SumSplits(Names(before), LengthIn(before), name);
      } else {
        AbsentIsEmpty(before, name);
        assert Names(order) - {name} == Names(before);
      }
    }
  }

  /** What one more route does to each view of an order. */
  lemma Appended(order: seq<Route>, route: Route)
    requires DistinctPaths(order) && route.path !in ByPath(order)
    ensures DistinctPaths(order + [route])
    ensures ByPath(order + [route]) == ByPath(order)[route.path := route]
    ensures Names(order + [route]) == Names(order) + {FirstSegment(route.path)}
    ensures forall name ::
      InNamespace(order + [route], name) == InNamespace(order, name) + (if FirstSegment(route.path) == name then [route] else [])
  {
    ByPathLookup(order);
    assert (order + [route])[..|order|] == order;
  }

  /** The namespace lists partition the table: a route is in the list of a namespace, and then once,
      exactly when it is the table's route for its path and the namespace is its first segment; the
      lengths of the lists add up to the size of the table. */
  lemma ListsPartitionTable(order: seq<Route>, namespace: string, route: Route)
    requires DistinctPaths(order)
    ensures multiset(InNamespace(order, namespace))[route]
         == if route.path in ByPath(order) && ByPath(order)[route.path] == route && FirstSegment(route.path) == namespace
            then 1 else 0
    ensures SumOver(Names(order), LengthIn(order)) == |ByPath(order)|
  {
    ListedOnce(order, namespace, route);
    ByPathLookup(order);
    LengthsSum(order);
    if route in order {
      var i :| 0 <= i < |order| && order[i] == route;
    }
  }

  /** `result` holds the table's route of each of `paths` once, and nothing else. */
  ghost predicate ListsOnce(result: seq<Route>, table: map<string, Route>, paths: set<string>) {
    forall route :: multiset(result)[route] ==
      (if route.path in paths && route.path in table && table[route.path] == route then 1 else 0)
  }

  lemma ListOneMore(result: seq<Route>, table: map<string, Route>, paths: set<string>, path: string)
    requires ListsOnce(result, table, paths) && path in table && path !in paths && table[path].path == path
    ensures ListsOnce(result + [table[path]], table, paths + {path})
  {
  }

  lemma ByPathPaths(order: seq<Route>)
    requires DistinctPaths(order)
    ensures forall path :: path in ByPath(order) ==> ByPath(order)[path].path == path
  {
    ByPathLookup(order);
    forall path | path in ByPath(order) ensures ByPath(order)[path].path == path {
      var i :| 0 <= i < |order| && order[i].path == path;
    }
  }

  lemma OnceIsSame(result: seq<Route>, order: seq<Route>)
    requires DistinctPaths(order) && ListsOnce(result, ByPath(order), ByPath(order).Keys)
    ensures multiset(result) == multiset(order)
  {
    forall route ensures multiset(result)[route] == multiset(order)[route] {
      OrderedOnce(order, route);
    }
  }

  // ----- The registry -----

  class Namespace {
    var name: string
    var routes: seq<Route>

    constructor (name: string, routes: seq<Route>)
      ensures this.name == name && this.routes == routes
    {
      this.name := name;
      this.routes := routes;
    }
  }

  class Registry {
    var routes: map<string, Route>
    var namespaces: map<string, Namespace>
    /** The accepted routes in the order of their registration. */
    ghost var order: seq<Route>

    ghost predicate Valid()
      reads this, namespaces.Values
    {
      && DistinctPaths(order)
      && routes == ByPath(order)
      && ListsAgree(order)
    }

    /** There is one list for each namespace of the order, holding its routes. */
    ghost predicate ListsAgree(order: seq<Route>)
      reads this`namespaces, namespaces.Values
    {
      && namespaces.Keys == Names(order)
      && (forall a, b :: a in namespaces && b in namespaces && a != b ==> namespaces[a] != namespaces[b])
      && (forall name :: name in namespaces ==>
           namespaces[name].name == name && namespaces[name].routes == InNamespace(order, name))
    }

    constructor ()
      ensures Valid() && order == []
    {
      routes := map[];
      namespaces := map[];
      order := [];
    }

    /** A new path is added to the table and to the end of its namespace's list; a path already
        registered changes nothing. */
    method Register(route: Route) returns (ok: bool)
      requires Valid()
      modifies this, namespaces.Values
      ensures Valid() && fresh(namespaces.Values - old(namespaces.Values))
      ensures ok <==> route.path !in old(routes)
      ensures ok ==> order == old(order) + [route]
      ensures !ok ==> unchanged(this) && forall name :: name in namespaces ==> unchanged(namespaces[name])
    {
      hide ByPath, Names, InNamespace, DistinctPaths, FirstSegment, ListsAgree;
      var key := route.path;
      if key in routes {
        return false;
      }
      Appended(order, route);
      var namespace := FirstSegment(route.path);
      routes := routes[key := route];
      ghost var before := order;
      order := order + [route];
      AddToNamespace(namespace, route, before);
      ok := true;
    }

    /** The route goes to the end of its namespace's list, which is new if there was none. */
    method AddToNamespace(namespace: string, route: Route, ghost before: seq<Route>)
      requires ListsAgree(before) && namespace == FirstSegment(route.path)
      requires Names(before + [route]) == Names(before) + {namespace}
      requires forall name ::
        InNamespace(before + [route], name) == InNamespace(before, name) + (if FirstSegment(route.path) == name then [route] else [])
      modifies this`namespaces, namespaces.Values
      ensures ListsAgree(before + [route]) && fresh(namespaces.Values - old(namespaces.Values))
    {
      hide Names, InNamespace, FirstSegment;
      if namespace in namespaces {
        var ns := namespaces[namespace];
        ns.routes := ns.routes + [route];
      } else {
        AbsentIsEmpty(before, namespace);
        assert InNamespace(before + [route], namespace) == [route];
        var ns := new Namespace(namespace, [route]);
        namespaces := namespaces[namespace := ns];
      }
    }

    function GetRoute(path: string): (route: Option<Route>)
      requires Valid()
      reads this, namespaces.Values
      ensures route.Some? ==> route.value in order && route.value.path == path
      ensures route.None? ==> forall i :: 0 <= i < |order| ==> order[i].path != path
    {
      ByPathLookup(order);
      if path in routes then Some(routes[path]) else None
    }

    /** The registered routes of a namespace, in the order of their registration. */
    method GetNamespaceRoutes(namespace: string) returns (result: seq<Route>)
      requires Valid()
      ensures result == InNamespace(order, namespace)
    {
      if namespace in namespaces {
        return namespaces[namespace].routes;
      }
      AbsentIsEmpty(order, namespace);
      result := [];
    }

    /** Every registered route once, in no particular order. */
    method GetAllRoutes() returns (result: seq<Route>)
      requires Valid()
      ensures multiset(result) == multiset(order)
    {
      hide ByPath, DistinctPaths;
      result := [];
      var left := routes.Keys;
      ByPathPaths(order);
      while left != {}
        invariant left <= routes.Keys
        invariant ListsOnce(result, routes, routes.Keys - left)
        decreases left
      {
        var path :| path in left;
        ListOneMore(result, routes, routes.Keys - left, path);
        left := left - {path};
        result := result + [routes[path]];
        assert routes.Keys - left == routes.Keys - (left + {path}) + {path};
      }
      OnceIsSame(result, order);
    }

    /** Every namespace once, each with its routes. */
    method GetAllNamespaces() returns (result: seq<Namespace>)
      requires Valid()
      ensures forall i :: 0 <= i < |result| ==> result[i].routes == InNamespace(order, result[i].name)
      ensures forall i, j :: 0 <= i < j < |result| ==> result[i].name != result[j].name
      ensures forall name :: name in Names(order) <==> exists i :: 0 <= i < |result| && result[i].name == name
    {
      hide ByPath, DistinctPaths, Names, InNamespace;
      result := [];
      var left := namespaces.Keys;
      while left != {}
        invariant left <= namespaces.Keys
        invariant forall i :: 0 <= i < |result| ==>
          result[i].name in namespaces.Keys - left && result[i] == namespaces[result[i].name]
        invariant forall i, j :: 0 <= i < j < |result| ==> result[i].name != result[j].name
        invariant forall name :: name in namespaces.Keys - left ==> namespaces[name] in result
        decreases left
      {
        var name :| name in left;
        left := left - {name};
        result := result + [namespaces[name]];
      }
      forall name | name in Names(order) ensures exists i :: 0 <= i < |result| && result[i].name == name {
        assert namespaces[name] in result && namespaces[name].name == name;
      }
    }

    /** Registering a list keeps the first route of every path. */
    method RegisterAll(list: seq<Route>) returns (accepted: nat)
      requires Valid() && order == []
      modifies this, namespaces.Values
      ensures Valid() && order == FirstByPath(list) && accepted == |order|
    {
      accepted := 0;
      for i := 0 to |list|
        invariant Valid() && order == FirstByPath(list[..i]) && accepted == |order|
        invariant fresh(namespaces.Values - old(namespaces.Values))
      {
        assert list[..i + 1][..i] == list[..i];
        var ok := Register(list[i]);
        accepted := if ok then accepted + 1 else accepted;
      }
      assert list[..|list|] == list;
    }
  }

  lemma {:induction false} OrderedOnce(order: seq<Route>, route: Route)
    requires DistinctPaths(order)
    ensures multiset(order)[route] == if route.path in ByPath(order) && ByPath(order)[route.path] == route then 1 else 0
  {
    ByPathLookup(order);
    if order != [] {
      var n := |order| - 1;
      OrderedOnce(order[..n], route);
      ByPathLookup(order[..n]);
      assert order == order[..n] + [order[n]];
    }
  }
}
