/**
 Registration and dispatch (src/router.cpp). The exact-path index and the compiled
 segments are proved to answer as the declarative match over all routes does:
 literal routes first, then dynamic ones, each in the order of registration.
 */
module Routing {
  import opened Text
  import opened RoutePatterns
  import opened Messages

  datatype Route = Route(methods: set<Method>, pattern: string, segments: seq<Segment>, hasWildcard: bool, handler: nat)

  /** A literal prefix ending in a slash, and the paths of its assets. */
  datatype Mount = Mount(prefix: string, assets: set<string>)

  datatype RouteError =
    | NoMethod
    | EmptyHandler
    | InvalidPattern
    | AlreadyRegistered
    | MountNotRooted
    | MountNotLiteral
    | FallbackAlreadySet

  datatype Outcome = Done | Failed(error: RouteError)

  const GET_AND_HEAD: set<Method> := {Method.Get, Method.Head}

  datatype Answer =
    | Handled(route: nat, captures: seq<(string, string)>)
    | Asset(mount: nat, name: string)
    | NotAllowed(allowed: set<Method>)
    | Fallback(handler: nat)
    | NotFound

  // ----------------------------------------------------------------- declaration

  predicate RouteOk(r: Route) {
    && ValidPattern(r.pattern) && r.methods != {}
    && (r.hasWildcard <==> EndsOpen(Pieces(r.pattern)))
    && r.segments == if IsDynamic(r.pattern) then Compiled(Pieces(r.pattern)) else []
  }

  predicate MountOk(m: Mount) { m.prefix != "" && m.prefix[|m.prefix| - 1] == SLASH }

  /** What was registered. Nothing here mentions the index or the compiled segments. */
  datatype Table = Table(routes: seq<Route>, mounts: seq<Mount>, fallback: Option<nat>)

  predicate TableOk(t: Table) {
    && (forall i :: 0 <= i < |t.routes| ==> RouteOk(t.routes[i]))
    && (forall i :: 0 <= i < |t.mounts| ==> MountOk(t.mounts[i]))
  }

  /** Route `i` answers this method on this path. */
  predicate Takes(t: Table, i: nat, path: string, verb: Method)
    requires TableOk(t)
  {
    i < |t.routes| && Matches(t.routes[i].pattern, path) && verb in t.routes[i].methods
  }

  /** Literal routes come before dynamic ones; otherwise the earlier registration wins. */
  predicate Precedes(t: Table, i: nat, j: nat)
    requires TableOk(t) && i < |t.routes| && j < |t.routes|
  {
    var (a, b) := (IsDynamic(t.routes[i].pattern), IsDynamic(t.routes[j].pattern));
    (!a && b) || (a == b && i <= j)
  }

  /** The asset a mount serves for a path: under its full name or relative to the mount. */
  function AssetFor(m: Mount, path: string): Option<string>
    requires MountOk(m)
  {
    if !Prefix(m.prefix, path) then None
    else if path in m.assets then Some(path)
    else if path[|m.prefix| - 1..] in m.assets then Some(path[|m.prefix| - 1..])
    else None
  }

  predicate Serves(t: Table, k: nat, path: string)
    requires TableOk(t)
  {
    k < |t.mounts| && AssetFor(t.mounts[k], path).Some?
  }

  /** Some route or mount would answer the method on this path. */
  ghost predicate Reaches(t: Table, path: string, verb: Method)
    requires TableOk(t)
  {
    (exists i :: Takes(t, i, path, verb)) || (verb in GET_AND_HEAD && exists k :: Serves(t, k, path))
  }

  /** The answer the registrations call for. */
  ghost predicate Right(t: Table, path: string, verb: Method, a: Answer)
    requires TableOk(t)
  {
    match a
    case Handled(i, captures) =>
      && Takes(t, i, path, verb)
      && captures == Captures(t.routes[i].pattern, path)
      && forall j {:trigger Takes(t, j, path, verb)} :: Takes(t, j, path, verb) ==> Precedes(t, i, j)
    case Asset(k, name) =>
      && (forall i {:trigger Takes(t, i, path, verb)} :: !Takes(t, i, path, verb))
      && verb in GET_AND_HEAD && Serves(t, k, path) && AssetFor(t.mounts[k], path) == Some(name)
      && forall j :: 0 <= j < k ==> !Serves(t, j, path)
    case NotAllowed(allowed) =>
      && !Reaches(t, path, verb) && allowed != {}
      && forall m :: m in allowed <==> Reaches(t, path, m)
    case Fallback(handler) => t.fallback == Some(handler) && forall m :: !Reaches(t, path, m)
    case NotFound => t.fallback.None? && forall m :: !Reaches(t, path, m)
  }

  /** A request has one right answer. */
  lemma AnswerIsUnique(t: Table, path: string, verb: Method, a: Answer, b: Answer)
    requires TableOk(t) && Right(t, path, verb, a) && Right(t, path, verb, b)
    ensures a == b
  {
    assert !a.Handled? && !a.Asset? <==> !Reaches(t, path, verb);
    assert !b.Handled? && !b.Asset? <==> !Reaches(t, path, verb);
    if a.NotAllowed? {
      var m :| m in a.allowed;
      assert Reaches(t, path, m);
      if b.NotAllowed? {
        assert a.allowed == b.allowed;
      }
    }
    if b.NotAllowed? {
      var m :| m in b.allowed;
      assert Reaches(t, path, m);
    }
  }

  /** The Allow field of a 405 holds exactly the methods that would reach a handler or an asset on that path. */
  lemma AllowIsExact(t: Table, path: string, refused: Method, a: Answer, other: Method, b: Answer)
    requires TableOk(t) && Right(t, path, refused, a) && a.NotAllowed? && Right(t, path, other, b)
    ensures other in a.allowed <==> b.Handled? || b.Asset?
  {}

  /** No two registrations of one pattern share a method. */
  ghost predicate NoOverlap(t: Table) {
    forall i, j :: 0 <= i < j < |t.routes| && t.routes[i].pattern == t.routes[j].pattern ==>
      t.routes[i].methods !! t.routes[j].methods
  }

  /** No registration shadows a literal one: asked for its own pattern, the router answers with it. */
  lemma LiteralRoutesAreNotShadowed(t: Table, i: nat, verb: Method, a: Answer)
    requires TableOk(t) && NoOverlap(t) && i < |t.routes| && !IsDynamic(t.routes[i].pattern)
    requires verb in t.routes[i].methods && Right(t, t.routes[i].pattern, verb, a)
    ensures a == Handled(i, [])
  {
    var path := t.routes[i].pattern;
    LiteralMatchIsEquality(path, path);
    assert Takes(t, i, path, verb);
    assert Reaches(t, path, verb);
    assert !IsDynamic(t.routes[a.route].pattern);
    LiteralMatchIsEquality(t.routes[a.route].pattern, path);
    assert a.route == i;
  }

  // ------------------------------------------------------------------ index lists

  predicate Sorted(s: seq<nat>) { forall i, j :: 0 <= i < j < |s| ==> s[i] < s[j] }

  /** The route is of this kind and, when a pattern is asked for, was registered under it. */
  predicate Fits(r: Route, dynamic: bool, key: Option<string>) {
    Rooted(r.pattern) && IsDynamic(r.pattern) == dynamic && (key.Some? ==> r.pattern == key.value)
  }

  predicate Wanted(routes: seq<Route>, i: nat, dynamic: bool, key: Option<string>) {
    i < |routes| && Fits(routes[i], dynamic, key)
  }

  /** All wanted routes, in the order of registration. */
  ghost predicate Lists(routes: seq<Route>, list: seq<nat>, dynamic: bool, key: Option<string>) {
    && Sorted(list)
    && (forall p :: 0 <= p < |list| ==> Wanted(routes, list[p], dynamic, key))
    && (forall i: nat {:trigger i in list} :: Wanted(routes, i, dynamic, key) ==> i in list)
  }

  lemma ListsSkip(routes: seq<Route>, list: seq<nat>, dynamic: bool, key: Option<string>, route: Route)
    requires Lists(routes, list, dynamic, key) && !Fits(route, dynamic, key)
    ensures Lists(routes + [route], list, dynamic, key)
  {
    forall i: nat | Wanted(routes + [route], i, dynamic, key) ensures i in list {
      assert Wanted(routes, i, dynamic, key);
    }
  }

  lemma ListsAppend(routes: seq<Route>, list: seq<nat>, dynamic: bool, key: Option<string>, route: Route)
    requires Lists(routes, list, dynamic, key) && Fits(route, dynamic, key)
    ensures Lists(routes + [route], list + [|routes|], dynamic, key)
  {
    var longer := list + [|routes|];
    forall p | 0 <= p < |list| ensures list[p] < |routes| && longer[p] == list[p] {
      assert Wanted(routes, list[p], dynamic, key);
    }
    forall p | 0 <= p < |longer| ensures Wanted(routes + [route], longer[p], dynamic, key) {
      if p < |list| { assert Wanted(routes, list[p], dynamic, key); }
    }
    forall i: nat | Wanted(routes + [route], i, dynamic, key) ensures i in longer {
      if i < |routes| {
        assert Wanted(routes, i, dynamic, key);
        assert i in list;
      } else {
        assert longer[|list|] == i;
      }
    }
  }

  /** One of the first `k` listed routes matches the path and has the method. */
  ghost predicate Offered(routes: seq<Route>, list: seq<nat>, k: nat, path: string, verb: Method)
    requires k <= |list| && forall p :: 0 <= p < |list| ==> list[p] < |routes| && Rooted(routes[list[p]].pattern)
  {
    exists p :: 0 <= p < k && Matches(routes[list[p]].pattern, path) && verb in routes[list[p]].methods
  }

  /** The routes of one kind that answer, or the methods they would answer. */
  ghost predicate Searched(t: Table, dynamic: bool, path: string, verb: Method, hit: Option<nat>, allowed: set<Method>)
    requires TableOk(t)
  {
    if hit.Some? then
      && Takes(t, hit.value, path, verb) && IsDynamic(t.routes[hit.value].pattern) == dynamic
      && forall j: nat {:trigger Takes(t, j, path, verb)} ::
           Takes(t, j, path, verb) && IsDynamic(t.routes[j].pattern) == dynamic ==> hit.value <= j
    else
      && verb !in allowed
      && forall m :: m in allowed <==> exists j: nat :: Takes(t, j, path, m) && IsDynamic(t.routes[j].pattern) == dynamic
  }

  /** A list that has every matching route of a kind. */
  ghost predicate Covers(t: Table, list: seq<nat>, dynamic: bool, path: string)
    requires TableOk(t)
  {
    && Sorted(list)
    && (forall p :: 0 <= p < |list| ==> Wanted(t.routes, list[p], dynamic, None))
    && (forall i: nat {:trigger i in list} ::
         Wanted(t.routes, i, dynamic, None) && Matches(t.routes[i].pattern, path) ==> i in list)
  }

  lemma OfferedStep(routes: seq<Route>, list: seq<nat>, k: nat, path: string, verb: Method)
    requires k < |list| && forall p :: 0 <= p < |list| ==> list[p] < |routes| && Rooted(routes[list[p]].pattern)
    ensures Offered(routes, list, k + 1, path, verb) <==>
            || Offered(routes, list, k, path, verb)
            || (Matches(routes[list[k]].pattern, path) && verb in routes[list[k]].methods)
  {}

  /** The first listed route that takes the request is the first registered one of its kind. */
  lemma FirstListed(t: Table, list: seq<nat>, dynamic: bool, path: string, verb: Method, k: nat)
    requires TableOk(t) && Covers(t, list, dynamic, path) && k < |list|
    requires !Offered(t.routes, list, k, path, verb)
    requires Matches(t.routes[list[k]].pattern, path) && verb in t.routes[list[k]].methods
    ensures Searched(t, dynamic, path, verb, Some(list[k]), {})
  {
    assert forall q :: 0 <= q < k ==> !(Matches(t.routes[list[q]].pattern, path) && verb in t.routes[list[q]].methods);
    forall j: nat | Takes(t, j, path, verb) && IsDynamic(t.routes[j].pattern) == dynamic ensures list[k] <= j {
      assert Wanted(t.routes, j, dynamic, None);
      assert j in list;
      var p :| 0 <= p < |list| && list[p] == j;
      assert k <= p;
    }
  }

  /** No listed route takes it: the methods on offer are those of all matching routes of the kind. */
  lemma AllListed(t: Table, list: seq<nat>, dynamic: bool, path: string, verb: Method, allowed: set<Method>)
    requires TableOk(t) && Covers(t, list, dynamic, path) && verb !in allowed
    requires forall m :: m in allowed <==> Offered(t.routes, list, |list|, path, m)
    ensures Searched(t, dynamic, path, verb, None, allowed)
  {
    forall m ensures m in allowed <==> exists j: nat :: Takes(t, j, path, m) && IsDynamic(t.routes[j].pattern) == dynamic {
      if m in allowed {
        var p :| 0 <= p < |list| && Matches(t.routes[list[p]].pattern, path) && m in t.routes[list[p]].methods;
        assert Wanted(t.routes, list[p], dynamic, None);
        assert Takes(t, list[p], path, m);
      }
      if j: nat :| Takes(t, j, path, m) && IsDynamic(t.routes[j].pattern) == dynamic {
        assert Wanted(t.routes, j, dynamic, None);
        assert j in list;
        var p :| 0 <= p < |list| && list[p] == j;
        assert Offered(t.routes, list, |list|, path, m);
      }
    }
  }

  /** What two searches and the mounts found is the right answer. */
  ghost predicate MountsSearched(t: Table, path: string, hit: Option<(nat, string)>)
    requires TableOk(t)
  {
    if hit.Some? then
      && Serves(t, hit.value.0, path) && AssetFor(t.mounts[hit.value.0], path) == Some(hit.value.1)
      && forall j :: 0 <= j < hit.value.0 ==> !Serves(t, j, path)
    else forall j: nat :: !Serves(t, j, path)
  }

  lemma RoutesLeft(t: Table, path: string, verb: Method, literal: set<Method>, dynamic: set<Method>, m: Method)
    requires TableOk(t) && Searched(t, false, path, verb, None, literal) && Searched(t, true, path, verb, None, dynamic)
    ensures m in literal + dynamic <==> exists i :: Takes(t, i, path, m)
  {
    if i: nat :| Takes(t, i, path, m) {
      assert IsDynamic(t.routes[i].pattern) ==> m in dynamic;
      assert !IsDynamic(t.routes[i].pattern) ==> m in literal;
    }
  }

  // ------------------------------------------------------------------------ router

  class Router {
    var routes: seq<Route>
    var exactIndex: map<string, seq<nat>>
    var dynamicRoutes: seq<nat>
    var mounts: seq<Mount>
    var fallback: Option<nat>

    function Registered(): Table
      reads this
    {
      Table(routes, mounts, fallback)
    }

    /** The index holds every literal route under its pattern, the list every dynamic one, in order. */
    ghost predicate Indexed()
      reads this
    {
      && (forall key :: key in exactIndex ==> Lists(routes, exactIndex[key], false, Some(key)))
      && (forall i: nat :: Wanted(routes, i, false, None) ==> routes[i].pattern in exactIndex)
      && Lists(routes, dynamicRoutes, true, None)
    }

    ghost predicate Valid()
      reads this
    {
      TableOk(Registered()) && NoOverlap(Registered()) && Indexed()
    }

    constructor ()
      ensures Valid() && Registered() == Table([], [], None)
    {
      routes, exactIndex, dynamicRoutes, mounts, fallback := [], map[], [], [], None;
    }

    // -------------------------------------------------------------- registration

    /** Some registration of this pattern already has one of the methods. */
    ghost predicate Taken(methods: set<Method>, pattern: string)
      reads this
    {
      exists i :: 0 <= i < |routes| && routes[i].pattern == pattern && !(routes[i].methods !! methods)
    }

    ghost predicate Free(i: nat, methods: set<Method>, pattern: string)
      reads this
    {
      i < |routes| && (routes[i].pattern == pattern ==> routes[i].methods !! methods)
    }

    function Key(pattern: string): (list: seq<nat>)
      reads this
    {
      if pattern in exactIndex then exactIndex[pattern] else []
    }

    lemma KeyLists(pattern: string)
      requires Indexed()
      ensures Lists(routes, Key(pattern), false, Some(pattern))
    {
      if pattern !in exactIndex {
        assert forall i: nat :: Wanted(routes, i, false, Some(pattern)) ==> Wanted(routes, i, false, None);
      }
    }

    /** Where the pattern can be, it has none of the methods. */
    lemma NoneTaken(candidates: seq<nat>, methods: set<Method>, pattern: string, dynamic: bool, key: Option<string>)
      requires Rooted(pattern) && dynamic == IsDynamic(pattern) && (key.Some? ==> key.value == pattern)
      requires Lists(routes, candidates, dynamic, key)
      requires forall p :: 0 <= p < |candidates| ==> Free(candidates[p], methods, pattern)
      ensures !Taken(methods, pattern)
    {
      forall i: nat | i < |routes| && routes[i].pattern == pattern ensures Free(i, methods, pattern) {
        assert Wanted(routes, i, dynamic, key);
        assert i in candidates;
      }
    }

    /** Looks only where the pattern can be: among the dynamic routes, or under its key in the index. */
    method Overlaps(methods: set<Method>, pattern: string, dynamic: bool) returns (yes: bool)
      requires Valid() && Rooted(pattern) && dynamic == IsDynamic(pattern)
      ensures yes <==> Taken(methods, pattern)
    {
      KeyLists(pattern);
      var candidates := if dynamic then dynamicRoutes else Key(pattern);
      ghost var key := if dynamic then None else Some(pattern);
      for k := 0 to |candidates|
        invariant forall p :: 0 <= p < k ==> Free(candidates[p], methods, pattern)
      {
        assert Wanted(routes, candidates[k], dynamic, key);
        var existing := routes[candidates[k]];
        if existing.pattern == pattern && existing.methods * methods != {} {
          return true;
        }
        assert existing.pattern == pattern ==> forall m :: m in existing.methods ==> m !in methods || m in existing.methods * methods;
      }
      NoneTaken(candidates, methods, pattern, dynamic, key);
      return false;
    }

    /** A new dynamic route goes to the end of the list of dynamic routes. */
    lemma DynamicIndexed(route: Route)
      requires Indexed() && Rooted(route.pattern) && IsDynamic(route.pattern)
      ensures forall key :: key in exactIndex ==> Lists(routes + [route], exactIndex[key], false, Some(key))
      ensures Lists(routes + [route], dynamicRoutes + [|routes|], true, None)
      ensures forall i: nat :: Wanted(routes + [route], i, false, None) ==> (routes + [route])[i].pattern in exactIndex
    {
      forall key | key in exactIndex ensures Lists(routes + [route], exactIndex[key], false, Some(key)) {
        ListsSkip(routes, exactIndex[key], false, Some(key), route);
      }
      ListsAppend(routes, dynamicRoutes, true, None, route);
      forall i: nat | Wanted(routes + [route], i, false, None) ensures (routes + [route])[i].pattern in exactIndex {
        assert Wanted(routes, i, false, None);
      }
    }

    /** A new literal route goes to the end of the list under its pattern. */
    lemma LiteralIndexed(route: Route, grown: map<string, seq<nat>>)
      requires Indexed() && Rooted(route.pattern) && !IsDynamic(route.pattern)
      requires grown == exactIndex[route.pattern := Key(route.pattern) + [|routes|]]
      ensures forall key :: key in grown ==> Lists(routes + [route], grown[key], false, Some(key))
      ensures Lists(routes + [route], dynamicRoutes, true, None)
      ensures forall i: nat :: Wanted(routes + [route], i, false, None) ==> (routes + [route])[i].pattern in grown
    {
      KeyLists(route.pattern);
      forall key | key in grown ensures Lists(routes + [route], grown[key], false, Some(key)) {
        if key == route.pattern {
          ListsAppend(routes, Key(key), false, Some(key), route);
        } else {
          ListsSkip(routes, exactIndex[key], false, Some(key), route);
        }
      }
      ListsSkip(routes, dynamicRoutes, true, None, route);
      forall i: nat | Wanted(routes + [route], i, false, None) ensures (routes + [route])[i].pattern in grown {
        if i < |routes| { assert Wanted(routes, i, false, None); }
      }
    }

    lemma GrownOk(route: Route)
      requires Valid() && RouteOk(route) && !Taken(route.methods, route.pattern)
      ensures TableOk(Table(routes + [route], mounts, fallback)) && NoOverlap(Table(routes + [route], mounts, fallback))
    {}

    method Insert(route: Route)
      requires Valid() && RouteOk(route) && !Taken(route.methods, route.pattern)
      modifies `routes, `exactIndex, `dynamicRoutes
      ensures Valid() && Registered() == old(Registered()).(routes := old(routes) + [route])
    {
      GrownOk(route);
      var index := |routes|;
      if IsDynamic(route.pattern) {
        DynamicIndexed(route);
        dynamicRoutes := dynamicRoutes + [index];
      } else {
        var grown := exactIndex[route.pattern := Key(route.pattern) + [index]];
        LiteralIndexed(route, grown);
        exactIndex := grown;
      }
      routes := routes + [route];
    }

    /** Registers a route, or says why not and changes nothing. */
    method AddRoute(methods: set<Method>, pattern: string, handler: Option<nat>) returns (outcome: Outcome)
      requires Valid()
      modifies `routes, `exactIndex, `dynamicRoutes
      ensures Valid()
      ensures outcome ==
              if methods == {} then Failed(NoMethod)
              else if handler.None? then Failed(EmptyHandler)
              else if !ValidPattern(pattern) then Failed(InvalidPattern)
              else if old(Taken(methods, pattern)) then Failed(AlreadyRegistered)
              else Done
      ensures outcome.Failed? ==> unchanged(this)
      ensures outcome.Done? ==>
                && |routes| == |old(routes)| + 1 && routes[..|old(routes)|] == old(routes)
                && routes[|old(routes)|].methods == methods && routes[|old(routes)|].pattern == pattern
                && routes[|old(routes)|].handler == handler.value
    {
      if methods == {} { return Failed(NoMethod); }
      if handler.None? { return Failed(EmptyHandler); }
      var ok := IsValidRoutePattern(pattern);
      if !ok { return Failed(InvalidPattern); }
      var segments, hasWildcard, count := CompileSegments(pattern);
      assert count <= MAX_PATH_PARAMETERS;  // the table of captures cannot overflow
      var dynamic := hasWildcard || count > 0;
      var taken := Overlaps(methods, pattern, dynamic);
      if taken { return Failed(AlreadyRegistered); }
      Insert(Route(methods, pattern, if dynamic then segments else [], hasWildcard, handler.value));
      return Done;
    }

    method AddMount(prefix: string, assets: set<string>) returns (outcome: Outcome)
      requires Valid()
      modifies `mounts
      ensures Valid()
      ensures outcome ==
              if !Rooted(prefix) then Failed(MountNotRooted)
              else if '*' in prefix || '{' in prefix || '}' in prefix then Failed(MountNotLiteral)
              else if !ValidPattern(prefix) then Failed(InvalidPattern)
              else Done
      ensures outcome.Failed? ==> unchanged(this)
      ensures outcome.Done? ==> |mounts| == |old(mounts)| + 1 && mounts[..|old(mounts)|] == old(mounts)
      ensures outcome.Done? ==>
                mounts[|old(mounts)|] == Mount(if prefix[|prefix| - 1] == SLASH then prefix else prefix + [SLASH], assets)
    {
      if prefix == "" || prefix[0] != SLASH { return Failed(MountNotRooted); }
      if '*' in prefix || '{' in prefix || '}' in prefix { return Failed(MountNotLiteral); }
      var ok := IsValidRoutePattern(prefix);
      if !ok { return Failed(InvalidPattern); }
      var full := if prefix[|prefix| - 1] == SLASH then prefix else prefix + [SLASH];
      mounts := mounts + [Mount(full, assets)];
      return Done;
    }

    method SetFallback(handler: Option<nat>) returns (outcome: Outcome)
      requires Valid()
      modifies `fallback
      ensures Valid()
      ensures outcome == if handler.None? then Failed(EmptyHandler) else if old(fallback).Some? then Failed(FallbackAlreadySet) else Done
      ensures fallback == if outcome.Done? then handler else old(fallback)
    {
      if handler.None? { return Failed(EmptyHandler); }
      if fallback.Some? { return Failed(FallbackAlreadySet); }
      fallback := handler;
      return Done;
    }

    // ------------------------------------------------------------------ dispatch

    lemma ExactCovers(path: string)
      requires Valid()
      ensures Covers(Registered(), Key(path), false, path)
      ensures forall p :: 0 <= p < |Key(path)| ==> Key(path)[p] < |routes| && routes[Key(path)[p]].pattern == path && Matches(path, path)
    {
      KeyLists(path);
      forall i: nat | Wanted(routes, i, false, None) && Matches(routes[i].pattern, path) ensures i in Key(path) {
        LiteralMatchIsEquality(routes[i].pattern, path);
        assert Wanted(routes, i, false, Some(path));
      }
      forall p | 0 <= p < |Key(path)|
        ensures Key(path)[p] < |routes| && routes[Key(path)[p]].pattern == path && Matches(path, path) && Wanted(routes, Key(path)[p], false, None)
      {
        assert Wanted(routes, Key(path)[p], false, Some(path));
        LiteralMatchIsEquality(path, path);
      }
    }

    /** The exact index: the routes registered under the path itself. */
    method SearchExact(path: string, verb: Method) returns (hit: Option<nat>, allowed: set<Method>)
      requires Valid()
      ensures Searched(Registered(), false, path, verb, hit, allowed)
    {
      allowed := {};
      var candidates := Key(path);
      ExactCovers(path);
      for k := 0 to |candidates|
        invariant verb !in allowed
        invariant forall m :: m in allowed <==> Offered(routes, candidates, k, path, m)
      {
        var candidate := routes[candidates[k]];
        if verb in candidate.methods {
          FirstListed(Registered(), candidates, false, path, verb, k);
          return Some(candidates[k]), {};
        }
        forall m { OfferedStep(routes, candidates, k, path, m); }
        allowed := allowed + candidate.methods;
      }
      AllListed(Registered(), candidates, false, path, verb, allowed);
      hit := None;
    }

    method TryDynamic(index: nat, path: string) returns (captures: Option<seq<(string, string)>>)
      requires Valid() && index in dynamicRoutes
      ensures index < |routes| && Rooted(routes[index].pattern)
      ensures captures == if Matches(routes[index].pattern, path) then Some(Captures(routes[index].pattern, path)) else None
      ensures captures.Some? ==> |captures.value| <= MAX_PATH_PARAMETERS
    {
      assert Wanted(routes, index, true, None);
      var candidate := routes[index];
      assert RouteOk(candidate);
      captures := MatchCompiled(candidate.segments, candidate.hasWildcard, path, candidate.pattern);
    }

    lemma DynamicCovers(path: string)
      requires Valid()
      ensures Covers(Registered(), dynamicRoutes, true, path)
    {}

    /** The dynamic routes, by walking their compiled segments. */
    method SearchDynamic(path: string, verb: Method)
      returns (hit: Option<nat>, captures: seq<(string, string)>, allowed: set<Method>)
      requires Valid()
      ensures Searched(Registered(), true, path, verb, hit, allowed)
      ensures hit.Some? ==> captures == Captures(routes[hit.value].pattern, path) && |captures| <= MAX_PATH_PARAMETERS
    {
      allowed := {};
      DynamicCovers(path);
      for k := 0 to |dynamicRoutes|
        invariant verb !in allowed
        invariant forall m :: m in allowed <==> Offered(routes, dynamicRoutes, k, path, m)
      {
        var found := TryDynamic(dynamicRoutes[k], path);
        forall m { OfferedStep(routes, dynamicRoutes, k, path, m); }
        if found.None? { continue; }
        var methods := routes[dynamicRoutes[k]].methods;
        if verb in methods {
          FirstListed(Registered(), dynamicRoutes, true, path, verb, k);
          return Some(dynamicRoutes[k]), found.value, {};
        }
        allowed := allowed + methods;
      }
      AllListed(Registered(), dynamicRoutes, true, path, verb, allowed);
      hit, captures := None, [];
    }

    /** The first mount with an asset for the path; a mount that may not answer the method only adds to `allowed`. */
    method SearchMounts(path: string, verb: Method) returns (hit: Option<(nat, string)>, offered: set<Method>)
      requires Valid()
      ensures verb in GET_AND_HEAD ==> MountsSearched(Registered(), path, hit) && offered == {}
      ensures verb !in GET_AND_HEAD ==>
                hit.None? && offered == if exists k :: Serves(Registered(), k, path) then GET_AND_HEAD else {}
    {
      offered := {};
      for k := 0 to |mounts|
        invariant verb in GET_AND_HEAD ==> offered == {} && forall j :: 0 <= j < k ==> !Serves(Registered(), j, path)
        invariant verb !in GET_AND_HEAD ==>
                    offered == if exists j :: 0 <= j < k && Serves(Registered(), j, path) then GET_AND_HEAD else {}
      {
        var asset := AssetFor(mounts[k], path);
        if asset.None? { continue; }
        assert Serves(Registered(), k, path);
        if verb !in GET_AND_HEAD {
          offered := offered + GET_AND_HEAD;
          continue;
        }
        return Some((k, asset.value)), offered;
      }
      hit := None;
    }

    /** Two searches without a hit and the mounts leave exactly the reachable methods. */
    lemma NoneLeft(path: string, verb: Method, literal: set<Method>, dynamic: set<Method>, offered: set<Method>)
      requires Valid() && Searched(Registered(), false, path, verb, None, literal)
      requires Searched(Registered(), true, path, verb, None, dynamic)
      requires if verb in GET_AND_HEAD then MountsSearched(Registered(), path, None) && offered == {}
               else offered == if exists k :: Serves(Registered(), k, path) then GET_AND_HEAD else {}
      ensures !Reaches(Registered(), path, verb)
      ensures forall m :: m in literal + dynamic + offered <==> Reaches(Registered(), path, m)
    {
      var t := Registered();
      forall m ensures m in literal + dynamic <==> exists i :: Takes(t, i, path, m) {
        RoutesLeft(t, path, verb, literal, dynamic, m);
      }
    }

    /** A literal route that takes the request is the answer. */
    lemma ExactIsRight(path: string, verb: Method, hit: nat)
      requires Valid() && Searched(Registered(), false, path, verb, Some(hit), {})
      ensures Right(Registered(), path, verb, Handled(hit, []))
    {
      LiteralMatchIsEquality(routes[hit].pattern, path);
    }

    /** Where no literal route takes it, the first dynamic one does. */
    lemma DynamicIsRight(path: string, verb: Method, literal: set<Method>, hit: nat)
      requires Valid() && Searched(Registered(), false, path, verb, None, literal)
      requires Searched(Registered(), true, path, verb, Some(hit), {})
      ensures Right(Registered(), path, verb, Handled(hit, Captures(routes[hit].pattern, path)))
    {
      var t := Registered();
      forall j: nat | Takes(t, j, path, verb) ensures Precedes(t, hit, j) {
        assert !IsDynamic(t.routes[j].pattern) ==> verb in literal;
      }
    }

    /** Dispatch, past middleware: the right answer for what was registered. */
    method Dispatch(path: string, verb: Method) returns (answer: Answer)
      requires Valid()
      ensures Right(Registered(), path, verb, answer)
    {
      var exact, literal := SearchExact(path, verb);
      if exact.Some? {
        ExactIsRight(path, verb, exact.value);
        return Handled(exact.value, []);
      }
      var dynamic, captures, more := SearchDynamic(path, verb);
      if dynamic.Some? {
        DynamicIsRight(path, verb, literal, dynamic.value);
        return Handled(dynamic.value, captures);
      }
      answer := DispatchRest(path, verb, literal, more);
    }

    /** No route takes the request: mounts, then a 405, the fallback or a 404. */
    method DispatchRest(path: string, verb: Method, literal: set<Method>, dynamic: set<Method>) returns (answer: Answer)
      requires Valid() && Searched(Registered(), false, path, verb, None, literal)
      requires Searched(Registered(), true, path, verb, None, dynamic)
      ensures Right(Registered(), path, verb, answer)
    {
      var asset, offered := SearchMounts(path, verb);
      if asset.Some? {
        forall i | Takes(Registered(), i, path, verb) ensures false {
          RoutesLeft(Registered(), path, verb, literal, dynamic, verb);
        }
        return Asset(asset.value.0, asset.value.1);
      }
      NoneLeft(path, verb, literal, dynamic, offered);
      var allowed := literal + dynamic + offered;
      if allowed != {} {
        return NotAllowed(allowed);
      }
      return if fallback.Some? then Fallback(fallback.value) else NotFound;
    }
  }
}
