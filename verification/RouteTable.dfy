/**
 The route table: registration, the order patterns are tried in, and dispatch. Paths without
 parameters are in a map and looked up first; patterns are in a list kept by descending number of
 literal segments.
 */
module RouteTable {
  import opened Common
  import opened Strings
  import opened UriText
  import opened RoutePatterns

  type Methods = map<nat, Handler>

  datatype Table = Table(exact: map<string, Methods>, patterns: seq<Route>)

  const EMPTY := Table(map[], [])

  // ----- the stable sort by descending static count -----

  /** Behind everything that is at least as static. */
  function Position(routes: seq<Route>, r: Route): (k: nat)
    ensures k <= |routes|
  {
    if routes == [] || routes[|routes| - 1].staticCount >= r.staticCount then |routes|
    else Position(routes[..|routes| - 1], r)
  }

  function Insert(routes: seq<Route>, r: Route): seq<Route> {
    var k := Position(routes, r);
    routes[..k] + [r] + routes[k..]
  }

  /** std::stable_sort of the table. */
  function StableSort(routes: seq<Route>): (sorted: seq<Route>)
    ensures |sorted| == |routes|
  {
    if routes == [] then [] else Insert(StableSort(routes[..|routes| - 1]), routes[|routes| - 1])
  }

  predicate Sorted(routes: seq<Route>) {
    forall i, j :: 0 <= i < j < |routes| ==> routes[i].staticCount >= routes[j].staticCount
  }

  /** The patterns of one static count, in table order. */
  function PatternsOf(routes: seq<Route>, count: nat): seq<string> {
    if routes == [] then []
    else if routes[0].staticCount == count then [routes[0].pattern] + PatternsOf(routes[1..], count)
    else PatternsOf(routes[1..], count)
  }

  lemma {:induction false} PositionIs(routes: seq<Route>, r: Route)
    ensures var k := Position(routes, r);
            && (forall i :: k <= i < |routes| ==> routes[i].staticCount < r.staticCount)
            && (k > 0 ==> routes[k - 1].staticCount >= r.staticCount)
  {
    if routes != [] && routes[|routes| - 1].staticCount < r.staticCount { PositionIs(routes[..|routes| - 1], r); }
  }

  lemma InsertSorted(routes: seq<Route>, r: Route)
    requires Sorted(routes)
    ensures Sorted(Insert(routes, r))
  {
    PositionIs(routes, r);
  }

  lemma {:induction false} PatternsOfConcat(a: seq<Route>, b: seq<Route>, count: nat)
    ensures PatternsOf(a + b, count) == PatternsOf(a, count) + PatternsOf(b, count)
  {
    if a == [] {
      assert a + b == b;
    } else {
      assert (a + b)[0] == a[0] && (a + b)[1..] == a[1..] + b;
      PatternsOfConcat(a[1..], b, count);
    }
  }

  lemma {:induction false} PatternsOfIs(routes: seq<Route>, count: nat, p: string)
    ensures p in PatternsOf(routes, count) <==>
              exists i :: 0 <= i < |routes| && routes[i].staticCount == count && routes[i].pattern == p
  {
    if routes != [] {
      PatternsOfIs(routes[1..], count, p);
      if p in PatternsOf(routes[1..], count) {
        var i :| 0 <= i < |routes[1..]| && routes[1..][i].staticCount == count && routes[1..][i].pattern == p;
        assert routes[i + 1] == routes[1..][i];
      }
      if exists i :: 0 <= i < |routes| && routes[i].staticCount == count && routes[i].pattern == p {
        var i :| 0 <= i < |routes| && routes[i].staticCount == count && routes[i].pattern == p;
        if i > 0 { assert routes[1..][i - 1] == routes[i]; }
      }
    }
  }

  lemma NoneOfCount(routes: seq<Route>, count: nat)
    requires forall i :: 0 <= i < |routes| ==> routes[i].staticCount != count
    ensures PatternsOf(routes, count) == []
  {
    if PatternsOf(routes, count) != [] {
      PatternsOfIs(routes, count, PatternsOf(routes, count)[0]);
    }
  }

  lemma InsertKeepsOrder(routes: seq<Route>, r: Route, count: nat)
    ensures PatternsOf(Insert(routes, r), count) == PatternsOf(routes + [r], count)
  {
    var k := Position(routes, r);
    var front, back := routes[..k], routes[k..];
    PositionIs(routes, r);
    if count == r.staticCount { NoneOfCount(back, count); } else { NoneOfCount([r], count); }
    hide PatternsOf, Position;
    assert routes == front + back;
    PatternsOfConcat(front + [r], back, count);
    PatternsOfConcat(front, [r], count);
    PatternsOfConcat(front + back, [r], count);
    PatternsOfConcat(front, back, count);
    OneIsEmpty(PatternsOf(front, count), PatternsOf([r], count), PatternsOf(back, count));
  }

  lemma OneIsEmpty<T>(a: seq<T>, b: seq<T>, c: seq<T>)
    requires b == [] || c == []
    ensures a + b + c == a + c + b
  {
    assert a + [] == a && a + b + [] == a + b && a + c + [] == a + c;
  }

  /** The sort orders by static count and never swaps two patterns of the same count. */
  lemma {:induction false} StableSortIsStable(routes: seq<Route>, count: nat)
    ensures Sorted(StableSort(routes)) && PatternsOf(StableSort(routes), count) == PatternsOf(routes, count)
  {
    if routes != [] {
      var front, last := routes[..|routes| - 1], routes[|routes| - 1];
      StableSortIsStable(front, count);
      InsertSorted(StableSort(front), last);
      InsertKeepsOrder(StableSort(front), last, count);
      PatternsOfConcat(StableSort(front), [last], count);
      PatternsOfConcat(front, [last], count);
      assert routes == front + [last];
    }
  }

  lemma InsertLast(routes: seq<Route>, r: Route)
    requires routes == [] || routes[|routes| - 1].staticCount >= r.staticCount
    ensures Insert(routes, r) == routes + [r]
  {
  }

  /** A table already in order is left alone. */
  lemma {:induction false} SortedStays(routes: seq<Route>)
    requires Sorted(routes)
    ensures StableSort(routes) == routes
  {
    if routes != [] {
      var front, last := routes[..|routes| - 1], routes[|routes| - 1];
      SortedStays(front);
      InsertLast(front, last);
      hide Insert;
      assert routes == front + [last];
    }
  }

  lemma {:induction false} StableSortKeepsRoutes(routes: seq<Route>)
    ensures multiset(StableSort(routes)) == multiset(routes)
  {
    if routes != [] {
      var front, last := routes[..|routes| - 1], routes[|routes| - 1];
      StableSortKeepsRoutes(front);
      InsertAddsOne(StableSort(front), last);
      hide Insert;
      assert routes == front + [last];
    }
  }

  lemma InsertAddsOne(routes: seq<Route>, r: Route)
    ensures multiset(Insert(routes, r)) == multiset(routes) + multiset{r}
  {
    var k := Position(routes, r);
    assert routes == routes[..k] + routes[k..];
  }

  function Patterns(routes: seq<Route>): (r: seq<string>)
    ensures |r| == |routes|
  {
    if routes == [] then [] else [routes[0].pattern] + Patterns(routes[1..])
  }

  // The first route of a sorted table is the most static one of any table with the same groups.
  lemma FirstIsMostStatic(a: seq<Route>, b: seq<Route>)
    requires a != [] && Sorted(b) && PatternsOf(a, a[0].staticCount) == PatternsOf(b, a[0].staticCount)
    ensures b != [] && b[0].staticCount >= a[0].staticCount
  {
    var c := a[0].staticCount;
    assert a[0].pattern in PatternsOf(a, c);
    PatternsOfIs(b, c, a[0].pattern);
    var i :| 0 <= i < |b| && b[i].staticCount == c && b[i].pattern == a[0].pattern;
    assert i > 0 ==> b[0].staticCount >= b[i].staticCount;
  }

  /** Sortedness and the order within each count leave no freedom: they fix the whole order. */
  lemma {:induction false} OrderIsDetermined(a: seq<Route>, b: seq<Route>)
    requires Sorted(a) && Sorted(b) && forall c :: PatternsOf(a, c) == PatternsOf(b, c)
    ensures Patterns(a) == Patterns(b)
  {
    if a == [] {
      if b != [] { FirstIsMostStatic(b, a); }
    } else {
      FirstIsMostStatic(a, b);
      FirstIsMostStatic(b, a);
      var c := a[0].staticCount;
      assert PatternsOf(a, c)[0] == a[0].pattern && PatternsOf(b, c)[0] == b[0].pattern;
      forall d ensures PatternsOf(a[1..], d) == PatternsOf(b[1..], d) {
        assert PatternsOf(a, d) == PatternsOf(b, d);
        if d == c {
          assert PatternsOf(a, d)[1..] == PatternsOf(a[1..], d) && PatternsOf(b, d)[1..] == PatternsOf(b[1..], d);
        }
      }
      OrderIsDetermined(a[1..], b[1..]);
    }
  }

  // ----- registration -----

  predicate IsPatternPath(path: string) { '{' in path || '}' in path }

  /** Index of the first route of a shape, or the length. */
  function FindShape(routes: seq<Route>, shape: string): (i: nat)
    ensures i <= |routes| && (i < |routes| ==> routes[i].shape == shape)
    ensures forall j :: 0 <= j < i ==> routes[j].shape != shape
  {
    if routes == [] || routes[0].shape == shape then 0 else 1 + FindShape(routes[1..], shape)
  }

  function AddExact(t: Table, verb: nat, path: string, handler: Handler): Result<Table, RouteError> {
    var methods := if path in t.exact then t.exact[path] else map[];
    if verb in methods then Err(DuplicateRoute) else Ok(t.(exact := t.exact[path := methods[verb := handler]]))
  }

  function AddPattern(t: Table, verb: nat, compiled: Route, handler: Handler): Result<Table, RouteError> {
    var i := FindShape(t.patterns, compiled.shape);
    if i < |t.patterns| && t.patterns[i].pattern != compiled.pattern then Err(ConflictingNames)
    else
      var routes := if i == |t.patterns| then t.patterns + [compiled] else t.patterns;
      if verb in routes[i].methods then Err(DuplicateRoute)
      else Ok(t.(patterns := StableSort(routes[i := WithMethod(routes[i], verb, handler)])))
  }

  function WithMethod(r: Route, verb: nat, handler: Handler): Route {
    r.(methods := r.methods[verb := handler])
  }

  function AddRoute(t: Table, verb: nat, path: string, handler: Handler): Result<Table, RouteError> {
    if path == "" || path[0] != '/' || '?' in path then Err(BadPath)
    else if !IsPatternPath(path) then AddExact(t, verb, path, handler)
    else
      var compiled :- Compile(path);
      AddPattern(t, verb, compiled, handler)
  }

  /** A route of the table is what its own pattern compiles to, plus its handlers. */
  ghost predicate RouteOk(r: Route) {
    && r.pattern != "" && r.pattern[0] == '/' && '?' !in r.pattern
    && Compile(r.pattern) == Ok(r.(methods := map[]))
    && r.methods != map[]
  }

  ghost predicate DistinctShapes(routes: seq<Route>) {
    forall i, j :: 0 <= i < j < |routes| ==> routes[i].shape != routes[j].shape
  }

  ghost predicate Inv(t: Table) {
    && Sorted(t.patterns)
    && DistinctShapes(t.patterns)
    && forall r :: r in t.patterns ==> RouteOk(r)
  }

  lemma InsertDistinct(routes: seq<Route>, r: Route)
    requires DistinctShapes(routes) && forall i :: 0 <= i < |routes| ==> routes[i].shape != r.shape
    ensures DistinctShapes(Insert(routes, r))
  {
  }

  lemma {:induction false} SortDistinct(routes: seq<Route>)
    requires DistinctShapes(routes)
    ensures DistinctShapes(StableSort(routes))
  {
    if routes != [] {
      var front, last := routes[..|routes| - 1], routes[|routes| - 1];
      SortDistinct(front);
      StableSortKeepsRoutes(front);
      forall i | 0 <= i < |front| ensures StableSort(front)[i].shape != last.shape {
        assert StableSort(front)[i] in multiset(front);
      }
      InsertDistinct(StableSort(front), last);
    }
  }

  /** What a successful pattern registration does, before the order is looked at. */
  lemma AddPatternKeepsInv(t: Table, verb: nat, path: string, handler: Handler)
    requires Inv(t) && path != "" && path[0] == '/' && '?' !in path && Compile(path).Ok?
    requires AddPattern(t, verb, Compile(path).value, handler).Ok?
    ensures Inv(AddPattern(t, verb, Compile(path).value, handler).value)
  {
    hide Compile, Insert, StableSort, PatternsOf;
    var compiled := Compile(path).value;
    var i := FindShape(t.patterns, compiled.shape);
    var routes := if i == |t.patterns| then t.patterns + [compiled] else t.patterns;
    var changed := routes[i := WithMethod(routes[i], verb, handler)];
    assert compiled.pattern == path && compiled.methods == map[] by { CompiledRoute(path); }
    assert RouteOk(changed[i]) by {
      if i < |t.patterns| { assert t.patterns[i] in t.patterns; }
      WithMethodOk(routes[i], verb, handler);
    }
    StableSortIsStable(changed, 0);
    SortDistinct(changed);
    StableSortKeepsRoutes(changed);
    forall r | r in StableSort(changed) ensures RouteOk(r) {
      assert r in multiset(changed);
      var k :| 0 <= k < |changed| && changed[k] == r;
      if k != i { assert t.patterns[k] in t.patterns; }
    }
  }

  lemma WithMethodOk(r: Route, verb: nat, handler: Handler)
    requires r.pattern != "" && r.pattern[0] == '/' && '?' !in r.pattern
    requires Compile(r.pattern) == Ok(r.(methods := map[]))
    ensures RouteOk(WithMethod(r, verb, handler))
  {
    hide Compile;
    var changed := WithMethod(r, verb, handler);
    assert verb in changed.methods && changed.(methods := map[]) == r.(methods := map[]);
  }

  lemma CompiledRoute(path: string)
    requires Compile(path).Ok?
    ensures Compile(path).value.pattern == path && Compile(path).value.methods == map[]
  {
  }

  lemma AddRouteKeepsInv(t: Table, verb: nat, path: string, handler: Handler)
    requires Inv(t) && AddRoute(t, verb, path, handler).Ok?
    ensures Inv(AddRoute(t, verb, path, handler).value)
  {
    hide AddPattern, Compile;
    if IsPatternPath(path) { AddPatternKeepsInv(t, verb, path, handler); }
  }

  // ----- whole registration histories -----

  datatype Registration = Registration(verb: nat, path: string, handler: Handler)

  /** The table after a run of registrations; one that fails leaves it as it was. */
  function After(rs: seq<Registration>): Table {
    if rs == [] then EMPTY
    else
      var t, r := After(rs[..|rs| - 1]), rs[|rs| - 1];
      match AddRoute(t, r.verb, r.path, r.handler) case Ok(u) => u case Err(_) => t
  }

  /** The patterns accepted so far, in the order of their first registration. */
  function Order(rs: seq<Registration>): seq<string> {
    if rs == [] then []
    else
      var t, r := After(rs[..|rs| - 1]), rs[|rs| - 1];
      var before := Order(rs[..|rs| - 1]);
      if IsPatternPath(r.path) && r.path !in before && AddRoute(t, r.verb, r.path, r.handler).Ok?
      then before + [r.path] else before
  }

  function CountOf(pattern: string): nat {
    match Compile(pattern) case Ok(r) => r.staticCount case Err(_) => 0
  }

  /** The patterns of one static count, in registration order. */
  function OfCount(order: seq<string>, count: nat): seq<string> {
    if order == [] then []
    else
      var last := order[|order| - 1];
      OfCount(order[..|order| - 1], count) + if CountOf(last) == count then [last] else []
  }

  ghost predicate InOrder(routes: seq<Route>, order: seq<string>) {
    forall c :: PatternsOf(routes, c) == OfCount(order, c)
  }

  lemma {:induction false} OfCountIs(order: seq<string>, p: string)
    ensures p in OfCount(order, CountOf(p)) <==> p in order
  {
    hide CountOf;
    if order != [] {
      OfCountIs(order[..|order| - 1], p);
      assert order == order[..|order| - 1] + [order[|order| - 1]];
    }
  }

  lemma Registered(t: Table, order: seq<string>, p: string)
    requires Inv(t) && InOrder(t.patterns, order)
    ensures p in order <==> exists i :: 0 <= i < |t.patterns| && t.patterns[i].pattern == p
  {
    OfCountIs(order, p);
    PatternsOfIs(t.patterns, CountOf(p), p);
    forall i | 0 <= i < |t.patterns| ensures t.patterns[i].staticCount == CountOf(t.patterns[i].pattern) {
      assert RouteOk(t.patterns[i]);
    }
    hide CountOf;
  }

  // Handlers do not matter for the order.
  lemma SameOrder(routes: seq<Route>, i: nat, r: Route, count: nat)
    requires i < |routes| && r.pattern == routes[i].pattern && r.staticCount == routes[i].staticCount
    ensures PatternsOf(routes[i := r], count) == PatternsOf(routes, count)
  {
    var front, back := routes[..i], routes[i + 1..];
    assert routes == front + [routes[i]] + back && routes[i := r] == front + [r] + back;
    PatternsOfConcat(front + [routes[i]], back, count);
    PatternsOfConcat(front, [routes[i]], count);
    PatternsOfConcat(front + [r], back, count);
    PatternsOfConcat(front, [r], count);
    assert [r][1..] == [] && [routes[i]][1..] == [];
    assert PatternsOf([r], count) == PatternsOf([routes[i]], count);
  }

  lemma AddPatternOrder(t: Table, verb: nat, path: string, handler: Handler, order: seq<string>)
    requires Inv(t) && InOrder(t.patterns, order) && Compile(path).Ok?
    requires AddPattern(t, verb, Compile(path).value, handler).Ok?
    ensures InOrder(AddPattern(t, verb, Compile(path).value, handler).value.patterns,
                    if path in order then order else order + [path])
  {
    var compiled := Compile(path).value;
    CompiledRoute(path);
    assert CountOf(path) == compiled.staticCount;
    var i := FindShape(t.patterns, compiled.shape);
    var routes := if i == |t.patterns| then t.patterns + [compiled] else t.patterns;
    var r := WithMethod(routes[i], verb, handler);
    Registered(t, order, path);
    assert path in order <==> i < |t.patterns| by {
      forall k | 0 <= k < |t.patterns| && t.patterns[k].pattern == path ensures t.patterns[k].shape == compiled.shape {
        assert RouteOk(t.patterns[k]);
      }
    }
    hide Compile, CountOf;
    var after := if path in order then order else order + [path];
    forall c ensures PatternsOf(StableSort(routes[i := r]), c) == OfCount(after, c) {
      StableSortIsStable(routes[i := r], c);
      SameOrder(routes, i, r, c);
      assert PatternsOf(t.patterns, c) == OfCount(order, c);
      if i == |t.patterns| {
        PatternsOfConcat(t.patterns, [compiled], c);
        assert [compiled][1..] == [] && (order + [path])[..|order|] == order;
        assert PatternsOf([compiled], c) == if compiled.staticCount == c then [path] else [];
      }
    }
  }

  /**
   After any run of registrations, successful or not, the patterns stand by descending number of
   static segments, those of the same number in the order they were first registered, and no two
   have the same shape.
   */
  lemma {:induction false} TableOrder(rs: seq<Registration>)
    ensures Inv(After(rs)) && InOrder(After(rs).patterns, Order(rs))
  {
    if rs != [] {
      var front, r := rs[..|rs| - 1], rs[|rs| - 1];
      var t := After(front);
      TableOrder(front);
      hide Inv, InOrder, Compile;
      if AddRoute(t, r.verb, r.path, r.handler).Ok? {
        AddRouteKeepsInv(t, r.verb, r.path, r.handler);
        if IsPatternPath(r.path) { AddPatternOrder(t, r.verb, r.path, r.handler, Order(front)); }
      }
    }
  }

  /** No two patterns of the table match exactly the same paths. */
  lemma PatternsTellApart(rs: seq<Registration>, i: nat, j: nat)
    requires i < j < |After(rs).patterns|
    ensures exists path ::
              Match(After(rs).patterns[i].segments, path).Some? != Match(After(rs).patterns[j].segments, path).Some?
  {
    TableOrder(rs);
    var a, b := After(rs).patterns[i], After(rs).patterns[j];
    assert RouteOk(a) && RouteOk(b);
    ShapeIsMeaning(a.pattern, b.pattern);
  }

  // ----- what is registered -----

  /** The handler of the first registration of this method and path. */
  function FirstHandler(rs: seq<Registration>, verb: nat, path: string): Option<Handler> {
    if rs == [] then None
    else
      var r, before := rs[|rs| - 1], FirstHandler(rs[..|rs| - 1], verb, path);
      if before.None? && r.verb == verb && r.path == path then Some(r.handler) else before
  }

  /** The methods registered for a path. */
  function Verbs(rs: seq<Registration>, path: string): set<nat> {
    set r | r in rs && r.path == path :: r.verb
  }

  /** These are exactly the methods registered for the path, each with its first handler. */
  ghost predicate AsRegistered(rs: seq<Registration>, path: string, methods: Methods) {
    && methods.Keys == Verbs(rs, path)
    && forall verb <- methods :: FirstHandler(rs, verb, path) == Some(methods[verb])
  }

  lemma {:induction false} FirstHandlerIff(rs: seq<Registration>, verb: nat, path: string)
    ensures FirstHandler(rs, verb, path).Some? <==> verb in Verbs(rs, path)
  {
    if rs != [] {
      var front, r := rs[..|rs| - 1], rs[|rs| - 1];
      assert rs == front + [r];
      FirstHandlerIff(front, verb, path);
    }
  }

  // One more registration, of this path or of another.
  lemma OneMore(rs: seq<Registration>, path: string)
    requires rs != []
    ensures var front, r := rs[..|rs| - 1], rs[|rs| - 1];
            && Verbs(rs, path) == Verbs(front, path) + (if r.path == path then {r.verb} else {})
            && (forall verb :: verb in Verbs(front, path) || r.path != path || r.verb != verb ==>
                  FirstHandler(rs, verb, path) == FirstHandler(front, verb, path))
            && (r.path == path && r.verb !in Verbs(front, path) ==> FirstHandler(rs, r.verb, path) == Some(r.handler))
  {
    var front, r := rs[..|rs| - 1], rs[|rs| - 1];
    assert rs == front + [r];
    forall verb ensures FirstHandler(front, verb, path).Some? <==> verb in Verbs(front, path) {
      FirstHandlerIff(front, verb, path);
    }
  }

  lemma MethodAdded(rs: seq<Registration>, path: string, methods: Methods)
    requires rs != [] && rs[|rs| - 1].path == path && AsRegistered(rs[..|rs| - 1], path, methods)
    ensures var r := rs[|rs| - 1];
            AsRegistered(rs, path, if r.verb in methods then methods else methods[r.verb := r.handler])
  {
    OneMore(rs, path);
    hide Verbs, FirstHandler;
  }

  lemma OtherRegistered(rs: seq<Registration>, path: string, methods: Methods)
    requires rs != [] && rs[|rs| - 1].path != path && AsRegistered(rs[..|rs| - 1], path, methods)
    ensures AsRegistered(rs, path, methods)
  {
    OneMore(rs, path);
    hide Verbs, FirstHandler;
  }

  /** A path without parameters that may be registered. */
  predicate IsExactPath(path: string) {
    path != "" && path[0] == '/' && '?' !in path && '{' !in path && '}' !in path
  }

  function MethodsAt(t: Table, path: string): Methods { if path in t.exact then t.exact[path] else map[] }

  /** What one registration does to the exact table: a new method of an exact path is added, nothing else. */
  lemma ExactStep(t: Table, verb: nat, path: string, handler: Handler)
    ensures var r := AddRoute(t, verb, path, handler); var u := if r.Ok? then r.value else t;
            u.exact == if IsExactPath(path) && verb !in MethodsAt(t, path)
                       then t.exact[path := MethodsAt(t, path)[verb := handler]] else t.exact
  {
    hide Compile, StableSort, FindShape;
  }

  /** The exact table has the paths without parameters that were registered, each as registered. */
  lemma {:induction false} ExactTable(rs: seq<Registration>, path: string)
    ensures path in After(rs).exact <==> IsExactPath(path) && Verbs(rs, path) != {}
    ensures IsExactPath(path) ==> AsRegistered(rs, path, MethodsAt(After(rs), path))
  {
    if rs != [] {
      var front, r := rs[..|rs| - 1], rs[|rs| - 1];
      ExactTable(front, path);
      ExactStep(After(front), r.verb, r.path, r.handler);
      OneMore(rs, path);
      hide AddRoute, Verbs, FirstHandler, IsExactPath;
      if IsExactPath(path) {
        if r.path == path { MethodAdded(rs, path, MethodsAt(After(front), path)); }
        else { OtherRegistered(rs, path, MethodsAt(After(front), path)); }
      }
    }
  }

  /** A path with parameters that may be registered. */
  predicate IsPatternRoute(path: string) {
    path != "" && path[0] == '/' && '?' !in path && IsPatternPath(path) && Compile(path).Ok?
  }

  function Added(t: Table, verb: nat, path: string, handler: Handler): Table {
    match AddRoute(t, verb, path, handler) case Ok(u) => u case Err(_) => t
  }

  /** The entry a pattern has, if any: the one of its shape. */
  lemma ShapeFound(t: Table, k: nat)
    requires Inv(t) && k < |t.patterns|
    ensures FindShape(t.patterns, t.patterns[k].shape) == k
    ensures Compile(t.patterns[k].pattern) == Ok(t.patterns[k].(methods := map[]))
  {
    assert RouteOk(t.patterns[k]);
    hide Compile, RouteOk, Sorted;
  }

  /**
   Where an entry of the table comes from after one more registration: it was there before under
   another pattern; or its own pattern gained the method, if it was new; or the pattern is new.
   */
  lemma PatternStep(t: Table, verb: nat, path: string, handler: Handler, r: Route) returns (was: Option<Route>)
    requires Inv(t) && forall x <- t.patterns :: IsPatternPath(x.pattern)
    requires r in Added(t, verb, path, handler).patterns
    ensures r.pattern != path ==> r in t.patterns
    ensures r.pattern == path ==> IsPatternRoute(path)
    ensures r.pattern == path && was.Some? ==>
              && was.value in t.patterns && was.value.pattern == path
              && var before := was.value.methods;
                 r.methods == if verb in before then before else before[verb := handler]
    ensures r.pattern == path && was.None? ==>
              r.methods == map[verb := handler] && forall x <- t.patterns :: x.shape != Compile(path).value.shape
  {
    hide Compile, StableSort, Sorted;
    var added := AddRoute(t, verb, path, handler);
    if added.Err? || !IsPatternPath(path) {
      was := Some(r);
      var k :| 0 <= k < |t.patterns| && t.patterns[k] == r;
      ShapeFound(t, k);
      assert RouteOk(r);
    } else {
      CompiledRoute(path);
      was := AddedEntry(t, verb, path, handler, r);
    }
  }

  lemma ChangedAt(routes: seq<Route>, i: nat, changed: Route, r: Route) returns (k: nat)
    requires i < |routes| && r in routes[i := changed]
    ensures k < |routes| && r == (if k == i then changed else routes[k])
  {
    k :| 0 <= k < |routes| && routes[i := changed][k] == r;
  }

  lemma AddedEntry(t: Table, verb: nat, path: string, handler: Handler, r: Route) returns (was: Option<Route>)
    requires Inv(t) && IsPatternRoute(path) && AddPattern(t, verb, Compile(path).value, handler).Ok?
    requires r in AddPattern(t, verb, Compile(path).value, handler).value.patterns
    ensures r.pattern != path ==> r in t.patterns
    ensures r.pattern == path && was.Some? ==>
              && was.value in t.patterns && was.value.pattern == path && verb !in was.value.methods
              && r.methods == was.value.methods[verb := handler]
    ensures r.pattern == path && was.None? ==>
              r.methods == map[verb := handler] && forall x <- t.patterns :: x.shape != Compile(path).value.shape
  {
    CompiledRoute(path);
    hide Compile, Inv, StableSort;
    var compiled := Compile(path).value;
    var i := FindShape(t.patterns, compiled.shape);
    var routes := if i == |t.patterns| then t.patterns + [compiled] else t.patterns;
    InSorted(routes[i := WithMethod(routes[i], verb, handler)], r);
    var k := ChangedAt(routes, i, WithMethod(routes[i], verb, handler), r);
    if i == |t.patterns| {
      was := None;
      NoneOfShape(t.patterns, compiled.shape);
    } else {
      was := Some(t.patterns[i]);
    }
    if k != i && r.pattern == path {
      ShapeFound(t, k);
      assert false;
    }
  }

  lemma NoneOfShape(routes: seq<Route>, shape: string)
    requires FindShape(routes, shape) == |routes|
    ensures forall x <- routes :: x.shape != shape
  {
  }

  lemma InSorted(routes: seq<Route>, r: Route)
    ensures r in StableSort(routes) <==> r in routes
  {
    StableSortKeepsRoutes(routes);
    assert r in multiset(StableSort(routes)) <==> r in multiset(routes);
  }

  lemma AddedShapes(t: Table, verb: nat, compiled: Route, handler: Handler, shape: string)
    requires AddPattern(t, verb, compiled, handler).Ok?
    requires shape == compiled.shape || exists x :: x in t.patterns && x.shape == shape
    ensures exists x :: x in AddPattern(t, verb, compiled, handler).value.patterns && x.shape == shape
  {
    var i := FindShape(t.patterns, compiled.shape);
    var routes := if i == |t.patterns| then t.patterns + [compiled] else t.patterns;
    var changed := routes[i := WithMethod(routes[i], verb, handler)];
    var k := i;
    if shape != compiled.shape { k :| 0 <= k < |t.patterns| && t.patterns[k].shape == shape; }
    assert changed[k].shape == shape;
    InSorted(changed, changed[k]);
    hide StableSort, FindShape;
  }

  lemma ShapesAfter(t: Table, verb: nat, path: string, handler: Handler, shape: string)
    requires (exists x :: x in t.patterns && x.shape == shape)
             || (IsPatternRoute(path) && Compile(path).value.shape == shape)
    ensures exists x :: x in Added(t, verb, path, handler).patterns && x.shape == shape
  {
    if IsPatternRoute(path) {
      CompiledRoute(path);
      hide Compile, StableSort;
      var compiled := Compile(path).value;
      if AddPattern(t, verb, compiled, handler).Ok? {
        AddedShapes(t, verb, compiled, handler, shape);
      } else {
        assert FindShape(t.patterns, compiled.shape) < |t.patterns|;
      }
      hide AddPattern, FindShape;
    } else {
      ExactStep(t, verb, path, handler);
      hide Compile, StableSort;
    }
  }

  /** The shape of a registered pattern is in the table, under this pattern or under an earlier one. */
  lemma {:induction false} ShapeRegistered(rs: seq<Registration>, path: string)
    requires IsPatternRoute(path) && Verbs(rs, path) != {}
    ensures exists x :: x in After(rs).patterns && x.shape == Compile(path).value.shape
  {
    var front, r := rs[..|rs| - 1], rs[|rs| - 1];
    OneMore(rs, path);
    hide Verbs, IsPatternRoute, AddRoute, Compile;
    if Verbs(front, path) != {} { ShapeRegistered(front, path); }
    ShapesAfter(After(front), r.verb, r.path, r.handler, Compile(path).value.shape);
  }

  /** Every entry of the table has the methods registered for its pattern, each with its first handler. */
  lemma {:induction false} PatternTable(rs: seq<Registration>, entry: Route)
    requires entry in After(rs).patterns
    ensures IsPatternPath(entry.pattern) && AsRegistered(rs, entry.pattern, entry.methods)
    decreases |rs|
  {
    var front, r := rs[..|rs| - 1], rs[|rs| - 1];
    TableOrder(front);
    forall x <- After(front).patterns ensures IsPatternPath(x.pattern) && AsRegistered(front, x.pattern, x.methods) {
      PatternTable(front, x);
    }
    hide AddRoute, Inv, InOrder, AsRegistered;
    var was := PatternStep(After(front), r.verb, r.path, r.handler, entry);
    if entry.pattern != r.path {
      OtherRegistered(rs, entry.pattern, entry.methods);
    } else if was.Some? {
      MethodAdded(rs, r.path, was.value.methods);
    } else {
      if Verbs(front, r.path) != {} { ShapeRegistered(front, r.path); }
      NothingRegistered(front, r.path);
      MethodAdded(rs, r.path, map[]);
    }
  }

  lemma NothingRegistered(rs: seq<Registration>, path: string)
    ensures Verbs(rs, path) == {} ==> AsRegistered(rs, path, map[])
  {
  }

  /** No pattern that differs from this one in its parameter names alone is in the table. */
  ghost predicate NamesAgree(t: Table, path: string)
    requires IsPatternRoute(path)
  {
    forall x <- t.patterns :: x.shape == Compile(path).value.shape ==> x.pattern == path
  }

  lemma PatternAccepted(rs: seq<Registration>, verb: nat, path: string, handler: Handler)
    requires IsPatternRoute(path)
    ensures AddPattern(After(rs), verb, Compile(path).value, handler).Ok? <==>
              verb !in Verbs(rs, path) && NamesAgree(After(rs), path)
  {
    CompiledRoute(path);
    TableOrder(rs);
    hide Compile, StableSort, After, Verbs, InOrder, FirstHandler;
    var t, shape := After(rs), Compile(path).value.shape;
    var i := FindShape(t.patterns, shape);
    if i < |t.patterns| {
      assert t.patterns[i] in t.patterns;
      PatternTable(rs, t.patterns[i]);
      forall x | x in t.patterns && x.shape == shape ensures x == t.patterns[i] {
        assert DistinctShapes(t.patterns);
      }
    } else if Verbs(rs, path) != {} {
      ShapeRegistered(rs, path);
    }
  }

  /** A registration is accepted exactly if its path is well-formed, its names agree and its method is new. */
  lemma AcceptedIff(rs: seq<Registration>, verb: nat, path: string, handler: Handler)
    ensures AddRoute(After(rs), verb, path, handler).Ok? <==>
              && verb !in Verbs(rs, path)
              && (IsExactPath(path) || (IsPatternRoute(path) && NamesAgree(After(rs), path)))
  {
    if IsPatternRoute(path) {
      PatternAccepted(rs, verb, path, handler);
    } else {
      ExactTable(rs, path);
    }
    hide Compile, AddPattern, After, Verbs, FirstHandler, NamesAgree;
  }

  // ----- dispatch -----

  datatype Outcome =
    | BadRequest
    | NotFound
    | MethodNotAllowed(allowed: set<nat>)
    | Handled(handler: Handler, parameters: Parameters)

  function Choose(methods: Methods, verb: nat, parameters: Parameters): Outcome {
    if verb in methods then Handled(methods[verb], parameters) else MethodNotAllowed(methods.Keys)
  }

  /** Index of the first route that matches, or the length. */
  function FirstMatch(routes: seq<Route>, path: string): (i: nat)
    ensures i <= |routes| && (i < |routes| ==> Match(routes[i].segments, path).Some?)
    ensures forall j :: 0 <= j < i ==> Match(routes[j].segments, path).None?
  {
    if routes == [] || Match(routes[0].segments, path).Some? then 0 else 1 + FirstMatch(routes[1..], path)
  }

  function Dispatch(t: Table, verb: nat, target: string): Outcome {
    var path := PathOf(target);
    if path == "" || path[0] != '/' then BadRequest
    else if path in t.exact then Choose(t.exact[path], verb, map[])
    else
      var i := FirstMatch(t.patterns, path);
      if i == |t.patterns| then NotFound
      else Choose(t.patterns[i].methods, verb, Match(t.patterns[i].segments, path).value)
  }

  /**
   Without an exact route, a request is not found exactly when no pattern matches; otherwise it goes
   to the earliest of the matching patterns with the most static segments, which alone decides
   whether the method is allowed.
   */
  lemma DispatchIsMostStatic(rs: seq<Registration>, verb: nat, target: string)
    requires PathOf(target) != "" && PathOf(target)[0] == '/' && PathOf(target) !in After(rs).exact
    ensures var (routes, path) := (After(rs).patterns, PathOf(target));
            var out := Dispatch(After(rs), verb, target);
            && (out == NotFound <==> forall j :: 0 <= j < |routes| ==> Match(routes[j].segments, path).None?)
            && (out != NotFound ==> exists i ::
                  && 0 <= i < |routes| && Match(routes[i].segments, path).Some?
                  && out == Choose(routes[i].methods, verb, Match(routes[i].segments, path).value)
                  && forall j :: 0 <= j < |routes| && j != i && Match(routes[j].segments, path).Some? ==>
                       routes[j].staticCount < routes[i].staticCount
                       || (routes[j].staticCount == routes[i].staticCount && i < j))
  {
    TableOrder(rs);
    hide Match;
    var routes, path := After(rs).patterns, PathOf(target);
    var i := FirstMatch(routes, path);
    if i < |routes| {
      assert Match(routes[i].segments, path).Some?;
      assert forall j :: 0 <= j < |routes| && j != i && Match(routes[j].segments, path).Some? ==> i < j;
      assert Sorted(routes);
    }
  }

  /** Route i is the earliest of the matching patterns with the most static segments. */
  ghost predicate IsBestMatch(routes: seq<Route>, path: string, i: nat) {
    && i < |routes| && Match(routes[i].segments, path).Some?
    && forall j :: 0 <= j < |routes| && j != i && Match(routes[j].segments, path).Some? ==>
         routes[j].staticCount < routes[i].staticCount || (routes[j].staticCount == routes[i].staticCount && i < j)
  }

  lemma BestIsFirst(routes: seq<Route>, path: string, f: nat, i: nat)
    requires Sorted(routes) && IsBestMatch(routes, path, i) && f <= i && Match(routes[f].segments, path).Some?
    ensures f == i
  {
    hide Match;
  }

  /**
   A method that some matching pattern serves is served exactly when the best matching pattern
   serves it; otherwise the answer is that it is not allowed.
   */
  lemma HandledIff(rs: seq<Registration>, verb: nat, target: string, i: nat, k: nat)
    requires PathOf(target) != "" && PathOf(target)[0] == '/' && PathOf(target) !in After(rs).exact
    requires IsBestMatch(After(rs).patterns, PathOf(target), i)
    requires k < |After(rs).patterns| && Match(After(rs).patterns[k].segments, PathOf(target)).Some?
    requires verb in After(rs).patterns[k].methods
    ensures var out := Dispatch(After(rs), verb, target);
            && (out.Handled? <==> verb in After(rs).patterns[i].methods)
            && (!out.Handled? ==> out == MethodNotAllowed(After(rs).patterns[i].methods.Keys))
  {
    TableOrder(rs);
    hide Match;
    var routes, path := After(rs).patterns, PathOf(target);
    var f := FirstMatch(routes, path);
    assert f <= i;
    BestIsFirst(routes, path, f, i);
  }

  /** What a path is answered whose methods are these: the first handler of the method, or 405. */
  function Answer(rs: seq<Registration>, verb: nat, path: string, parameters: Parameters): Outcome {
    match FirstHandler(rs, verb, path)
    case Some(handler) => Handled(handler, parameters)
    case None => MethodNotAllowed(Verbs(rs, path))
  }

  lemma ChooseIsAnswer(rs: seq<Registration>, verb: nat, path: string, methods: Methods, parameters: Parameters)
    requires AsRegistered(rs, path, methods)
    ensures Choose(methods, verb, parameters) == Answer(rs, verb, path, parameters)
  {
    FirstHandlerIff(rs, verb, path);
  }

  /**
   Dispatch told from the registrations alone. A path registered without parameters wins over any
   pattern and is answered by its first handler for the method, with no parameters; otherwise the
   best matching pattern answers, by its first handler and with the parameters of the match. A
   method that was not registered for the path or pattern that answers gets those that were.
   */
  lemma DispatchIs(rs: seq<Registration>, verb: nat, target: string)
    ensures var (out, path, routes) := (Dispatch(After(rs), verb, target), PathOf(target), After(rs).patterns);
            && (out == BadRequest <==> path == "" || path[0] != '/')
            && (IsExactPath(path) && Verbs(rs, path) != {} ==> out == Answer(rs, verb, path, map[]))
            && (out == NotFound <==>
                  path != "" && path[0] == '/' && !(IsExactPath(path) && Verbs(rs, path) != {})
                  && forall j :: 0 <= j < |routes| ==> Match(routes[j].segments, path).None?)
            && (path != "" && path[0] == '/' && !(IsExactPath(path) && Verbs(rs, path) != {}) ==>
                  forall i: nat :: IsBestMatch(routes, path, i) ==>
                    out == Answer(rs, verb, routes[i].pattern, Match(routes[i].segments, path).value))
  {
    var path, routes := PathOf(target), After(rs).patterns;
    ExactTable(rs, path);
    TableOrder(rs);
    if path in After(rs).exact { ChooseIsAnswer(rs, verb, path, After(rs).exact[path], map[]); }
    hide Match, AsRegistered, Verbs, FirstHandler, IsExactPath, After, Answer, PathOf;
    var f := FirstMatch(routes, path);
    if f < |routes| {
      var parameters := Match(routes[f].segments, path).value;
      PatternTable(rs, routes[f]);
      ChooseIsAnswer(rs, verb, routes[f].pattern, routes[f].methods, parameters);
      forall i: nat | IsBestMatch(routes, path, i) ensures i == f { BestIsFirst(routes, path, f, i); }
    }
    hide Choose;
  }

  /** For instance, the first registration of a method and a path without parameters decides. */
  lemma FirstRegistrationServes(rs: seq<Registration>, i: nat, target: string)
    requires i < |rs| && IsExactPath(rs[i].path) && PathOf(target) == rs[i].path
    requires forall j :: 0 <= j < i ==> rs[j].verb != rs[i].verb || rs[j].path != rs[i].path
    ensures Dispatch(After(rs), rs[i].verb, target) == Handled(rs[i].handler, map[])
  {
    FirstIs(rs, i);
    assert rs[i].verb in Verbs(rs, rs[i].path);
    DispatchIs(rs, rs[i].verb, target);
    hide Verbs, FirstHandler, Dispatch, After;
  }

  lemma {:induction false} FirstIs(rs: seq<Registration>, i: nat)
    requires i < |rs| && forall j :: 0 <= j < i ==> rs[j].verb != rs[i].verb || rs[j].path != rs[i].path
    ensures FirstHandler(rs, rs[i].verb, rs[i].path) == Some(rs[i].handler)
    decreases |rs|
  {
    var front := rs[..|rs| - 1];
    if i < |front| {
      FirstIs(front, i);
    } else {
      FirstHandlerIff(front, rs[i].verb, rs[i].path);
    }
  }

  // Two patterns that both match "/a/b", the more static one for method 1 and the other for method 2.
  const MORE_STATIC := [Static("a"), Parameter("x")]
  const LESS_STATIC := [Parameter("y"), Parameter("z")]
  const TWO_PATTERNS := [Registration(1, "/a/{x}", 10), Registration(2, "/{y}/{z}", 20)]

  lemma JoinTwo(p: string, q: string)
    ensures JoinPath([p, q]) == "/" + (p + ['/'] + q)
  {
    var parts := [p, q];
    assert parts[1..] == [q] && Join([q], '/') == q;
  }

  lemma TwoSegments(a: Segment, b: Segment)
    ensures Texts([a, b]) == [SegmentText(a), SegmentText(b)]
    ensures ShapeOf([a, b]) == "/" + (ShapeText(a) + ['/'] + ShapeText(b))
    ensures StaticCount([a, b]) == (if a.Static? then 1 else 0) + (if b.Static? then 1 else 0)
    ensures SegmentsOk([a, b], {}) <==> SegmentOk(a, {}) && SegmentOk(b, NamesWith({}, a))
  {
    assert [a, b][1..] == [b] && [b][1..] == [];
    assert Texts([]) == [] && Texts([b]) == [SegmentText(b)];
    assert ShapeTexts([a, b]) == [ShapeText(a), ShapeText(b)];
    JoinTwo(ShapeText(a), ShapeText(b));
    assert SegmentsOk([b], NamesWith({}, a)) <==> SegmentOk(b, NamesWith({}, a));
    assert StaticCount([]) == 0 && StaticCount([b]) == if b.Static? then 1 else 0;
  }

  lemma PairCompiles(path: string, a: Segment, b: Segment)
    requires SegmentOk(a, {}) && SegmentOk(b, NamesWith({}, a))
    requires '/' !in SegmentText(a) && '/' !in SegmentText(b)
    requires path == "/" + (SegmentText(a) + ['/'] + SegmentText(b))
    ensures Compile(path) == Ok(Route(path, "/" + (ShapeText(a) + ['/'] + ShapeText(b)), [a, b],
                                      (if a.Static? then 1 else 0) + (if b.Static? then 1 else 0), map[]))
  {
    TwoSegments(a, b);
    var texts := [SegmentText(a), SegmentText(b)];
    JoinTwo(SegmentText(a), SegmentText(b));
    assert WellFormed([a, b]);
    hide Texts, WellFormed, JoinPath, SegmentText;
    CompileInverts(path, [a, b]);
  }

  lemma TwoPatternsCompile()
    ensures Compile("/a/{x}") == Ok(Route("/a/{x}", "/a/{}", MORE_STATIC, 1, map[]))
    ensures Compile("/{y}/{z}") == Ok(Route("/{y}/{z}", "/{}/{}", LESS_STATIC, 0, map[]))
  {
    hide Compile;
    assert IsValidName("x") && IsValidName("y") && IsValidName("z");
    assert "/" + ("a" + ['/'] + "{x}") == "/a/{x}" && "/" + ("a" + ['/'] + "{}") == "/a/{}";
    assert "/" + ("{y}" + ['/'] + "{z}") == "/{y}/{z}" && "/" + ("{}" + ['/'] + "{}") == "/{}/{}";
    PairCompiles("/a/{x}", Static("a"), Parameter("x"));
    PairCompiles("/{y}/{z}", Parameter("y"), Parameter("z"));
  }

  lemma TwoPatternsTable()
    ensures After(TWO_PATTERNS) ==
              Table(map[], [Route("/a/{x}", "/a/{}", MORE_STATIC, 1, map[1 := 10]),
                            Route("/{y}/{z}", "/{}/{}", LESS_STATIC, 0, map[2 := 20])])
  {
    hide Compile;
    TwoPatternsCompile();
    var a := Route("/a/{x}", "/a/{}", MORE_STATIC, 1, map[1 := 10]);
    var b := Route("/{y}/{z}", "/{}/{}", LESS_STATIC, 0, map[2 := 20]);
    assert TWO_PATTERNS[..1] == [TWO_PATTERNS[0]] && TWO_PATTERNS[..1][..0] == [];
    assert '{' in "/a/{x}" && '{' in "/{y}/{z}";
    assert After([]) == EMPTY;
    SortedStays([a]);
    assert After(TWO_PATTERNS[..1]) == Table(map[], [a]);
    SortedStays([a, b]);
    assert After(TWO_PATTERNS) == Table(map[], [a, b]);
  }

  /**
   A request a registered pattern would serve can be answered 405: the more static pattern that
   also matches the path decides alone.
   */
  lemma BestMatchShadows()
    ensures var t := After(TWO_PATTERNS);
            && |t.patterns| == 2 && 2 in t.patterns[1].methods
            && Match(t.patterns[1].segments, "/a/b") == Some(map["y" := "a", "z" := "b"])
            && Dispatch(t, 2, "/a/b") == MethodNotAllowed({1})
  {
    TwoPatternsTable();
    var t := After(TWO_PATTERNS);
    hide After;
    PathAB();
    hide SplitPath, PathOf, Decode;
    OneLetter('a');
    OneLetter('b');
    assert ["a", "b"][1..] == ["b"] && ["b"][1..] == [];
    assert MORE_STATIC[1..] == [Parameter("x")] && LESS_STATIC[1..] == [Parameter("z")];
    assert MatchAll(MORE_STATIC, ["a", "b"], map[]).Some?;
    assert MatchAll(LESS_STATIC, ["a", "b"], map[]) == Some(map["y" := "a", "z" := "b"]);
    assert FirstMatch(t.patterns, "/a/b") == 0;
  }

  lemma PathAB()
    ensures SplitPath("/a/b") == ["a", "b"] && PathOf("/a/b") == "/a/b"
  {
    assert ["a", "b"][1..] == ["b"] && JoinPath(["a", "b"]) == "/a/b";
    SplitInvertsJoin("/a/b", ["a", "b"]);
    IndexNone("/a/b", '?');
  }

  lemma OneLetter(c: char)
    requires c == 'a' || c == 'b'
    ensures Decode([c], false) == Some([c])
  {
    assert [c][1..] == "" && Decode("", false) == Some("") && [c] + "" == [c];
  }

  /** A path written for a registered pattern is always found, by it or by one before it in the table. */
  lemma RenderedPathIsFound(rs: seq<Registration>, k: nat, values: Parameters)
    requires k < |After(rs).patterns| && ValuesFor(After(rs).patterns[k].segments, values)
    ensures var (routes, path) := (After(rs).patterns, Render(After(rs).patterns[k].segments, values));
            && FirstMatch(routes, path) <= k
            && (FirstMatch(routes, path) == k ==>
                  Match(routes[k].segments, path) == Some(Chosen(routes[k].segments, values)))
  {
    TableOrder(rs);
    var r := After(rs).patterns[k];
    assert RouteOk(r);
    CompileInverts(r.pattern, r.segments);
    RenderMatchesAll(r.segments, values);
    hide Match, Chosen, Render;
  }

  // ----- the router as an object -----

  class Router {
    var exactRoutes: map<string, Methods>
    var patternRoutes: seq<Route>

    function View(): Table
      reads this
    {
      Table(exactRoutes, patternRoutes)
    }

    constructor ()
      ensures View() == EMPTY && Inv(View())
    {
      exactRoutes, patternRoutes := map[], [];
    }

    method RegisterRoute(verb: nat, path: string, handler: Handler) returns (error: Option<RouteError>)
      requires Inv(View())
      modifies this
      ensures Inv(View())
      ensures match AddRoute(old(View()), verb, path, handler)
              case Ok(t) => error == None && View() == t
              case Err(e) => error == Some(e) && View() == old(View())
    {
      if AddRoute(View(), verb, path, handler).Ok? { AddRouteKeepsInv(View(), verb, path, handler); }
      hide Inv, Compile;
      if path == "" || path[0] != '/' || '?' in path { return Some(BadPath); }
      if !IsPatternPath(path) {
        var methods := if path in exactRoutes then exactRoutes[path] else map[];
        if verb in methods { return Some(DuplicateRoute); }
        exactRoutes := exactRoutes[path := methods[verb := handler]];
        return None;
      }
      var compiled := CompilePattern(path);
      if compiled.Err? { return Some(compiled.error); }
      error := RegisterPattern(verb, compiled.value, handler);
    }

    method RegisterPattern(verb: nat, compiled: Route, handler: Handler) returns (error: Option<RouteError>)
      modifies this
      ensures match AddPattern(old(View()), verb, compiled, handler)
              case Ok(t) => error == None && View() == t
              case Err(e) => error == Some(e) && View() == old(View())
    {
      var i := 0;
      while i < |patternRoutes| && patternRoutes[i].shape != compiled.shape
        invariant 0 <= i <= |patternRoutes|
        invariant i <= FindShape(patternRoutes, compiled.shape)
      {
        i := i + 1;
      }
      assert i == FindShape(patternRoutes, compiled.shape);
      hide StableSort, FindShape;
      if i < |patternRoutes| && patternRoutes[i].pattern != compiled.pattern { return Some(ConflictingNames); }
      var routes := if i == |patternRoutes| then patternRoutes + [compiled] else patternRoutes;
      if verb in routes[i].methods { return Some(DuplicateRoute); }
      patternRoutes := StableSort(routes[i := WithMethod(routes[i], verb, handler)]);
      return None;
    }

    method DispatchRequest(verb: nat, target: string) returns (out: Outcome)
      ensures out == Dispatch(View(), verb, target)
    {
      var path := PathOf(target);
      if path == "" || path[0] != '/' { return BadRequest; }
      if path in exactRoutes { return Choose(exactRoutes[path], verb, map[]); }
      hide Match;
      for i := 0 to |patternRoutes|
        invariant i <= FirstMatch(patternRoutes, path)
      {
        var parameters := MatchPattern(patternRoutes[i], path);
        if parameters.Some? { return Choose(patternRoutes[i].methods, verb, parameters.value); }
      }
      return NotFound;
    }
  }
}
