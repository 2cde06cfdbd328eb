/**
 The REST gateway's scope index: which scope an operation of the OpenAPI description needs, and
 the scope that every operation needs. Operations come in the order of the description.
*/
module OpenApiIndex {
  import opened Results
  import opened SortedStrings
  import opened Splitting
  import opened Texts

  datatype Operation = Operation(method_: string, operationId: string, rawScope: string)

  datatype PathItem = PathItem(path: string, operations: seq<Operation>)

  datatype Spec = Spec(paths: Option<seq<PathItem>>)

  datatype Route = Route(method_: string, path: string, operationId: string, scope: string)

  // ---------------------------------------------------------------- scopes

  function NormalizeScope(scope: string): string { JoinWords(SortUnique(Words(scope))) }

  lemma NormalizedWords(scope: string)
    ensures Words(NormalizeScope(scope)) == SortUnique(Words(scope))
    ensures Elements(Words(NormalizeScope(scope))) == Elements(Words(scope))
  {
    var sorted := SortUnique(Words(scope));
    SortUniqueSorts(Words(scope));
    forall i | 0 <= i < |sorted| ensures IsWord(sorted[i]) {
      assert sorted[i] in Elements(sorted);
      assert sorted[i] in Words(scope);
    }
    WordsOfJoin(sorted);
  }

  /** Two scopes normalize alike exactly when they list the same words, and once is enough. */
  lemma NormalFormIsCanonical(a: string, b: string)
    ensures NormalizeScope(a) == NormalizeScope(b) <==> Elements(Words(a)) == Elements(Words(b))
    ensures NormalizeScope(NormalizeScope(a)) == NormalizeScope(a)
  {
    NormalizedWords(a);
    NormalizedWords(b);
    SameNormalFormIffSameSet(Words(a), Words(b));
    SameNormalFormIffSameSet(Words(NormalizeScope(a)), Words(a));
  }

  // ---------------------------------------------------------------- paths

  /** The pieces between slashes. */
  function Segments(path: string): seq<string> { Split(path, '/') }

  /** `{name}`, with a name that holds no brace. */
  predicate IsParam(segment: string) {
    && |segment| >= 3 && segment[0] == '{' && segment[|segment| - 1] == '}'
    && forall i :: 0 < i < |segment| - 1 ==> segment[i] != '{' && segment[i] != '}'
  }

  predicate SegmentMatches(segment: string, part: string) {
    if IsParam(segment) then part != "" else part == segment
  }

  predicate AllMatch(segments: seq<string>, parts: seq<string>) {
    |segments| == |parts| && forall i :: 0 <= i < |parts| ==> SegmentMatches(segments[i], parts[i])
  }

  /** The path as the anchored pattern sees it: piece by piece, with one more slash allowed at the end. */
  predicate PathMatches(template: string, pathname: string) {
    || AllMatch(Segments(template), Segments(pathname))
    || (pathname != "" && pathname[|pathname| - 1] == '/'
        && AllMatch(Segments(template), Segments(pathname[..|pathname| - 1])))
  }

  /** Slash-free values for the pieces of the template: free but non-empty for parameters, literal otherwise. */
  predicate Fills(template: string, parts: seq<string>) {
    parts != [] && AllMatch(Segments(template), parts) && forall part :: part in parts ==> '/' !in part
  }

  /** A path matches exactly when it is the template filled in, perhaps with a slash after it. */
  lemma MatchingIsFilling(template: string, pathname: string)
    ensures PathMatches(template, pathname) <==>
            exists parts :: Fills(template, parts) && (pathname == Join(parts, '/') || pathname == Join(parts, '/') + "/")
  {
    hide Split, Join, SegmentMatches;
    JoinUndoesSplit(pathname, '/');
    PiecesHoldNoSeparator(pathname, '/');
    if pathname != "" && pathname[|pathname| - 1] == '/' {
      var shorter := pathname[..|pathname| - 1];
      JoinUndoesSplit(shorter, '/');
      PiecesHoldNoSeparator(shorter, '/');
      assert shorter + "/" == pathname;
    }
    if parts :| Fills(template, parts) && (pathname == Join(parts, '/') || pathname == Join(parts, '/') + "/") {
      SplitUndoesJoin(parts, '/');
      assert pathname == Join(parts, '/') + "/" ==> pathname[..|pathname| - 1] == Join(parts, '/');
    }
  }

  function Literals(segments: seq<string>): nat {
    if segments == [] then 0
    else (if segments[0] != "" && !IsParam(segments[0]) then 1 else 0) + Literals(segments[1..])
  }

  /** How many pieces of the path are spelled out. */
  function RouteSpecificity(path: string): nat { Literals(Segments(path)) }

  // ---------------------------------------------------------------- operations

  const VALID_METHODS := {"get", "post", "put", "patch", "delete", "head", "options"}

  predicate IsAlphanumeric(c: char) { 'a' <= c <= 'z' || 'A' <= c <= 'Z' || '0' <= c <= '9' }

  function Underscored(s: string): string {
    seq(|s|, i requires 0 <= i < |s| => if IsAlphanumeric(s[i]) then s[i] else '_')
  }

  function Squeezed(s: string): string {
    if |s| < 2 then s
    else if s[0] == '_' && s[1] == '_' then Squeezed(s[1..])
    else [s[0]] + Squeezed(s[1..])
  }

  function MakeOperationId(method_: string, path: string): string {
    var s := Squeezed(method_ + "_" + Underscored(path));
    var front := if s != "" && s[0] == '_' then s[1..] else s;
    var both := if front != "" && front[|front| - 1] == '_' then front[..|front| - 1] else front;
    Lower(both)
  }

  function RouteOf(path: string, op: Operation): Option<Route> {
    var method_ := Lower(op.method_);
    if method_ !in VALID_METHODS || op.rawScope == "" then None
    else Some(Route(method_, path, if op.operationId != "" then op.operationId else MakeOperationId(method_, path),
                    NormalizeScope(op.rawScope)))
  }

  function RoutesOfPath(path: string, operations: seq<Operation>): seq<Route> {
    if operations == [] then []
    else
      (if RouteOf(path, operations[0]).Some? then [RouteOf(path, operations[0]).value] else [])
      + RoutesOfPath(path, operations[1..])
  }

  /** The scoped operations, in the order of the description. */
  function RoutesOf(items: seq<PathItem>): seq<Route> {
    if items == [] then [] else RoutesOfPath(items[0].path, items[0].operations) + RoutesOf(items[1..])
  }

  lemma {:induction false} RoutesOfPathAre(path: string, operations: seq<Operation>, r: Route)
    ensures r in RoutesOfPath(path, operations) <==> exists op :: op in operations && RouteOf(path, op) == Some(r)
  {
    hide RouteOf;
    if operations != [] {
      RoutesOfPathAre(path, operations[1..], r);
      assert forall op :: op in operations <==> op == operations[0] || op in operations[1..];
    }
  }

  /** The routes are the operations with a known method and a scope, with that scope normalized. */
  lemma {:induction false} RoutesAreScopedOperations(items: seq<PathItem>, r: Route)
    ensures r in RoutesOf(items) <==>
            exists item, op :: item in items && op in item.operations && RouteOf(item.path, op) == Some(r)
  {
    hide RouteOf;
    if items != [] {
      RoutesOfPathAre(items[0].path, items[0].operations, r);
      RoutesAreScopedOperations(items[1..], r);
      assert forall item :: item in items <==> item == items[0] || item in items[1..];
    }
  }

  // ---------------------------------------------------------------- resolving

  predicate Serves(r: Route, method_: string, pathname: string) {
    r.method_ == method_ && PathMatches(r.path, pathname)
  }

  function InsertRoute(r: Route, sorted: seq<Route>): seq<Route> {
    if sorted == [] || RouteSpecificity(sorted[0].path) <= RouteSpecificity(r.path) then [r] + sorted
    else [sorted[0]] + InsertRoute(r, sorted[1..])
  }

  /** The stable sort by falling specificity. */
  function SortRoutes(routes: seq<Route>): seq<Route> {
    if routes == [] then [] else InsertRoute(routes[0], SortRoutes(routes[1..]))
  }

  function FirstServing(routes: seq<Route>, method_: string, pathname: string): Option<Route> {
    if routes == [] then None
    else if Serves(routes[0], method_, pathname) then Some(routes[0])
    else FirstServing(routes[1..], method_, pathname)
  }

  predicate Falling(routes: seq<Route>) {
    forall i, j :: 0 <= i < j < |routes| ==> RouteSpecificity(routes[i].path) >= RouteSpecificity(routes[j].path)
  }

  lemma {:induction false} InsertKeepsRoutes(r: Route, sorted: seq<Route>)
    ensures multiset(InsertRoute(r, sorted)) == multiset(sorted) + multiset{r}
  {
    hide RouteSpecificity;
    if sorted != [] && RouteSpecificity(sorted[0].path) > RouteSpecificity(r.path) {
      InsertKeepsRoutes(r, sorted[1..]);
      assert sorted == [sorted[0]] + sorted[1..];
    }
  }

  lemma {:induction false} InsertKeepsFalling(r: Route, sorted: seq<Route>)
    requires Falling(sorted)
    ensures Falling(InsertRoute(r, sorted))
  {
    hide RouteSpecificity;
    if sorted != [] && RouteSpecificity(sorted[0].path) > RouteSpecificity(r.path) {
      InsertKeepsFalling(r, sorted[1..]);
      var rest := InsertRoute(r, sorted[1..]);
      forall k | 0 <= k < |rest| ensures RouteSpecificity(sorted[0].path) >= RouteSpecificity(rest[k].path) {
        InsertKeepsRoutes(r, sorted[1..]);
        assert rest[k] in multiset(rest);
        if rest[k] != r {
          assert rest[k] in sorted[1..];
        }
      }
    }
  }

  lemma {:induction false} SortSorts(routes: seq<Route>)
    ensures Falling(SortRoutes(routes)) && multiset(SortRoutes(routes)) == multiset(routes)
  {
    hide RouteSpecificity;
    if routes != [] {
      SortSorts(routes[1..]);
      InsertKeepsFalling(routes[0], SortRoutes(routes[1..]));
      InsertKeepsRoutes(routes[0], SortRoutes(routes[1..]));
      assert routes == [routes[0]] + routes[1..];
    }
  }

  /** The index of the most specific route that serves a request, the earliest of equals. */
  predicate IsBest(routes: seq<Route>, i: int, method_: string, pathname: string) {
    && 0 <= i < |routes| && Serves(routes[i], method_, pathname)
    && forall j :: 0 <= j < |routes| && Serves(routes[j], method_, pathname) ==>
         && RouteSpecificity(routes[j].path) <= RouteSpecificity(routes[i].path)
         && (j < i ==> RouteSpecificity(routes[j].path) < RouteSpecificity(routes[i].path))
  }

  lemma {:induction false} FirstOfInserted(r: Route, sorted: seq<Route>, method_: string, pathname: string)
    requires Falling(sorted)
    ensures var rest := FirstServing(sorted, method_, pathname);
            FirstServing(InsertRoute(r, sorted), method_, pathname)
            == if Serves(r, method_, pathname)
                  && (rest.None? || RouteSpecificity(rest.value.path) <= RouteSpecificity(r.path)) then Some(r)
               else rest
  {
    hide RouteSpecificity, Serves;
    FirstIsMember(sorted, method_, pathname);
    if sorted != [] && RouteSpecificity(sorted[0].path) > RouteSpecificity(r.path) {
      FirstOfInserted(r, sorted[1..], method_, pathname);
      assert ([sorted[0]] + InsertRoute(r, sorted[1..]))[1..] == InsertRoute(r, sorted[1..]);
    } else {
      assert ([r] + sorted)[1..] == sorted;
    }
  }

  lemma {:induction false} FirstIsMember(routes: seq<Route>, method_: string, pathname: string)
    ensures FirstServing(routes, method_, pathname).Some? ==>
              FirstServing(routes, method_, pathname).value in routes
              && Serves(FirstServing(routes, method_, pathname).value, method_, pathname)
  {
    hide Serves;
    if routes != [] {
      FirstIsMember(routes[1..], method_, pathname);
    }
  }

  /** The first serving route of the sorted table is the best of the description, or there is none. */
  lemma {:induction false} FirstOfSortedIsBest(routes: seq<Route>, method_: string, pathname: string)
    ensures var first := FirstServing(SortRoutes(routes), method_, pathname);
            if first.Some? then exists i :: IsBest(routes, i, method_, pathname) && routes[i] == first.value
            else forall r :: r in routes ==> !Serves(r, method_, pathname)
  {
    hide RouteSpecificity, Serves;
    if routes != [] {
      var r, tail := routes[0], routes[1..];
      FirstOfSortedIsBest(tail, method_, pathname);
      SortSorts(tail);
      FirstOfInserted(r, SortRoutes(tail), method_, pathname);
      var rest := FirstServing(SortRoutes(tail), method_, pathname);
      if rest.Some? {
        var i :| IsBest(tail, i, method_, pathname) && tail[i] == rest.value;
        BestOfMore(routes, i, method_, pathname);
      } else {
        AloneIsBest(routes, method_, pathname);
      }
    }
  }

  lemma BestOfMore(routes: seq<Route>, i: int, method_: string, pathname: string)
    requires routes != [] && IsBest(routes[1..], i, method_, pathname)
    ensures if Serves(routes[0], method_, pathname)
               && RouteSpecificity(routes[i + 1].path) <= RouteSpecificity(routes[0].path)
            then IsBest(routes, 0, method_, pathname) else IsBest(routes, i + 1, method_, pathname)
  {
    hide RouteSpecificity, Serves;
    assert forall j :: 0 < j < |routes| ==> routes[j] == routes[1..][j - 1];
  }

  lemma AloneIsBest(routes: seq<Route>, method_: string, pathname: string)
    requires routes != [] && forall r :: r in routes[1..] ==> !Serves(r, method_, pathname)
    ensures Serves(routes[0], method_, pathname) ==> IsBest(routes, 0, method_, pathname)
    ensures !Serves(routes[0], method_, pathname) ==> forall r :: r in routes ==> !Serves(r, method_, pathname)
  {
    hide RouteSpecificity, Serves;
    assert forall j :: 0 < j < |routes| ==> routes[j] in routes[1..];
  }

  // ---------------------------------------------------------------- what a request needs

  /** The scoped operations of a description; one without paths has none. */
  function RoutesIn(spec: Spec): seq<Route> {
    if spec.paths.None? then [] else RoutesOf(spec.paths.value)
  }

  /** The route table after any rebuild. */
  function TableOf(spec: Spec): seq<Route> { SortRoutes(RoutesIn(spec)) }

  /** An operation of the description that needs a scope and serves the request. */
  predicate Answers(spec: Spec, item: PathItem, op: Operation, method_: string, pathname: string) {
    && spec.paths.Some? && item in spec.paths.value && op in item.operations
    && Lower(op.method_) in VALID_METHODS && op.rawScope != ""
    && Lower(op.method_) == Lower(method_) && PathMatches(item.path, pathname)
  }

  /** What a resolve finds in the table. */
  function Resolved(table: seq<Route>, method_: string, pathname: string): Option<string> {
    var first := FirstServing(table, Lower(method_), pathname);
    if first.Some? then Some(first.value.scope) else None
  }

  /** The routes that serve a request are those of the operations that answer it. */
  lemma ServingRoutes(spec: Spec, r: Route, method_: string, pathname: string)
    ensures r in RoutesIn(spec) && Serves(r, Lower(method_), pathname) <==>
            exists item, op :: Answers(spec, item, op, method_, pathname) && RouteOf(item.path, op) == Some(r)
  {
    hide RoutesOf, PathMatches, MakeOperationId, NormalizeScope;
    if spec.paths.Some? {
      RoutesAreScopedOperations(spec.paths.value, r);
    }
  }

  lemma RouteFields(path: string, op: Operation)
    requires RouteOf(path, op).Some?
    ensures RouteOf(path, op).value.path == path && RouteOf(path, op).value.scope == NormalizeScope(op.rawScope)
  {}

  lemma AnsweredByRoute(spec: Spec, item: PathItem, op: Operation, method_: string, pathname: string)
    requires Answers(spec, item, op, method_, pathname)
    ensures var r := RouteOf(item.path, op);
            r.Some? && r.value in RoutesIn(spec) && Serves(r.value, Lower(method_), pathname)
  {
    hide RoutesOf, PathMatches, MakeOperationId, NormalizeScope;
    ServingRoutes(spec, RouteOf(item.path, op).value, method_, pathname);
  }

  /**
   After any rebuild a request resolves to the normalized scope of an operation that answers it with
   the most pieces of its path spelled out, and to nothing exactly when no scoped operation answers.
  */
  lemma ResolvedIsTheMostSpecific(spec: Spec, method_: string, pathname: string)
    ensures var r := Resolved(TableOf(spec), method_, pathname);
            && (r.None? <==> forall item, op :: !Answers(spec, item, op, method_, pathname))
            && (r.Some? ==> exists item, op ::
                  && Answers(spec, item, op, method_, pathname) && r.value == NormalizeScope(op.rawScope)
                  && forall item', op' :: Answers(spec, item', op', method_, pathname) ==>
                       RouteSpecificity(item'.path) <= RouteSpecificity(item.path))
  {
    hide RoutesOf, PathMatches, MakeOperationId, NormalizeScope, RouteSpecificity, Serves, SortRoutes, Answers, RouteOf;
    var routes, lower := RoutesIn(spec), Lower(method_);
    FirstOfSortedIsBest(routes, lower, pathname);
    var first := FirstServing(TableOf(spec), lower, pathname);
    if first.Some? {
      var i :| IsBest(routes, i, lower, pathname) && routes[i] == first.value;
      ServingRoutes(spec, first.value, method_, pathname);
      var item, op :| Answers(spec, item, op, method_, pathname) && RouteOf(item.path, op) == Some(first.value);
      RouteFields(item.path, op);
      forall item', op' | Answers(spec, item', op', method_, pathname)
        ensures RouteSpecificity(item'.path) <= RouteSpecificity(item.path)
      {
        AnsweredByRoute(spec, item', op', method_, pathname);
        RouteFields(item'.path, op');
      }
    } else {
      forall item, op ensures !Answers(spec, item, op, method_, pathname) {
        if Answers(spec, item, op, method_, pathname) {
          AnsweredByRoute(spec, item, op, method_, pathname);
        }
      }
    }
  }

  // ---------------------------------------------------------------- the scope every operation needs

  function Common(routes: seq<Route>): set<string>
    requires routes != []
  {
    set w | w in Words(routes[0].scope) && forall r :: r in routes ==> w in Words(r.scope)
  }

  ghost function CommonScope(routes: seq<Route>): Option<string> {
    if routes == [] then None else Some(JoinWords(SortedList(Common(routes))))
  }

  lemma CommonOfSorted(routes: seq<Route>)
    ensures CommonScope(SortRoutes(routes)) == CommonScope(routes)
  {
    hide Words;
    SortSorts(routes);
    var sorted := SortRoutes(routes);
    assert forall r :: r in sorted <==> r in multiset(sorted);
    assert forall r :: r in routes <==> r in multiset(routes);
    if routes != [] {
      assert routes[0] in sorted && sorted[0] in routes;
      assert Common(sorted) == Common(routes);
    } else {
      assert sorted == [];
    }
  }

  /** The fallback lists, in order, exactly the words that every scoped operation needs. */
  lemma FallbackIsTheIntersection(routes: seq<Route>)
    requires routes != []
    ensures var fallback := CommonScope(routes).value;
            && StrictlySorted(Words(fallback))
            && forall w :: w in Words(fallback) <==> forall r :: r in routes ==> w in Words(r.scope)
  {
    hide Words;
    var sorted := SortedList(Common(routes));
    forall i | 0 <= i < |sorted| ensures IsWord(sorted[i]) {
      assert sorted[i] in Elements(sorted);
      assert sorted[i] in Words(routes[0].scope);
      assert forall j :: 0 <= j < |Words(routes[0].scope)| ==> IsWord(Words(routes[0].scope)[j]);
    }
    WordsOfJoin(sorted);
    assert forall w :: w in sorted <==> w in Elements(sorted);
    assert routes[0] in routes;
  }

  // ---------------------------------------------------------------- the index

  type ScopeMap = map<string, string>

  function IdMap(routes: seq<Route>): ScopeMap {
    if routes == [] then map[]
    else
      var r := routes[|routes| - 1];
      IdMap(routes[..|routes| - 1])[r.operationId := r.scope]
  }

  /** An operation id leads to the scope of the last operation that carries it. */
  lemma {:induction false} IdMapIsLast(routes: seq<Route>, id: string)
    ensures id in IdMap(routes) <==> exists i :: 0 <= i < |routes| && routes[i].operationId == id
    ensures id in IdMap(routes) ==>
              exists i :: 0 <= i < |routes| && routes[i].operationId == id && IdMap(routes)[id] == routes[i].scope
                          && forall j :: i < j < |routes| ==> routes[j].operationId != id
  {
    if routes != [] {
      var before, r := routes[..|routes| - 1], routes[|routes| - 1];
      IdMapIsLast(before, id);
      if r.operationId == id {
        assert routes[|routes| - 1].operationId == id;
      } else if id in IdMap(before) {
        var i :| 0 <= i < |before| && before[i].operationId == id && IdMap(before)[id] == before[i].scope
                 && forall j :: i < j < |before| ==> before[j].operationId != id;
        assert routes[i] == before[i];
      }
    }
  }

  lemma NoRoutes()
    ensures IdMap([]) == map[] && RoutesOf([]) == [] && SortRoutes([]) == []
  {}

  class ScopeIndex {
    var operationScopeMap: ScopeMap
    var scopeRouteTable: seq<Route>
    var allScopesUnion: Option<string>

    constructor ()
      ensures operationScopeMap == map[] && scopeRouteTable == [] && allScopesUnion == None
    {
      operationScopeMap, scopeRouteTable, allScopesUnion := map[], [], None;
    }

    /** Clears and fills the tables; a description without paths leaves the fallback as it was. */
    method RebuildScopeIndexes(spec: Spec)
      modifies this
      ensures operationScopeMap == IdMap(RoutesIn(spec)) && scopeRouteTable == TableOf(spec)
      ensures allScopesUnion == FallbackAfter(old(allScopesUnion), spec)
    {
      hide RouteOf, SortRoutes, RoutesOfPath, IdMap, CommonScope;
      NoRoutes();
      operationScopeMap, scopeRouteTable := map[], [];
      if spec.paths.None? {
        return;
      }
      var items := spec.paths.value;
      var i := 0;
      while i < |items|
        invariant i <= |items|
        invariant scopeRouteTable + RoutesOf(items[i..]) == RoutesOf(items)
        invariant operationScopeMap == IdMap(scopeRouteTable)
        invariant allScopesUnion == old(allScopesUnion)
      {
        assert items[i..][1..] == items[i + 1..];
        AddPath(items[i].path, items[i].operations);
        i := i + 1;
      }
      assert scopeRouteTable + [] == scopeRouteTable;
      scopeRouteTable := SortRoutes(scopeRouteTable);
      CommonOfSorted(RoutesOf(items));
      allScopesUnion := Intersection(scopeRouteTable);
    }

    /** The inner loop: the operations of one path. */
    method AddPath(path: string, operations: seq<Operation>)
      requires operationScopeMap == IdMap(scopeRouteTable)
      modifies `operationScopeMap, `scopeRouteTable
      ensures scopeRouteTable == old(scopeRouteTable) + RoutesOfPath(path, operations)
      ensures operationScopeMap == IdMap(scopeRouteTable)
    {
      hide NormalizeScope, MakeOperationId, Lower;
      var i := 0;
      assert scopeRouteTable + RoutesOfPath(path, operations) == old(scopeRouteTable) + RoutesOfPath(path, operations[0..]);
      while i < |operations|
        invariant i <= |operations|
        invariant scopeRouteTable + RoutesOfPath(path, operations[i..]) == old(scopeRouteTable) + RoutesOfPath(path, operations)
        invariant operationScopeMap == IdMap(scopeRouteTable)
      {
        assert operations[i..][1..] == operations[i + 1..];
        var op := operations[i];
        var lowerMethod := Lower(op.method_);
        if lowerMethod in VALID_METHODS && op.rawScope != "" {
          var operationId := if op.operationId != "" then op.operationId else MakeOperationId(lowerMethod, path);
          var requiredScope := NormalizeScope(op.rawScope);
          var entry := Route(lowerMethod, path, operationId, requiredScope);
          assert (scopeRouteTable + [entry])[..|scopeRouteTable|] == scopeRouteTable;
          operationScopeMap := operationScopeMap[operationId := requiredScope];
          assert scopeRouteTable + ([entry] + RoutesOfPath(path, operations[i + 1..]))
              == (scopeRouteTable + [entry]) + RoutesOfPath(path, operations[i + 1..]);
          scopeRouteTable := scopeRouteTable + [entry];
        } else {
          assert [] + RoutesOfPath(path, operations[i + 1..]) == RoutesOfPath(path, operations[i + 1..]);
        }
        i := i + 1;
      }
      assert scopeRouteTable + [] == scopeRouteTable;
    }

    /** Narrows the words of the first route down by those of each later one. */
    method Intersection(routes: seq<Route>) returns (r: Option<string>)
      ensures r == CommonScope(routes)
    {
      hide Words;
      if routes == [] {
        return None;
      }
      var intersection := set w | w in Words(routes[0].scope);
      var i := 1;
      while i < |routes|
        invariant 1 <= i <= |routes|
        invariant forall w :: w in intersection <==> forall k :: 0 <= k < i ==> w in Words(routes[k].scope)
      {
        intersection := set w | w in intersection && w in Words(routes[i].scope);
        i := i + 1;
      }
      assert intersection == Common(routes);
      var sorted := Listed(intersection);
      return Some(JoinWords(sorted));
    }

    method ResolveRequiredScope(method_: string, pathname: string) returns (r: Option<string>)
      ensures r == Resolved(scopeRouteTable, method_, pathname)
    {
      hide PathMatches;
      var lowerMethod := Lower(method_);
      var i := 0;
      while i < |scopeRouteTable|
        invariant i <= |scopeRouteTable|
        invariant FirstServing(scopeRouteTable, lowerMethod, pathname) == FirstServing(scopeRouteTable[i..], lowerMethod, pathname)
      {
        assert scopeRouteTable[i..][1..] == scopeRouteTable[i + 1..];
        if scopeRouteTable[i].method_ == lowerMethod {
          if PathMatches(scopeRouteTable[i].path, pathname) {
            return Some(scopeRouteTable[i].scope);
          }
        }
        i := i + 1;
      }
      return None;
    }
  }

  /** The fallback after a rebuild, as a function of the one before it. */
  ghost function FallbackAfter(before: Option<string>, spec: Spec): Option<string> {
    if spec.paths.None? then before else CommonScope(RoutesOf(spec.paths.value))
  }

  ghost function FallbackOf(spec: Spec): Option<string> {
    if spec.paths.None? then None else CommonScope(RoutesOf(spec.paths.value))
  }

  /** The fallback after a whole sequence of rebuilds. */
  ghost function FallbackAfterAll(specs: seq<Spec>): Option<string> {
    if specs == [] then None
    else FallbackAfter(FallbackAfterAll(specs[..|specs| - 1]), specs[|specs| - 1])
  }

  /** `i` is the last description with paths. */
  predicate LastWithPaths(specs: seq<Spec>, i: int) {
    0 <= i < |specs| && specs[i].paths.Some? && forall j :: i < j < |specs| ==> specs[j].paths.None?
  }

  /**
   After any sequence of rebuilds the fallback is that of the last description with paths; it is
   the latest description's own exactly when that has paths, or no scope was common before.
  */
  lemma {:induction false} FallbackIsOfTheLastWithPaths(specs: seq<Spec>)
    ensures (forall i :: 0 <= i < |specs| ==> specs[i].paths.None?) ==> FallbackAfterAll(specs) == None
    ensures forall i :: LastWithPaths(specs, i) ==> FallbackAfterAll(specs) == CommonScope(RoutesOf(specs[i].paths.value))
    ensures specs != [] ==>
              (FallbackAfterAll(specs) == FallbackOf(specs[|specs| - 1]) <==>
               specs[|specs| - 1].paths.Some? || FallbackAfterAll(specs[..|specs| - 1]).None?)
  {
    hide CommonScope, RoutesOf;
    if specs != [] {
      var before := specs[..|specs| - 1];
      FallbackIsOfTheLastWithPaths(before);
      forall i | LastWithPaths(specs, i)
        ensures FallbackAfterAll(specs) == CommonScope(RoutesOf(specs[i].paths.value))
      {
        if i < |before| {
          assert before[i] == specs[i];
          assert LastWithPaths(before, i);
        }
      }
    }
  }

  /** A rebuild with a scoped operation, then one without paths: the old scope is still handed out. */
  lemma StaleFallback(op: Operation, path: string)
    requires RouteOf(path, op).Some?
    ensures var first := FallbackAfter(None, Spec(Some([PathItem(path, [op])])));
            FallbackAfter(first, Spec(None)).Some? && FallbackOf(Spec(None)).None?
  {
    assert RoutesOfPath(path, [op]) == [RouteOf(path, op).value] + RoutesOfPath(path, []);
    assert RoutesOf([PathItem(path, [op])]) == RoutesOfPath(path, [op]) + RoutesOf([]);
  }
}
