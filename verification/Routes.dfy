/** Choosing the handler for a method and path among registered patterns, held in an unordered map. */
module Routes {
  import opened Options
  import opened Paths
  import Text

  type Params = map<string, string>

  predicate IsParam(segment: string) {
    segment != "" && segment[0] == ':'
  }

  function Name(segment: string): string
    requires IsParam(segment)
  {
    segment[1..]
  }

  // Matching one pattern

  function Match(pattern: seq<string>, path: seq<string>): Option<Params> {
    if |pattern| != |path| then None
    else if pattern == [] then Some(map[])
    else
      var n := |pattern| - 1;
      var before := Match(pattern[..n], path[..n]);
      if before.None? then None
      else if IsParam(pattern[n]) then
        if Name(pattern[n]) == "" then None else Some(before.value[Name(pattern[n]) := path[n]])
      else if pattern[n] == path[n] then before
      else None
  }

  predicate SegmentMatches(pattern: string, segment: string) {
    if IsParam(pattern) then Name(pattern) != "" else pattern == segment
  }

  lemma {:induction false} MatchSucceedsIff(pattern: seq<string>, path: seq<string>)
    ensures Match(pattern, path).Some? <==>
      |pattern| == |path| && forall i :: 0 <= i < |path| ==> SegmentMatches(pattern[i], path[i])
  {
    if |pattern| == |path| && pattern != [] {
      var n := |pattern| - 1;
      MatchSucceedsIff(pattern[..n], path[..n]);
      assert forall i :: 0 <= i < n ==> pattern[..n][i] == pattern[i] && path[..n][i] == path[i];
    }
  }

  lemma {:induction false} MatchStops(pattern: seq<string>, path: seq<string>, i: nat)
    requires |pattern| == |path| && i < |path| && !SegmentMatches(pattern[i], path[i])
    ensures Match(pattern, path) == None
  {
    MatchSucceedsIff(pattern, path);
  }

  lemma MatchNext(pattern: seq<string>, path: seq<string>, i: nat, params: Params)
    requires |pattern| == |path| && i < |path| && Match(pattern[..i], path[..i]) == Some(params)
    requires SegmentMatches(pattern[i], path[i])
    ensures Match(pattern[..i + 1], path[..i + 1]) == Some(if IsParam(pattern[i]) then params[Name(pattern[i]) := path[i]] else params)
  {
    assert pattern[..i + 1][..i] == pattern[..i] && path[..i + 1][..i] == path[..i];
  }

  /** matchRoutePattern. */
  method MatchRoutePattern(pattern: string, path: string) returns (r: Option<Params>)
    ensures r == Match(Segments(pattern), Segments(path))
  {
    var patternSegments, pathSegments := Segments(pattern), Segments(path);
    if |patternSegments| != |pathSegments| {
      return None;
    }
    var params: Params := map[];
    for i := 0 to |patternSegments|
      invariant Match(patternSegments[..i], pathSegments[..i]) == Some(params)
    {
      if SegmentMatches(patternSegments[i], pathSegments[i]) {
        MatchNext(patternSegments, pathSegments, i, params);
      } else {
        MatchStops(patternSegments, pathSegments, i);
      }
      if IsParam(patternSegments[i]) {
        if Name(patternSegments[i]) == "" {
          return None;
        }
        params := params[Name(patternSegments[i]) := pathSegments[i]];
      } else if patternSegments[i] != pathSegments[i] {
        return None;
      }
    }
    assert patternSegments[..|patternSegments|] == patternSegments && pathSegments[..|patternSegments|] == pathSegments;
    return Some(params);
  }

  function Names(pattern: seq<string>): set<string> {
    set i | 0 <= i < |pattern| && IsParam(pattern[i]) :: Name(pattern[i])
  }

  ghost predicate WellNamed(pattern: seq<string>) {
    && (forall i :: 0 <= i < |pattern| && IsParam(pattern[i]) ==> Name(pattern[i]) != "")
    && (forall i, j :: 0 <= i < j < |pattern| && IsParam(pattern[i]) && IsParam(pattern[j]) ==> Name(pattern[i]) != Name(pattern[j]))
  }

  /** The pattern with its parameters replaced. */
  function Substitute(pattern: seq<string>, params: Params): (path: seq<string>)
    requires Names(pattern) <= params.Keys
    ensures |path| == |pattern|
  {
    seq(|pattern|, i requires 0 <= i < |pattern| =>
      if IsParam(pattern[i]) then assert Name(pattern[i]) in Names(pattern); params[Name(pattern[i])] else pattern[i])
  }

  lemma NamesOfLast(pattern: seq<string>)
    requires pattern != []
    ensures var n := |pattern| - 1;
      Names(pattern) == Names(pattern[..n]) + if IsParam(pattern[n]) then {Name(pattern[n])} else {}
  {
    var n := |pattern| - 1;
    var head, last := pattern[..n], pattern[n];
    assert forall i :: 0 <= i < n ==> head[i] == pattern[i];
    assert IsParam(last) ==> Name(last) in Names(pattern);
    forall x | x in Names(head)
      ensures x in Names(pattern)
    {
      var i :| 0 <= i < n && IsParam(head[i]) && Name(head[i]) == x;
      assert pattern[i] == head[i];
    }
  }

  /**
   For a pattern whose parameters have distinct non-empty names, a match is the one assignment of its
   parameters that turns the pattern into the path, and there is no match exactly when there is none.
   */
  lemma {:induction false} MatchIsTheSubstitution(pattern: seq<string>, path: seq<string>, params: Params)
    requires WellNamed(pattern)
    ensures Match(pattern, path) == Some(params) <==> params.Keys == Names(pattern) && Substitute(pattern, params) == path
  {
    if pattern == [] || |pattern| != |path| {
    } else {
      var n := |pattern| - 1;
      var head, last := pattern[..n], pattern[n];
      NamesOfLast(pattern);
      assert path == path[..n] + [path[n]];
      var without := if IsParam(last) then params - {Name(last)} else params;
      assert WellNamed(head);
      MatchIsTheSubstitution(head, path[..n], without);
      if IsParam(last) {
        assert Name(last) !in Names(head);
        SubstituteLast(pattern, path, params, without);
        if Match(head, path[..n]).Some? {
          var found := Match(head, path[..n]).value;
          MatchIsTheSubstitution(head, path[..n], found);
          assert Name(last) !in found;
          assert found[Name(last) := path[n]] - {Name(last)} == found;
        }
        assert Name(last) in params ==> params == without[Name(last) := params[Name(last)]];
      } else if params.Keys == Names(pattern) {
        assert Substitute(pattern, params) == Substitute(head, params) + [last];
      }
    }
  }

  lemma SubstituteLast(pattern: seq<string>, path: seq<string>, params: Params, without: Params)
    requires pattern != [] && |pattern| == |path| && IsParam(pattern[|pattern| - 1])
    requires var name := Name(pattern[|pattern| - 1]);
      name !in Names(pattern[..|pattern| - 1]) && without == params - {name}
    requires Names(pattern) == Names(pattern[..|pattern| - 1]) + {Name(pattern[|pattern| - 1])}
    ensures params.Keys == Names(pattern) ==> without.Keys == Names(pattern[..|pattern| - 1])
    ensures params.Keys == Names(pattern) ==>
      Substitute(pattern, params) == Substitute(pattern[..|pattern| - 1], without) + [params[Name(pattern[|pattern| - 1])]]
  {
    var n := |pattern| - 1;
    if params.Keys == Names(pattern) {
      forall i | 0 <= i < n
        ensures Substitute(pattern, params)[i] == Substitute(pattern[..n], without)[i]
      {
        if IsParam(pattern[i]) {
          assert pattern[..n][i] == pattern[i];
          assert Name(pattern[i]) in Names(pattern[..n]);
        }
      }
    }
  }

  // Specificity

  function Literals(segments: seq<string>): nat {
    if segments == [] then 0
    else Literals(segments[..|segments| - 1]) + if IsParam(segments[|segments| - 1]) then 0 else 1
  }

  function WithoutScope(segments: seq<string>): seq<string> {
    if |segments| >= 2 && segments[0] == "projects" && IsParam(segments[1]) then segments[2..] else segments
  }

  /** routeSpecificity. */
  method RouteSpecificity(pattern: string) returns (n: nat)
    ensures n == Literals(WithoutScope(Segments(pattern)))
  {
    var segments := Segments(pattern);
    if |segments| >= 2 && segments[0] == "projects" && IsParam(segments[1]) {
      segments := segments[2..];
    }
    n := 0;
    for i := 0 to |segments|
      invariant n == Literals(segments[..i])
    {
      assert segments[..i + 1][..i] == segments[..i];
      if !IsParam(segments[i]) {
        n := n + 1;
      }
    }
    assert segments[..|segments|] == segments;
  }

  function Specificity(pattern: string): nat {
    Literals(WithoutScope(Segments(pattern)))
  }

  lemma {:induction false} LiteralsBound(segments: seq<string>)
    ensures Literals(segments) <= |segments|
    ensures Literals(segments) == |segments| <==> forall i :: 0 <= i < |segments| ==> !IsParam(segments[i])
  {
    if segments != [] {
      var n := |segments| - 1;
      LiteralsBound(segments[..n]);
      assert forall i :: 0 <= i < n ==> segments[..n][i] == segments[i];
    }
  }

  /** Specificity counts the literal segments: the places that do not hold a parameter. */
  lemma {:induction false} LiteralsAreCounted(segments: seq<string>)
    ensures Literals(segments) == |set i | 0 <= i < |segments| && (segments[i] == "" || segments[i][0] != ':')|
  {
    if segments != [] {
      var n := |segments| - 1;
      LiteralsAreCounted(segments[..n]);
      var before := set i | 0 <= i < n && (segments[..n][i] == "" || segments[..n][i][0] != ':');
      var all := set i | 0 <= i < |segments| && (segments[i] == "" || segments[i][0] != ':');
      assert all == before + if segments[n] == "" || segments[n][0] != ':' then {n} else {};
    }
  }

  /** In the scope prefix nothing counts. */
  lemma ScopeDoesNotCount(pattern: string, name: string, tail: seq<string>)
    requires Segments(pattern) == ["projects", ":" + name] + tail
    ensures Specificity(pattern) == |set i | 0 <= i < |tail| && (tail[i] == "" || tail[i][0] != ':')|
  {
    assert Segments(pattern)[2..] == tail;
    LiteralsAreCounted(tail);
  }

  predicate Scoped(segments: seq<string>) {
    |segments| >= 2 && segments[0] == "projects" && segments[1] != "" && segments[1][0] == ':'
  }

  lemma UnscopedCounts(pattern: string)
    requires !Scoped(Segments(pattern))
    ensures var segments := Segments(pattern);
      Specificity(pattern) == |set i | 0 <= i < |segments| && (segments[i] == "" || segments[i][0] != ':')|
  {
    LiteralsAreCounted(Segments(pattern));
  }

  /** Two lists that differ in one place, a parameter in the one and a literal in the other. */
  predicate LiteralFor(more: seq<string>, less: seq<string>, k: nat) {
    && k < |more| == |less| && more == less[k := more[k]]
    && less[k] != "" && less[k][0] == ':' && (more[k] == "" || more[k][0] != ':')
  }

  lemma {:induction false} OneMoreLiteral(more: seq<string>, less: seq<string>, k: nat)
    requires LiteralFor(more, less, k)
    ensures Literals(more) == Literals(less) + 1
  {
    var n := |more| - 1;
    if k < n {
      assert more[..n] == less[..n][k := more[k]] && more[n] == less[n];
      OneMoreLiteral(more[..n], less[..n], k);
    } else {
      assert more[..n] == less[..n];
    }
  }

  lemma {:induction false} LiteralsFromTwo(segments: seq<string>)
    requires |segments| >= 2
    ensures Literals(segments) ==
      (if IsParam(segments[0]) then 0 else 1) + (if IsParam(segments[1]) then 0 else 1) + Literals(segments[2..])
  {
    var n := |segments| - 1;
    if n == 1 {
      assert segments[..1][..0] == [] && segments[2..] == [];
      assert Literals(segments[..1]) == if IsParam(segments[0]) then 0 else 1;
    } else {
      LiteralsFromTwo(segments[..n]);
      assert segments[2..][..n - 2] == segments[..n][2..];
    }
  }

  /**
   A literal where another pattern has a parameter makes a pattern more specific. There is one exception: the
   literal "projects" in front of a parameter, which makes the two of them a scope that does not count.
   */
  lemma LiteralBeatsParameterIff(more: string, less: string, k: nat)
    requires LiteralFor(Segments(more), Segments(less), k)
    ensures Specificity(more) > Specificity(less) <==> !(k == 0 && Scoped(Segments(more)))
    ensures k == 0 && Scoped(Segments(more)) ==> Specificity(more) == Specificity(less)
  {
    var m, l := Segments(more), Segments(less);
    OneMoreLiteral(m, l, k);
    if |m| >= 2 {
      LiteralsFromTwo(m);
      LiteralsFromTwo(l);
      if k >= 2 {
        assert m[2..] == l[2..][k - 2 := m[k]];
        OneMoreLiteral(m[2..], l[2..], k - 2);
      } else {
        assert m[2..] == l[2..];
      }
    }
  }

  // Matching a pattern against a path, directly or relative to its project

  function Direct(pattern: string, path: string): Option<Params> {
    Match(Segments(pattern), Segments(path))
  }

  function Relative(pattern: string, path: string): Option<Params> {
    match SplitProjectPath(path)
    case None => None
    case Some((projectId, rest)) =>
      var m := Match(Segments(pattern), Segments(rest));
      if m.None? then None else Some(m.value["projectId" := projectId])
  }

  function Candidate(pattern: string, path: string): Option<Params> {
    if Direct(pattern, path).Some? then Direct(pattern, path) else Relative(pattern, path)
  }

  /** No pattern matches both ways: the relative path is always shorter. */
  lemma NeverBothWays(pattern: string, path: string)
    ensures Direct(pattern, path).None? || Relative(pattern, path).None?
  {
    if SplitProjectPath(path).Some? {
      RelativeIsShorter(path);
    }
  }

  // Choosing among the registered routes

  datatype RouteKey = RouteKey(verb: string, path: string)

  datatype Found<H> = Found(handler: H, params: Params)

  datatype Best<H> = Best(found: Option<Found<H>>, specificity: int)

  function ConsiderSpec<H>(best: Best<H>, pattern: string, handler: H, params: Option<Params>): Best<H> {
    if params.None? || Specificity(pattern) <= best.specificity then best
    else Best(Some(Found(handler, params.value)), Specificity(pattern))
  }

  /** One turn of the search loop: a route of another method is skipped, the others are tried both ways. */
  function ConsiderRoute<H>(best: Best<H>, key: RouteKey, handler: H, verb: string, path: string): Best<H> {
    if key.verb != verb then best
    else ConsiderSpec(ConsiderSpec(best, key.path, handler, Direct(key.path, path)), key.path, handler, Relative(key.path, path))
  }

  /** The search loop over the routes, visited in a given order. */
  function SearchInOrder<H>(routes: map<RouteKey, H>, verb: string, path: string, order: seq<RouteKey>): Best<H>
    requires forall k :: k in order ==> k in routes
  {
    if order == [] then Best(None, -1)
    else
      var n := |order| - 1;
      ConsiderRoute(SearchInOrder(routes, verb, path, order[..n]), order[n], routes[order[n]], verb, path)
  }

  method Consider<H>(best: Best<H>, pattern: string, handler: H, tryPath: string, projectId: Option<string>) returns (r: Best<H>)
    ensures var m := Match(Segments(pattern), Segments(tryPath));
      r == ConsiderSpec(best, pattern, handler,
                        if m.None? then None else Some(if projectId.None? then m.value else m.value["projectId" := projectId.value]))
  {
    var params := MatchRoutePattern(pattern, tryPath);
    if params.None? {
      return best;
    }
    var specificity := RouteSpecificity(pattern);
    if specificity <= best.specificity {
      return best;
    }
    if projectId.Some? {
      params := Some(params.value["projectId" := projectId.value]);
    }
    return Best(Some(Found(handler, params.value)), specificity);
  }

  ghost predicate Visits(order: seq<RouteKey>, keys: set<RouteKey>) {
    && (forall k :: k in order <==> k in keys)
    && (forall i, j :: 0 <= i < j < |order| ==> order[i] != order[j])
  }

  lemma VisitsOneMore(order: seq<RouteKey>, keys: set<RouteKey>, key: RouteKey)
    requires Visits(order, keys) && key !in keys
    ensures Visits(order + [key], keys + {key})
  {
  }

  method TryRoute<H>(best: Best<H>, key: RouteKey, handler: H, verb: string, path: string) returns (r: Best<H>)
    ensures r == ConsiderRoute(best, key, handler, verb, path)
  {
    r := best;
    if key.verb == verb {
      r := Consider(r, key.path, handler, path, None);
      var scope := SplitProjectPath(path);
      if scope.Some? {
        r := Consider(r, key.path, handler, scope.value.1, Some(scope.value.0));
      }
    }
  }

  /** matchRoute. The map is visited in an order nobody controls. */
  method MatchRoute<H>(routes: map<RouteKey, H>, verb: string, path: string) returns (r: Option<Found<H>>)
    ensures var key := RouteKey(Text.Upper(verb), path);
      if key in routes then r == Some(Found(routes[key], map[]))
      else exists order :: Visits(order, routes.Keys) && r == SearchInOrder(routes, Text.Upper(verb), path, order).found
  {
    var upper := Text.Upper(verb);
    if RouteKey(upper, path) in routes {
      return Some(Found(routes[RouteKey(upper, path)], map[]));
    }
    var best := Best(None, -1);
    ghost var order := [];
    var left := routes.Keys;
    while left != {}
      invariant left <= routes.Keys && Visits(order, routes.Keys - left)
      invariant best == SearchInOrder(routes, upper, path, order)
      decreases left
    {
      var key :| key in left;
      VisitsOneMore(order, routes.Keys - left, key);
      assert routes.Keys - (left - {key}) == routes.Keys - left + {key};
      assert (order + [key])[..|order|] == order;
      best := TryRoute(best, key, routes[key], upper, path);
      left := left - {key};
      order := order + [key];
    }
    return best.found;
  }

  predicate Matches<H>(routes: map<RouteKey, H>, verb: string, path: string, key: RouteKey) {
    key in routes && key.verb == verb && Candidate(key.path, path).Some?
  }

  ghost predicate Maximal<H(!new)>(routes: map<RouteKey, H>, verb: string, path: string, key: RouteKey) {
    Matches(routes, verb, path, key) &&
    forall other :: Matches(routes, verb, path, other) ==> Specificity(other.path) <= Specificity(key.path)
  }

  function Outcome<H>(routes: map<RouteKey, H>, path: string, key: RouteKey): Found<H>
    requires key in routes && Candidate(key.path, path).Some?
  {
    Found(routes[key], Candidate(key.path, path).value)
  }

  /** An admissible answer: nothing when nothing matches, otherwise what a most specific match gives. */
  ghost predicate Admissible<H(!new)>(routes: map<RouteKey, H>, verb: string, path: string, r: Option<Found<H>>) {
    match r
    case None => forall key :: !Matches(routes, verb, path, key)
    case Some(f) => exists key :: Maximal(routes, verb, path, key) && f == Outcome(routes, path, key)
  }

  /** The state of the search after some keys: best so far among exactly those. */
  ghost predicate BestOf<H>(routes: map<RouteKey, H>, verb: string, path: string, order: seq<RouteKey>, best: Best<H>) {
    && (forall key :: key in order && Matches(routes, verb, path, key) ==> Specificity(key.path) <= best.specificity)
    && (best.found.None? ==> best.specificity == -1)
    && (best.found.Some? ==> exists key :: (
          key in order && Matches(routes, verb, path, key)
          && best == Best(Some(Outcome(routes, path, key)), Specificity(key.path))))
  }

  lemma {:induction false} SearchIsBestOf<H>(routes: map<RouteKey, H>, verb: string, path: string, order: seq<RouteKey>)
    requires forall k :: k in order ==> k in routes
    ensures BestOf(routes, verb, path, order, SearchInOrder(routes, verb, path, order))
  {
    if order != [] {
      var n := |order| - 1;
      SearchIsBestOf(routes, verb, path, order[..n]);
      NeverBothWays(order[n].path, path);
      var before, best := SearchInOrder(routes, verb, path, order[..n]), SearchInOrder(routes, verb, path, order);
      assert forall key :: key in order <==> key in order[..n] || key == order[n];
      if best != before {
        assert order[n] in order && Matches(routes, verb, path, order[n]);
      }
    }
  }

  /** Whatever the order of the map, the search gives an admissible answer. */
  lemma EveryOrderIsAdmissible<H(!new)>(routes: map<RouteKey, H>, verb: string, path: string, order: seq<RouteKey>)
    requires Visits(order, routes.Keys)
    ensures Admissible(routes, verb, path, SearchInOrder(routes, verb, path, order).found)
  {
    SearchIsBestOf(routes, verb, path, order);
    var best := SearchInOrder(routes, verb, path, order);
    assert forall key :: Matches(routes, verb, path, key) ==> key in order;
    if best.found.Some? {
      var key :| key in order && Matches(routes, verb, path, key)
        && best == Best(Some(Outcome(routes, path, key)), Specificity(key.path));
      assert Maximal(routes, verb, path, key);
    }
  }

  /** Some order of the remaining keys. */
  lemma {:induction false} SomeOrder(keys: set<RouteKey>) returns (order: seq<RouteKey>)
    ensures Visits(order, keys)
    decreases keys
  {
    if keys == {} {
      order := [];
    } else {
      var k :| k in keys;
      var rest := SomeOrder(keys - {k});
      order := [k] + rest;
    }
  }

  lemma VisitsFirst(key: RouteKey, rest: seq<RouteKey>, keys: set<RouteKey>)
    requires key in keys && Visits(rest, keys - {key})
    ensures Visits([key] + rest, keys)
  {
  }

  lemma {:induction false} FirstMaximalStays<H(!new)>(routes: map<RouteKey, H>, verb: string, path: string, key: RouteKey, order: seq<RouteKey>)
    requires Maximal(routes, verb, path, key)
    requires order != [] && order[0] == key && forall k :: k in order ==> k in routes
    ensures SearchInOrder(routes, verb, path, order) == Best(Some(Outcome(routes, path, key)), Specificity(key.path))
  {
    var n := |order| - 1;
    NeverBothWays(order[n].path, path);
    if n == 0 {
      assert order[..0] == [];
    } else {
      FirstMaximalStays(routes, verb, path, key, order[..n]);
      assert order[n] in order;
      if order[n].verb == verb && Candidate(order[n].path, path).Some? {
        assert Matches(routes, verb, path, order[n]);
      }
    }
  }

  /** Every admissible answer is given by some order of the map. */
  lemma EveryAdmissibleHasAnOrder<H(!new)>(routes: map<RouteKey, H>, verb: string, path: string, r: Option<Found<H>>)
    returns (order: seq<RouteKey>)
    requires Admissible(routes, verb, path, r)
    ensures Visits(order, routes.Keys) && SearchInOrder(routes, verb, path, order).found == r
  {
    match r
    case None =>
      order := SomeOrder(routes.Keys);
      EveryOrderIsAdmissible(routes, verb, path, order);
    case Some(f) =>
      var key :| Maximal(routes, verb, path, key) && f == Outcome(routes, path, key);
      var rest := SomeOrder(routes.Keys - {key});
      order := [key] + rest;
      VisitsFirst(key, rest, routes.Keys);
      FirstMaximalStays(routes, verb, path, key, order);
  }

  /** The answer is the same for every order exactly when all most specific matches give the same answer. */
  lemma OrderIsInvisibleIff<H(!new)>(routes: map<RouteKey, H>, verb: string, path: string)
    ensures (forall o1, o2 :: Visits(o1, routes.Keys) && Visits(o2, routes.Keys) ==>
               SearchInOrder(routes, verb, path, o1).found == SearchInOrder(routes, verb, path, o2).found)
       <==> (forall k1, k2 :: Maximal(routes, verb, path, k1) && Maximal(routes, verb, path, k2) ==>
               Outcome(routes, path, k1) == Outcome(routes, path, k2))
  {
    if forall k1, k2 :: Maximal(routes, verb, path, k1) && Maximal(routes, verb, path, k2) ==>
         Outcome(routes, path, k1) == Outcome(routes, path, k2) {
      forall o1, o2 | Visits(o1, routes.Keys) && Visits(o2, routes.Keys)
        ensures SearchInOrder(routes, verb, path, o1).found == SearchInOrder(routes, verb, path, o2).found
      {
        EveryOrderIsAdmissible(routes, verb, path, o1);
        EveryOrderIsAdmissible(routes, verb, path, o2);
      }
    } else {
      var k1, k2 :| Maximal(routes, verb, path, k1) && Maximal(routes, verb, path, k2)
        && Outcome(routes, path, k1) != Outcome(routes, path, k2);
      var o1 := EveryAdmissibleHasAnOrder(routes, verb, path, Some(Outcome(routes, path, k1)));
      var o2 := EveryAdmissibleHasAnOrder(routes, verb, path, Some(Outcome(routes, path, k2)));
    }
  }

  /**
   A registered route answers: if its pattern matches the path and every other match is less specific,
   the search gives its handler, with the parameters its pattern binds, in every order.
   */
  lemma RegisteredWins<H(!new)>(routes: map<RouteKey, H>, verb: string, pattern: string, handler: H, path: string, order: seq<RouteKey>)
    requires var key := RouteKey(verb, pattern);
      && Matches(routes[key := handler], verb, path, key)
      && forall other :: Matches(routes[key := handler], verb, path, other) && other != key ==> Specificity(other.path) < Specificity(pattern)
    requires Visits(order, routes.Keys + {RouteKey(verb, pattern)})
    ensures forall k :: k in order ==> k in routes[RouteKey(verb, pattern) := handler]
    ensures SearchInOrder(routes[RouteKey(verb, pattern) := handler], verb, path, order).found
         == Some(Found(handler, Candidate(pattern, path).value))
  {
    var key := RouteKey(verb, pattern);
    var after := routes[key := handler];
    assert after.Keys == routes.Keys + {key};
    EveryOrderIsAdmissible(after, verb, path, order);
    assert forall other :: Maximal(after, verb, path, other) ==> other == key;
  }

  /**
   Of two routes that match a path and differ in a literal for a parameter, the one with the parameter is
   never the answer, in no order.
   */
  lemma ParameterNeverWins<H(!new)>(routes: map<RouteKey, H>, verb: string, path: string, more: string, less: string, k: nat, order: seq<RouteKey>)
    returns (winner: RouteKey)
    requires LiteralFor(Segments(more), Segments(less), k) && !(k == 0 && Scoped(Segments(more)))
    requires Matches(routes, verb, path, RouteKey(verb, more)) && Visits(order, routes.Keys)
    ensures winner != RouteKey(verb, less) && Matches(routes, verb, path, winner)
    ensures SearchInOrder(routes, verb, path, order).found == Some(Found(routes[winner], Candidate(winner.path, path).value))
  {
    LiteralBeatsParameterIff(more, less, k);
    EveryOrderIsAdmissible(routes, verb, path, order);
    var r := SearchInOrder(routes, verb, path, order).found;
    assert r.Some?;
    winner :| Maximal(routes, verb, path, winner) && r.value == Outcome(routes, path, winner);
  }

  /** The layout of the panels of a view, and one panel by its name: "layout" is never taken for a panel. */
  lemma LayoutIsNoPanel<H(!new)>(layout: H, panel: H, literal: seq<string>, wildcard: seq<string>, path: seq<string>, order: seq<RouteKey>)
    requires literal == ["views", ":viewId", "panels", "layout"] && wildcard == ["views", ":viewId", "panels", ":panelId"]
    requires path == ["views", "view-abc", "panels", "layout"]
    requires Visits(order, {RouteKey("PATCH", "/" + Join(literal)), RouteKey("PATCH", "/" + Join(wildcard))})
    ensures var routes := map[RouteKey("PATCH", "/" + Join(wildcard)) := panel, RouteKey("PATCH", "/" + Join(literal)) := layout];
      SearchInOrder(routes, "PATCH", "/" + Join(path), order).found == Some(Found(layout, map["viewId" := "view-abc"]))
  {
    assert Clean(literal) && Clean(wildcard) && Clean(path) by {
      PanelPathsAreClean(literal, wildcard, path);
    }
    SegmentsOfJoin(literal);
    SegmentsOfJoin(wildcard);
    SegmentsOfJoin(path);
    LayoutWins(layout, panel, "/" + Join(literal), "/" + Join(wildcard), "/" + Join(path), order);
  }

  lemma PanelPathsAreClean(literal: seq<string>, wildcard: seq<string>, path: seq<string>)
    requires literal == ["views", ":viewId", "panels", "layout"] && wildcard == ["views", ":viewId", "panels", ":panelId"]
    requires path == ["views", "view-abc", "panels", "layout"]
    ensures Clean(literal) && Clean(wildcard) && Clean(path)
  {
  }

  lemma LayoutWins<H(!new)>(layout: H, panel: H, literal: string, wildcard: string, path: string, order: seq<RouteKey>)
    requires Segments(literal) == ["views", ":viewId", "panels", "layout"] && Segments(wildcard) == ["views", ":viewId", "panels", ":panelId"]
    requires Segments(path) == ["views", "view-abc", "panels", "layout"]
    requires Visits(order, {RouteKey("PATCH", literal), RouteKey("PATCH", wildcard)})
    ensures SearchInOrder(map[RouteKey("PATCH", wildcard) := panel, RouteKey("PATCH", literal) := layout], "PATCH", path, order).found
         == Some(Found(layout, map["viewId" := "view-abc"]))
  {
    var k1, k2 := RouteKey("PATCH", literal), RouteKey("PATCH", wildcard);
    var routes := map[k2 := panel, k1 := layout];
    assert Segments(literal)[3] != Segments(wildcard)[3];
    assert routes.Keys == {k1, k2};
    ViewBinds(literal, path);
    assert Segments(literal) == Segments(wildcard)[3 := "layout"];
    assert Matches(routes, "PATCH", path, k1);
    var winner := ParameterNeverWins(routes, "PATCH", path, literal, wildcard, 3, order);
    assert winner == k1;
  }

  lemma ViewBinds(literal: string, path: string)
    requires Segments(literal) == ["views", ":viewId", "panels", "layout"] && Segments(path) == ["views", "view-abc", "panels", "layout"]
    ensures Candidate(literal, path) == Some(map["viewId" := "view-abc"])
  {
    var p, s := Segments(literal), Segments(path);
    assert Name(":viewId") == "viewId";
    MatchTwo("views", ":viewId", "views", "view-abc");
    assert Bound("views", "views") + Bound(":viewId", "view-abc") == map["viewId" := "view-abc"];
    assert p[..2] == ["views", ":viewId"] && s[..2] == ["views", "view-abc"];
    MatchNext(p, s, 2, map["viewId" := "view-abc"]);
    MatchNext(p, s, 3, map["viewId" := "view-abc"]);
    assert p[..4] == p && s[..4] == s;
  }

  /** The exception: "/projects/:id" beside "/:kind/:id", for the path "/projects/7". The order decides. */
  lemma ProjectsIsNoLiteral<H(!new)>(g: H, h: H, p: string, q: string, path: string)
    requires p == "/projects/:id" && q == "/:kind/:id" && path == "/projects/7"
    ensures DecidedByOrder(map[RouteKey("GET", p) := g, RouteKey("GET", q) := h], "GET", path,
                           Some(Found(g, map["id" := "7"])), Some(Found(h, map["kind" := "projects", "id" := "7"])))
  {
    TwoSegments("projects", ":id", p);
    TwoSegments(":kind", ":id", q);
    TwoSegments("projects", "7", path);
    BothScopeless(g, h, p, q, path);
  }

  lemma BothScopeless<H(!new)>(g: H, h: H, p: string, q: string, path: string)
    requires Segments(p) == ["projects", ":id"] && Segments(q) == [":kind", ":id"] && Segments(path) == ["projects", "7"]
    ensures DecidedByOrder(map[RouteKey("GET", p) := g, RouteKey("GET", q) := h], "GET", path,
                           Some(Found(g, map["id" := "7"])), Some(Found(h, map["kind" := "projects", "id" := "7"])))
  {
    var k1, k2 := RouteKey("GET", p), RouteKey("GET", q);
    var routes := map[k1 := g, k2 := h];
    assert Segments(p)[0] != Segments(q)[0];
    ProjectBinds(p, q, path);
    assert Segments(p) == Segments(q)[0 := "projects"];
    LiteralBeatsParameterIff(p, q, 0);
    assert forall key :: Matches(routes, "GET", path, key) ==> Specificity(key.path) == Specificity(p);
    MaximalsAreDecided(routes, "GET", path, k1, k2);
  }

  lemma ProjectBinds(p: string, q: string, path: string)
    requires Segments(p) == ["projects", ":id"] && Segments(q) == [":kind", ":id"] && Segments(path) == ["projects", "7"]
    ensures Candidate(p, path) == Some(map["id" := "7"]) && Candidate(q, path) == Some(map["kind" := "projects", "id" := "7"])
  {
    assert Name(":id") == "id" && Name(":kind") == "kind";
    MatchTwo("projects", ":id", "projects", "7");
    MatchTwo(":kind", ":id", "projects", "7");
    assert Bound("projects", "projects") + Bound(":id", "7") == map["id" := "7"];
    assert Bound(":kind", "projects") + Bound(":id", "7") == map["kind" := "projects", "id" := "7"];
  }

  // The exact-match fast path

  /** A path taken as a pattern matches itself without parameters exactly when no segment looks like one. */
  lemma {:induction false} LiteralPathMatchesItselfIff(segments: seq<string>)
    ensures Match(segments, segments) == Some(map[]) <==> forall i :: 0 <= i < |segments| ==> !IsParam(segments[i])
  {
    if segments != [] {
      var n := |segments| - 1;
      LiteralPathMatchesItselfIff(segments[..n]);
      var all := Match(segments, segments);
      assert all.Some? && IsParam(segments[n]) ==> Name(segments[n]) in all.value;
      assert forall i :: 0 <= i < n ==> segments[..n][i] == segments[i];
    }
  }

  lemma MatchBoundsSpecificity(pattern: string, path: string)
    ensures Candidate(pattern, path).Some? ==> Specificity(pattern) <= |Segments(path)|
  {
    LiteralsBound(WithoutScope(Segments(pattern)));
    if SplitProjectPath(path).Some? {
      RelativeIsShorter(path);
    }
  }

  lemma {:induction false} MatchBinds(pattern: seq<string>, path: seq<string>, i: nat)
    requires i < |pattern| && IsParam(pattern[i]) && Match(pattern, path).Some?
    ensures Name(pattern[i]) in Match(pattern, path).value
  {
    var n := |pattern| - 1;
    if i < n {
      MatchBinds(pattern[..n], path[..n], i);
    }
  }

  /** Only a pattern that is the path itself, without parameters, matches with none. */
  lemma EmptyParamsMeansLiteral(pattern: seq<string>, path: seq<string>)
    requires Match(pattern, path) == Some(map[])
    ensures pattern == path && forall i :: 0 <= i < |path| ==> !IsParam(path[i])
  {
    MatchSucceedsIff(pattern, path);
    if i :| 0 <= i < |pattern| && IsParam(pattern[i]) {
      MatchBinds(pattern, path, i);
      assert false;
    }
  }

  lemma FastPathIsAdmissible<H(!new)>(routes: map<RouteKey, H>, verb: string, path: string)
    requires RouteKey(verb, path) in routes
    requires forall i :: 0 <= i < |Segments(path)| ==> !IsParam(Segments(path)[i])
    ensures Admissible(routes, verb, path, Some(Found(routes[RouteKey(verb, path)], map[])))
  {
    var key := RouteKey(verb, path);
    LiteralPathMatchesItselfIff(Segments(path));
    assert Matches(routes, verb, path, key);
    LiteralsBound(Segments(path));
    forall other | Matches(routes, verb, path, other)
      ensures Specificity(other.path) <= Specificity(path)
    {
      MatchBoundsSpecificity(other.path, path);
    }
    assert Maximal(routes, verb, path, key) && Outcome(routes, path, key) == Found(routes[key], map[]);
  }

  /**
   The fast path refines the search, for the paths it does so: an exact hit with empty parameters is one
   of the answers the search could have given exactly when no segment of the path starts with a colon.
   Called with a registered pattern as the path, it drops the parameter the search would bind.
   */
  lemma FastPathIsAdmissibleIff<H(!new)>(routes: map<RouteKey, H>, verb: string, path: string)
    requires RouteKey(verb, path) in routes
    ensures Admissible(routes, verb, path, Some(Found(routes[RouteKey(verb, path)], map[])))
       <==> forall i :: 0 <= i < |Segments(path)| ==> !IsParam(Segments(path)[i])
  {
    if Admissible(routes, verb, path, Some(Found(routes[RouteKey(verb, path)], map[]))) {
      var key :| Maximal(routes, verb, path, key) && Outcome(routes, path, key).params == map[];
      assert Relative(key.path, path).Some? ==> "projectId" in Relative(key.path, path).value;
      EmptyParamsMeansLiteral(Segments(key.path), Segments(path));
    } else if forall i :: 0 <= i < |Segments(path)| ==> !IsParam(Segments(path)[i]) {
      FastPathIsAdmissible(routes, verb, path);
    }
  }

  lemma TwoSegments(a: string, b: string, path: string)
    requires Clean([a, b]) && path == "/" + (a + "/" + b)
    ensures Segments(path) == [a, b]
  {
    assert [a, b][1..] == [b] && Join([b]) == b;
    assert Join([a, b]) == a + "/" + b;
    SegmentsOfJoin([a, b]);
  }

  function Bound(p: string, a: string): Params {
    if IsParam(p) then map[Name(p) := a] else map[]
  }

  lemma MatchTwo(p: string, q: string, a: string, b: string)
    requires SegmentMatches(p, a) && SegmentMatches(q, b)
    ensures Match([p, q], [a, b]) == Some(Bound(p, a) + Bound(q, b))
  {
    assert [p][..0] == [] && [a][..0] == [];
    assert Match([p], [a]) == Some(Bound(p, a));
    assert [p, q][..1] == [p] && [a, b][..1] == [a];
    assert Bound(p, a) + Bound(q, b) == if IsParam(q) then Bound(p, a)[Name(q) := b] else Bound(p, a);
  }

  /** Such a path: "/x/:id", registered and asked for as it is written. */
  lemma FastPathDropsParameter<H(!new)>(h: H, path: string)
    requires path == "/x/:id"
    ensures var key := RouteKey("GET", path);
      var routes := map[key := h];
      && Maximal(routes, "GET", path, key) && Outcome(routes, path, key) == Found(h, map["id" := ":id"])
      && !Admissible(routes, "GET", path, Some(Found(h, map[])))
  {
    TwoSegments("x", ":id", path);
    DropsParameter(h, path);
  }

  lemma DropsParameter<H(!new)>(h: H, path: string)
    requires Segments(path) == ["x", ":id"]
    ensures var key := RouteKey("GET", path);
      var routes := map[key := h];
      && Maximal(routes, "GET", path, key) && Outcome(routes, path, key) == Found(h, map["id" := ":id"])
      && !Admissible(routes, "GET", path, Some(Found(h, map[])))
  {
    var key := RouteKey("GET", path);
    var routes := map[key := h];
    assert Name(":id") == "id";
    MatchTwo("x", ":id", "x", ":id");
    assert Matches(routes, "GET", path, key);
    assert IsParam(Segments(path)[1]);
    FastPathIsAdmissibleIff(routes, "GET", path);
  }

  /** Two routes the order decides between: "/a/:x" and "/:y/b", for the path "/a/b". */
  lemma OrderDecidesBetweenEquals<H(!new)>(g: H, h: H, p: string, q: string, path: string)
    requires p == "/a/:x" && q == "/:y/b" && path == "/a/b"
    ensures DecidedByOrder(map[RouteKey("GET", p) := g, RouteKey("GET", q) := h], "GET", path,
                           Some(Found(g, map["x" := "b"])), Some(Found(h, map["y" := "a"])))
  {
    TwoSegments("a", ":x", p);
    TwoSegments(":y", "b", q);
    TwoSegments("a", "b", path);
    BothAreMaximal(g, h, p, q, path);
  }

  /** Some order gives the one answer, another the other. */
  ghost predicate DecidedByOrder<H>(routes: map<RouteKey, H>, verb: string, path: string, r: Option<Found<H>>, s: Option<Found<H>>) {
    exists o1, o2 :: (
      Visits(o1, routes.Keys) && SearchInOrder(routes, verb, path, o1).found == r
      && Visits(o2, routes.Keys) && SearchInOrder(routes, verb, path, o2).found == s)
  }

  lemma BothAreMaximal<H(!new)>(g: H, h: H, p: string, q: string, path: string)
    requires Segments(p) == ["a", ":x"] && Segments(q) == [":y", "b"] && Segments(path) == ["a", "b"]
    ensures DecidedByOrder(map[RouteKey("GET", p) := g, RouteKey("GET", q) := h], "GET", path,
                           Some(Found(g, map["x" := "b"])), Some(Found(h, map["y" := "a"])))
  {
    var k1, k2 := RouteKey("GET", p), RouteKey("GET", q);
    var routes := map[k1 := g, k2 := h];
    assert Segments(p)[0] != Segments(q)[0];
    MatchesAtX(p, path);
    MatchesAtY(q, path);
    OneLiteral("a", ":x");
    OneLiteral(":y", "b");
    assert forall key :: Matches(routes, "GET", path, key) ==> Specificity(key.path) == 1;
    MaximalsAreDecided(routes, "GET", path, k1, k2);
  }

  lemma MatchesAtX(p: string, path: string)
    requires Segments(p) == ["a", ":x"] && Segments(path) == ["a", "b"]
    ensures Candidate(p, path) == Some(map["x" := "b"])
  {
    assert Name(":x") == "x";
    MatchTwo("a", ":x", "a", "b");
    assert Bound("a", "a") + Bound(":x", "b") == map["x" := "b"];
  }

  lemma MatchesAtY(q: string, path: string)
    requires Segments(q) == [":y", "b"] && Segments(path) == ["a", "b"]
    ensures Candidate(q, path) == Some(map["y" := "a"])
  {
    assert Name(":y") == "y";
    MatchTwo(":y", "b", "a", "b");
    assert Bound(":y", "a") + Bound("b", "b") == map["y" := "a"];
  }

  lemma MaximalsAreDecided<H(!new)>(routes: map<RouteKey, H>, verb: string, path: string, k1: RouteKey, k2: RouteKey)
    requires Maximal(routes, verb, path, k1) && Maximal(routes, verb, path, k2)
    ensures DecidedByOrder(routes, verb, path, Some(Outcome(routes, path, k1)), Some(Outcome(routes, path, k2)))
  {
    var o1 := EveryAdmissibleHasAnOrder(routes, verb, path, Some(Outcome(routes, path, k1)));
    var o2 := EveryAdmissibleHasAnOrder(routes, verb, path, Some(Outcome(routes, path, k2)));
  }

  lemma OneLiteral(a: string, b: string)
    requires IsParam(a) != IsParam(b) && a != "projects"
    ensures Literals(WithoutScope([a, b])) == 1
  {
    assert [a][..0] == [] && [a, b][..1] == [a];
    assert Literals([a]) == if IsParam(a) then 0 else 1;
  }

  // Two ways to register a project route

  lemma {:induction false} MatchPrepend(p: string, s: string, pattern: seq<string>, path: seq<string>)
    requires IsParam(p) && Name(p) != "" && Name(p) !in Names(pattern)
    ensures Match([p] + pattern, [s] + path) ==
      if Match(pattern, path).None? then None else Some(Match(pattern, path).value[Name(p) := s])
  {
    if |pattern| == |path| {
      if pattern == [] {
        assert ([p] + pattern)[..0] == [] == ([s] + path)[..0];
      } else {
        var n := |pattern| - 1;
        assert ([p] + pattern)[..n + 1] == [p] + pattern[..n] && ([s] + path)[..n + 1] == [s] + path[..n];
        assert forall i :: 0 <= i < n ==> pattern[..n][i] == pattern[i];
        MatchPrepend(p, s, pattern[..n], path[..n]);
        var before := Match(pattern[..n], path[..n]);
        if IsParam(pattern[n]) && before.Some? {
          assert Name(pattern[n]) in Names(pattern);
          assert before.value[Name(p) := s][Name(pattern[n]) := path[n]] == before.value[Name(pattern[n]) := path[n]][Name(p) := s];
        }
      }
    }
  }

  lemma {:induction false} MatchPrependLiteral(p: string, pattern: seq<string>, path: seq<string>)
    requires !IsParam(p)
    ensures Match([p] + pattern, [p] + path) == Match(pattern, path)
  {
    if |pattern| == |path| {
      if pattern == [] {
        assert ([p] + pattern)[..0] == [] == ([p] + path)[..0];
      } else {
        var n := |pattern| - 1;
        assert ([p] + pattern)[..n + 1] == [p] + pattern[..n] && ([p] + path)[..n + 1] == [p] + path[..n];
        MatchPrependLiteral(p, pattern[..n], path[..n]);
      }
    }
  }

  lemma MatchScoped(tail: seq<string>, segments: seq<string>)
    requires |segments| >= 2 && segments[0] == "projects" && "projectId" !in Names(tail)
    ensures var m := Match(tail, segments[2..]);
      Match(["projects", ":projectId"] + tail, segments) == if m.None? then None else Some(m.value["projectId" := segments[1]])
  {
    assert segments == [segments[0]] + ([segments[1]] + segments[2..]);
    assert ["projects", ":projectId"] + tail == ["projects"] + ([":projectId"] + tail);
    assert Name(":projectId") == "projectId";
    MatchPrepend(":projectId", segments[1], tail, segments[2..]);
    MatchPrependLiteral("projects", [":projectId"] + tail, [segments[1]] + segments[2..]);
  }

  /**
   Spelling the scope out is a matter of style: on every clean project path, "/projects/:projectId" + T
   matches directly exactly when T matches relative to the project, with the same parameters and the
   same specificity.
   */
  lemma ScopeIsImplicit(tail: seq<string>, path: string)
    requires Clean(tail) && Clean(Segments(path)) && SplitProjectPath(path).Some?
    requires "projectId" !in Names(tail)
    requires WithoutScope(tail) == tail
    ensures var scoped, plain := "/" + Join(["projects", ":projectId"] + tail), "/" + Join(tail);
      && Direct(scoped, path) == Relative(plain, path)
      && Specificity(scoped) == Specificity(plain)
  {
    var segments := Segments(path);
    var prefix := ["projects", ":projectId"];
    SegmentsOfJoin(prefix + tail);
    SegmentsOfJoin(tail);
    RelativeOfClean(path);
    MatchScoped(tail, segments);
    assert (prefix + tail)[2..] == tail;
  }

  /** The tail cannot match the whole path directly where the scoped pattern matches it directly. */
  lemma ScopedIsLonger(tail: seq<string>, path: string)
    requires Clean(tail)
    ensures var scoped, plain := "/" + Join(["projects", ":projectId"] + tail), "/" + Join(tail);
      && (Direct(plain, path).Some? ==> Direct(scoped, path).None? && Relative(scoped, path).None?)
      && (Relative(scoped, path).Some? ==> Direct(plain, path).None? && Relative(plain, path).None?)
  {
    SegmentsOfJoin(["projects", ":projectId"] + tail);
    SegmentsOfJoin(tail);
    if SplitProjectPath(path).Some? {
      RelativeIsShorter(path);
    }
  }

  /**
   So the two registrations answer a project path alike, unless T also matches the whole path, or the
   scoped pattern also matches inside the project (a path like /projects/1/projects/2).
   */
  lemma ScopeIsImplicitIff(tail: seq<string>, path: string)
    requires Clean(tail) && Clean(Segments(path)) && SplitProjectPath(path).Some?
    requires "projectId" !in Names(tail)
    requires WithoutScope(tail) == tail
    ensures var scoped, plain := "/" + Join(["projects", ":projectId"] + tail), "/" + Join(tail);
      Candidate(scoped, path) == Candidate(plain, path) <==> Direct(plain, path).None? && Relative(scoped, path).None?
  {
    var scoped, plain := "/" + Join(["projects", ":projectId"] + tail), "/" + Join(tail);
    ScopeIsImplicit(tail, path);
    NeverBothWays(plain, path);
    NeverBothWays(scoped, path);
    ScopedIsLonger(tail, path);
  }

  /** A tail that also matches the whole path: "/:a/:b" answers "/projects/7", its scoped form does not. */
  lemma PlainAlsoMatchesWhole(plain: string, scoped: string, path: string)
    requires plain == "/:a/:b" && path == "/projects/7"
    requires scoped == "/" + Join(["projects", ":projectId"] + [":a", ":b"])
    ensures Candidate(plain, path) == Some(map["a" := "projects", "b" := "7"])
    ensures Candidate(scoped, path) == None
  {
    TwoSegments(":a", ":b", plain);
    TwoSegments("projects", "7", path);
    SegmentsOfJoin(["projects", ":projectId"] + [":a", ":b"]);
    MatchesAsWhole();
    LongerNeverMatches(scoped, path);
  }

  lemma MatchesAsWhole()
    ensures Match([":a", ":b"], ["projects", "7"]) == Some(map["a" := "projects", "b" := "7"])
  {
    assert Name(":a") == "a" && Name(":b") == "b";
    MatchTwo(":a", ":b", "projects", "7");
    assert Bound(":a", "projects") + Bound(":b", "7") == map["a" := "projects", "b" := "7"];
  }

  lemma LongerNeverMatches(pattern: string, path: string)
    requires |Segments(pattern)| > |Segments(path)|
    ensures Candidate(pattern, path) == None
  {
    if SplitProjectPath(path).Some? {
      RelativeIsShorter(path);
    }
  }

  // Handing the parameters to the handler

  /** The end of matching in handleRequest: parameters the host already set win over matched ones. */
  method MergePathParams(given: Params, matched: Params) returns (params: Params)
    ensures params == matched + given
  {
    params := given;
    var left := matched.Keys;
    while left != {}
      invariant left <= matched.Keys
      invariant params == (map k | k in matched && k !in left :: matched[k]) + given
      decreases left
    {
      var key :| key in left;
      left := left - {key};
      if key !in params {
        params := params[key := matched[key]];
      }
    }
  }

  // The method of a request

  /** Only a route of the method answers. */
  lemma AnswerIsOfItsMethod<H(!new)>(routes: map<RouteKey, H>, verb: string, path: string, order: seq<RouteKey>)
    requires Visits(order, routes.Keys)
    ensures var found := SearchInOrder(routes, verb, path, order).found;
      found.Some? ==> exists key :: key in routes && key.verb == verb && found.value.handler == routes[key]
  {
    SearchIsBestOf(routes, verb, path, order);
  }

  /** The same method in any case, and only a route of it answers. */
  ghost predicate OfMethod<H>(routes: map<RouteKey, H>, verb: string, r: Option<Found<H>>) {
    r.Some? ==> exists key :: key in routes && Text.SameName(key.verb, verb) && r.value.handler == routes[key]
  }

  method MatchOfMethod<H(!new)>(routes: map<RouteKey, H>, verb: string, path: string) returns (r: Option<Found<H>>)
    ensures OfMethod(routes, verb, r)
  {
    r := MatchRoute(routes, verb, path);
    Text.UpperIff(verb, verb);
    var upper := Text.Upper(verb);
    assert Text.SameName(upper, verb);
    if RouteKey(upper, path) !in routes {
      ghost var order :| Visits(order, routes.Keys) && r == SearchInOrder(routes, upper, path, order).found;
      AnswerIsOfItsMethod(routes, upper, path, order);
    }
  }

  /**
   A route registered for GET, say, answers a request for get: two requests that differ in the case of the
   method only are both answered or both not, by the same answer when the order of the map does not show.
   */
  method MatchInBothCases<H(!new)>(routes: map<RouteKey, H>, verb: string, verb': string, path: string)
    returns (r: Option<Found<H>>, r': Option<Found<H>>)
    requires Text.SameName(verb, verb')
    ensures r.Some? <==> r'.Some?
    ensures RouteKey(Text.Upper(verb), path) in routes ==> r == r'
    ensures (forall k1, k2 :: Maximal(routes, Text.Upper(verb), path, k1) && Maximal(routes, Text.Upper(verb), path, k2) ==>
               Outcome(routes, path, k1) == Outcome(routes, path, k2)) ==> r == r'
  {
    Text.UpperIff(verb, verb');
    r := MatchRoute(routes, verb, path);
    r' := MatchRoute(routes, verb', path);
    var upper := Text.Upper(verb);
    if RouteKey(upper, path) !in routes {
      ghost var o1 :| Visits(o1, routes.Keys) && r == SearchInOrder(routes, upper, path, o1).found;
      ghost var o2 :| Visits(o2, routes.Keys) && r' == SearchInOrder(routes, upper, path, o2).found;
      EveryOrderIsAdmissible(routes, upper, path, o1);
      EveryOrderIsAdmissible(routes, upper, path, o2);
    }
  }
}
