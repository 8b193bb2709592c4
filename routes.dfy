/**
 * The route table a document distributor registers on its transport session:
 * eight (verb, path pattern) pairs, each bound to one handler. Matching a
 * concrete path against a pattern and extracting `:id` is the transport's job;
 * here a route is looked up by its pattern.
 */
module Routes {
  import opened Wrappers

  /** The verbs of the transport; `Sub` marks a subscribable route. */
  datatype Verb = Get | Post | Put | Delete | Sub

  datatype Handler =
    | GetAllAnnotations
    | GetAnnotation
    | GetRelated
    | CreateAnnotation
    | UpdateAnnotation
    | DeleteAnnotation
    | SubAllAnnotations
    | SubRelated

  datatype Route = Route(verb: Verb, pattern: string, handler: Handler)

  /** The registrations, in the order the distributor makes them. */
  const RouteTable: seq<Route> := [
    Route(Get, "/annotations.jsonld", GetAllAnnotations),
    Route(Get, "/annotations/:id.jsonld", GetAnnotation),
    Route(Get, "/related.json", GetRelated),
    Route(Post, "/annotations/", CreateAnnotation),
    Route(Put, "/annotations/:id.jsonld", UpdateAnnotation),
    Route(Delete, "/annotations/:id.jsonld", DeleteAnnotation),
    Route(Sub, "/annotations.jsonld", SubAllAnnotations),
    Route(Sub, "/related.json", SubRelated)
  ]

  /** The handler of the first route registered for `verb` and `pattern`. */
  function Lookup(routes: seq<Route>, verb: Verb, pattern: string): (r: Option<Handler>)
    ensures r.None? <==> forall i :: 0 <= i < |routes| ==> !(routes[i].verb == verb && routes[i].pattern == pattern)
    ensures r.Some? ==> exists i :: && 0 <= i < |routes| && routes[i] == Route(verb, pattern, r.value)
                                    && forall j :: 0 <= j < i ==> !(routes[j].verb == verb && routes[j].pattern == pattern)
  {
    if routes == [] then None
    else if routes[0].verb == verb && routes[0].pattern == pattern then Some(routes[0].handler)
    else
      var r := Lookup(routes[1..], verb, pattern);
      assert forall i :: 0 <= i < |routes| - 1 ==> routes[1..][i] == routes[i + 1];
      if r.Some? then
        var k :| && 0 <= k < |routes[1..]| && routes[1..][k] == Route(verb, pattern, r.value)
                 && forall j :: 0 <= j < k ==> !(routes[1..][j].verb == verb && routes[1..][j].pattern == pattern);
        assert routes[k + 1] == Route(verb, pattern, r.value);
        r
      else r
  }

  /** No two routes share a verb and a pattern. */
  predicate Unambiguous(routes: seq<Route>)
  {
    forall i, j :: 0 <= i < j < |routes| ==>
      routes[i].verb != routes[j].verb || routes[i].pattern != routes[j].pattern
  }

  /** The distributor's table is unambiguous. */
  lemma RouteTableUnambiguous()
    ensures Unambiguous(RouteTable)
  {
  }

  /** In an unambiguous table every route is found by its own verb and pattern. */
  lemma {:induction false} LookupFindsRoute(routes: seq<Route>, i: nat)
    requires Unambiguous(routes) && i < |routes|
    ensures Lookup(routes, routes[i].verb, routes[i].pattern) == Some(routes[i].handler)
  {
    if i > 0 {
      assert routes[0].verb != routes[i].verb || routes[0].pattern != routes[i].pattern;
      var tail := routes[1..];
      assert tail[i - 1] == routes[i];
      assert Unambiguous(tail) by {
        forall a, b | 0 <= a < b < |tail|
          ensures tail[a].verb != tail[b].verb || tail[a].pattern != tail[b].pattern
        {
          assert tail[a] == routes[a + 1] && tail[b] == routes[b + 1];
        }
      }
      LookupFindsRoute(tail, i - 1);
    }
  }

  /** Each handler is bound by exactly one route of the table. */
  lemma EachHandlerRoutedOnce(h: Handler)
    ensures exists i :: 0 <= i < |RouteTable| && RouteTable[i].handler == h
    ensures forall i, j ::
              (0 <= i < |RouteTable| && 0 <= j < |RouteTable| &&
               RouteTable[i].handler == h && RouteTable[j].handler == h) ==> i == j
  {
    match h
    case GetAllAnnotations => assert RouteTable[0].handler == h;
    case GetAnnotation => assert RouteTable[1].handler == h;
    case GetRelated => assert RouteTable[2].handler == h;
    case CreateAnnotation => assert RouteTable[3].handler == h;
    case UpdateAnnotation => assert RouteTable[4].handler == h;
    case DeleteAnnotation => assert RouteTable[5].handler == h;
    case SubAllAnnotations => assert RouteTable[6].handler == h;
    case SubRelated => assert RouteTable[7].handler == h;
  }

  /** Exactly the two feeds are subscribable. */
  lemma SubscribableRoutes()
    ensures forall i :: 0 <= i < |RouteTable| ==>
              (RouteTable[i].verb == Sub <==> RouteTable[i].handler == SubAllAnnotations || RouteTable[i].handler == SubRelated)
  {
  }
}
