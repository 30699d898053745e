/**
 The static router of the first gee engine: a map from the key
 `method + "-" + pattern` to a handler, filled by `GET`/`POST` and consulted
 by exact lookup when a request is served, with a 404 reply otherwise.
 Handlers are opaque identities: the model records which handler a request
 reaches and leaves the handler's own effect on the response out.
 */
module GeeStatic {

  /** A registered handler, as an opaque identity. */
  type HandlerId = nat

  /** The parts of an incoming request the engine looks at. */
  datatype Request = Request(verb: string, path: string, url: string)

  /** What serving a request does: run one registered handler, or write the 404 body. */
  datatype Outcome = Handled(handler: HandlerId) | NotFound(body: string)

  /** The key under which a route is stored and looked up. */
  function RouteKey(verb: string, pattern: string): (k: string)
    ensures |k| == |verb| + 1 + |pattern|
    ensures k[..|verb|] == verb && k[|verb|] == '-' && k[|verb| + 1..] == pattern
  {
    verb + "-" + pattern
  }

  /** The body written for a request that matches no route. */
  function NotFoundBody(url: string): (b: string)
    ensures |b| == |url| + 16
    ensures b[..15] == "404 NOT FOUND: " && b[15..|b| - 1] == url && b[|b| - 1] == '\n'
  {
    "404 NOT FOUND: " + url + "\n"
  }

  /**
   `ServeHTTP` as a value: the handler stored under the request's key runs
   when there is one, and otherwise the 404 body names the request's URL.
   */
  function Dispatch(router: map<string, HandlerId>, req: Request): (o: Outcome)
    ensures o.Handled? <==> RouteKey(req.verb, req.path) in router
    ensures o.Handled? ==> o.handler == router[RouteKey(req.verb, req.path)]
    ensures o.NotFound? ==> o.body == NotFoundBody(req.url)
  {
    var key := RouteKey(req.verb, req.path);
    if key in router then Handled(router[key]) else NotFound(NotFoundBody(req.url))
  }

  /** Two keys built from methods without a dash are equal only for the same method and pattern. */
  lemma RouteKeyInjective(m1: string, p1: string, m2: string, p2: string)
    requires '-' !in m1 && '-' !in m2
    requires RouteKey(m1, p1) == RouteKey(m2, p2)
    ensures m1 == m2 && p1 == p2
  {
  }

  /** A `GET` route and a `POST` route never share a key, whatever their patterns. */
  lemma GetPostDistinct(p: string, q: string)
    ensures RouteKey("GET", p) != RouteKey("POST", q)
  {
    assert RouteKey("GET", p)[0] == 'G';
    assert RouteKey("POST", q)[0] == 'P';
  }

  /** A request for the method and path just registered reaches the handler just registered. */
  lemma RegisterThenDispatch(router: map<string, HandlerId>, verb: string, pattern: string,
                             handler: HandlerId, req: Request)
    requires req.verb == verb && req.path == pattern
    ensures Dispatch(router[RouteKey(verb, pattern) := handler], req) == Handled(handler)
  {
  }

  /**
   Registering a route leaves the outcome of every request for another
   method or path as it was, when no method involved contains a dash.
   */
  lemma {:induction false} RegisterLeavesOthers(router: map<string, HandlerId>, verb: string, pattern: string,
                                                handler: HandlerId, req: Request)
    requires '-' !in verb && '-' !in req.verb
    requires req.verb != verb || req.path != pattern
    ensures Dispatch(router[RouteKey(verb, pattern) := handler], req) == Dispatch(router, req)
  {
    if RouteKey(req.verb, req.path) == RouteKey(verb, pattern) {
      RouteKeyInjective(req.verb, req.path, verb, pattern);
    }
  }

  /**
   Without a restriction on methods, keys are ambiguous: a method holding a
   dash can produce the key of another method and pattern.
   */
  lemma DashMakesKeysAmbiguous()
    ensures RouteKey("A-B", "C") == RouteKey("A", "B-C")
    ensures "A-B" != "A"
  {
  }

  /**
   Keys are also injective for methods with dashes, provided no method holds
   a slash (HTTP method tokens cannot) and every pattern starts with one.
   */
  lemma RouteKeyInjectiveOnSlashPatterns(m1: string, p1: string, m2: string, p2: string)
    requires '/' !in m1 && '/' !in m2
    requires |p1| > 0 && p1[0] == '/' && |p2| > 0 && p2[0] == '/'
    requires RouteKey(m1, p1) == RouteKey(m2, p2)
    ensures m1 == m2 && p1 == p2
  {
  }

  /**
   Registering a route leaves every other request's outcome as it was when
   methods hold no slash and patterns and paths start with one, whether or
   not the methods contain a dash.
   */
  lemma RegisterLeavesOthersOnSlashPaths(router: map<string, HandlerId>, verb: string, pattern: string,
                                         handler: HandlerId, req: Request)
    requires '/' !in verb && '/' !in req.verb
    requires |pattern| > 0 && pattern[0] == '/' && |req.path| > 0 && req.path[0] == '/'
    requires req.verb != verb || req.path != pattern
    ensures Dispatch(router[RouteKey(verb, pattern) := handler], req) == Dispatch(router, req)
  {
    if RouteKey(req.verb, req.path) == RouteKey(verb, pattern) {
      RouteKeyInjectiveOnSlashPatterns(req.verb, req.path, verb, pattern);
    }
  }

  /** Registering the same method and pattern twice keeps only the later handler. */
  lemma ReRegisterOverwrites(router: map<string, HandlerId>, verb: string, pattern: string,
                             first: HandlerId, second: HandlerId)
    ensures router[RouteKey(verb, pattern) := first][RouteKey(verb, pattern) := second]
         == router[RouteKey(verb, pattern) := second]
  {
  }

  /** The engine of the first gee version: only a route table. */
  class Engine {
    var router: map<string, HandlerId>

    /** `New`: an engine with no routes. */
    constructor New()
      ensures router == map[]
    {
      router := map[];
    }

    /** `addRoute`: store the handler under the route's key, replacing any earlier one. */
    method AddRoute(verb: string, pattern: string, handler: HandlerId)
      modifies this
      ensures router == old(router)[RouteKey(verb, pattern) := handler]
    {
      var key := RouteKey(verb, pattern);
      router := router[key := handler];
    }

    /** `GET`: register a route for the method "GET". */
    method GET(pattern: string, handler: HandlerId)
      modifies this
      ensures router == old(router)[RouteKey("GET", pattern) := handler]
    {
      AddRoute("GET", pattern, handler);
    }

    /** `POST`: register a route for the method "POST". */
    method POST(pattern: string, handler: HandlerId)
      modifies this
      ensures router == old(router)[RouteKey("POST", pattern) := handler]
    {
      AddRoute("POST", pattern, handler);
    }

    /**
     `ServeHTTP`: look the request's key up; a hit runs exactly the stored
     handler, a miss writes "404 NOT FOUND: <url>\n". The table is not changed.
     The branch is kept as the engine's own lookup, the place where the
     handler would be called or the reply written; `Dispatch` is its
     specification.
     */
    method ServeHTTP(req: Request) returns (o: Outcome)
      ensures o == Dispatch(router, req)
    {
      var key := RouteKey(req.verb, req.path);
      if key in router {
        o := Handled(router[key]);
      } else {
        o := NotFound(NotFoundBody(req.url));
      }
    }
  }

  /**
   The same path registered for "GET" and for "POST" with different
   handlers: each method reaches its own handler and other methods get a 404.
   */
  method MethodsKeptApart() returns (onGet: Outcome, onPost: Outcome, onPut: Outcome)
    ensures onGet == Handled(1)
    ensures onPost == Handled(2)
    ensures onPut == NotFound(NotFoundBody("/hello?x=1"))
  {
    var engine := new Engine.New();
    engine.GET("/hello", 1);
    engine.POST("/hello", 2);
    GetPostDistinct("/hello", "/hello");
    onGet := engine.ServeHTTP(Request("GET", "/hello", "/hello"));
    onPost := engine.ServeHTTP(Request("POST", "/hello", "/hello"));
    assert RouteKey("PUT", "/hello")[1] == 'U';
    onPut := engine.ServeHTTP(Request("PUT", "/hello", "/hello?x=1"));
  }
}
