/**
 Route groups and middleware selection of the gee engine with middleware.
 Every group has a prefix built by concatenation onto its parent's prefix
 and a list of middlewares that only grows; the engine keeps every group in
 creation order with the root group (empty prefix) first. Serving a request
 selects, in group order, the middlewares of every group whose prefix is a
 plain string prefix of the request's path. Handlers and middlewares are
 opaque identities; the router these routes are handed to is recorded as
 the sequence of routes it was given.
 */
module GeeMiddleware {

  /** A handler or middleware, as an opaque identity. */
  type HandlerId = nat

  /** A route as handed to the router: method, full pattern, handler. */
  datatype Route = Route(verb: string, pattern: string, handler: HandlerId)

  /** A group as the selection sees it: its prefix and its middlewares. */
  datatype GroupView = GroupView(prefix: string, middlewares: seq<HandlerId>)

  /** `strings.HasPrefix(s, prefix)`. */
  predicate HasPrefix(s: string, prefix: string)
    ensures HasPrefix(s, prefix) ==> |prefix| <= |s| && s == prefix + s[|prefix|..]
  {
    |prefix| <= |s| && s[..|prefix|] == prefix
  }

  /** What one group adds to the selection for `path`. */
  function Contribution(g: GroupView, path: string): (c: seq<HandlerId>)
    ensures c == g.middlewares || c == []
    ensures c != [] ==> HasPrefix(path, g.prefix)
    ensures HasPrefix(path, g.prefix) ==> c == g.middlewares
  {
    if HasPrefix(path, g.prefix) then g.middlewares else []
  }

  /** The selected middlewares: the contributions of the groups, in group order. */
  function Select(gs: seq<GroupView>, path: string): (r: seq<HandlerId>)
    ensures forall m :: m in r ==>
      exists i :: 0 <= i < |gs| && HasPrefix(path, gs[i].prefix) && m in gs[i].middlewares
  {
    if gs == [] then [] else Select(gs[..|gs| - 1], path) + Contribution(gs[|gs| - 1], path)
  }

  /** The empty prefix matches every path, so the root group always applies. */
  lemma EmptyPrefixMatches(path: string)
    ensures HasPrefix(path, "")
  {
  }

  /** A prefix of a prefix of a path is a prefix of the path. */
  lemma PrefixTransitive(path: string, b: string, a: string)
    requires HasPrefix(path, b) && HasPrefix(b, a)
    ensures HasPrefix(path, a)
  {
    assert path[..|a|] == path[..|b|][..|a|];
  }

  /** A composed prefix starts with the prefix it was composed on. */
  lemma ComposedPrefix(parent: string, comp: string)
    ensures HasPrefix(parent + comp, parent)
  {
    assert (parent + comp)[..|parent|] == parent;
  }

  /**
   Matching is on characters, not on path segments: a group with prefix
   "/v1" applies to the path "/v10/x", and its middlewares follow the root's.
   */
  lemma PrefixIsNotSegment(rootMw: seq<HandlerId>, v1Mw: seq<HandlerId>)
    ensures HasPrefix("/v10/x", "/v1")
    ensures Select([GroupView("", rootMw), GroupView("/v1", v1Mw)], "/v10/x") == rootMw + v1Mw
  {
    var gs := [GroupView("", rootMw), GroupView("/v1", v1Mw)];
    assert "/v10/x"[..3] == "/v1";
    assert gs[..1][..0] == [];
    assert Select(gs[..1], "/v10/x") == rootMw;
  }

  /** The selection over two runs of groups is the selection over the first followed by the second's. */
  lemma {:induction false} SelectAppend(a: seq<GroupView>, b: seq<GroupView>, path: string)
    ensures Select(a + b, path) == Select(a, path) + Select(b, path)
    decreases |b|
  {
    if b == [] {
      assert a + b == a;
    } else {
      var b', last := b[..|b| - 1], b[|b| - 1];
      assert (a + b)[..|a + b| - 1] == a + b' && (a + b)[|a + b| - 1] == last;
      SelectAppend(a, b', path);
      var s, s', c := Select(a, path), Select(b', path), Contribution(last, path);
      assert Select(a + b, path) == s + s' + c;
      assert s + s' + c == s + (s' + c);
    }
  }

  /** The selection over one group is its contribution. */
  lemma SelectSingle(g: GroupView, path: string)
    ensures Select([g], path) == Contribution(g, path)
  {
    assert [g][..0] == [];
  }

  /** The selection splits around any one group. */
  lemma SelectSplit(gs: seq<GroupView>, k: nat, path: string)
    requires k < |gs|
    ensures Select(gs, path) == Select(gs[..k], path) + Contribution(gs[k], path) + Select(gs[k + 1..], path)
  {
    assert gs == gs[..k] + [gs[k]] + gs[k + 1..];
    SelectAppend(gs[..k] + [gs[k]], gs[k + 1..], path);
    SelectAppend(gs[..k], [gs[k]], path);
    SelectSingle(gs[k], path);
  }

  /** When the first group has the empty prefix, its middlewares come first in every selection. */
  lemma RootFirst(gs: seq<GroupView>, path: string)
    requires gs != [] && gs[0].prefix == ""
    ensures Select(gs, path) == gs[0].middlewares + Select(gs[1..], path)
  {
    SelectSplit(gs, 0, path);
    EmptyPrefixMatches(path);
    assert gs[..0] == [];
    assert Select(gs[..0], path) == [];
    assert Contribution(gs[0], path) == gs[0].middlewares;
  }

  /** A middleware is selected exactly when some group that matches the path holds it. */
  lemma {:induction false} SelectMembership(gs: seq<GroupView>, path: string, m: HandlerId)
    ensures m in Select(gs, path) <==>
      exists i :: 0 <= i < |gs| && HasPrefix(path, gs[i].prefix) && m in gs[i].middlewares
    decreases |gs|
  {
    if gs != [] {
      var n := |gs| - 1;
      SelectMembership(gs[..n], path, m);
      if m in Select(gs, path) && m !in Select(gs[..n], path) {
        assert HasPrefix(path, gs[n].prefix) && m in gs[n].middlewares;
      }
      if exists i :: 0 <= i < |gs| && HasPrefix(path, gs[i].prefix) && m in gs[i].middlewares {
        var i :| 0 <= i < |gs| && HasPrefix(path, gs[i].prefix) && m in gs[i].middlewares;
        if i < n {
          assert gs[..n][i] == gs[i];
        }
      }
    }
  }

  /** Appending a group without middlewares changes no selection. */
  lemma NewGroupSelectsNothing(gs: seq<GroupView>, prefix: string, path: string)
    ensures Select(gs + [GroupView(prefix, [])], path) == Select(gs, path)
  {
    SelectAppend(gs, [GroupView(prefix, [])], path);
    SelectSingle(GroupView(prefix, []), path);
  }

  /**
   Adding middlewares to a group appends them right after that group's
   earlier middlewares in the selection for every path the group matches,
   and changes nothing for the other paths.
   */
  lemma UseSelect(before: seq<GroupView>, g: GroupView, after: seq<HandlerId>, rest: seq<GroupView>, path: string)
    ensures HasPrefix(path, g.prefix) ==>
      Select(before + [GroupView(g.prefix, g.middlewares + after)] + rest, path)
      == Select(before, path) + g.middlewares + after + Select(rest, path)
    ensures !HasPrefix(path, g.prefix) ==>
      Select(before + [GroupView(g.prefix, g.middlewares + after)] + rest, path)
      == Select(before + [g] + rest, path)
  {
    var g' := GroupView(g.prefix, g.middlewares + after);
    SelectAppend(before + [g'], rest, path);
    SelectAppend(before, [g'], path);
    SelectSingle(g', path);
    if HasPrefix(path, g.prefix) {
      var s, r := Select(before, path), Select(rest, path);
      assert Select(before + [g'], path) == s + (g.middlewares + after);
      assert s + (g.middlewares + after) == s + g.middlewares + after;
    } else {
      SelectAppend(before + [g], rest, path);
      SelectAppend(before, [g], path);
      SelectSingle(g, path);
    }
  }

  /** The groups as values, in order. */
  ghost function Views(gs: seq<RouterGroup>): (vs: seq<GroupView>)
    reads set g | g in gs
    ensures |vs| == |gs|
    ensures forall i :: 0 <= i < |gs| ==> vs[i] == GroupView(gs[i].prefix, gs[i].middlewares)
  {
    seq(|gs|, i requires 0 <= i < |gs| reads set g | g in gs => GroupView(gs[i].prefix, gs[i].middlewares))
  }

  /**
   A route group: its prefix, parent and engine are fixed when it is
   created; its middlewares are appended to by `Use`.
   */
  class RouterGroup {
    const prefix: string
    var middlewares: seq<HandlerId>
    const parent: RouterGroup?
    const engine: Engine

    /** The struct literal `&RouterGroup{prefix: ..., parent: ..., engine: ...}`. */
    constructor (prefix: string, parent: RouterGroup?, engine: Engine)
      ensures this.prefix == prefix && this.parent == parent && this.engine == engine
      ensures middlewares == []
    {
      this.prefix := prefix;
      this.parent := parent;
      this.engine := engine;
      middlewares := [];
    }

    /**
     `Group`: a new group whose prefix is this group's prefix followed by
     `prefix`, whose parent is this group, appended to the engine's groups.
     */
    method Group(prefix: string) returns (newGroup: RouterGroup)
      requires engine.Valid() && this in engine.groups
      modifies engine
      ensures engine.Valid()
      ensures fresh(newGroup) && newGroup.engine == engine && newGroup.parent == this
      ensures newGroup.prefix == this.prefix + prefix && newGroup.middlewares == []
      ensures engine.groups == old(engine.groups) + [newGroup]
      ensures engine.routes == old(engine.routes)
    {
      var e := engine;
      newGroup := new RouterGroup(this.prefix + prefix, this, e);
      ComposedPrefix(this.prefix, prefix);
      ghost var gs := e.groups;
      e.groups := e.groups + [newGroup];
      forall i | 0 < i < |e.groups|
        ensures e.groups[i].parent != null && e.groups[i].parent in e.groups[..i]
        ensures HasPrefix(e.groups[i].prefix, e.groups[i].parent.prefix)
      {
        assert e.groups[..i] == if i < |gs| then gs[..i] else gs;
      }
    }

    /** `Use`: append the given middlewares, in order, to this group's list. */
    method Use(middlewares: seq<HandlerId>)
      modifies this
      ensures this.middlewares == old(this.middlewares) + middlewares
    {
      this.middlewares := this.middlewares + middlewares;
    }

    /** `addRoute`: hand the router the route under this group's prefix followed by `comp`. */
    method AddRoute(verb: string, comp: string, handler: HandlerId)
      modifies engine
      ensures engine.routes == old(engine.routes) + [Route(verb, prefix + comp, handler)]
      ensures engine.groups == old(engine.groups)
    {
      var pattern := prefix + comp;
      var e := engine;
      e.routes := e.routes + [Route(verb, pattern, handler)];
    }

    /** `GET`: add a route for the method "GET". */
    method GET(pattern: string, handler: HandlerId)
      modifies engine
      ensures engine.routes == old(engine.routes) + [Route("GET", prefix + pattern, handler)]
      ensures engine.groups == old(engine.groups)
    {
      AddRoute("GET", pattern, handler);
    }

    /** `POST`: add a route for the method "POST". */
    method POST(pattern: string, handler: HandlerId)
      modifies engine
      ensures engine.routes == old(engine.routes) + [Route("POST", prefix + pattern, handler)]
      ensures engine.groups == old(engine.groups)
    {
      AddRoute("POST", pattern, handler);
    }
  }

  /**
   The engine: every group in creation order, the root first, and the
   routes handed to the router.
   */
  class Engine {
    var groups: seq<RouterGroup>
    var routes: seq<Route>

    /**
     The root group is first, has the empty prefix and no parent; every
     other group's parent is an earlier group whose prefix starts its own;
     every group belongs to this engine.
     */
    ghost predicate Valid()
      reads this
    {
      && |groups| > 0
      && groups[0].prefix == "" && groups[0].parent == null
      && (forall i :: 0 <= i < |groups| ==> groups[i].engine == this)
      && (forall i :: 0 < i < |groups| ==>
            groups[i].parent != null && groups[i].parent in groups[..i]
            && HasPrefix(groups[i].prefix, groups[i].parent.prefix))
    }

    /** `New`: an engine whose only group is a fresh root group. */
    constructor New()
      ensures Valid() && |groups| == 1 && fresh(groups[0])
      ensures groups[0].middlewares == [] && routes == []
    {
      groups := [];
      routes := [];
      new;
      var root := new RouterGroup("", null, this);
      groups := [root];
    }

    /** A path that a group matches is matched by the group's parent too. */
    lemma ParentMatches(i: nat, path: string)
      requires Valid() && 0 < i < |groups| && HasPrefix(path, groups[i].prefix)
      ensures groups[i].parent != null && HasPrefix(path, groups[i].parent.prefix)
    {
      PrefixTransitive(path, groups[i].prefix, groups[i].parent.prefix);
    }

    /**
     The middleware selection of `ServeHTTP`: the middlewares of every
     group whose prefix starts the path, in group order; the root's come
     first.
     */
    method ServeHTTP(path: string) returns (middlewares: seq<HandlerId>)
      requires Valid()
      ensures middlewares == Select(Views(groups), path)
      ensures groups[0].middlewares <= middlewares
    {
      ghost var vs := Views(groups);
      middlewares := [];
      var i := 0;
      while i < |groups|
        invariant 0 <= i <= |groups|
        invariant middlewares == Select(vs[..i], path)
      {
        var group := groups[i];
        assert vs[..i + 1][..i] == vs[..i];
        if HasPrefix(path, group.prefix) {
          middlewares := middlewares + group.middlewares;
        }
        i := i + 1;
      }
      assert vs[..i] == vs;
      RootFirst(vs, path);
    }
  }

  /** The global middleware of the example program. */
  const Logger: HandlerId := 0

  /** The middleware of the example program's "/v2" group. */
  const OnlyForV2: HandlerId := 1

  /** The selection over three groups is their three contributions in order. */
  lemma SelectThree(a: GroupView, b: GroupView, c: GroupView, path: string)
    ensures Select([a, b, c], path) == Contribution(a, path) + Contribution(b, path) + Contribution(c, path)
  {
    assert [a, b, c] == [a, b] + [c] && [a, b] == [a] + [b];
    SelectAppend([a, b], [c], path);
    SelectAppend([a], [b], path);
    SelectSingle(a, path);
    SelectSingle(b, path);
    SelectSingle(c, path);
  }

  /**
   The groups of the example program as values: the root with `Logger`,
   "/v1" without middlewares, "/v2" with `OnlyForV2`.
   */
  lemma ExampleSelections(gs: seq<GroupView>)
    requires |gs| == 3 && gs[0] == GroupView("", [Logger])
    requires gs[1] == GroupView("/v1", []) && gs[2] == GroupView("/v2", [OnlyForV2])
    ensures Select(gs, "/") == [Logger]
    ensures Select(gs, "/v1/hello") == [Logger]
    ensures Select(gs, "/v2/hello/geektutu") == [Logger, OnlyForV2]
  {
    assert gs == [gs[0], gs[1], gs[2]];
    SelectThree(gs[0], gs[1], gs[2], "/");
    SelectThree(gs[0], gs[1], gs[2], "/v1/hello");
    SelectThree(gs[0], gs[1], gs[2], "/v2/hello/geektutu");
    EmptyPrefixMatches("/");
    EmptyPrefixMatches("/v1/hello");
    EmptyPrefixMatches("/v2/hello/geektutu");
    assert "/v1/hello"[..3] == "/v1" && "/v1/hello"[2] != "/v2"[2];
    assert "/v2/hello/geektutu"[..3] == "/v2" && "/v2/hello/geektutu"[2] != "/v1"[2];
  }
}
