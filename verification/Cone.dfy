/** Which code an effect depends on: reachability over a finite call graph
    (scripts/effect_inventory.py). */
module Cone {
  import Strings

  /** A function is named by its module and its qualified name. */
  datatype Func = Func(file: string, name: string)

  type Graph = map<Func, set<Func>>

  function Targets(edges: Graph, f: Func): set<Func> {
    if f in edges then edges[f] else {}
  }

  /** A walk along the edges. */
  predicate Walk(edges: Graph, path: seq<Func>) {
    path != [] && forall i | 0 < i < |path| :: path[i] in Targets(edges, path[i - 1])
  }

  ghost predicate Leads(edges: Graph, path: seq<Func>, a: Func, b: Func) {
    Walk(edges, path) && path[0] == a && path[|path| - 1] == b
  }

  ghost predicate Reaches(edges: Graph, a: Func, b: Func) {
    exists path :: Leads(edges, path, a, b)
  }

  ghost predicate ReachedFrom(edges: Graph, start: set<Func>, b: Func) {
    exists a <- start :: Reaches(edges, a, b)
  }

  predicate Closed(edges: Graph, s: set<Func>) {
    forall f <- s :: Targets(edges, f) <= s
  }

  /** Every name the graph mentions, and the start. */
  function Universe(edges: Graph, start: set<Func>): set<Func> {
    start + set f, g | f in edges && g in edges[f] :: g
  }

  lemma ReachesItself(edges: Graph, a: Func)
    ensures Reaches(edges, a, a)
  {
    assert Leads(edges, [a], a, a);
  }

  lemma ReachesFurther(edges: Graph, a: Func, b: Func, c: Func)
    requires Reaches(edges, a, b) && c in Targets(edges, b)
    ensures Reaches(edges, a, c)
  {
    var path :| Leads(edges, path, a, b);
    assert Leads(edges, path + [c], a, c);
  }

  /** Nothing outside a closed set is reached from inside it. */
  lemma {:induction false} ClosedKeepsWalks(edges: Graph, s: set<Func>, path: seq<Func>)
    requires Closed(edges, s) && Walk(edges, path) && path[0] in s
    ensures path[|path| - 1] in s
    decreases |path|
  {
    if |path| > 1 {
      ClosedKeepsWalks(edges, s, path[..|path| - 1]);
      assert path[|path| - 1] in Targets(edges, path[|path| - 2]);
    }
  }

  method Listed(s: set<Func>) returns (list: seq<Func>)
    ensures forall f :: f in list <==> f in s
  {
    list := [];
    var left := s;
    while left != {}
      invariant left <= s && forall f :: f in list <==> f in s - left
      decreases left
    {
      var f :| f in left;
      list, left := list + [f], left - {f};
    }
  }

  /** One round: the unseen targets of a node are seen and put on the worklist. */
  method Scan(f: Func, edges: Graph, seen: set<Func>, todo: seq<Func>) returns (seen': set<Func>, todo': seq<Func>)
    ensures seen' == seen + Targets(edges, f)
    ensures forall g :: g in todo' <==> g in todo || (g in Targets(edges, f) && g !in seen)
    ensures Targets(edges, f) <= seen ==> todo' == todo
  {
    seen', todo' := seen, todo;
    var left := Targets(edges, f);
    while left != {}
      invariant left <= Targets(edges, f)
      invariant seen' == seen + (Targets(edges, f) - left)
      invariant forall g :: g in todo' <==> g in todo || (g in Targets(edges, f) - left && g !in seen)
      invariant Targets(edges, f) <= seen ==> todo' == todo
      decreases left
    {
      var c :| c in left;
      if c !in seen' {
        seen', todo' := seen' + {c}, todo' + [c];
      }
      left := left - {c};
    }
  }

  /** Everything seen is reached, and only what is on the worklist may have unseen targets. */
  ghost predicate Searched(start: set<Func>, edges: Graph, seen: set<Func>, todo: seq<Func>) {
    && start <= seen <= Universe(edges, start)
    && (forall f <- todo :: f in seen)
    && (forall f <- seen :: ReachedFrom(edges, start, f))
    && (forall f <- seen :: f in todo || Targets(edges, f) <= seen)
  }

  lemma TargetsAreReached(start: set<Func>, edges: Graph, f: Func)
    requires ReachedFrom(edges, start, f)
    ensures Targets(edges, f) <= Universe(edges, start)
    ensures forall g <- Targets(edges, f) :: ReachedFrom(edges, start, g)
  {
    var a :| a in start && Reaches(edges, a, f);
    forall g <- Targets(edges, f) ensures ReachedFrom(edges, start, g) {
      ReachesFurther(edges, a, f, g);
    }
  }

  lemma RoundKeepsSearched(start: set<Func>, edges: Graph, seen: set<Func>, todo: seq<Func>, f: Func, todo': seq<Func>)
    requires Searched(start, edges, seen, todo + [f])
    requires forall g :: g in todo' <==> g in todo || (g in Targets(edges, f) && g !in seen)
    ensures Searched(start, edges, seen + Targets(edges, f), todo')
  {
    assert f in todo + [f];
    TargetsAreReached(start, edges, f);
    forall g <- seen + Targets(edges, f) ensures g in todo' || Targets(edges, g) <= seen + Targets(edges, f) {
      if g in seen && g != f {
        assert g in todo + [f] ==> g in todo;
      }
    }
  }

  /** With nothing left to look at, all that is reached has been seen. */
  lemma SearchedIsComplete(start: set<Func>, edges: Graph, seen: set<Func>, f: Func)
    requires Searched(start, edges, seen, [])
    ensures f in seen <==> ReachedFrom(edges, start, f)
  {
    if ReachedFrom(edges, start, f) {
      var a :| a in start && Reaches(edges, a, f);
      var path :| Leads(edges, path, a, f);
      ClosedKeepsWalks(edges, seen, path);
    }
  }

  lemma SearchBegins(start: set<Func>, edges: Graph, todo: seq<Func>)
    requires forall f :: f in todo <==> f in start
    ensures Searched(start, edges, start, todo)
  {
    forall f <- start ensures ReachedFrom(edges, start, f) {
      ReachesItself(edges, f);
    }
  }

  /** How many nodes are still unseen. */
  ghost function Unseen(start: set<Func>, edges: Graph, seen: set<Func>): nat {
    |Universe(edges, start) - seen|
  }

  /** The last node on the worklist is taken off and its targets are looked at. */
  method Round(ghost start: set<Func>, edges: Graph, seen: set<Func>, todo: seq<Func>)
    returns (seen': set<Func>, todo': seq<Func>)
    requires todo != [] && Searched(start, edges, seen, todo)
    ensures Searched(start, edges, seen', todo')
    ensures Unseen(start, edges, seen') < Unseen(start, edges, seen) ||
            (seen' == seen && |todo'| < |todo|)
  {
    var f, rest := todo[|todo| - 1], todo[..|todo| - 1];
    seen', todo' := Scan(f, edges, seen, rest);
    assert todo == rest + [f];
    RoundKeepsSearched(start, edges, seen, rest, f, todo');
    FewerLeft(Universe(edges, start), seen, seen');
  }

  /** The worklist algorithm ends with exactly what is reached from the start. */
  method Closure(start: set<Func>, edges: Graph) returns (seen: set<Func>)
    ensures forall f :: f in seen <==> ReachedFrom(edges, start, f)
  {
    seen := start;
    var todo := Listed(start);
    SearchBegins(start, edges, todo);
    while todo != []
      invariant Searched(start, edges, seen, todo)
      decreases Unseen(start, edges, seen), |todo|
    {
      seen, todo := Round(start, edges, seen, todo);
    }
    forall f ensures f in seen <==> ReachedFrom(edges, start, f) {
      SearchedIsComplete(start, edges, seen, f);
    }
  }

  lemma FewerLeft(all: set<Func>, s: set<Func>, t: set<Func>)
    requires s <= t <= all
    ensures s == t || |all - t| < |all - s|
  {
    if s != t {
      assert all - t <= all - s;
      SubsetIsSmaller(all - t, all - s);
    }
  }

  lemma {:induction false} SubsetIsSmaller(s: set<Func>, t: set<Func>)
    requires s <= t
    ensures |s| <= |t| && (s != t ==> |s| < |t|)
  {
    if s != {} {
      var x :| x in s;
      SubsetIsSmaller(s - {x}, t - {x});
    }
  }

  // ---- The call graph ---------------------------------------------------------------------------

  /** The last component of a qualified name. */
  function Short(f: Func): string {
    var parts := Strings.Split(f.name, '.');
    parts[|parts| - 1]
  }

  /** It has no dot, and what comes before it in the name, if anything, ends in one. */
  lemma ShortIs(f: Func)
    ensures '.' !in Short(f) && |Short(f)| <= |f.name| && f.name[|f.name| - |Short(f)|..] == Short(f)
    ensures |Short(f)| < |f.name| ==> f.name[|f.name| - |Short(f)| - 1] == '.'
  {
    var parts := Strings.Split(f.name, '.');
    Strings.PartsArePlain(f.name, '.', |parts| - 1);
    Strings.JoinSplit(f.name, '.');
    LastOfJoined(parts);
  }

  lemma {:induction false} LastOfJoined(parts: seq<string>)
    requires |parts| > 0
    ensures var s, last := Strings.Join(parts, '.'), parts[|parts| - 1];
      && |last| <= |s| && s[|s| - |last|..] == last
      && (|parts| > 1 ==> |last| < |s|) && (|last| < |s| ==> |parts| > 1 && s[|s| - |last| - 1] == '.')
  {
    if |parts| > 1 { LastOfJoined(parts[1..]); }
  }

  /** `f` may call `d`: it calls something of that short name. */
  predicate MayCall(calls: map<Func, set<string>>, defined: set<Func>, f: Func, d: Func) {
    f in calls && d in defined && d != f && Short(d) in calls[f]
  }

  function Add(edges: Graph, f: Func, g: Func): (r: Graph)
    ensures forall x :: Targets(r, x) == Targets(edges, x) + if x == f then {g} else {}
  {
    edges[f := Targets(edges, f) + {g}]
  }

  /** Who may call each function. */
  method CallersOf(calls: map<Func, set<string>>, defined: set<Func>) returns (callers: Graph)
    ensures forall d, f :: f in Targets(callers, d) <==> MayCall(calls, defined, f, d)
  {
    callers := map[];
    var left := calls.Keys;
    while left != {}
      invariant left <= calls.Keys
      invariant forall d, f :: f in Targets(callers, d) <==> f !in left && MayCall(calls, defined, f, d)
      decreases left
    {
      var f :| f in left;
      var rest := defined;
      while rest != {}
        invariant rest <= defined
        invariant forall d, g :: g in Targets(callers, d) <==>
          (g !in left || (g == f && d !in rest)) && MayCall(calls, defined, g, d)
        decreases rest
      {
        var d :| d in rest;
        if d != f && Short(d) in calls[f] {
          callers := Add(callers, d, f);
        }
        rest := rest - {d};
      }
      left := left - {f};
    }
  }

  ghost predicate Opposite(a: Graph, b: Graph) {
    forall f, g :: g in Targets(a, f) <==> f in Targets(b, g)
  }

  /** The same edges, turned round. */
  method Turned(callers: Graph) returns (callees: Graph)
    ensures Opposite(callers, callees)
  {
    callees := map[];
    var left := callers.Keys;
    while left != {}
      invariant left <= callers.Keys
      invariant forall f, g :: f in Targets(callees, g) <==> f !in left && g in Targets(callers, f)
      decreases left
    {
      var f :| f in left;
      var rest := callers[f];
      while rest != {}
        invariant rest <= callers[f]
        invariant forall h, g :: h in Targets(callees, g) <==>
          (h !in left || (h == f && g !in rest)) && g in Targets(callers, h)
        decreases rest
      {
        var c :| c in rest;
        callees := Add(callees, c, f);
        rest := rest - {c};
      }
      left := left - {f};
    }
  }

  lemma {:induction false} WalkBack(a: Graph, b: Graph, path: seq<Func>, f: Func, g: Func)
    requires Opposite(a, b) && Leads(a, path, f, g)
    ensures Reaches(b, g, f)
    decreases |path|
  {
    if |path| == 1 {
      ReachesItself(b, f);
    } else {
      var c := path[1];
      assert c in Targets(a, path[0]);
      assert Leads(a, path[1..], c, g);
      WalkBack(a, b, path[1..], c, g);
      ReachesFurther(b, g, c, f);
    }
  }

  lemma ReachesBack(a: Graph, b: Graph, f: Func, g: Func)
    requires Opposite(a, b)
    ensures Reaches(a, f, g) <==> Reaches(b, g, f)
  {
    if Reaches(a, f, g) {
      var path :| Leads(a, path, f, g);
      WalkBack(a, b, path, f, g);
    }
    if Reaches(b, g, f) {
      var path :| Leads(b, path, g, f);
      WalkBack(b, a, path, g, f);
    }
  }

  // ---- The cone of a function -----------------------------------------------------------------------

  /** Something that can come to call `fn` can come to call `f`. */
  ghost predicate Shares(callees: Graph, e: Func, fn: Func, f: Func) {
    Reaches(callees, e, fn) && Reaches(callees, e, f)
  }

  ghost predicate Involved(callees: Graph, fn: Func, f: Func) {
    exists e :: Shares(callees, e, fn, f)
  }

  /** The module-level code of a function's file. */
  function ModuleOf(f: Func): Func {
    Func(f.file, "<module>")
  }

  ghost predicate InCone(callees: Graph, fn: Func, f: Func) {
    Involved(callees, fn, f) || exists g :: Involved(callees, fn, g) && f == ModuleOf(g)
  }

  /** The cone holds exactly what the functions that can come to call `fn` can come to call, with
      the module-level code of every file involved, and without `fn` itself. */
  method ConeOf(fn: Func, callers: Graph, callees: Graph) returns (members: set<Func>)
    requires Opposite(callers, callees)
    ensures forall f :: f in members <==> f != fn && InCone(callees, fn, f)
  {
    var up := Closure({fn}, callers);
    var down := Closure(up, callees);
    members := up + down;
    ghost var involved := members;
    forall f ensures f in involved <==> Involved(callees, fn, f) {
      UpAndDown(fn, callers, callees, up, down, f);
    }
    members := members + set m | m in members :: ModuleOf(m);
    members := members - {fn};
  }

  lemma UpAndDown(fn: Func, callers: Graph, callees: Graph, up: set<Func>, down: set<Func>, f: Func)
    requires Opposite(callers, callees)
    requires forall g :: g in up <==> ReachedFrom(callers, {fn}, g)
    requires forall g :: g in down <==> ReachedFrom(callees, up, g)
    ensures f in up + down <==> Involved(callees, fn, f)
  {
    forall e ensures e in up <==> Reaches(callees, e, fn) {
      ReachesBack(callers, callees, fn, e);
      assert fn in {fn};
    }
    if f in up {
      ReachesItself(callees, f);
      assert Shares(callees, f, fn, f);
    } else if f in down {
      var e :| e in up && Reaches(callees, e, f);
      assert Shares(callees, e, fn, f);
    }
    if Involved(callees, fn, f) {
      var e :| Shares(callees, e, fn, f);
      assert e in up;
    }
  }

  /** So with the function itself the cone holds everything that can come to call it, everything
      it can come to call, and with each of its callers all that caller can come to call. */
  lemma ConeIsClosed(callees: Graph, fn: Func, members: set<Func>, e: Func, f: Func)
    requires forall g :: g in members <==> g != fn && InCone(callees, fn, g)
    ensures Reaches(callees, e, fn) ==> e in members + {fn}
    ensures Reaches(callees, fn, f) ==> f in members + {fn}
    ensures Involved(callees, fn, e) && f in Targets(callees, e) ==> f in members + {fn}
  {
    ReachesItself(callees, e);
    ReachesItself(callees, fn);
    if Reaches(callees, e, fn) { assert Shares(callees, e, fn, e); }
    if Reaches(callees, fn, f) { assert Shares(callees, fn, fn, f); }
    if Involved(callees, fn, e) && f in Targets(callees, e) {
      var r :| Shares(callees, r, fn, e);
      ReachesFurther(callees, r, e, f);
      assert Shares(callees, r, fn, f);
    }
  }
}
