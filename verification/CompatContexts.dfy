/** Which models a surface reads on which side: the worklist of `model_contexts` against reachability by paths. */
module CompatContexts {
  import opened Wrappers
  import opened CompatModel
  import opened Worklist

  // ---- models named by a shape -------------------------------------------------------------------------------

  function ModelsOf(f: Field): set<string>
    decreases f, 0
  {
    (if f.model != "" then {f.model} else {})
    + ModelsIn(f.fields) + ModelsOfNested(f.values) + ModelsOfNested(f.element) + ModelsOfAll(f.oneOf)
  }

  function ModelsOfNested(f: Option<Field>): set<string>
    decreases f, 0
  {
    if f.Some? then ModelsOf(f.value) else {}
  }

  function ModelsOfAll(fs: seq<Field>): set<string>
    decreases fs, 0
  {
    if fs == [] then {} else ModelsOfAll(fs[..|fs| - 1]) + ModelsOf(fs[|fs| - 1])
  }

  function ModelsIn(fs: Fields): set<string>
    decreases fs, 0
  {
    ModelsAmong(fs, fs.byName.Keys)
  }

  /** The models named by some of a record's members. */
  function ModelsAmong(fs: Fields, names: set<string>): set<string>
    requires names <= fs.byName.Keys
    decreases fs, -1
  {
    set n, m | n in names && m in ModelsOf(fs.byName[n]) :: m
  }

  method WalkField(f: Field, seen: set<string>) returns (out: set<string>)
    ensures out == seen + ModelsOf(f)
    decreases f, 1
  {
    out := if f.model != "" then seen + {f.model} else seen;
    out := WalkModels(f.fields, out);
    out := WalkNested(f.values, out);
    out := WalkNested(f.element, out);
    out := WalkAll(f.oneOf, out);
  }

  method WalkNested(f: Option<Field>, seen: set<string>) returns (out: set<string>)
    ensures out == seen + ModelsOfNested(f)
    decreases f, 1
  {
    out := seen;
    if f.Some? {
      out := WalkField(f.value, out);
    }
  }

  method WalkAll(fs: seq<Field>, seen: set<string>) returns (out: set<string>)
    ensures out == seen + ModelsOfAll(fs)
    decreases fs, 1
  {
    out := seen;
    for i := 0 to |fs|
      invariant out == seen + ModelsOfAll(fs[..i])
    {
      assert fs[..i + 1][..i] == fs[..i];
      out := WalkField(fs[i], out);
    }
    assert fs[..|fs|] == fs;
  }

  method WalkModels(fs: Fields, seen: set<string>) returns (out: set<string>)
    ensures out == seen + ModelsIn(fs)
    decreases fs, 1
  {
    out := seen;
    var todo := fs.byName.Keys;
    while todo != {}
      invariant todo <= fs.byName.Keys
      invariant out == seen + ModelsAmong(fs, fs.byName.Keys - todo)
    {
      var n :| n in todo;
      out := WalkField(fs.byName[n], out);
      todo := todo - {n};
    }
    assert fs.byName.Keys - todo == fs.byName.Keys;
  }

  // ---- reachability ------------------------------------------------------------------------------------------

  function SideOf(v: Variant, side: Side): Fields {
    if side.Request? then v.payload else v.response
  }

  function VariantModels(c: Command, modes: set<string>, side: Side): set<string>
    requires modes <= c.variants.Keys
  {
    set mode, m | mode in modes && m in ModelsIn(SideOf(c.variants[mode], side)) :: m
  }

  function CommandRoots(c: Command, side: Side): set<string> {
    ModelsIn(if side.Request? then c.payload else c.response)
    + VariantModels(c, c.variants.Keys, side)
    + (if side.Response? && c.responseModel != "" then {c.responseModel} else {})
  }

  function EnvelopeRoots(s: Surface, side: Side): set<string> {
    if side.Request? then ModelsIn(s.request) else ModelsIn(s.response) + ModelsIn(s.errorFrame)
  }

  /** The models a surface names directly on one side. */
  function Roots(s: Surface, side: Side): set<string> {
    (set n, m | n in s.commands && m in CommandRoots(s.commands[n], side) :: m) + EnvelopeRoots(s, side)
  }

  /** The graph of models: from a name to the names its declared shape uses. */
  function Names(models: Models): string -> set<string> {
    x => ModelsIn(Declared(models, x))
  }

  ghost predicate Reachable(s: Surface, side: Side, m: string) {
    Reaches(Roots(s, side), Names(s.models), m)
  }

  ghost predicate Referenced(s: Surface, m: string) {
    Reachable(s, Request, m) || Reachable(s, Response, m)
  }

  // ---- the worklist ------------------------------------------------------------------------------------------

  method DirectModels(s: Surface, side: Side) returns (direct: set<string>)
    ensures direct == Roots(s, side)
  {
    direct := {};
    var todo := s.commands.Keys;
    while todo != {}
      invariant todo <= s.commands.Keys
      invariant direct == set n, m | n in s.commands && n !in todo && m in CommandRoots(s.commands[n], side) :: m
    {
      var n :| n in todo;
      var more := DirectModelsOfCommand(s.commands[n], side);
      direct, todo := direct + more, todo - {n};
    }
    if side.Request? {
      direct := WalkModels(s.request, direct);
    } else {
      direct := WalkModels(s.response, direct);
      direct := WalkModels(s.errorFrame, direct);
    }
  }

  method DirectModelsOfCommand(c: Command, side: Side) returns (direct: set<string>)
    ensures direct == CommandRoots(c, side)
  {
    direct := WalkModels(if side.Request? then c.payload else c.response, {});
    ghost var first := direct;
    var todo := c.variants.Keys;
    while todo != {}
      invariant todo <= c.variants.Keys
      invariant direct == first + VariantModels(c, c.variants.Keys - todo, side)
    {
      var mode :| mode in todo;
      direct := WalkModels(SideOf(c.variants[mode], side), direct);
      todo := todo - {mode};
    }
    assert c.variants.Keys - todo == c.variants.Keys;
    if side.Response? && c.responseModel != "" {
      direct := direct + {c.responseModel};
    }
  }

  /** Every name a surface could ever put on the worklist. */
  ghost function Universe(s: Surface, side: Side): (u: set<string>)
    ensures Roots(s, side) <= u
    ensures forall x :: Names(s.models)(x) <= u
  {
    Roots(s, side) + set n, m | n in s.models && m in ModelsIn(s.models[n]) :: m
  }

  /** The models read on one side: visits each name once, so it ends on cyclic models too. */
  method SideContexts(s: Surface, side: Side) returns (visited: set<string>)
    ensures forall m :: m in visited <==> Reachable(s, side, m)
  {
    var roots := DirectModels(s, side);
    var pending := Listed(roots);
    visited := {};
    ghost var next, universe := Names(s.models), Universe(s, side);
    FrontierStart(roots, next, universe, pending);
    while pending != []
      invariant Frontier(roots, next, universe, visited, pending)
      decreases universe - visited, |pending|
    {
      var name := pending[|pending| - 1];
      if name in visited {
        FrontierSkip(roots, next, universe, visited, pending);
        pending := pending[..|pending| - 1];
      } else {
        var nested := WalkModels(Declared(s.models, name), {});
        var more := Listed(nested);
        FrontierVisit(roots, next, universe, visited, pending, more);
        visited, pending := visited + {name}, pending[..|pending| - 1] + more;
      }
    }
    FrontierDone(roots, next, universe, visited);
  }

  /** Model name to the sides it is read on. */
  method ModelContexts(s: Surface) returns (out: map<string, set<Side>>)
    ensures forall m, side :: (m in out && side in out[m]) <==> Reachable(s, side, m)
    ensures forall m :: m in out <==> Referenced(s, m)
  {
    var req := SideContexts(s, Request);
    var resp := SideContexts(s, Response);
    out := map m | m in req + resp :: (if m in req then {Request} else {}) + (if m in resp then {Response} else {});
    forall m, side
      ensures (m in out && side in out[m]) <==> Reachable(s, side, m)
    {
      match side
      case Request => assert m in req <==> Reachable(s, Request, m);
      case Response => assert m in resp <==> Reachable(s, Response, m);
    }
  }
}

/** Depth-first closure over a graph of names, apart from what the names stand for. */
module Worklist {
  /** A chain of names, each a successor of the one before. */
  ghost predicate Leads(roots: set<string>, next: string -> set<string>, path: seq<string>, m: string) {
    && path != [] && path[0] in roots && path[|path| - 1] == m
    && forall i :: 0 <= i < |path| - 1 ==> path[i + 1] in next(path[i])
  }

  ghost predicate Reaches(roots: set<string>, next: string -> set<string>, m: string) {
    exists path :: Leads(roots, next, path, m)
  }

  lemma ReachesRoot(roots: set<string>, next: string -> set<string>, m: string)
    requires m in roots
    ensures Reaches(roots, next, m)
  {
    assert Leads(roots, next, [m], m);
  }

  lemma ReachesNext(roots: set<string>, next: string -> set<string>, m: string, n: string)
    requires Reaches(roots, next, m) && n in next(m)
    ensures Reaches(roots, next, n)
  {
    var path :| Leads(roots, next, path, m);
    assert Leads(roots, next, path + [n], n);
  }

  /** A set that holds the roots and is closed under successors holds everything reachable. */
  lemma {:induction false} ClosedHoldsReachable(
    roots: set<string>, next: string -> set<string>, closed: set<string>, path: seq<string>, m: string)
    requires roots <= closed
    requires forall x :: x in closed ==> next(x) <= closed
    requires Leads(roots, next, path, m)
    ensures m in closed
    decreases |path|
  {
    if |path| > 1 {
      var k := |path| - 2;
      ClosedHoldsReachable(roots, next, closed, path[..k + 1], path[k]);
      assert path[k + 1] in next(path[k]);
    }
  }

  /** What the worklist keeps: only reachable names, and nothing named so far is forgotten. */
  ghost predicate Frontier(
    roots: set<string>, next: string -> set<string>, universe: set<string>, visited: set<string>, pending: seq<string>)
  {
    && (forall m :: m in visited || m in pending ==> m in universe && Reaches(roots, next, m))
    && (forall m :: m in roots ==> m in visited || m in pending)
    && (forall x, m :: x in visited && m in next(x) ==> m in visited || m in pending)
    && (forall x :: next(x) <= universe)
  }

  lemma FrontierStart(roots: set<string>, next: string -> set<string>, universe: set<string>, pending: seq<string>)
    requires roots <= universe && forall x :: next(x) <= universe
    requires forall m :: m in pending <==> m in roots
    ensures Frontier(roots, next, universe, {}, pending)
  {
    forall m | m in roots ensures Reaches(roots, next, m) { ReachesRoot(roots, next, m); }
  }

  lemma LastSplit(xs: seq<string>)
    requires xs != []
    ensures forall x :: x in xs <==> x in xs[..|xs| - 1] || x == xs[|xs| - 1]
  {
    assert xs == xs[..|xs| - 1] + [xs[|xs| - 1]];
  }

  lemma FrontierSkip(
    roots: set<string>, next: string -> set<string>, universe: set<string>, visited: set<string>, pending: seq<string>)
    requires Frontier(roots, next, universe, visited, pending)
    requires pending != [] && pending[|pending| - 1] in visited
    ensures Frontier(roots, next, universe, visited, pending[..|pending| - 1])
  {
    LastSplit(pending);
  }

  lemma FrontierVisit(
    roots: set<string>, next: string -> set<string>, universe: set<string>,
    visited: set<string>, pending: seq<string>, more: seq<string>)
    requires Frontier(roots, next, universe, visited, pending) && pending != []
    requires forall m :: m in more <==> m in next(pending[|pending| - 1])
    ensures Frontier(roots, next, universe, visited + {pending[|pending| - 1]}, pending[..|pending| - 1] + more)
    ensures pending[|pending| - 1] in universe
  {
    LastSplit(pending);
    var name := pending[|pending| - 1];
    forall m | m in more ensures Reaches(roots, next, m) && m in universe {
      ReachesNext(roots, next, name, m);
      assert m in next(name) && next(name) <= universe;
    }
  }

  lemma FrontierDone(roots: set<string>, next: string -> set<string>, universe: set<string>, visited: set<string>)
    requires Frontier(roots, next, universe, visited, [])
    ensures forall m :: m in visited <==> Reaches(roots, next, m)
  {
    forall m | Reaches(roots, next, m) ensures m in visited {
      var path :| Leads(roots, next, path, m);
      ClosedHoldsReachable(roots, next, visited, path, m);
    }
  }

  /** A set's elements in some order. */
  method Listed(xs: set<string>) returns (list: seq<string>)
    ensures forall x :: x in list <==> x in xs
  {
    list := [];
    var todo := xs;
    while todo != {}
      invariant todo <= xs
      invariant forall x :: x in list <==> x in xs && x !in todo
    {
      var x :| x in todo;
      list, todo := list + [x], todo - {x};
    }
  }
}
