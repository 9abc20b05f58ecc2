/**
 The evaluator and the tree walk of user/find.c.  The file system is a tree;
 tests, commands and deletions get their answer from an oracle over the path;
 everything the program does is recorded as a trace of events.
 */
module FindWalk {
  import opened Bytes
  import opened FindParse

  datatype File = File(name: string, statOk: bool, isDir: bool, canOpen: bool, kids: seq<File>)

  datatype Event = Ran(l: Leaf, path: string) | Listed(path: string) | Failure(path: string)

  type Oracle = (Leaf, string) -> bool

  /** `-maxdepth` is negative when not given. */
  datatype Config = Config(
    expr: Option<Expr>, maxDepth: int, minDepth: int, depthFirst: bool, hasAction: bool, holds: Oracle)

  // ----- evaluation -----

  /** The answer of an expression on a file, with the flags it sets and the actions it runs. */
  datatype Eval = Eval(val: bool, prune: bool, quit: bool, out: seq<Event>)

  function EvalLeaf(l: Leaf, path: string, holds: Oracle): Eval {
    match l
    case Bare(True) => Eval(true, false, false, [])
    case Bare(False) => Eval(false, false, false, [])
    case Bare(Prune) => Eval(true, true, false, [])
    case Bare(Quit) => Eval(true, false, true, [])
    case Bare(Delete) => Eval(holds(l, path), false, false, [Ran(l, path)])
    case Exec(_, _, _) => Eval(holds(l, path), false, false, [Ran(l, path)])
    case _ => if IsAction(l) then Eval(true, false, false, [Ran(l, path)]) else Eval(holds(l, path), false, false, [])
  }

  /** Both operands run: flags accumulate, actions follow each other. */
  function Then(a: Eval, b: Eval): Eval {
    Eval(b.val, a.prune || b.prune, a.quit || b.quit, a.out + b.out)
  }

  function EvalExpr(e: Expr, path: string, holds: Oracle): Eval {
    match e
    case Prim(l) => EvalLeaf(l, path, holds)
    case Not(c) => var r := EvalExpr(c, path, holds); r.(val := !r.val)
    case And(l, r) =>
      var a := EvalExpr(l, path, holds);
      if a.val then Then(a, EvalExpr(r, path, holds)) else a
    case Or(l, r) =>
      var a := EvalExpr(l, path, holds);
      if a.val then a else Then(a, EvalExpr(r, path, holds))
  }

  /** Evaluate the whole expression on a file; without any action, a match is listed. */
  function Visit(c: Config, path: string): Eval {
    var r := if c.expr.None? then Eval(true, false, false, []) else EvalExpr(c.expr.value, path, c.holds);
    if !c.hasAction && r.val then r.(out := r.out + [Listed(path)]) else r
  }

  // ----- the walk as a function -----

  datatype World = World(quit: bool, out: seq<Event>)

  function Join(path: string, name: string): string {
    if |path| > 0 && path[|path| - 1] == '/' then path + name else path + "/" + name
  }

  function Apply(w: World, r: Eval): World { World(w.quit || r.quit, w.out + r.out) }

  function Walk(f: File, path: string, depth: nat, c: Config, w: World): World
    decreases f, 1, 0
  {
    if w.quit || (c.maxDepth >= 0 && depth > c.maxDepth) then w
    else if !f.statOk then w.(out := w.out + [Failure(path)])
    else if c.depthFirst then
      var w1 := Descend(f, path, depth, c, w);
      if depth >= c.minDepth then Apply(w1, Visit(c, path)) else w1
    else if depth >= c.minDepth then
      var r := Visit(c, path);
      var w1 := Apply(w, r);
      if w1.quit || r.prune then w1 else Descend(f, path, depth, c, w1)
    else Descend(f, path, depth, c, w)
  }

  /** Into the directory, unless the depth limit is reached. */
  function Descend(f: File, path: string, depth: nat, c: Config, w: World): World
    decreases f, 0, |f.kids| + 1
  {
    if !f.isDir || (c.maxDepth >= 0 && depth >= c.maxDepth) then w
    else if !f.canOpen then w.(out := w.out + [Failure(path)])
    else WalkKids(f, 0, path, depth, c, w)
  }

  function WalkKids(f: File, i: nat, path: string, depth: nat, c: Config, w: World): World
    requires i <= |f.kids|
    decreases f, 0, |f.kids| - i
  {
    if i == |f.kids| || w.quit then w
    else WalkKids(f, i + 1, path, depth, c, Walk(f.kids[i], Join(path, f.kids[i].name), depth + 1, c, w))
  }

  // ----- the program -----

  class Finder {
    var quit: bool
    var out: seq<Event>

    constructor ()
      ensures World(quit, out) == World(false, [])
    {
      quit, out := false, [];
    }

    method Run(c: Config, path: string) returns (prune: bool)
      modifies this
      ensures World(quit, out) == Apply(old(World(quit, out)), Visit(c, path)) && prune == Visit(c, path).prune
    {
      var r := if c.expr.None? then Eval(true, false, false, []) else EvalExpr(c.expr.value, path, c.holds);
      out := out + r.out;
      quit := quit || r.quit;
      if !c.hasAction && r.val { out := out + [Listed(path)]; }
      prune := r.prune;
    }

    method FindWalk(f: File, path: string, depth: nat, c: Config)
      modifies this
      ensures World(quit, out) == Walk(f, path, depth, c, old(World(quit, out)))
      decreases f
    {
      if quit { return; }
      if c.maxDepth >= 0 && depth > c.maxDepth { return; }
      if !f.statOk {
        out := out + [Failure(path)];
        return;
      }
      var prune := false;
      if !c.depthFirst {
        if depth >= c.minDepth { prune := Run(c, path); }
        if quit { return; }
      }
      if f.isDir && !prune {
        if c.maxDepth < 0 || depth < c.maxDepth {
          if !f.canOpen {
            out := out + [Failure(path)];
          } else {
            ghost var w := World(quit, out);
            var i := 0;
            while i < |f.kids|
              invariant 0 <= i <= |f.kids|
              invariant WalkKids(f, 0, path, depth, c, w) == WalkKids(f, i, path, depth, c, World(quit, out))
            {
              if quit { break; }
              FindWalk(f.kids[i], Join(path, f.kids[i].name), depth + 1, c);
              i := i + 1;
            }
          }
        }
      }
      if c.depthFirst && depth >= c.minDepth {
        prune := Run(c, path);
      }
    }
  }
}
