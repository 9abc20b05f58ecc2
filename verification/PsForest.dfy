/**
 The process forest of user/ps.c: every process is listed once, children behind
 and one step deeper than their parent, whatever the parent relation looks like.
 */
module PsForest {

  const MAX_PROCS := 4096

  datatype Proc = Proc(pid: int, ppid: int)

  datatype Item = Item(idx: nat, depth: nat)

  /** The marks made so far and the lines listed so far. */
  datatype Forest = Forest(used: set<nat>, tree: seq<Item>)

  function Add(f: Forest, i: nat, depth: nat): Forest { Forest(f.used + {i}, f.tree + [Item(i, depth)]) }

  function Unused(ps: seq<Proc>, f: Forest): set<nat> { set i: nat | i < |ps| && i !in f.used }

  /** The descendants of `pid` from index `i` on. */
  function Walk(ps: seq<Proc>, f: Forest, i: nat, pid: int, depth: nat): (r: Forest)
    requires i <= |ps|
    ensures f.used <= r.used && f.tree <= r.tree
    decreases Unused(ps, f), |ps| - i
  {
    if i == |ps| then f
    else if i in f.used || ps[i].ppid != pid then Walk(ps, f, i + 1, pid, depth)
    else
      assert i in Unused(ps, f) && i !in Unused(ps, Add(f, i, depth));
      var g := Walk(ps, Add(f, i, depth), 0, ps[i].pid, depth + 1);
      Walk(ps, g, i + 1, pid, depth)
  }

  /** No other process of the list is the parent. */
  predicate Root(ps: seq<Proc>, i: nat)
    requires i < |ps|
  {
    forall j :: 0 <= j < |ps| && j != i ==> ps[j].pid != ps[i].ppid
  }

  function Plant(ps: seq<Proc>, f: Forest, i: nat): Forest
    requires i < |ps|
  {
    if Root(ps, i) then Walk(ps, Add(f, i, 0), 0, ps[i].pid, 1) else f
  }

  function Roots(ps: seq<Proc>, f: Forest, i: nat): Forest
    requires i <= |ps|
    decreases |ps| - i
  {
    if i == |ps| then f else Roots(ps, Plant(ps, f, i), i + 1)
  }

  /** Whatever the first pass left unmarked. */
  function Left(ps: seq<Proc>, used: set<nat>, i: nat): (r: seq<Item>)
    requires i <= |ps|
    ensures forall k :: 0 <= k < |r| ==> i <= r[k].idx < |ps| && r[k].idx !in used && r[k].depth == 0
    decreases |ps| - i
  {
    if i == |ps| then []
    else if i in used then Left(ps, used, i + 1)
    else [Item(i, 0)] + Left(ps, used, i + 1)
  }

  function Build(ps: seq<Proc>): seq<Item> {
    var f := Roots(ps, Forest({}, []), 0);
    f.tree + Left(ps, f.used, 0)
  }

  // ----- what is listed -----

  predicate Listed(tree: seq<Item>, x: nat) { exists k :: 0 <= k < |tree| && tree[k].idx == x }

  predicate Distinct(tree: seq<Item>) { forall k, l :: 0 <= k < l < |tree| ==> tree[k].idx != tree[l].idx }

  /** The list names each marked process once, and no other. */
  ghost predicate Once(ps: seq<Proc>, f: Forest) {
    && (forall k :: 0 <= k < |f.tree| ==> f.tree[k].idx < |ps| && f.tree[k].idx in f.used)
    && Distinct(f.tree)
    && (forall x :: x in f.used ==> Listed(f.tree, x))
  }

  lemma {:induction false} AddOnce(ps: seq<Proc>, f: Forest, i: nat, depth: nat)
    requires Once(ps, f) && i < |ps| && i !in f.used
    ensures Once(ps, Add(f, i, depth))
  {
    var g := Add(f, i, depth);
    assert g.tree[|f.tree|].idx == i;
    forall x | x in g.used ensures Listed(g.tree, x) {
      if x != i {
        var k :| 0 <= k < |f.tree| && f.tree[k].idx == x;
        assert g.tree[k].idx == x;
      }
    }
  }

  /** What adding an unmarked process keeps, a walk keeps. */
  lemma {:induction false} WalkKeeps(ps: seq<Proc>, f: Forest, i: nat, pid: int, depth: nat, keeps: Forest -> bool)
    requires i <= |ps| && keeps(f)
    requires forall g: Forest, j: nat, d: nat :: keeps(g) && j < |ps| && j !in g.used ==> keeps(Add(g, j, d))
    ensures keeps(Walk(ps, f, i, pid, depth))
    decreases Unused(ps, f), |ps| - i
  {
    if i == |ps| {
    } else if i in f.used || ps[i].ppid != pid {
      WalkKeeps(ps, f, i + 1, pid, depth, keeps);
    } else {
      var h := Add(f, i, depth);
      assert i in Unused(ps, f) && i !in Unused(ps, h);
      WalkKeeps(ps, h, 0, ps[i].pid, depth + 1, keeps);
      WalkKeeps(ps, Walk(ps, h, 0, ps[i].pid, depth + 1), i + 1, pid, depth, keeps);
    }
  }

  lemma {:induction false} WalkOnce(ps: seq<Proc>, f: Forest, i: nat, pid: int, depth: nat)
    requires i <= |ps| && Once(ps, f)
    ensures Once(ps, Walk(ps, f, i, pid, depth))
  {
    var keeps := (g: Forest) => Once(ps, g);
    forall g: Forest, j: nat, d: nat | keeps(g) && j < |ps| && j !in g.used ensures keeps(Add(g, j, d)) {
      AddOnce(ps, g, j, d);
    }
    WalkKeeps(ps, f, i, pid, depth, keeps);
  }

  // ----- who is marked -----

  predicate Child(ps: seq<Proc>, x: nat, y: nat)
    requires x < |ps|
  {
    y < |ps| && ps[y].ppid == ps[x].pid
  }

  /** All children of `x` are marked. */
  ghost predicate Closed(ps: seq<Proc>, used: set<nat>, x: nat)
    requires x < |ps|
  {
    forall y: nat :: Child(ps, x, y) ==> y in used
  }

  /** From a root to `path`'s last process, each the child of the one before. */
  ghost predicate Line(ps: seq<Proc>, path: seq<nat>) {
    && path != [] && (forall k :: 0 <= k < |path| ==> path[k] < |ps|)
    && Root(ps, path[0])
    && (forall k :: 0 <= k < |path| - 1 ==> Child(ps, path[k], path[k + 1]))
  }

  ghost predicate Reach(ps: seq<Proc>, x: nat) { exists path :: Line(ps, path) && path[|path| - 1] == x }

  lemma {:induction false} ReachChild(ps: seq<Proc>, x: nat, y: nat)
    requires Reach(ps, x) && x < |ps| && Child(ps, x, y)
    ensures Reach(ps, y)
  {
    var path :| Line(ps, path) && path[|path| - 1] == x;
    assert Line(ps, path + [y]) && (path + [y])[|path|] == y;
  }

  lemma {:induction false} ReachRoot(ps: seq<Proc>, x: nat)
    requires x < |ps| && Root(ps, x)
    ensures Reach(ps, x)
  {
    assert Line(ps, [x]);
  }

  lemma {:induction false} ReachMarked(ps: seq<Proc>, used: set<nat>, path: seq<nat>)
    requires Line(ps, path)
    requires forall x: nat :: x < |ps| && Root(ps, x) ==> x in used
    requires forall x: nat :: x < |ps| && x in used ==> Closed(ps, used, x)
    ensures path[|path| - 1] in used
    decreases |path|
  {
    if |path| > 1 {
      var k := |path| - 2;
      assert forall l :: 0 <= l <= k ==> path[..k + 1][l] == path[l];
      ReachMarked(ps, used, path[..k + 1]);
      assert Child(ps, path[k], path[k + 1]);
    }
  }

  /** The walk's own marks: each is a child of `pid` or of another of them, and brings its children along. */
  ghost predicate Fresh(ps: seq<Proc>, f: Forest, r: Forest, x: nat) { x in r.used && x !in f.used && x < |ps| }

  /** A walk marks every child of `pid` from index `i` on. */
  lemma {:induction false} WalkChildren(ps: seq<Proc>, f: Forest, i: nat, pid: int, depth: nat, y: nat)
    requires i <= y < |ps| && ps[y].ppid == pid
    ensures y in Walk(ps, f, i, pid, depth).used
    decreases Unused(ps, f), |ps| - i
  {
    if i in f.used || ps[i].ppid != pid {
      if y > i { WalkChildren(ps, f, i + 1, pid, depth, y); }
    } else {
      var h := Add(f, i, depth);
      assert i in Unused(ps, f) && i !in Unused(ps, h);
      var g := Walk(ps, h, 0, ps[i].pid, depth + 1);
      if y > i { WalkChildren(ps, g, i + 1, pid, depth, y); }
    }
  }

  lemma {:induction false} ClosedGrows(ps: seq<Proc>, used: set<nat>, more: set<nat>, x: nat)
    requires x < |ps| && used <= more && Closed(ps, used, x)
    ensures Closed(ps, more, x)
  {}

  /** What a walk marks brings its children along. */
  lemma {:induction false} WalkClosed(ps: seq<Proc>, f: Forest, i: nat, pid: int, depth: nat, r: Forest, x: nat)
    requires i <= |ps| && r == Walk(ps, f, i, pid, depth) && Fresh(ps, f, r, x)
    ensures Closed(ps, r.used, x)
    decreases Unused(ps, f), |ps| - i
  {
    if i == |ps| {
    } else if i in f.used || ps[i].ppid != pid {
      WalkClosed(ps, f, i + 1, pid, depth, r, x);
    } else {
      var h := Add(f, i, depth);
      assert i in Unused(ps, f) && i !in Unused(ps, h);
      var g := Walk(ps, h, 0, ps[i].pid, depth + 1);
      if x !in g.used {
        WalkClosed(ps, g, i + 1, pid, depth, r, x);
      } else if x == i {
        forall y: nat | Child(ps, i, y) ensures y in g.used { WalkChildren(ps, h, 0, ps[i].pid, depth + 1, y); }
        ClosedGrows(ps, g.used, r.used, x);
      } else {
        WalkClosed(ps, h, 0, ps[i].pid, depth + 1, g, x);
        ClosedGrows(ps, g.used, r.used, x);
      }
    }
  }

  ghost predicate Sprout(ps: seq<Proc>, x: nat) { x < |ps| && Reach(ps, x) && !Root(ps, x) }

  /** A child of another reachable process can be reached, and is no root. */
  lemma {:induction false} ChildSprouts(ps: seq<Proc>, k: nat, x: nat)
    requires k < |ps| && Reach(ps, k) && Child(ps, k, x) && x != k
    ensures Sprout(ps, x)
  {
    ReachChild(ps, k, x);
  }

  /** What a walk marks below a marked process `k` is reachable, and no root. */
  lemma {:induction false} WalkReach(ps: seq<Proc>, f: Forest, i: nat, k: nat, depth: nat, x: nat)
    requires i <= |ps| && k < |ps| && k in f.used && Reach(ps, k)
    requires Fresh(ps, f, Walk(ps, f, i, ps[k].pid, depth), x)
    ensures Sprout(ps, x)
    decreases Unused(ps, f), |ps| - i
  {
    if i == |ps| {
    } else if i in f.used || ps[i].ppid != ps[k].pid {
      WalkReach(ps, f, i + 1, k, depth, x);
    } else {
      var h := Add(f, i, depth);
      assert i in Unused(ps, f) && i !in Unused(ps, h);
      ChildSprouts(ps, k, i);
      var g := Walk(ps, h, 0, ps[i].pid, depth + 1);
      if Fresh(ps, h, g, x) {
        WalkReach(ps, h, 0, i, depth + 1, x);
      } else if Fresh(ps, g, Walk(ps, g, i + 1, ps[k].pid, depth), x) {
        WalkReach(ps, g, i + 1, k, depth, x);
      }
    }
  }

  // ----- how it is indented -----

  /** Entry `m` is the closest earlier entry one step less deep, and it is the parent of `pid`'s children. */
  ghost predicate Above(ps: seq<Proc>, tree: seq<Item>, m: nat, n: nat, pid: int, depth: nat)
    requires n <= |tree|
  {
    && m < n && tree[m].idx < |ps| && tree[m].depth + 1 == depth && ps[tree[m].idx].pid == pid
    && (forall l :: m < l < n ==> tree[l].depth >= depth)
  }

  ghost predicate UnderParent(ps: seq<Proc>, tree: seq<Item>, k: nat)
    requires k < |tree|
  {
    && tree[k].idx < |ps|
    && (tree[k].depth > 0 ==> exists m :: Above(ps, tree, m, k, ps[tree[k].idx].ppid, tree[k].depth))
  }

  ghost predicate Indented(ps: seq<Proc>, tree: seq<Item>) {
    forall k :: 0 <= k < |tree| ==> UnderParent(ps, tree, k)
  }

  lemma {:induction false} AboveKept(
    ps: seq<Proc>, tree: seq<Item>, more: seq<Item>, m: nat, n: nat, pid: int, depth: nat)
    requires tree <= more && n <= |tree| && Above(ps, tree, m, n, pid, depth)
    ensures Above(ps, more, m, n, pid, depth)
  {
    assert forall l :: 0 <= l < |tree| ==> more[l] == tree[l];
  }

  lemma {:induction false} AddIndented(ps: seq<Proc>, tree: seq<Item>, e: Item, m: nat)
    requires Indented(ps, tree) && e.idx < |ps|
    requires e.depth > 0 ==> Above(ps, tree, m, |tree|, ps[e.idx].ppid, e.depth)
    ensures Indented(ps, tree + [e])
  {
    var more := tree + [e];
    forall k | 0 <= k < |more| ensures UnderParent(ps, more, k) {
      if k < |tree| {
        assert UnderParent(ps, tree, k);
        if tree[k].depth > 0 {
          var m1 :| Above(ps, tree, m1, k, ps[tree[k].idx].ppid, tree[k].depth);
          AboveKept(ps, tree, more, m1, k, ps[tree[k].idx].ppid, tree[k].depth);
        }
      } else if e.depth > 0 {
        AboveKept(ps, tree, more, m, |tree|, ps[e.idx].ppid, e.depth);
      }
    }
  }

  /** A walk below entry `m` indents everything by its parent, and leaves `m` in sight. */
  lemma {:induction false} WalkIndented(ps: seq<Proc>, f: Forest, i: nat, pid: int, depth: nat, m: nat)
    requires i <= |ps| && Indented(ps, f.tree) && depth > 0 && Above(ps, f.tree, m, |f.tree|, pid, depth)
    ensures var r := Walk(ps, f, i, pid, depth);
            && Indented(ps, r.tree) && Above(ps, r.tree, m, |r.tree|, pid, depth)
            && (forall k :: |f.tree| <= k < |r.tree| ==> r.tree[k].depth >= depth)
    decreases Unused(ps, f), |ps| - i
  {
    if i == |ps| {
    } else if i in f.used || ps[i].ppid != pid {
      WalkIndented(ps, f, i + 1, pid, depth, m);
    } else {
      var h := Add(f, i, depth);
      assert i in Unused(ps, f) && i !in Unused(ps, h);
      AddIndented(ps, f.tree, Item(i, depth), m);
      var g := Walk(ps, h, 0, ps[i].pid, depth + 1);
      WalkIndented(ps, h, 0, ps[i].pid, depth + 1, |f.tree|);
      WalkIndented(ps, g, i + 1, pid, depth, m);
    }
  }

  // ----- the passes -----

  ghost predicate MarkOk(ps: seq<Proc>, used: set<nat>, i: nat, x: nat) {
    x < |ps| && x in used ==> Closed(ps, used, x) && Reach(ps, x) && (Root(ps, x) ==> x < i)
  }

  ghost predicate RootsMarked(ps: seq<Proc>, used: set<nat>, i: nat) {
    forall x: nat :: x < i && x < |ps| && Root(ps, x) ==> x in used
  }

  ghost predicate RootsOutside(ps: seq<Proc>, tree: seq<Item>) {
    forall k :: 0 <= k < |tree| ==> tree[k].idx < |ps| && (tree[k].depth == 0 <==> Root(ps, tree[k].idx))
  }

  /** After the first pass has looked at `i` processes. */
  ghost predicate Planted(ps: seq<Proc>, f: Forest, i: nat) {
    && Once(ps, f) && Indented(ps, f.tree)
    && (forall x :: MarkOk(ps, f.used, i, x))
    && RootsMarked(ps, f.used, i)
    && RootsOutside(ps, f.tree)
  }

  /** A new line of a walk shows a newly marked process. */
  lemma {:induction false} NewLines(ps: seq<Proc>, f: Forest, r: Forest, k: nat)
    requires Once(ps, f) && Once(ps, r) && f.tree <= r.tree && |f.tree| <= k < |r.tree|
    ensures Fresh(ps, f, r, r.tree[k].idx)
  {
    forall l | 0 <= l < |f.tree| ensures f.tree[l].idx != r.tree[k].idx {
      assert r.tree[l] == f.tree[l];
    }
  }

  lemma {:induction false} PlantMarks(ps: seq<Proc>, f: Forest, i: nat, x: nat)
    requires i < |ps| && Root(ps, i) && Planted(ps, f, i)
    ensures MarkOk(ps, Plant(ps, f, i).used, i + 1, x)
  {
    var h := Add(f, i, 0);
    var r := Plant(ps, f, i);
    ReachRoot(ps, i);
    assert MarkOk(ps, f.used, i, x);
    if Fresh(ps, h, r, x) {
      WalkClosed(ps, h, 0, ps[i].pid, 1, r, x);
      WalkReach(ps, h, 0, i, 1, x);
    } else if x == i {
      forall y: nat | Child(ps, i, y) ensures y in r.used { WalkChildren(ps, h, 0, ps[i].pid, 1, y); }
    } else if x < |ps| && x in f.used {
      ClosedGrows(ps, f.used, r.used, x);
    }
  }

  lemma {:induction false} PlantLines(ps: seq<Proc>, f: Forest, i: nat)
    requires i < |ps| && Root(ps, i) && Planted(ps, f, i)
    ensures var r := Plant(ps, f, i);
            Once(ps, r) && Indented(ps, r.tree) && RootsOutside(ps, r.tree)
  {
    var h := Add(f, i, 0);
    var r := Plant(ps, f, i);
    assert MarkOk(ps, f.used, i, i);
    AddOnce(ps, f, i, 0);
    WalkOnce(ps, h, 0, ps[i].pid, 1);
    AddIndented(ps, f.tree, Item(i, 0), 0);
    WalkIndented(ps, h, 0, ps[i].pid, 1, |f.tree|);
    ReachRoot(ps, i);
    forall k | 0 <= k < |r.tree| ensures r.tree[k].depth == 0 <==> Root(ps, r.tree[k].idx) {
      if k >= |h.tree| {
        NewLines(ps, h, r, k);
        WalkReach(ps, h, 0, i, 1, r.tree[k].idx);
      } else {
        assert r.tree[k] == h.tree[k];
      }
    }
  }

  lemma {:induction false} PlantRoot(ps: seq<Proc>, f: Forest, i: nat)
    requires i < |ps| && Root(ps, i) && Planted(ps, f, i)
    ensures Planted(ps, Plant(ps, f, i), i + 1)
  {
    var r, j := Plant(ps, f, i), i + 1;
    forall x ensures MarkOk(ps, r.used, j, x) { PlantMarks(ps, f, i, x); }
    PlantLines(ps, f, i);
  }

  lemma {:induction false} PlantNone(ps: seq<Proc>, f: Forest, i: nat)
    requires i < |ps| && !Root(ps, i) && Planted(ps, f, i)
    ensures Planted(ps, f, i + 1)
  {
    var j := i + 1;
    forall x ensures MarkOk(ps, f.used, j, x) { assert MarkOk(ps, f.used, i, x); }
  }

  lemma {:induction false} PlantPlanted(ps: seq<Proc>, f: Forest, i: nat)
    requires i < |ps| && Planted(ps, f, i)
    ensures Planted(ps, Plant(ps, f, i), i + 1)
  {
    if Root(ps, i) { PlantRoot(ps, f, i); } else { PlantNone(ps, f, i); }
  }

  lemma {:induction false} RootsPlanted(ps: seq<Proc>, f: Forest, i: nat)
    requires i <= |ps| && Planted(ps, f, i)
    ensures Planted(ps, Roots(ps, f, i), |ps|)
    decreases |ps| - i
  {
    if i == |ps| {
      assert Roots(ps, f, i) == f;
    } else {
      PlantPlanted(ps, f, i);
      RootsPlanted(ps, Plant(ps, f, i), i + 1);
      assert Roots(ps, f, i) == Roots(ps, Plant(ps, f, i), i + 1);
    }
  }

  /** The first pass marks exactly the processes that can be reached from a root. */
  lemma {:induction false} MarkedExactly(ps: seq<Proc>, x: nat)
    requires x < |ps|
    ensures x in Roots(ps, Forest({}, []), 0).used <==> Reach(ps, x)
  {
    RootsPlanted(ps, Forest({}, []), 0);
    var used := Roots(ps, Forest({}, []), 0).used;
    forall y: nat | y < |ps| && y in used ensures Closed(ps, used, y) && Reach(ps, y) {
      assert MarkOk(ps, used, |ps|, y);
    }
    if Reach(ps, x) {
      var path :| Line(ps, path) && path[|path| - 1] == x;
      ReachMarked(ps, used, path);
    }
  }

  lemma {:induction false} LeftAll(ps: seq<Proc>, used: set<nat>, i: nat, x: nat)
    requires i <= x < |ps| && x !in used
    ensures Listed(Left(ps, used, i), x)
    decreases |ps| - i
  {
    var r, rest := Left(ps, used, i), Left(ps, used, i + 1);
    if x == i {
      assert r[0].idx == x;
    } else {
      LeftAll(ps, used, i + 1, x);
      var k :| 0 <= k < |rest| && rest[k].idx == x;
      assert i in used || r[k + 1].idx == x;
    }
  }

  lemma {:induction false} LeftDistinct(ps: seq<Proc>, used: set<nat>, i: nat)
    requires i <= |ps|
    ensures Distinct(Left(ps, used, i))
    decreases |ps| - i
  {
    if i < |ps| { LeftDistinct(ps, used, i + 1); }
  }

  /** The finished list names every process exactly once. */
  ghost predicate ListsAll(ps: seq<Proc>, tree: seq<Item>) {
    && (forall k :: 0 <= k < |tree| ==> tree[k].idx < |ps|)
    && Distinct(tree)
    && (forall x: nat :: x < |ps| ==> Listed(tree, x))
  }

  lemma {:induction false} OrphansIndented(ps: seq<Proc>, tree: seq<Item>, more: seq<Item>)
    requires Indented(ps, tree) && forall k :: 0 <= k < |more| ==> more[k].idx < |ps| && more[k].depth == 0
    ensures Indented(ps, tree + more)
    decreases |more|
  {
    if more == [] {
      assert tree + more == tree;
    } else {
      AddIndented(ps, tree, more[0], 0);
      OrphansIndented(ps, tree + [more[0]], more[1..]);
      assert tree + [more[0]] + more[1..] == tree + more;
    }
  }

  lemma {:induction false} ListedIn(tree: seq<Item>, more: seq<Item>, x: nat)
    requires Listed(tree, x) || Listed(more, x)
    ensures Listed(tree + more, x)
  {
    if Listed(tree, x) {
      var k :| 0 <= k < |tree| && tree[k].idx == x;
      assert (tree + more)[k].idx == x;
    } else {
      var k :| 0 <= k < |more| && more[k].idx == x;
      assert (tree + more)[|tree| + k].idx == x;
    }
  }

  lemma {:induction false} BuildListsAll(ps: seq<Proc>)
    ensures ListsAll(ps, Build(ps))
  {
    var f := Roots(ps, Forest({}, []), 0);
    RootsPlanted(ps, Forest({}, []), 0);
    LeftDistinct(ps, f.used, 0);
    forall x: nat | x < |ps| ensures Listed(Build(ps), x) {
      if x !in f.used { LeftAll(ps, f.used, 0, x); }
      ListedIn(f.tree, Left(ps, f.used, 0), x);
    }
  }

  /**
   For every parent relation, cycles and duplicate numbers included: each
   process is listed once, each indented entry stands below its parent, and the
   entries at depth 0 are the roots and the processes no root leads to.
   */
  lemma {:induction false} ForestExact(ps: seq<Proc>)
    ensures var tree := Build(ps);
            && ListsAll(ps, tree) && Indented(ps, tree)
            && (forall k :: 0 <= k < |tree| ==>
                  (tree[k].depth == 0 <==> Root(ps, tree[k].idx) || !Reach(ps, tree[k].idx)))
  {
    var f := Roots(ps, Forest({}, []), 0);
    var rest, tree := Left(ps, f.used, 0), Build(ps);
    RootsPlanted(ps, Forest({}, []), 0);
    BuildListsAll(ps);
    OrphansIndented(ps, f.tree, rest);
    forall k | 0 <= k < |tree|
      ensures tree[k].depth == 0 <==> Root(ps, tree[k].idx) || !Reach(ps, tree[k].idx)
    {
      MarkedExactly(ps, tree[k].idx);
    }
  }

  // ----- in which order -----

  /** Entries `k` and `l` have the same parent entry. */
  predicate Siblings(tree: seq<Item>, k: nat, l: nat) {
    && k < l < |tree| && tree[k].depth == tree[l].depth > 0
    && forall m :: k < m < l ==> tree[m].depth >= tree[l].depth
  }

  ghost predicate SiblingsInOrder(tree: seq<Item>) {
    forall k: nat, l: nat :: Siblings(tree, k, l) ==> tree[k].idx < tree[l].idx
  }

  /** All entries behind `m` are deeper than it, and those one step deeper name processes below `i`. */
  predicate LevelBelow(tree: seq<Item>, m: nat, depth: nat, i: nat) {
    && m < |tree| && tree[m].depth + 1 == depth
    && forall k :: m < k < |tree| ==> tree[k].depth >= depth && (tree[k].depth == depth ==> tree[k].idx < i)
  }

  lemma {:induction false} AddInOrder(tree: seq<Item>, m: nat, depth: nat, i: nat)
    requires SiblingsInOrder(tree) && LevelBelow(tree, m, depth, i)
    ensures SiblingsInOrder(tree + [Item(i, depth)]) && LevelBelow(tree + [Item(i, depth)], m, depth, i + 1)
  {
    var more := tree + [Item(i, depth)];
    forall k: nat, l: nat | Siblings(more, k, l) ensures more[k].idx < more[l].idx {
      if l < |tree| {
        assert forall m :: 0 <= m < |tree| ==> more[m] == tree[m];
        assert Siblings(tree, k, l);
      } else {
        assert more[m].depth < depth;
        assert k > m;
      }
    }
  }

  /** A walk lists the children of one parent by increasing index. */
  lemma {:induction false} WalkInOrder(ps: seq<Proc>, f: Forest, i: nat, pid: int, depth: nat, m: nat)
    requires i <= |ps| && depth > 0 && SiblingsInOrder(f.tree) && LevelBelow(f.tree, m, depth, i)
    ensures var r := Walk(ps, f, i, pid, depth);
            SiblingsInOrder(r.tree) && LevelBelow(r.tree, m, depth, |ps|)
    decreases Unused(ps, f), |ps| - i
  {
    if i == |ps| {
    } else if i in f.used || ps[i].ppid != pid {
      WalkInOrder(ps, f, i + 1, pid, depth, m);
    } else {
      var h := Add(f, i, depth);
      assert i in Unused(ps, f) && i !in Unused(ps, h);
      AddInOrder(f.tree, m, depth, i);
      var g := Walk(ps, h, 0, ps[i].pid, depth + 1);
      WalkInOrder(ps, h, 0, ps[i].pid, depth + 1, |f.tree|);
      LevelKept(h.tree, g.tree, m, depth, i + 1, |f.tree|);
      WalkInOrder(ps, g, i + 1, pid, depth, m);
    }
  }

  /** What a deeper walk adds does not disturb the level above it. */
  lemma {:induction false} LevelKept(tree: seq<Item>, more: seq<Item>, m: nat, depth: nat, i: nat, at: nat)
    requires tree <= more && LevelBelow(tree, m, depth, i) && at + 1 == |tree|
    requires forall k :: at < k < |more| ==> more[k].depth >= depth + 1
    ensures LevelBelow(more, m, depth, i)
  {
    assert forall k :: 0 <= k < |tree| ==> more[k] == tree[k];
  }

  lemma {:induction false} OutsideInOrder(tree: seq<Item>, i: nat)
    requires SiblingsInOrder(tree)
    ensures SiblingsInOrder(tree + [Item(i, 0)])
  {
    var more := tree + [Item(i, 0)];
    forall k: nat, l: nat | Siblings(more, k, l) ensures more[k].idx < more[l].idx {
      assert forall m :: 0 <= m < |tree| ==> more[m] == tree[m];
      assert Siblings(tree, k, l);
    }
  }

  lemma {:induction false} RootsInOrder(ps: seq<Proc>, f: Forest, i: nat)
    requires i <= |ps| && SiblingsInOrder(f.tree)
    ensures SiblingsInOrder(Roots(ps, f, i).tree)
    decreases |ps| - i
  {
    if i < |ps| {
      if Root(ps, i) {
        OutsideInOrder(f.tree, i);
        WalkInOrder(ps, Add(f, i, 0), 0, ps[i].pid, 1, |f.tree|);
      }
      RootsInOrder(ps, Plant(ps, f, i), i + 1);
    }
  }

  lemma {:induction false} OrphansInOrder(tree: seq<Item>, more: seq<Item>)
    requires SiblingsInOrder(tree) && forall k :: 0 <= k < |more| ==> more[k].depth == 0
    ensures SiblingsInOrder(tree + more)
    decreases |more|
  {
    if more == [] {
      assert tree + more == tree;
    } else {
      OutsideInOrder(tree, more[0].idx);
      assert more[0] == Item(more[0].idx, 0);
      OrphansInOrder(tree + [more[0]], more[1..]);
      assert tree + [more[0]] + more[1..] == tree + more;
    }
  }

  /** Processes with the same parent entry are listed by increasing index. */
  lemma {:induction false} ForestInOrder(ps: seq<Proc>)
    ensures SiblingsInOrder(Build(ps))
  {
    var f := Roots(ps, Forest({}, []), 0);
    RootsInOrder(ps, Forest({}, []), 0);
    OrphansInOrder(f.tree, Left(ps, f.used, 0));
  }

  // ----- room -----

  function Below(n: nat): set<nat> { if n == 0 then {} else Below(n - 1) + {n - 1} }

  lemma {:induction false} BelowHas(n: nat, x: nat)
    ensures x in Below(n) <==> x < n
  {
    if n > 0 { BelowHas(n - 1, x); }
  }

  lemma {:induction false} BelowSize(n: nat)
    ensures |Below(n)| == n
  {
    if n > 0 {
      BelowSize(n - 1);
      BelowHas(n - 1, n - 1);
    }
  }

  lemma {:induction false} DistinctSize(tree: seq<Item>, used: set<nat>)
    requires Distinct(tree) && forall k :: 0 <= k < |tree| ==> tree[k].idx in used
    ensures |tree| <= |used|
  {
    if tree != [] {
      var last := tree[|tree| - 1].idx;
      DistinctSize(tree[..|tree| - 1], used - {last});
    }
  }

  /** Distinct lines never outnumber the processes. */
  lemma {:induction false} DistinctFit(tree: seq<Item>, n: nat)
    requires Distinct(tree) && forall k :: 0 <= k < |tree| ==> tree[k].idx < n
    ensures |tree| <= n
  {
    BelowSize(n);
    forall k | 0 <= k < |tree| ensures tree[k].idx in Below(n) { BelowHas(n, tree[k].idx); }
    DistinctSize(tree, Below(n));
  }
}
