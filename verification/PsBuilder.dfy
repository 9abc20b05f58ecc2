/**
 The forest builder of user/ps.c with its mark array and its fixed table of
 lines, proved against the forest functions; the table never overflows.
 */
module PsBuilder {
  import opened PsForest

  class Builder {
    const procs: seq<Proc>
    const used: array<bool>
    const tree: array<Item>
    var treeN: nat

    ghost predicate Valid()
      reads this
    {
      && |procs| <= MAX_PROCS && used.Length == |procs| && tree.Length == MAX_PROCS && treeN <= MAX_PROCS
    }

    ghost function State(): Forest
      requires Valid()
      reads this, used, tree
    {
      Forest((set i: nat | i < |procs| && used[i]), tree[..treeN])
    }

    constructor (ps: seq<Proc>)
      requires |ps| <= MAX_PROCS
      ensures Valid() && procs == ps && State() == Forest({}, []) && fresh(used) && fresh(tree)
    {
      procs := ps;
      used := new bool[|ps|](_ => false);
      tree := new Item[MAX_PROCS](_ => Item(0, 0));
      treeN := 0;
    }

    method Mark(i: nat, depth: nat)
      requires Valid() && i < |procs| && Once(procs, State()) && i !in State().used
      modifies this, used, tree
      ensures Valid() && State() == Add(old(State()), i, depth) && Once(procs, State())
    {
      AddOnce(procs, State(), i, depth);
      DistinctFit(Add(State(), i, depth).tree, |procs|);
      used[i] := true;
      tree[treeN] := Item(i, depth);
      treeN := treeN + 1;
      assert State().tree == old(State().tree) + [Item(i, depth)];
    }

    method TreeWalk(parentPid: int, depth: nat)
      requires Valid() && Once(procs, State())
      modifies this, used, tree
      ensures Valid() && State() == Walk(procs, old(State()), 0, parentPid, depth) && Once(procs, State())
      decreases Unused(procs, State())
    {
      var i := 0;
      while i < |procs|
        invariant 0 <= i <= |procs| && Valid() && Once(procs, State())
        invariant old(State()).used <= State().used
        invariant Walk(procs, State(), i, parentPid, depth) == Walk(procs, old(State()), 0, parentPid, depth)
      {
        if !used[i] && procs[i].ppid == parentPid {
          assert i in Unused(procs, old(State()));
          Mark(i, depth);
          assert i !in Unused(procs, State());
          TreeWalk(procs[i].pid, depth + 1);
        }
        i := i + 1;
      }
    }

    method IsRoot(i: nat) returns (root: bool)
      requires i < |procs|
      ensures root == Root(procs, i)
    {
      var j := 0;
      while j < |procs|
        invariant 0 <= j <= |procs|
        invariant forall l :: 0 <= l < j && l != i ==> procs[l].pid != procs[i].ppid
      {
        if j != i && procs[j].pid == procs[i].ppid { return false; }
        j := j + 1;
      }
      root := true;
    }

    method PlantOne(i: nat)
      requires Valid() && i < |procs| && Planted(procs, State(), i)
      modifies this, used, tree
      ensures Valid() && State() == Plant(procs, old(State()), i)
    {
      var root := IsRoot(i);
      if root {
        assert MarkOk(procs, State().used, i, i);
        Mark(i, 0);
        TreeWalk(procs[i].pid, 1);
      }
    }

    method PlantRoots()
      requires Valid() && State() == Forest({}, [])
      modifies this, used, tree
      ensures Valid() && State() == Roots(procs, Forest({}, []), 0)
    {
      var i := 0;
      while i < |procs|
        invariant 0 <= i <= |procs| && Valid() && Planted(procs, State(), i)
        invariant Roots(procs, State(), i) == Roots(procs, Forest({}, []), 0)
      {
        PlantPlanted(procs, State(), i);
        PlantOne(i);
        i := i + 1;
      }
    }

    /** What the second pass has listed and what it still will is the whole list. */
    ghost predicate Placed(i: nat, marked: set<nat>)
      reads this, used, tree
    {
      && i <= |procs| && Valid() && |Build(procs)| <= MAX_PROCS && State().used == marked
      && tree[..treeN] + Left(procs, marked, i) == Build(procs)
    }

    lemma {:induction false} PlacedRoom(i: nat, marked: set<nat>)
      requires Placed(i, marked) && i < |procs| && i !in marked
      ensures treeN < MAX_PROCS
      ensures tree[..treeN] + [Item(i, 0)] + Left(procs, marked, i + 1) == Build(procs)
    {
      var rest := Left(procs, marked, i + 1);
      assert Left(procs, marked, i) == [Item(i, 0)] + rest;
      assert tree[..treeN] + ([Item(i, 0)] + rest) == tree[..treeN] + [Item(i, 0)] + rest;
    }

    method Append(i: nat)
      requires Valid() && treeN < MAX_PROCS
      modifies this, tree
      ensures Valid() && tree[..treeN] == old(tree[..treeN]) + [Item(i, 0)]
    {
      tree[treeN] := Item(i, 0);
      treeN := treeN + 1;
    }

    /** A process the first pass did not reach goes to the end of the list. */
    method Place(i: nat, ghost marked: set<nat>)
      requires i < |procs| && Placed(i, marked)
      modifies this, tree
      ensures Placed(i + 1, marked)
    {
      if !used[i] {
        assert i !in marked;
        PlacedRoom(i, marked);
        Append(i);
      } else {
        assert i in marked;
      }
    }

    method BuildForest()
      requires Valid() && State() == Forest({}, [])
      modifies this, used, tree
      ensures Valid() && tree[..treeN] == Build(procs)
    {
      PlantRoots();
      BuildListsAll(procs);
      DistinctFit(Build(procs), |procs|);
      ghost var marked := State().used;
      var i := 0;
      while i < |procs|
        invariant 0 <= i <= |procs| && Placed(i, marked)
      {
        Place(i, marked);
        i := i + 1;
      }
    }
  }
}
