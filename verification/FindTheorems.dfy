/** What the walk of user/find.c evaluates, in which order, and what `-quit` cuts off. */
module FindTheorems {
  import opened Bytes
  import opened FindParse
  import opened FindWalk

  // ----- all places of a tree -----

  /** A file, where it is, and its ancestors with their depths, outermost first. */
  datatype Place = Place(path: string, depth: nat, file: File, above: seq<(string, nat)>)

  predicate Enters(f: File) { f.statOk && f.isDir && f.canOpen }

  /** All places in pre-order. */
  function Pre(f: File, path: string, depth: nat, above: seq<(string, nat)>): seq<Place>
    decreases f, 1, 0
  {
    [Place(path, depth, f, above)] + (if Enters(f) then PreKids(f, 0, path, depth, above + [(path, depth)]) else [])
  }

  function PreKids(f: File, i: nat, path: string, depth: nat, above: seq<(string, nat)>): seq<Place>
    requires i <= |f.kids|
    decreases f, 0, |f.kids| - i
  {
    if i == |f.kids| then []
    else Pre(f.kids[i], Join(path, f.kids[i].name), depth + 1, above) + PreKids(f, i + 1, path, depth, above)
  }

  /** All places in post-order. */
  function Post(f: File, path: string, depth: nat, above: seq<(string, nat)>): seq<Place>
    decreases f, 1, 0
  {
    (if Enters(f) then PostKids(f, 0, path, depth, above + [(path, depth)]) else []) + [Place(path, depth, f, above)]
  }

  function PostKids(f: File, i: nat, path: string, depth: nat, above: seq<(string, nat)>): seq<Place>
    requires i <= |f.kids|
    decreases f, 0, |f.kids| - i
  {
    if i == |f.kids| then []
    else Post(f.kids[i], Join(path, f.kids[i].name), depth + 1, above) + PostKids(f, i + 1, path, depth, above)
  }

  // ----- what each place contributes -----

  predicate WithinMax(c: Config, depth: nat) { c.maxDepth < 0 || depth <= c.maxDepth }

  /** The expression is evaluated there and asks not to descend. */
  predicate Prunes(c: Config, at: (string, nat)) { at.1 >= c.minDepth && Visit(c, at.0).prune }

  predicate NonePrunes(c: Config, above: seq<(string, nat)>) {
    forall i :: 0 <= i < |above| ==> !Prunes(c, above[i])
  }

  function OpenFailure(c: Config, p: Place): seq<Event> {
    if p.file.isDir && !p.file.canOpen && WithinMax(c, p.depth + 1) then [Failure(p.path)] else []
  }

  function Outcome(c: Config, p: Place): seq<Event> { SelfOut(c, p.path, p.depth) }

  function EmitPre(c: Config, p: Place): seq<Event> {
    if !WithinMax(c, p.depth) || !NonePrunes(c, p.above) then []
    else if !p.file.statOk then [Failure(p.path)]
    else Outcome(c, p) + (if Prunes(c, (p.path, p.depth)) then [] else OpenFailure(c, p))
  }

  function EmitPost(c: Config, p: Place): seq<Event> {
    if !WithinMax(c, p.depth) then []
    else if !p.file.statOk then [Failure(p.path)]
    else OpenFailure(c, p) + Outcome(c, p)
  }

  function EmitAll(c: Config, ps: seq<Place>, emit: (Config, Place) -> seq<Event>): seq<Event> {
    if ps == [] then [] else emit(c, ps[0]) + EmitAll(c, ps[1..], emit)
  }

  lemma {:induction false} EmitAppend(c: Config, a: seq<Place>, b: seq<Place>, emit: (Config, Place) -> seq<Event>)
    ensures EmitAll(c, a + b, emit) == EmitAll(c, a, emit) + EmitAll(c, b, emit)
  {
    if a == [] {
      assert a + b == b;
    } else {
      assert (a + b)[0] == a[0] && (a + b)[1..] == a[1..] + b;
      EmitAppend(c, a[1..], b, emit);
    }
  }

  lemma {:induction false} EmitOne(c: Config, p: Place, emit: (Config, Place) -> seq<Event>)
    ensures EmitAll(c, [p], emit) == emit(c, p)
  {
    assert [p][1..] == [];
  }

  ghost predicate NeverQuits(c: Config) { forall path :: !Visit(c, path).quit }

  // ----- pre-order -----

  /** Below a pruned ancestor or beyond the depth limit nothing happens. */
  lemma {:induction false} BlockedPre(c: Config, f: File, path: string, depth: nat, above: seq<(string, nat)>)
    requires !WithinMax(c, depth) || !NonePrunes(c, above)
    ensures EmitAll(c, Pre(f, path, depth, above), EmitPre) == []
    decreases f, 1, 0
  {
    var p := Place(path, depth, f, above);
    EmitOne(c, p, EmitPre);
    if Enters(f) {
      var above' := above + [(path, depth)];
      if !NonePrunes(c, above) {
        var i :| 0 <= i < |above| && Prunes(c, above[i]);
        assert above'[i] == above[i];
      }
      BlockedKids(c, f, 0, path, depth, above');
      EmitAppend(c, [p], PreKids(f, 0, path, depth, above'), EmitPre);
    } else {
      assert Pre(f, path, depth, above) == [p];
    }
  }

  lemma {:induction false} BlockedKids(c: Config, f: File, i: nat, path: string, depth: nat, above: seq<(string, nat)>)
    requires i <= |f.kids| && (!WithinMax(c, depth + 1) || !NonePrunes(c, above))
    ensures EmitAll(c, PreKids(f, i, path, depth, above), EmitPre) == []
    decreases f, 0, |f.kids| - i
  {
    if i < |f.kids| {
      var kid := f.kids[i];
      BlockedPre(c, kid, Join(path, kid.name), depth + 1, above);
      BlockedKids(c, f, i + 1, path, depth, above);
      EmitAppend(c, Pre(kid, Join(path, kid.name), depth + 1, above), PreKids(f, i + 1, path, depth, above), EmitPre);
    }
  }

  /**
   Without `-quit`, the walk evaluates exactly the places within the depth
   limits and below no pruned directory, in pre-order.
   */
  lemma {:induction false} WalkPre(c: Config, f: File, path: string, depth: nat, above: seq<(string, nat)>, w: World)
    requires !c.depthFirst && NeverQuits(c) && NonePrunes(c, above) && !w.quit
    ensures Walk(f, path, depth, c, w) == World(false, w.out + EmitAll(c, Pre(f, path, depth, above), EmitPre))
    decreases f, 1, 0
  {
    var p := Place(path, depth, f, above);
    EmitOne(c, p, EmitPre);
    if !WithinMax(c, depth) {
      BlockedPre(c, f, path, depth, above);
    } else if Enters(f) {
      var above' := above + [(path, depth)];
      var w1 := World(false, w.out + EmitPre(c, p));
      EmitAppend(c, [p], PreKids(f, 0, path, depth, above'), EmitPre);
      HeadPre(c, f, path, depth, above, w);
      if Prunes(c, (path, depth)) || !WithinMax(c, depth + 1) {
        assert above'[|above|] == (path, depth);
        BlockedKids(c, f, 0, path, depth, above');
      } else {
        WalkKidsPre(c, f, 0, path, depth, above', w1);
      }
    } else {
      assert Pre(f, path, depth, above) == [p];
      HeadPre(c, f, path, depth, above, w);
    }
  }

  /** The file itself, and then its children unless they are cut off. */
  lemma {:induction false} HeadPre(c: Config, f: File, path: string, depth: nat, above: seq<(string, nat)>, w: World)
    requires !c.depthFirst && NeverQuits(c) && NonePrunes(c, above) && !w.quit && WithinMax(c, depth)
    ensures Walk(f, path, depth, c, w)
         == Onward(c, f, path, depth, World(false, w.out + EmitPre(c, Place(path, depth, f, above))))
  {
    var p := Place(path, depth, f, above);
    var o := Outcome(c, p);
    var w1 := if depth >= c.minDepth then Apply(w, Visit(c, path)) else w;
    assert w1 == World(false, w.out + o);
    assert w.out + (o + OpenFailure(c, p)) == w1.out + OpenFailure(c, p);
    assert w.out + (o + []) == w1.out && w1.out + [] == w1.out;
  }

  function Onward(c: Config, f: File, path: string, depth: nat, w: World): World {
    if Enters(f) && !Prunes(c, (path, depth)) && WithinMax(c, depth + 1) then WalkKids(f, 0, path, depth, c, w) else w
  }

  lemma {:induction false} EmitBehind(
    c: Config, a: seq<Place>, b: seq<Place>, w: World, w1: World, emit: (Config, Place) -> seq<Event>)
    requires w1 == World(false, w.out + EmitAll(c, a, emit))
    ensures World(false, w1.out + EmitAll(c, b, emit)) == World(false, w.out + EmitAll(c, a + b, emit))
  {
    EmitAppend(c, a, b, emit);
  }

  lemma {:induction false} WalkKidsPre(
    c: Config, f: File, i: nat, path: string, depth: nat, above: seq<(string, nat)>, w: World)
    requires !c.depthFirst && NeverQuits(c) && NonePrunes(c, above) && !w.quit && i <= |f.kids|
    ensures WalkKids(f, i, path, depth, c, w)
         == World(false, w.out + EmitAll(c, PreKids(f, i, path, depth, above), EmitPre))
    decreases f, 0, |f.kids| - i
  {
    if i < |f.kids| {
      var kid := f.kids[i];
      var p := Join(path, kid.name);
      var a, b := Pre(kid, p, depth + 1, above), PreKids(f, i + 1, path, depth, above);
      var w1 := Walk(kid, p, depth + 1, c, w);
      WalkPre(c, kid, p, depth + 1, above, w);
      WalkKidsPre(c, f, i + 1, path, depth, above, w1);
      EmitBehind(c, a, b, w, w1, EmitPre);
    }
  }

  // ----- post-order -----

  lemma {:induction false} DeepPost(c: Config, f: File, path: string, depth: nat, above: seq<(string, nat)>)
    requires !WithinMax(c, depth)
    ensures EmitAll(c, Post(f, path, depth, above), EmitPost) == []
    decreases f, 1, 0
  {
    var p := Place(path, depth, f, above);
    EmitOne(c, p, EmitPost);
    if Enters(f) {
      var above' := above + [(path, depth)];
      DeepKids(c, f, 0, path, depth, above');
      EmitAppend(c, PostKids(f, 0, path, depth, above'), [p], EmitPost);
    } else {
      assert Post(f, path, depth, above) == [p];
    }
  }

  lemma {:induction false} DeepKids(c: Config, f: File, i: nat, path: string, depth: nat, above: seq<(string, nat)>)
    requires i <= |f.kids| && !WithinMax(c, depth + 1)
    ensures EmitAll(c, PostKids(f, i, path, depth, above), EmitPost) == []
    decreases f, 0, |f.kids| - i
  {
    if i < |f.kids| {
      var kid := f.kids[i];
      DeepPost(c, kid, Join(path, kid.name), depth + 1, above);
      DeepKids(c, f, i + 1, path, depth, above);
      EmitAppend(c, Post(kid, Join(path, kid.name), depth + 1, above), PostKids(f, i + 1, path, depth, above),
                 EmitPost);
    }
  }

  /** The place is evaluated and the expression asks to quit. */
  predicate Fires(c: Config, p: Place) {
    WithinMax(c, p.depth) && p.file.statOk && p.depth >= c.minDepth && Visit(c, p.path).quit
  }

  /** The position of the first place that fires, or the number of places. */
  function FirstFire(c: Config, ps: seq<Place>): (q: nat)
    ensures q <= |ps|
  {
    if ps == [] || Fires(c, ps[0]) then 0 else 1 + FirstFire(c, ps[1..])
  }

  /** Nothing in front of it fires, and it does. */
  lemma {:induction false} FirstFireExact(c: Config, ps: seq<Place>, q: nat)
    requires q <= |ps|
    ensures q == FirstFire(c, ps)
       <==> (forall i :: 0 <= i < q ==> !Fires(c, ps[i])) && (q < |ps| ==> Fires(c, ps[q]))
  {
    if ps != [] {
      if q > 0 {
        FirstFireExact(c, ps[1..], q - 1);
        assert forall i :: 1 <= i < |ps| ==> ps[i] == ps[1..][i - 1];
        assert forall i :: 0 <= i < |ps| - 1 ==> ps[1..][i] == ps[i + 1];
      }
    }
  }

  lemma {:induction false} FirstFireAppend(c: Config, a: seq<Place>, b: seq<Place>)
    ensures FirstFire(c, a + b) == if FirstFire(c, a) < |a| then FirstFire(c, a) else |a| + FirstFire(c, b)
  {
    if a == [] {
      assert a + b == b;
    } else {
      assert (a + b)[0] == a[0] && (a + b)[1..] == a[1..] + b;
      FirstFireAppend(c, a[1..], b);
    }
  }

  function SelfOut(c: Config, path: string, depth: nat): seq<Event> {
    if depth >= c.minDepth then Visit(c, path).out else []
  }

  /** The evaluations of the directories in `chain`, innermost first. */
  function Up(c: Config, chain: seq<(string, nat)>): seq<Event> {
    if chain == [] then []
    else Up(c, chain[1..]) + SelfOut(c, chain[0].0, chain[0].1)
  }

  /** What a run over `ps` that fires at `q`, or at the end not at all, emits; `k` ancestors are not its own. */
  function Ran(c: Config, ps: seq<Place>, q: nat, k: nat, w: World, emit: (Config, Place) -> seq<Event>): World
    requires q <= |ps|
  {
    if q == |ps| then World(false, w.out + EmitAll(c, ps, emit))
    else World(true, w.out + EmitAll(c, ps[..q + 1], emit) + Up(c, Own(ps[q].above, k)))
  }

  function Own(above: seq<(string, nat)>, k: nat): seq<(string, nat)> { if k <= |above| then above[k..] else [] }

  /** What a post-order run over `ps` does, its ancestors up to the first `k` not being its own. */
  function PostRun(c: Config, ps: seq<Place>, k: nat, w: World): World { Ran(c, ps, FirstFire(c, ps), k, w, EmitPost) }

  /** Every place under `f` has `above` as its outer ancestors. */
  ghost predicate Under(ps: seq<Place>, above: seq<(string, nat)>) {
    forall i :: 0 <= i < |ps| ==> above <= ps[i].above
  }

  lemma {:induction false} PostUnder(f: File, path: string, depth: nat, above: seq<(string, nat)>)
    ensures Under(Post(f, path, depth, above), above)
    decreases f, 1, 0
  {
    if Enters(f) { KidsUnder(f, 0, path, depth, above + [(path, depth)]); }
  }

  lemma {:induction false} KidsUnder(f: File, i: nat, path: string, depth: nat, above: seq<(string, nat)>)
    requires i <= |f.kids|
    ensures Under(PostKids(f, i, path, depth, above), above)
    decreases f, 0, |f.kids| - i
  {
    if i < |f.kids| {
      PostUnder(f.kids[i], Join(path, f.kids[i].name), depth + 1, above);
      KidsUnder(f, i + 1, path, depth, above);
    }
  }

  /** Beyond the depth limit nothing fires. */
  lemma {:induction false} DeepNoFire(c: Config, f: File, i: nat, path: string, depth: nat, above: seq<(string, nat)>)
    requires i <= |f.kids| && !WithinMax(c, depth + 1)
    ensures FirstFire(c, PostKids(f, i, path, depth, above)) == |PostKids(f, i, path, depth, above)|
    decreases f, 0, |f.kids| - i
  {
    if i < |f.kids| {
      var kid := f.kids[i];
      var p := Join(path, kid.name);
      if Enters(kid) {
        var above' := above + [(p, depth + 1)];
        DeepNoFire(c, kid, 0, p, depth + 1, above');
        FirstFireAppend(c, PostKids(kid, 0, p, depth + 1, above'), [Place(p, depth + 1, kid, above)]);
      }
      DeepNoFire(c, f, i + 1, path, depth, above);
      FirstFireAppend(c, Post(kid, p, depth + 1, above), PostKids(f, i + 1, path, depth, above));
    }
  }

  lemma {:induction false} RanFirst(
    c: Config, ab: seq<Place>, a: seq<Place>, b: seq<Place>, q: nat, k: nat, w: World,
    emit: (Config, Place) -> seq<Event>)
    requires ab == a + b && q < |a|
    ensures Ran(c, ab, q, k, w, emit) == Ran(c, a, q, k, w, emit)
  {
    assert ab[q] == a[q] && ab[..q + 1] == a[..q + 1];
  }

  lemma {:induction false} RanSecond(
    c: Config, ab: seq<Place>, a: seq<Place>, b: seq<Place>, q: nat, k: nat, w: World,
    emit: (Config, Place) -> seq<Event>)
    requires ab == a + b && q <= |b|
    ensures Ran(c, ab, |a| + q, k, w, emit) == Ran(c, b, q, k, Ran(c, a, |a|, k, w, emit), emit)
  {
    var n := if q < |b| then q + 1 else q;
    var pre, mid := EmitAll(c, a, emit), EmitAll(c, b[..n], emit);
    EmitPrefix(c, ab, a, b, n, emit);
    assert w.out + (pre + mid) == (w.out + pre) + mid;
    if q < |b| {
      assert ab[|a| + q] == b[q];
    } else {
      assert ab[..|a| + n] == ab && b[..n] == b;
    }
  }

  /** Two stretches of a run, the second made only if the first did not fire. */
  lemma {:induction false} PostRunAppend(c: Config, ab: seq<Place>, a: seq<Place>, b: seq<Place>, k: nat, w: World)
    requires ab == a + b
    ensures FirstFire(c, a) < |a| ==> PostRun(c, ab, k, w) == PostRun(c, a, k, w)
    ensures FirstFire(c, a) == |a| ==> PostRun(c, ab, k, w) == PostRun(c, b, k, PostRun(c, a, k, w))
  {
    FirstFireAppend(c, a, b);
    if FirstFire(c, a) < |a| {
      RanFirst(c, ab, a, b, FirstFire(c, a), k, w, EmitPost);
    } else {
      RanSecond(c, ab, a, b, FirstFire(c, b), k, w, EmitPost);
    }
  }

  lemma {:induction false} EmitPrefix(
    c: Config, ab: seq<Place>, a: seq<Place>, b: seq<Place>, n: nat, emit: (Config, Place) -> seq<Event>)
    requires ab == a + b && n <= |b|
    ensures EmitAll(c, ab[..|a| + n], emit) == EmitAll(c, a, emit) + EmitAll(c, b[..n], emit)
  {
    assert ab[..|a| + n] == a + b[..n];
    EmitAppend(c, a, b[..n], emit);
  }

  lemma {:induction false} PostRunOne(c: Config, ps: seq<Place>, p: Place, w: World)
    requires ps == [p]
    ensures PostRun(c, ps, |p.above|, w) == World(Fires(c, p), w.out + EmitPost(c, p))
  {
    EmitOne(c, p, EmitPost);
    assert ps[..1] == ps && ps[1..] == [] && p.above[|p.above|..] == [];
  }

  /**
   With `-depth`, every place within the depth limits is evaluated in
   post-order, `-prune` or not, up to the first one where `-quit` fires; after
   that one its ancestors are still evaluated, from the inside out.
   */
  lemma {:induction false} WalkPost(c: Config, f: File, path: string, depth: nat, above: seq<(string, nat)>, w: World)
    requires c.depthFirst && !w.quit
    ensures Walk(f, path, depth, c, w) == PostRun(c, Post(f, path, depth, above), |above|, w)
    decreases f, 1, 0
  {
    var p := Place(path, depth, f, above);
    if Enters(f) {
      var above' := above + [(path, depth)];
      var kids := PostKids(f, 0, path, depth, above');
      KidsUnder(f, 0, path, depth, above');
      if WithinMax(c, depth + 1) {
        WalkKidsPost(c, f, 0, path, depth, above', w);
      } else {
        DeepKids(c, f, 0, path, depth, above');
        DeepNoFire(c, f, 0, path, depth, above');
        assert PostRun(c, kids, |above'|, w) == w;
      }
      DirPost(c, f, path, depth, above, w, kids);
    } else {
      LeafPost(c, f, path, depth, above, w);
    }
  }

  lemma {:induction false} LeafPost(c: Config, f: File, path: string, depth: nat, above: seq<(string, nat)>, w: World)
    requires c.depthFirst && !w.quit && !Enters(f)
    ensures Walk(f, path, depth, c, w) == PostRun(c, Post(f, path, depth, above), |above|, w)
  {
    PostRunOne(c, Post(f, path, depth, above), Place(path, depth, f, above), w);
    LeafWalk(c, f, path, depth, above, w);
  }

  lemma {:induction false} LeafWalk(c: Config, f: File, path: string, depth: nat, above: seq<(string, nat)>, w: World)
    requires c.depthFirst && !w.quit && !Enters(f)
    ensures var p := Place(path, depth, f, above);
            Walk(f, path, depth, c, w) == World(Fires(c, p), w.out + EmitPost(c, p))
  {
    var p := Place(path, depth, f, above);
    assert w.out + (OpenFailure(c, p) + Outcome(c, p)) == w.out + OpenFailure(c, p) + Outcome(c, p);
  }

  lemma {:induction false} DirPost(
    c: Config, f: File, path: string, depth: nat, above: seq<(string, nat)>, w: World, kids: seq<Place>)
    requires c.depthFirst && !w.quit && Enters(f)
    requires var above' := above + [(path, depth)];
             && kids == PostKids(f, 0, path, depth, above') && Under(kids, above')
             && PostRun(c, kids, |above'|, w) == Into(c, f, path, depth, w)
    ensures Walk(f, path, depth, c, w) == PostRun(c, Post(f, path, depth, above), |above|, w)
  {
    var p, w1 := Place(path, depth, f, above), Into(c, f, path, depth, w);
    PostRunDir(c, p, kids, Post(f, path, depth, above), above, w, w1);
    SelfPost(c, f, path, depth, w);
    SelfLast(c, p, w, w1, FirstFire(c, kids) < |kids|, PostRun(c, Post(f, path, depth, above), |above|, w));
  }

  /** What the directory itself adds to the world `w1` that its contents left. */
  lemma {:induction false} SelfLast(c: Config, p: Place, w: World, w1: World, fired: bool, r: World)
    requires Enters(p.file) && !w.quit && w1.quit == fired && (!WithinMax(c, p.depth) ==> w1 == w)
    requires r == if fired then World(true, w1.out + SelfOut(c, p.path, p.depth))
                  else World(Fires(c, p), w1.out + EmitPost(c, p))
    ensures r == if WithinMax(c, p.depth)
                 then World(w1.quit || (p.depth >= c.minDepth && Visit(c, p.path).quit),
                            w1.out + SelfOut(c, p.path, p.depth))
                 else w
  {
    assert OpenFailure(c, p) == [] && [] + Outcome(c, p) == Outcome(c, p);
  }

  /** The directory `p` is evaluated behind everything below it, which left the world `w1`. */
  lemma {:induction false} PostRunDir(
    c: Config, p: Place, kids: seq<Place>, all: seq<Place>, above: seq<(string, nat)>, w: World, w1: World)
    requires all == kids + [p] && p.above == above && Under(kids, above + [(p.path, p.depth)])
    requires PostRun(c, kids, |above| + 1, w) == w1
    ensures PostRun(c, all, |above|, w)
         == if FirstFire(c, kids) < |kids| then World(true, w1.out + SelfOut(c, p.path, p.depth))
            else World(Fires(c, p), w1.out + EmitPost(c, p))
  {
    PostRunAppend(c, all, kids, [p], |above|, w);
    if FirstFire(c, kids) < |kids| {
      FiredBelow(c, kids, above, (p.path, p.depth), w);
    } else {
      PostRunOne(c, [p], p, w1);
    }
  }

  /** When a place below fired, the directory itself is one more step up. */
  lemma {:induction false} FiredBelow(
    c: Config, kids: seq<Place>, above: seq<(string, nat)>, at: (string, nat), w: World)
    requires Under(kids, above + [at]) && FirstFire(c, kids) < |kids|
    ensures PostRun(c, kids, |above|, w)
         == World(true, PostRun(c, kids, |above| + 1, w).out + SelfOut(c, at.0, at.1))
  {
    var full := kids[FirstFire(c, kids)].above;
    ChainSplit(full, above, at);
    UpOne(c, at, full[|above| + 1..]);
  }

  lemma {:induction false} ChainSplit(full: seq<(string, nat)>, above: seq<(string, nat)>, at: (string, nat))
    requires above + [at] <= full
    ensures full[|above|..] == [at] + full[|above| + 1..]
  {
    assert full[|above|] == (above + [at])[|above|];
  }

  function Into(c: Config, f: File, path: string, depth: nat, w: World): World {
    if WithinMax(c, depth + 1) then WalkKids(f, 0, path, depth, c, w) else w
  }

  lemma {:induction false} SelfPost(c: Config, f: File, path: string, depth: nat, w: World)
    requires c.depthFirst && !w.quit && Enters(f)
    ensures var w1 := Into(c, f, path, depth, w);
            Walk(f, path, depth, c, w)
            == if WithinMax(c, depth)
               then World(w1.quit || (depth >= c.minDepth && Visit(c, path).quit), w1.out + SelfOut(c, path, depth))
               else w
  {}

  lemma {:induction false} UpOne(c: Config, at: (string, nat), chain: seq<(string, nat)>)
    ensures Up(c, [at] + chain) == Up(c, chain) + SelfOut(c, at.0, at.1)
  {
    assert ([at] + chain)[1..] == chain;
  }

  lemma {:induction false} WalkKidsPost(
    c: Config, f: File, i: nat, path: string, depth: nat, above: seq<(string, nat)>, w: World)
    requires c.depthFirst && !w.quit && i <= |f.kids|
    ensures WalkKids(f, i, path, depth, c, w) == PostRun(c, PostKids(f, i, path, depth, above), |above|, w)
    decreases f, 0, |f.kids| - i
  {
    if i < |f.kids| {
      var kid := f.kids[i];
      var p := Join(path, kid.name);
      var w1 := Walk(kid, p, depth + 1, c, w);
      WalkPost(c, kid, p, depth + 1, above, w);
      PostRunAppend(c, PostKids(f, i, path, depth, above), Post(kid, p, depth + 1, above),
                    PostKids(f, i + 1, path, depth, above), |above|, w);
      if !w1.quit { WalkKidsPost(c, f, i + 1, path, depth, above, w1); }
    }
  }

  // ----- quit -----

  /** `-quit` read as `-true`. */
  function NoQuit(e: Expr): Expr {
    match e
    case Prim(l) => if l == Bare(Quit) then Prim(Bare(True)) else e
    case Not(c) => Not(NoQuit(c))
    case And(l, r) => And(NoQuit(l), NoQuit(r))
    case Or(l, r) => Or(NoQuit(l), NoQuit(r))
  }

  function Unquit(c: Config): Config {
    if c.expr.None? then c else c.(expr := Some(NoQuit(c.expr.value)))
  }

  lemma {:induction false} EvalNoQuit(e: Expr, path: string, holds: Oracle)
    ensures EvalExpr(NoQuit(e), path, holds) == EvalExpr(e, path, holds).(quit := false)
  {
    match e
    case Prim(l) =>
    case Not(c) => EvalNoQuit(c, path, holds);
    case And(l, r) =>
      EvalNoQuit(l, path, holds);
      EvalNoQuit(r, path, holds);
    case Or(l, r) =>
      EvalNoQuit(l, path, holds);
      EvalNoQuit(r, path, holds);
  }

  lemma {:induction false} VisitUnquit(c: Config, path: string)
    ensures Visit(Unquit(c), path) == Visit(c, path).(quit := false)
  {
    if c.expr.Some? { EvalNoQuit(c.expr.value, path, c.holds); }
  }

  /** `a` is the run cut off by `-quit`, `b` the run without it. */
  ghost predicate CutOff(a: World, b: World) {
    !b.quit && if a.quit then a.out <= b.out else a.out == b.out
  }

  lemma {:induction false} WalkGrows(c: Config, f: File, path: string, depth: nat, w: World)
    ensures w.out <= Walk(f, path, depth, c, w).out
    decreases f, 1, 0
  {
    if Enters(f) {
      KidsGrow(c, f, 0, path, depth, w);
      KidsGrow(c, f, 0, path, depth, Apply(w, Visit(c, path)));
    }
  }

  lemma {:induction false} KidsGrow(c: Config, f: File, i: nat, path: string, depth: nat, w: World)
    requires i <= |f.kids|
    ensures w.out <= WalkKids(f, i, path, depth, c, w).out
    decreases f, 0, |f.kids| - i
  {
    if i < |f.kids| {
      var p := Join(path, f.kids[i].name);
      WalkGrows(c, f.kids[i], p, depth + 1, w);
      KidsGrow(c, f, i + 1, path, depth, Walk(f.kids[i], p, depth + 1, c, w));
    }
  }

  /** In pre-order the trace with `-quit` is a prefix of the trace without, and the same if it never fires. */
  lemma {:induction false} QuitIsPrefix(c: Config, f: File, path: string, depth: nat, w: World)
    requires !c.depthFirst && !w.quit
    ensures CutOff(Walk(f, path, depth, c, w), Walk(f, path, depth, Unquit(c), w))
    decreases f, 1, 0
  {
    VisitUnquit(c, path);
    if WithinMax(c, depth) && f.statOk {
      var w1 := if depth >= c.minDepth then Apply(w, Visit(c, path)) else w;
      if w1.quit {
        if !Visit(c, path).prune && Enters(f) {
          KidsGrow(Unquit(c), f, 0, path, depth, w1.(quit := false));
          KidsNoQuit(c, f, 0, path, depth, w1.(quit := false));
        }
      } else if Enters(f) {
        KidsPrefix(c, f, 0, path, depth, w1);
      }
    }
  }

  lemma {:induction false} KidsPrefix(c: Config, f: File, i: nat, path: string, depth: nat, w: World)
    requires !c.depthFirst && !w.quit && i <= |f.kids|
    ensures CutOff(WalkKids(f, i, path, depth, c, w), WalkKids(f, i, path, depth, Unquit(c), w))
    decreases f, 0, |f.kids| - i
  {
    if i < |f.kids| {
      var p := Join(path, f.kids[i].name);
      QuitIsPrefix(c, f.kids[i], p, depth + 1, w);
      var a := Walk(f.kids[i], p, depth + 1, c, w);
      var b := Walk(f.kids[i], p, depth + 1, Unquit(c), w);
      if a.quit {
        KidsGrow(Unquit(c), f, i + 1, path, depth, b);
        KidsNoQuit(c, f, i + 1, path, depth, b);
      } else {
        KidsPrefix(c, f, i + 1, path, depth, a);
      }
    }
  }

  lemma {:induction false} WalkNoQuit(c: Config, f: File, path: string, depth: nat, w: World)
    requires !w.quit
    ensures !Walk(f, path, depth, Unquit(c), w).quit
    decreases f, 1, 0
  {
    VisitUnquit(c, path);
    if Enters(f) {
      KidsNoQuit(c, f, 0, path, depth, w);
      KidsNoQuit(c, f, 0, path, depth, Apply(w, Visit(Unquit(c), path)));
    }
  }

  lemma {:induction false} KidsNoQuit(c: Config, f: File, i: nat, path: string, depth: nat, w: World)
    requires !w.quit && i <= |f.kids|
    ensures !WalkKids(f, i, path, depth, Unquit(c), w).quit
    decreases f, 0, |f.kids| - i
  {
    if i < |f.kids| {
      var p := Join(path, f.kids[i].name);
      WalkNoQuit(c, f.kids[i], p, depth + 1, w);
      KidsNoQuit(c, f, i + 1, path, depth, Walk(f.kids[i], p, depth + 1, Unquit(c), w));
    }
  }

  // ----- expressions without -quit -----

  predicate QuitFree(e: Expr) {
    match e
    case Prim(l) => l != Bare(Quit)
    case Not(c) => QuitFree(c)
    case And(l, r) => QuitFree(l) && QuitFree(r)
    case Or(l, r) => QuitFree(l) && QuitFree(r)
  }

  lemma {:induction false} QuitFreeSame(e: Expr)
    ensures QuitFree(e) <==> NoQuit(e) == e
  {
    match e
    case Prim(l) =>
    case Not(c) => QuitFreeSame(c);
    case And(l, r) =>
      QuitFreeSame(l);
      QuitFreeSame(r);
    case Or(l, r) =>
      QuitFreeSame(l);
      QuitFreeSame(r);
  }

  /** An expression without `-quit`, or none at all, never asks to stop, and no walk with it does. */
  lemma {:induction false} QuitFreeNever(c: Config, f: File, path: string, depth: nat, w: World)
    requires c.expr.Some? ==> QuitFree(c.expr.value)
    ensures NeverQuits(c)
    ensures !w.quit ==> !Walk(f, path, depth, c, w).quit
  {
    if c.expr.Some? { QuitFreeSame(c.expr.value); }
    assert Unquit(c) == c;
    forall p ensures !Visit(c, p).quit { VisitUnquit(c, p); }
    if !w.quit { WalkNoQuit(c, f, path, depth, w); }
  }
}
