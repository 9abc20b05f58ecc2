/**
 The declarative meaning of a node list of user/grep.c, a vector of repetition
 counts, one per piece, and the proof that the matcher finds the greediest one.
 */
module GrepMeaning {
  import opened Bytes
  import opened GrepMatch

  // ----- declarative meaning -----

  /** One step of a branch: a node standing alone, or a node under a quantifier. */
  datatype Piece = One(n: Node) | Rep(n: Node, lo: nat, hi: nat)

  /** The branch that starts at `ni`, up to the next alternation bar. */
  function Pieces(nodes: seq<Node>, ni: nat): seq<Piece>
    requires ni <= |nodes|
    decreases |nodes| - ni
  {
    if ni == |nodes| || nodes[ni].Alt? then []
    else if ni + 1 < |nodes| && IsQuant(nodes[ni + 1]) then
      [Rep(nodes[ni], Bounds(nodes[ni + 1]).0, Bounds(nodes[ni + 1]).1)] + Pieces(nodes, ni + 2)
    else [One(nodes[ni])] + Pieces(nodes, ni + 1)
  }

  /** `k` is a legal number of bytes for piece `p` to consume at position `t`. */
  ghost predicate PieceFits(p: Piece, line: seq<Byte>, t: nat, k: nat, icase: bool)
    requires t <= |line|
  {
    && t + k <= |line|
    && (forall j :: t <= j < t + k ==> AtomMatch(p.n, line[j], icase))
    && match p
       case Rep(n, lo, hi) => lo <= k <= hi
       case One(n) =>
         if IsAssertion(n) then k == 0 && Holds(n, line, t)
         else if IsTransparent(n) then k == 0
         else k == 1
  }

  /** The count vector `ks` is a way for the pieces `ps` to match at `t`. */
  ghost predicate Fits(ps: seq<Piece>, ks: seq<nat>, line: seq<Byte>, t: nat, icase: bool)
    requires t <= |line|
  {
    |ks| == |ps| &&
    (ps != [] ==>
       && PieceFits(ps[0], line, t, ks[0], icase)
       && Fits(ps[1..], ks[1..], line, t + ks[0], icase))
  }

  ghost predicate NoFit(ps: seq<Piece>, line: seq<Byte>, t: nat, icase: bool)
    requires t <= |line|
  {
    forall ks :: !Fits(ps, ks, line, t, icase)
  }

  function Sum(ks: seq<nat>): nat {
    if ks == [] then 0 else ks[0] + Sum(ks[1..])
  }

  /** Lexicographic order: the vector that takes more at the first difference is greater. */
  ghost predicate LexLe(js: seq<nat>, ks: seq<nat>)
    requires |js| == |ks|
  {
    js != [] ==> js[0] < ks[0] || (js[0] == ks[0] && LexLe(js[1..], ks[1..]))
  }

  ghost predicate Greediest(ps: seq<Piece>, ks: seq<nat>, line: seq<Byte>, t: nat, icase: bool)
    requires t <= |line|
  {
    && Fits(ps, ks, line, t, icase)
    && forall js :: Fits(ps, js, line, t, icase) ==> LexLe(js, ks)
  }

  /** What `Match` answers, stated without the matcher. */
  ghost predicate Meaning(ps: seq<Piece>, line: seq<Byte>, t: nat, icase: bool, r: Option<nat>)
    requires t <= |line|
  {
    match r
    case None => NoFit(ps, line, t, icase)
    case Some(e) => exists ks :: Greediest(ps, ks, line, t, icase) && e == t + Sum(ks)
  }

  /** Prepending a fitting count to a greediest tail. */
  lemma {:induction false} ConsGreediest(
    p: Piece, ps: seq<Piece>, k: nat, line: seq<Byte>, t: nat, icase: bool, r: Option<nat>)
    requires t <= |line| && PieceFits(p, line, t, k, icase)
    requires r.Some? && Meaning(ps, line, t + k, icase, r)
    requires forall k' :: k' > k && PieceFits(p, line, t, k', icase) ==> NoFit(ps, line, t + k', icase)
    ensures Meaning([p] + ps, line, t, icase, r)
  {
    var ks :| Greediest(ps, ks, line, t + k, icase) && r.value == t + k + Sum(ks);
    var v := [k] + ks;
    assert v[1..] == ks && ([p] + ps)[1..] == ps;
    forall js | Fits([p] + ps, js, line, t, icase) ensures LexLe(js, v) {
      assert ([p] + ps)[0] == p;
      assert Fits(ps, js[1..], line, t + js[0], icase);
    }
    assert Greediest([p] + ps, v, line, t, icase);
  }

  /** No fitting count for the head has a fitting tail: the whole does not fit. */
  lemma {:induction false} ConsNone(p: Piece, ps: seq<Piece>, line: seq<Byte>, t: nat, icase: bool)
    requires t <= |line|
    requires forall k :: PieceFits(p, line, t, k, icase) ==> NoFit(ps, line, t + k, icase)
    ensures Meaning([p] + ps, line, t, icase, None)
  {
    assert ([p] + ps)[0] == p && ([p] + ps)[1..] == ps;
  }

  /** A piece with a single possible count behaves like its tail shifted by that count. */
  lemma {:induction false} ConsSingle(
    p: Piece, ps: seq<Piece>, k: nat, line: seq<Byte>, t: nat, icase: bool, r: Option<nat>)
    requires t <= |line| && PieceFits(p, line, t, k, icase)
    requires forall k' :: PieceFits(p, line, t, k', icase) ==> k' == k
    requires Meaning(ps, line, t + k, icase, r)
    ensures Meaning([p] + ps, line, t, icase, r)
  {
    if r.Some? {
      ConsGreediest(p, ps, k, line, t, icase, r);
    } else {
      ConsNone(p, ps, line, t, icase);
    }
  }

  /**
   The refinement theorem, for every node list: the matcher succeeds exactly
   when some count vector fits, and then stops where the greediest one does.
   */
  lemma {:induction false} MatchMeaning(nodes: seq<Node>, ni: nat, line: seq<Byte>, t: nat, icase: bool)
    requires ni <= |nodes| && t <= |line|
    ensures Meaning(Pieces(nodes, ni), line, t, icase, Match(nodes, ni, line, t, icase))
    decreases |nodes| - ni, 0, 0
  {
    if ni == |nodes| || nodes[ni].Alt? {
      NothingMeans(line, t, icase);
    } else if ni + 1 < |nodes| && IsQuant(nodes[ni + 1]) {
      var (lo, hi) := Bounds(nodes[ni + 1]);
      var run := Run(nodes[ni], line, t, hi, icase);
      var p := Rep(nodes[ni], lo, hi);
      RunBlocks(p, line, t, run, icase);
      BacktrackMeaning(nodes, ni + 2, line, t, run, p, icase);
    } else {
      var p := One(nodes[ni]);
      var k := Taken(p.n);
      if PieceFits(p, line, t, k, icase) { MatchMeaning(nodes, ni + 1, line, t + k, icase); }
      OneMeans(nodes, ni, line, t, icase, p, k);
    }
  }

  lemma {:induction false} NothingMeans(line: seq<Byte>, t: nat, icase: bool)
    requires t <= |line|
    ensures Meaning([], line, t, icase, Some(t))
  {
    assert Fits([], [], line, t, icase);
    assert Greediest([], [], line, t, icase);
  }

  /** A quantified atom cannot take more than its longest run. */
  lemma {:induction false} RunBlocks(p: Piece, line: seq<Byte>, t: nat, run: nat, icase: bool)
    requires p.Rep? && t <= |line| && run == Run(p.n, line, t, p.hi, icase)
    ensures forall k :: k > run ==> !PieceFits(p, line, t, k, icase)
  {}

  /** How many bytes an unquantified node takes. */
  function Taken(n: Node): nat { if IsAssertion(n) || IsTransparent(n) then 0 else 1 }

  lemma {:induction false} OneMeans(nodes: seq<Node>, ni: nat, line: seq<Byte>, t: nat, icase: bool, p: Piece, k: nat)
    requires ni < |nodes| && t <= |line| && !nodes[ni].Alt? && !(ni + 1 < |nodes| && IsQuant(nodes[ni + 1]))
    requires p == One(nodes[ni]) && k == Taken(nodes[ni])
    requires PieceFits(p, line, t, k, icase) ==>
               Meaning(Pieces(nodes, ni + 1), line, t + k, icase, Match(nodes, ni + 1, line, t + k, icase))
    ensures Meaning(Pieces(nodes, ni), line, t, icase, Match(nodes, ni, line, t, icase))
  {
    var ps := Pieces(nodes, ni + 1);
    if PieceFits(p, line, t, k, icase) {
      assert k == 1 ==> AtomMatch(p.n, line[t], icase);
      ConsSingle(p, ps, k, line, t, icase, Match(nodes, ni, line, t, icase));
    } else {
      ConsNone(p, ps, line, t, icase);
    }
  }

  lemma {:induction false} BacktrackMeaning(
    nodes: seq<Node>, nj: nat, line: seq<Byte>, t: nat, i: int, p: Piece, icase: bool)
    requires nj <= |nodes| && -1 <= i && t <= |line| && t + i <= |line| && p.Rep?
    requires i <= p.hi
    requires forall j :: t <= j < t + i ==> AtomMatch(p.n, line[j], icase)
    requires forall k :: k > i && PieceFits(p, line, t, k, icase) ==> NoFit(Pieces(nodes, nj), line, t + k, icase)
    ensures Meaning([p] + Pieces(nodes, nj), line, t, icase, Backtrack(nodes, nj, line, t, i, p.lo, icase))
    decreases |nodes| - nj, 1, i + 1
  {
    var ps := Pieces(nodes, nj);
    if i < p.lo {
      ConsNone(p, ps, line, t, icase);
    } else {
      MatchMeaning(nodes, nj, line, t + i, icase);
      if Match(nodes, nj, line, t + i, icase).Some? {
        assert PieceFits(p, line, t, i, icase);
        ConsGreediest(p, ps, i, line, t, icase, Match(nodes, nj, line, t + i, icase));
      } else {
        BacktrackMeaning(nodes, nj, line, t, i - 1, p, icase);
      }
    }
  }

  /** The meaning pins the answer down: no two answers share it. */
  lemma {:induction false} MeaningUnique(
    ps: seq<Piece>, line: seq<Byte>, t: nat, icase: bool, r: Option<nat>, r': Option<nat>)
    requires t <= |line|
    requires Meaning(ps, line, t, icase, r) && Meaning(ps, line, t, icase, r')
    ensures r == r'
  {
    if r.Some? && r'.Some? {
      var ks :| Greediest(ps, ks, line, t, icase) && r.value == t + Sum(ks);
      var js :| Greediest(ps, js, line, t, icase) && r'.value == t + Sum(js);
      LexAntisymmetric(ks, js);
    }
  }

  lemma {:induction false} LexAntisymmetric(js: seq<nat>, ks: seq<nat>)
    requires |js| == |ks| && LexLe(js, ks) && LexLe(ks, js)
    ensures js == ks
  {
    if js != [] {
      LexAntisymmetric(js[1..], ks[1..]);
      assert js == [js[0]] + js[1..] && ks == [ks[0]] + ks[1..];
    }
  }

  // ----- case folding -----

  ghost predicate SameUpToCase(a: seq<Byte>, b: seq<Byte>) {
    |a| == |b| && forall i :: 0 <= i < |a| ==> ToLower(a[i]) == ToLower(b[i])
  }

  lemma {:induction false} AtomFolds(n: Node, c: Byte, d: Byte)
    requires ToLower(c) == ToLower(d)
    ensures AtomMatch(n, c, true) == AtomMatch(n, d, true)
    ensures IsWordChar(c) == IsWordChar(d)
  {
    if c != d {
      assert (c == d + 32 && IsUpper(d) && IsLower(c)) || (d == c + 32 && IsUpper(c) && IsLower(d));
    }
  }

  lemma {:induction false} RunFolds(n: Node, a: seq<Byte>, b: seq<Byte>, t: nat, hi: nat)
    requires SameUpToCase(a, b) && t <= |a|
    ensures Run(n, a, t, hi, true) == Run(n, b, t, hi, true)
    decreases |a| - t
  {
    if 0 < hi && t < |a| {
      AtomFolds(n, a[t], b[t]);
      RunFolds(n, a, b, t + 1, hi - 1);
    }
  }

  /** With `-i`, lines that differ only in letter case match alike, with the same end. */
  lemma {:induction false} MatchFolds(nodes: seq<Node>, ni: nat, a: seq<Byte>, b: seq<Byte>, t: nat)
    requires SameUpToCase(a, b) && ni <= |nodes| && t <= |a|
    ensures Match(nodes, ni, a, t, true) == Match(nodes, ni, b, t, true)
    decreases |nodes| - ni, 0, 0
  {
    if ni < |nodes| && !nodes[ni].Alt? {
      if ni + 1 < |nodes| && IsQuant(nodes[ni + 1]) {
        var (lo, hi) := Bounds(nodes[ni + 1]);
        RunFolds(nodes[ni], a, b, t, hi);
        BacktrackFolds(nodes, ni + 2, a, b, t, Run(nodes[ni], a, t, hi, true), lo);
      } else {
        if t > 0 { AtomFolds(nodes[ni], a[t - 1], b[t - 1]); }
        if t < |a| {
          AtomFolds(nodes[ni], a[t], b[t]);
          MatchFolds(nodes, ni + 1, a, b, t + 1);
        }
        MatchFolds(nodes, ni + 1, a, b, t);
      }
    }
  }

  lemma {:induction false} BacktrackFolds(
    nodes: seq<Node>, nj: nat, a: seq<Byte>, b: seq<Byte>, t: nat, i: int, lo: nat)
    requires SameUpToCase(a, b) && nj <= |nodes| && -1 <= i && t <= |a| && t + i <= |a|
    ensures Backtrack(nodes, nj, a, t, i, lo, true) == Backtrack(nodes, nj, b, t, i, lo, true)
    decreases |nodes| - nj, 1, i + 1
  {
    if i >= lo {
      MatchFolds(nodes, nj, a, b, t + i);
      BacktrackFolds(nodes, nj, a, b, t, i - 1, lo);
    }
  }
}
