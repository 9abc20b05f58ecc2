/** The whole path from pattern text to match, for user/grep.c. */
module GrepTheorems {
  import opened Bytes
  import opened GrepMatch
  import opened GrepMeaning
  import opened GrepSearch
  import opened GrepCompile
  import opened GrepPattern
  import opened GrepReads

  // ----- a quoted string is searched like a fixed string -----

  function CharUnits(s: seq<Byte>): (us: seq<Unit>)
    ensures |us| == |s| && forall i :: 0 <= i < |s| ==> us[i] == UAtom(Char(s[i]))
  {
    seq(|s|, i requires 0 <= i < |s| => UAtom(Char(s[i])))
  }

  /** `s` with its metacharacters backslash-quoted. */
  function Quote(s: seq<Byte>, extended: bool): seq<Byte> {
    if s == [] then [] else CharText(s[0], extended) + Quote(s[1..], extended)
  }

  lemma {:induction false} QuoteIsText(s: seq<Byte>, extended: bool)
    requires CString(s)
    ensures GoodUnits(CharUnits(s)) && Quote(s, extended) == Text(CharUnits(s), extended)
  {
    if s != [] {
      QuoteIsText(s[1..], extended);
      assert CharUnits(s)[1..] == CharUnits(s[1..]);
    }
  }

  predicate Literals(nodes: seq<Node>, w: seq<Byte>, icase: bool) {
    |nodes| == |w| && forall i :: 0 <= i < |w| ==> nodes[i] == Literal(if icase then ToLower(w[i]) else w[i])
  }

  lemma {:induction false} LiteralsMatch(nodes: seq<Node>, w: seq<Byte>, j: nat, line: seq<Byte>, t: nat, icase: bool)
    requires Literals(nodes, w, icase) && j <= |w| && t <= |line|
    ensures Match(nodes, j, line, t, icase)
         == if OccursAt(w[j..], line, t, icase) then Some(t + |w| - j) else None
    decreases |w| - j
  {
    if j < |w| && t < |line| {
      LiteralsMatch(nodes, w, j + 1, line, t + 1, icase);
      assert w[j..] == [w[j]] + w[j + 1..];
      OccursCons(w[j], w[j + 1..], line, t, icase);
    }
  }

  lemma {:induction false} OccursCons(c: Byte, w: seq<Byte>, line: seq<Byte>, t: nat, icase: bool)
    requires t < |line|
    ensures OccursAt([c] + w, line, t, icase) <==> SameByte(line[t], c, icase) && OccursAt(w, line, t + 1, icase)
  {
    var v := [c] + w;
    if OccursAt(v, line, t, icase) {
      assert SameByte(line[t + 0], v[0], icase);
      forall k | 0 <= k < |w| ensures SameByte(line[t + 1 + k], w[k], icase) {
        assert SameByte(line[t + (k + 1)], v[k + 1], icase);
      }
    }
  }

  lemma {:induction false} LiteralsSearchFrom(nodes: seq<Node>, w: seq<Byte>, line: seq<Byte>, t: nat, icase: bool)
    requires Literals(nodes, w, icase) && t <= |line| + 1
    requires forall i :: 0 <= i < t ==> !OccursAt(w, line, i, icase)
    ensures FirstOccurrence(w, line, icase, SearchFrom(nodes, [0], line, t, |line|, icase))
    decreases |line| + 1 - t
  {
    if t <= |line| {
      LiteralsMatch(nodes, w, 0, line, t, icase);
      assert w[0..] == w;
      assert FirstAlt(nodes, [0], 0, line, t, icase) == Match(nodes, 0, line, t, icase);
      if !OccursAt(w, line, t, icase) { LiteralsSearchFrom(nodes, w, line, t + 1, icase); }
    }
  }

  lemma {:induction false} LiteralsSearch(nodes: seq<Node>, w: seq<Byte>, line: seq<Byte>, icase: bool)
    requires Literals(nodes, w, icase)
    ensures FirstOccurrence(w, line, icase, Search(nodes, line, icase))
  {
    StartsSkip(nodes, 0, |nodes|);
    assert AltStarts(nodes) == [0];
    LiteralsSearchFrom(nodes, w, line, 0, icase);
  }

  /**
   Searching for the quoted string is searching for the string itself, in both
   syntaxes and with the same bounds; beyond 2047 bytes only the first 2047 count.
   */
  lemma {:induction false} QuotedSearch(s: seq<Byte>, line: seq<Byte>, extended: bool, icase: bool)
    requires CString(s)
    ensures FirstOccurrence(s[..Min(|s|, MAX_RE_NODES - 1)], line, icase,
                            Search(Compile(Quote(s, extended), extended, icase), line, icase))
  {
    var k := Min(|s|, MAX_RE_NODES - 1);
    var us := CharUnits(s);
    QuoteIsText(s, extended);
    TextCompiles(us, extended, icase);
    LiteralsSearch(Nodes(us[..k], icase), s[..k], line, icase);
  }

  ghost predicate SearchesFor(nodes: seq<Node>, s: seq<Byte>, line: seq<Byte>, icase: bool) {
    FirstOccurrence(s, line, icase, Search(nodes, line, icase))
  }

  ghost predicate AlwaysSearchesFor(nodes: seq<Node>, s: seq<Byte>, icase: bool) {
    forall line :: SearchesFor(nodes, s, line, icase)
  }

  /** The compiled form agrees with the fixed string on every line exactly when it has at most 2047 bytes. */
  lemma {:induction false} QuotedSearchExact(s: seq<Byte>, extended: bool, icase: bool)
    requires CString(s)
    ensures AlwaysSearchesFor(Compile(Quote(s, extended), extended, icase), s, icase) <==> |s| <= MAX_RE_NODES - 1
  {
    var nodes := Compile(Quote(s, extended), extended, icase);
    if |s| <= MAX_RE_NODES - 1 {
      forall line: seq<Byte> ensures SearchesFor(nodes, s, line, icase) {
        QuotedSearch(s, line, extended, icase);
        assert s[..|s|] == s;
      }
    } else {
      var line := s[..MAX_RE_NODES - 1];
      QuotedSearch(s, line, extended, icase);
      assert OccursAt(line, line, 0, icase);
      assert !SearchesFor(nodes, s, line, icase);
    }
  }

  // ----- layout of a pattern -----

  function ItemUnits(it: Item): (us: seq<Unit>) {
    match it
    case Check(m) => [UCheck(m)]
    case Take(a, q) => if q.Once? then [UAtom(a)] else [UAtom(a), UQuant(q)]
  }

  function BranchUnits(b: Branch): (us: seq<Unit>) {
    if b == [] then [] else ItemUnits(b[0]) + BranchUnits(b[1..])
  }

  /** A branch holds no bar and does not start with a quantifier. */
  lemma {:induction false} BranchUnitsKind(b: Branch)
    ensures forall i :: 0 <= i < |BranchUnits(b)| ==> !BranchUnits(b)[i].UBar?
    ensures BranchUnits(b) != [] ==> !BranchUnits(b)[0].UQuant?
  {
    if b != [] { BranchUnitsKind(b[1..]); }
  }

  lemma {:induction false} BranchUnitsGood(b: Branch)
    requires GoodBranch(b)
    ensures GoodUnits(BranchUnits(b))
  {
    if b != [] {
      assert GoodItem(b[0]) && forall i :: 0 <= i < |b[1..]| ==> b[1..][i] == b[i + 1];
      BranchUnitsGood(b[1..]);
    }
  }

  predicate GoodPattern(bs: seq<Branch>) {
    forall a :: 0 <= a < |bs| ==> GoodBranch(bs[a])
  }

  function PatternUnits(bs: seq<Branch>): (us: seq<Unit>)
    requires |bs| > 0
  {
    var k := |bs| - 1;
    if k == 0 then BranchUnits(bs[0])
    else PatternUnits(bs[..k]) + [UBar] + BranchUnits(bs[k])
  }

  lemma {:induction false} PatternUnitsGood(bs: seq<Branch>)
    requires |bs| > 0 && GoodPattern(bs)
    ensures GoodUnits(PatternUnits(bs))
  {
    var k := |bs| - 1;
    BranchUnitsGood(bs[k]);
    if k > 0 { PatternUnitsGood(bs[..k]); }
  }

  /** The text of a pattern. */
  function Print(bs: seq<Branch>, extended: bool): seq<Byte>
    requires |bs| > 0
  {
    Text(PatternUnits(bs), extended)
  }

  function Starts(bs: seq<Branch>): (r: seq<nat>)
    requires |bs| > 0
    ensures |r| == |bs|
  {
    var k := |bs| - 1;
    if k == 0 then [0] else Starts(bs[..k]) + [|PatternUnits(bs[..k])| + 1]
  }

  function ItemPiece(it: Item, icase: bool): Piece {
    match it
    case Check(m) => One(MarkNode(m))
    case Take(a, q) =>
      if q.Once? then One(AtomNode(a, icase))
      else Rep(AtomNode(a, icase), Bounds(QuantNode(q)).0, Bounds(QuantNode(q)).1)
  }

  function BranchPieces(b: Branch, icase: bool): (ps: seq<Piece>)
    ensures |ps| == |b|
  {
    if b == [] then [] else [ItemPiece(b[0], icase)] + BranchPieces(b[1..], icase)
  }

  /** The units of branch `b` stand at `s`, followed by a bar or the end. */
  ghost predicate BranchAt(us: seq<Unit>, s: nat, b: Branch) {
    var e := s + |BranchUnits(b)|;
    Stands(us, s, BranchUnits(b)) && (e == |us| || us[e].UBar?)
  }

  lemma {:induction false} BranchAtTail(us: seq<Unit>, s: nat, b: Branch)
    requires b != [] && BranchAt(us, s, b)
    ensures Stands(us, s, ItemUnits(b[0])) && BranchAt(us, s + |ItemUnits(b[0])|, b[1..])
  {
    var head, tail := ItemUnits(b[0]), BranchUnits(b[1..]);
    assert BranchUnits(b) == head + tail;
    StandsSplit(us, s, head, tail);
    assert s + |BranchUnits(b)| == s + |head| + |tail|;
  }

  lemma {:induction false} BranchAtHead(us: seq<Unit>, s: nat, b: Branch)
    requires BranchAt(us, s, b) && s < |us|
    ensures !us[s].UQuant?
  {
    BranchUnitsKind(b);
    if BranchUnits(b) != [] { StandsAt(us, s, BranchUnits(b), 0); }
  }

  lemma {:induction false} NodeKind(u: Unit, icase: bool)
    ensures IsQuant(NodeOf(u, icase)) <==> u.UQuant?
    ensures NodeOf(u, icase).Alt? <==> u.UBar?
  {}

  lemma {:induction false} OnePiece(us: seq<Unit>, s: nat, u: Unit, icase: bool)
    requires s < |us| && us[s] == u && !u.UBar? && NoQuantAt(us, s + 1)
    ensures Pieces(Nodes(us, icase), s) == [One(NodeOf(u, icase))] + Pieces(Nodes(us, icase), s + 1)
  {
    NodeKind(u, icase);
    if s + 1 < |us| { NodeKind(us[s + 1], icase); }
  }

  lemma {:induction false} RepPiece(us: seq<Unit>, s: nat, u: Unit, q: Quant, icase: bool)
    requires s + 1 < |us| && us[s] == u && !u.UBar? && us[s + 1] == UQuant(q)
    ensures Pieces(Nodes(us, icase), s)
         == [Rep(NodeOf(u, icase), Bounds(QuantNode(q)).0, Bounds(QuantNode(q)).1)] + Pieces(Nodes(us, icase), s + 2)
  {
    NodeKind(u, icase);
  }

  lemma {:induction false} PiecesStep(us: seq<Unit>, s: nat, it: Item, icase: bool)
    requires Stands(us, s, ItemUnits(it))
    requires NoQuantAt(us, s + |ItemUnits(it)|)
    ensures var pieces := PiecesFrom(us, icase);
            pieces(s) == [ItemPiece(it, icase)] + pieces(s + |ItemUnits(it)|)
  {
    var head := ItemUnits(it);
    StandsAt(us, s, head, 0);
    if |head| == 2 {
      StandsAt(us, s, head, 1);
      RepPiece(us, s, head[0], it.q, icase);
    } else {
      OnePiece(us, s, head[0], icase);
    }
  }

  lemma {:induction false} NoPieces(us: seq<Unit>, s: nat, icase: bool)
    requires s == |us| || (s < |us| && us[s].UBar?)
    ensures Pieces(Nodes(us, icase), s) == []
  {}

  /** `pieces` takes one item after another off a list of units, and stops at a bar or the end. */
  ghost predicate TakesItems(us: seq<Unit>, pieces: nat -> seq<Piece>, icase: bool) {
    && (forall s: nat, it :: TakesItem(us, pieces, icase, s, it))
    && (forall s: nat :: StopsAt(us, pieces, s))
  }

  ghost predicate TakesItem(us: seq<Unit>, pieces: nat -> seq<Piece>, icase: bool, s: nat, it: Item) {
    Stands(us, s, ItemUnits(it)) && NoQuantAt(us, s + |ItemUnits(it)|) ==>
      pieces(s) == [ItemPiece(it, icase)] + pieces(s + |ItemUnits(it)|)
  }

  ghost predicate StopsAt(us: seq<Unit>, pieces: nat -> seq<Piece>, s: nat) {
    s == |us| || (s < |us| && us[s].UBar?) ==> pieces(s) == []
  }

  predicate NoQuantAt(us: seq<Unit>, s: nat) { s < |us| ==> !us[s].UQuant? }

  lemma {:induction false} BranchFold(us: seq<Unit>, s: nat, b: Branch, pieces: nat -> seq<Piece>, icase: bool)
    requires BranchAt(us, s, b) && TakesItems(us, pieces, icase)
    ensures pieces(s) == BranchPieces(b, icase)
    decreases |b|
  {
    if b == [] {
      assert StopsAt(us, pieces, s);
    } else {
      var j := s + |ItemUnits(b[0])|;
      BranchAtTail(us, s, b);
      if j < |us| { BranchAtHead(us, j, b[1..]); }
      assert NoQuantAt(us, j) && TakesItem(us, pieces, icase, s, b[0]);
      BranchFold(us, j, b[1..], pieces, icase);
    }
  }

  function PiecesFrom(us: seq<Unit>, icase: bool): nat -> seq<Piece> {
    (s: nat) => if s <= |us| then Pieces(Nodes(us, icase), s) else []
  }

  lemma {:induction false} TakesOne(us: seq<Unit>, icase: bool, s: nat, it: Item)
    ensures TakesItem(us, PiecesFrom(us, icase), icase, s, it)
  {
    if Stands(us, s, ItemUnits(it)) && NoQuantAt(us, s + |ItemUnits(it)|) { PiecesStep(us, s, it, icase); }
  }

  lemma {:induction false} TakesThem(us: seq<Unit>, icase: bool)
    ensures TakesItems(us, PiecesFrom(us, icase), icase)
  {
    var pieces := PiecesFrom(us, icase);
    forall s: nat, it ensures TakesItem(us, pieces, icase, s, it) { TakesOne(us, icase, s, it); }
    forall s: nat ensures StopsAt(us, pieces, s) {
      if s == |us| || (s < |us| && us[s].UBar?) { NoPieces(us, s, icase); }
    }
  }

  /** The matcher sees a printed branch as the pieces it was printed from. */
  lemma {:induction false} BranchAtPieces(us: seq<Unit>, s: nat, b: Branch, icase: bool)
    requires BranchAt(us, s, b)
    ensures Pieces(Nodes(us, icase), s) == BranchPieces(b, icase)
  {
    TakesThem(us, icase);
    BranchFold(us, s, b, PiecesFrom(us, icase), icase);
  }

  // ----- branch starts -----

  predicate NoGroups(nodes: seq<Node>) {
    forall i :: 0 <= i < |nodes| ==> !nodes[i].GroupStart? && !nodes[i].GroupEnd?
  }

  lemma {:induction false} DepthZero(nodes: seq<Node>, i: nat)
    requires NoGroups(nodes) && i <= |nodes|
    ensures Depth(nodes, i) == 0
  {
    if i > 0 { DepthZero(nodes, i - 1); }
  }

  /** Without groups, branch starts depend on the bars alone. */
  lemma {:induction false} StartsAgree(nodes: seq<Node>, nodes': seq<Node>, i: nat)
    requires NoGroups(nodes) && NoGroups(nodes') && i <= |nodes| && i <= |nodes'|
    requires forall k :: 0 <= k < i ==> nodes[k].Alt? == nodes'[k].Alt?
    ensures AllStarts(nodes, i) == AllStarts(nodes', i)
  {
    if i > 0 {
      DepthZero(nodes, i - 1);
      DepthZero(nodes', i - 1);
      StartsAgree(nodes, nodes', i - 1);
    }
  }

  lemma {:induction false} StartsSkip(nodes: seq<Node>, i: nat, j: nat)
    requires i <= j <= |nodes| && forall k :: i <= k < j ==> !nodes[k].Alt?
    ensures AllStarts(nodes, j) == AllStarts(nodes, i)
    decreases j - i
  {
    if i < j { StartsSkip(nodes, i, j - 1); }
  }

  lemma {:induction false} UnitsNoGroups(us: seq<Unit>, icase: bool)
    ensures NoGroups(Nodes(us, icase))
    ensures forall i :: 0 <= i < |us| ==> Nodes(us, icase)[i].Alt? == us[i].UBar?
  {}

  lemma {:induction false} PatternSplit(bs: seq<Branch>)
    requires |bs| > 1
    ensures var us, k := PatternUnits(bs), |bs| - 1;
            var pre, b := PatternUnits(bs[..k]), BranchUnits(bs[k]);
            && |us| == |pre| + 1 + |b|
            && us[..|pre|] == pre && us[|pre|] == UBar && us[|pre| + 1..] == b
  {}

  lemma {:induction false} PatternStarts(bs: seq<Branch>, icase: bool)
    requires |bs| > 0
    ensures AllStarts(Nodes(PatternUnits(bs), icase), |PatternUnits(bs)|) == Starts(bs)
  {
    if |bs| == 1 {
      OneBranchStarts(bs, icase);
    } else {
      PatternStarts(bs[..|bs| - 1], icase);
      MoreStarts(bs, PatternUnits(bs), PatternUnits(bs[..|bs| - 1]), icase);
    }
  }

  lemma {:induction false} OneBranchStarts(bs: seq<Branch>, icase: bool)
    requires |bs| == 1
    ensures AllStarts(Nodes(PatternUnits(bs), icase), |PatternUnits(bs)|) == Starts(bs)
  {
    BranchUnitsKind(bs[0]);
    UnitsNoGroups(PatternUnits(bs), icase);
    StartsSkip(Nodes(PatternUnits(bs), icase), 0, |PatternUnits(bs)|);
  }

  lemma {:induction false} BarsBefore(us: seq<Unit>, pre: seq<Unit>, own: seq<Unit>)
    requires |pre| < |us| && us[|pre| + 1..] == own && forall i :: 0 <= i < |own| ==> !own[i].UBar?
    ensures forall i :: |pre| < i < |us| ==> !us[i].UBar?
  {
    forall i | |pre| < i < |us| ensures !us[i].UBar? { assert us[i] == us[|pre| + 1..][i - |pre| - 1]; }
  }

  lemma {:induction false} MoreStarts(bs: seq<Branch>, us: seq<Unit>, pre: seq<Unit>, icase: bool)
    requires |bs| > 1 && us == PatternUnits(bs) && pre == PatternUnits(bs[..|bs| - 1])
    requires AllStarts(Nodes(pre, icase), |pre|) == Starts(bs[..|bs| - 1])
    ensures AllStarts(Nodes(us, icase), |us|) == Starts(bs)
  {
    PatternSplit(bs);
    BranchUnitsKind(bs[|bs| - 1]);
    BarsBefore(us, pre, BranchUnits(bs[|bs| - 1]));
    StartsGrow(us, pre, icase);
  }

  lemma {:induction false} StartsGrow(us: seq<Unit>, pre: seq<Unit>, icase: bool)
    requires |pre| < |us| && us[..|pre|] == pre && us[|pre|] == UBar
    requires forall i :: |pre| < i < |us| ==> !us[i].UBar?
    ensures AllStarts(Nodes(us, icase), |us|) == AllStarts(Nodes(pre, icase), |pre|) + [|pre| + 1]
  {
    UnitsNoGroups(us, icase);
    UnitsNoGroups(pre, icase);
    StartsAgree(Nodes(us, icase), Nodes(pre, icase), |pre|);
    DepthZero(Nodes(us, icase), |pre|);
    StartsSkip(Nodes(us, icase), |pre| + 1, |us|);
  }

  lemma {:induction false} BranchAtUnits(us: seq<Unit>, s: nat, b: Branch)
    requires s <= |us| && us[s..] == BranchUnits(b)
    ensures BranchAt(us, s, b)
  {
    forall i | 0 <= i < |us| - s ensures us[s + i] == BranchUnits(b)[i] { assert us[s..][i] == us[s + i]; }
  }

  lemma {:induction false} BranchAtGrow(us: seq<Unit>, pre: seq<Unit>, s: nat, b: Branch)
    requires BranchAt(pre, s, b) && |pre| < |us| && us[..|pre|] == pre && us[|pre|] == UBar
    ensures BranchAt(us, s, b)
  {
    forall i | 0 <= i < |pre| ensures us[i] == pre[i] { assert us[..|pre|][i] == us[i]; }
  }

  lemma {:induction false} LastBranch(bs: seq<Branch>)
    requires |bs| > 0
    ensures BranchAt(PatternUnits(bs), Starts(bs)[|bs| - 1], bs[|bs| - 1])
  {
    var k := |bs| - 1;
    if k == 0 {
      BranchAtUnits(PatternUnits(bs), 0, bs[0]);
    } else {
      PatternSplit(bs);
      BranchAtUnits(PatternUnits(bs), |PatternUnits(bs[..k])| + 1, bs[k]);
    }
  }

  lemma {:induction false} EarlierBranch(bs: seq<Branch>, a: nat)
    requires a + 1 < |bs|
    requires var init := bs[..|bs| - 1]; BranchAt(PatternUnits(init), Starts(init)[a], init[a])
    ensures BranchAt(PatternUnits(bs), Starts(bs)[a], bs[a])
  {
    var init := bs[..|bs| - 1];
    PatternSplit(bs);
    BranchAtGrow(PatternUnits(bs), PatternUnits(init), Starts(init)[a], init[a]);
  }

  lemma {:induction false} PatternBranches(bs: seq<Branch>, a: nat)
    requires a < |bs|
    ensures BranchAt(PatternUnits(bs), Starts(bs)[a], bs[a])
  {
    if a == |bs| - 1 {
      LastBranch(bs);
    } else {
      PatternBranches(bs[..|bs| - 1], a);
      EarlierBranch(bs, a);
    }
  }

  // ----- the two meanings agree -----

  lemma {:induction false} ItemMeaning(it: Item, line: seq<Byte>, t: nat, k: nat, icase: bool)
    requires GoodItem(it) && t <= |line| <= INT_MAX
    ensures ItemFits(it, line, t, k, icase) <==> PieceFits(ItemPiece(it, icase), line, t, k, icase)
  {
    if it.Take? {
      forall j | t <= j < t + k && j < |line|
        ensures InAtom(it.a, line[j], icase) == AtomMatch(AtomNode(it.a, icase), line[j], icase)
      {
        AtomNodeMeaning(it.a, line[j], icase);
      }
    }
  }

  lemma {:induction false} BranchMeaning(b: Branch, ks: seq<nat>, line: seq<Byte>, t: nat, icase: bool)
    requires GoodBranch(b) && t <= |line| <= INT_MAX
    ensures BranchFits(b, ks, line, t, icase) <==> Fits(BranchPieces(b, icase), ks, line, t, icase)
    decreases |b|
  {
    if b != [] && |ks| == |b| {
      assert GoodItem(b[0]);
      assert BranchPieces(b, icase)[1..] == BranchPieces(b[1..], icase);
      ItemMeaning(b[0], line, t, ks[0], icase);
      if t + ks[0] <= |line| { BranchMeaning(b[1..], ks[1..], line, t + ks[0], icase); }
    }
  }

  lemma {:induction false} BranchAnswer(b: Branch, line: seq<Byte>, t: nat, icase: bool)
    requires GoodBranch(b) && t <= |line| <= INT_MAX
    ensures BranchNoFit(b, line, t, icase) <==> NoFit(BranchPieces(b, icase), line, t, icase)
    ensures forall e :: BranchEnd(b, line, t, e, icase) <==> Meaning(BranchPieces(b, icase), line, t, icase, Some(e))
  {
    assert forall ks: seq<nat> ::
        BranchFits(b, ks, line, t, icase) <==> Fits(BranchPieces(b, icase), ks, line, t, icase) by {
      forall ks: seq<nat> { BranchMeaning(b, ks, line, t, icase); }
    }
    forall e ensures BranchEnd(b, line, t, e, icase) <==> Meaning(BranchPieces(b, icase), line, t, icase, Some(e)) {
      if BranchEnd(b, line, t, e, icase) {
        var ks :| BranchFits(b, ks, line, t, icase) && e == t + Sum(ks)
                  && forall js :: BranchFits(b, js, line, t, icase) ==> LexLe(js, ks);
        assert Greediest(BranchPieces(b, icase), ks, line, t, icase);
      }
      if Meaning(BranchPieces(b, icase), line, t, icase, Some(e)) {
        var ks :| Greediest(BranchPieces(b, icase), ks, line, t, icase) && e == t + Sum(ks);
        assert BranchFits(b, ks, line, t, icase);
      }
    }
  }

  predicate StartsPinned(b: Branch) { b != [] && b[0] == Check(LineStart) }

  // ----- which branches fit -----

  lemma {:induction false} BranchTransfers(bs: seq<Branch>, a: nat, line: seq<Byte>, t: nat, icase: bool)
    requires GoodPattern(bs) && a < |bs| && t <= |line| <= INT_MAX
    requires Starts(bs)[a] <= |Nodes(PatternUnits(bs), icase)|
    ensures var ps := Pieces(Nodes(PatternUnits(bs), icase), Starts(bs)[a]);
            && (BranchNoFit(bs[a], line, t, icase) <==> NoFit(ps, line, t, icase))
            && forall e :: BranchEnd(bs[a], line, t, e, icase) <==> Meaning(ps, line, t, icase, Some(e))
  {
    PatternBranches(bs, a);
    BranchAtPieces(PatternUnits(bs), Starts(bs)[a], bs[a], icase);
    BranchAnswer(bs[a], line, t, icase);
  }

  /** The first `m` branches and their starts tell the same about the first `n` of them. */
  lemma {:induction false} NoneTransfers(bs: seq<Branch>, m: nat, n: nat, line: seq<Byte>, t: nat, icase: bool)
    requires GoodPattern(bs) && 0 < |bs| && n <= m <= |bs| && t <= |line| <= INT_MAX
    requires ValidStarts(Nodes(PatternUnits(bs), icase), Starts(bs))
    ensures NoBranchFits(Nodes(PatternUnits(bs), icase), Starts(bs)[..m], n, line, t, icase)
       <==> NoneFits(bs[..m], n, line, t, icase)
  {
    forall a | 0 <= a < n
      ensures BranchNoFit(bs[..m][a], line, t, icase)
         <==> NoFit(Pieces(Nodes(PatternUnits(bs), icase), Starts(bs)[..m][a]), line, t, icase)
    {
      BranchTransfers(bs, a, line, t, icase);
    }
  }

  lemma {:induction false} LeftmostTransfers(
    bs: seq<Branch>, m: nat, line: seq<Byte>, last: nat, icase: bool, r: Option<Span>)
    requires GoodPattern(bs) && 0 < |bs| && m <= |bs| && last <= |line| <= INT_MAX
    requires ValidStarts(Nodes(PatternUnits(bs), icase), Starts(bs))
    requires Leftmost(Nodes(PatternUnits(bs), icase), Starts(bs)[..m], line, 0, last, icase, r)
    ensures LeftmostTo(bs[..m], line, last, icase, r)
  {
    var nodes, starts, front := Nodes(PatternUnits(bs), icase), Starts(bs)[..m], bs[..m];
    forall n: nat, t: nat | n <= m && t <= |line|
      ensures NoBranchFits(nodes, starts, n, line, t, icase) <==> NoneFits(front, n, line, t, icase)
    {
      NoneTransfers(bs, m, n, line, t, icase);
    }
    if r.Some? {
      var Span(ms, me) := r.value;
      var a :| 0 <= a < |starts| && NoBranchFits(nodes, starts, a, line, ms, icase)
               && Meaning(Pieces(nodes, starts[a]), line, ms, icase, Some(me));
      BranchTransfers(bs, a, line, ms, icase);
    }
  }

  // ----- what the program keeps of a long pattern -----

  /** The items of a branch that fit in `n` units; an atom may lose its quantifier. */
  function CutBranch(b: Branch, n: nat): Branch {
    if b == [] || n == 0 then []
    else if n < |ItemUnits(b[0])| then [Take(b[0].a, Once)]
    else [b[0]] + CutBranch(b[1..], n - |ItemUnits(b[0])|)
  }

  lemma {:induction false} CutBranchUnits(b: Branch, n: nat)
    requires n <= |BranchUnits(b)|
    ensures BranchUnits(CutBranch(b, n)) == BranchUnits(b)[..n]
    ensures GoodBranch(b) ==> GoodBranch(CutBranch(b, n))
    ensures n > 0 ==> (StartsPinned(CutBranch(b, n)) <==> StartsPinned(b))
  {
    if b != [] && n > 0 {
      var head := ItemUnits(b[0]);
      if n >= |head| {
        var rest := CutBranch(b[1..], n - |head|);
        CutBranchUnits(b[1..], n - |head|);
        assert ([b[0]] + rest)[1..] == rest;
      } else {
        assert [Take(b[0].a, Once)][1..] == [];
      }
    }
  }

  /** The branches that fit in `n` units, the last of them perhaps in part. */
  function Cut(bs: seq<Branch>, n: nat): (r: seq<Branch>)
    requires |bs| > 0
    ensures |r| > 0
  {
    var k := |bs| - 1;
    if |PatternUnits(bs)| <= n then bs
    else if k == 0 then [CutBranch(bs[0], n)]
    else if n <= |PatternUnits(bs[..k])| then Cut(bs[..k], n)
    else bs[..k] + [CutBranch(bs[k], n - |PatternUnits(bs[..k])| - 1)]
  }

  lemma {:induction false} CutUnits(bs: seq<Branch>, n: nat)
    requires |bs| > 0 && n <= |PatternUnits(bs)|
    ensures PatternUnits(Cut(bs, n)) == PatternUnits(bs)[..n]
    ensures GoodPattern(bs) ==> GoodPattern(Cut(bs, n))
    ensures n > 0 ==> (StartsPinned(Cut(bs, n)[0]) <==> StartsPinned(bs[0]))
  {
    var k, us := |bs| - 1, PatternUnits(bs);
    if |us| == n {
      assert us[..n] == us;
    } else if k == 0 {
      CutBranchUnits(bs[0], n);
    } else {
      var pre := PatternUnits(bs[..k]);
      if n <= |pre| {
        CutUnits(bs[..k], n);
        CutEarlier(bs, k, us, pre, n);
      } else {
        CutLast(bs, k, us, pre, n);
      }
    }
  }

  lemma {:induction false} CutEarlier(bs: seq<Branch>, k: nat, us: seq<Unit>, pre: seq<Unit>, n: nat)
    requires |bs| == k + 1 > 1 && us == PatternUnits(bs) && pre == PatternUnits(bs[..k]) && n <= |pre|
    ensures n < |us| && us[..n] == pre[..n]
    ensures Cut(bs, n) == Cut(bs[..k], n)
  {
    assert us == pre + [UBar] + BranchUnits(bs[k]);
  }

  lemma {:induction false} CutLast(bs: seq<Branch>, k: nat, us: seq<Unit>, pre: seq<Unit>, n: nat)
    requires |bs| == k + 1 > 1 && us == PatternUnits(bs) && pre == PatternUnits(bs[..k]) && |pre| < n < |us|
    ensures PatternUnits(Cut(bs, n)) == us[..n]
    ensures GoodPattern(bs) ==> GoodPattern(Cut(bs, n))
    ensures StartsPinned(Cut(bs, n)[0]) <==> StartsPinned(bs[0])
  {
    var m := n - |pre| - 1;
    var cut := bs[..k] + [CutBranch(bs[k], m)];
    assert us == pre + [UBar] + BranchUnits(bs[k]);
    CutBranchUnits(bs[k], m);
    assert cut[..k] == bs[..k] && cut[k] == CutBranch(bs[k], m);
    assert us[..n] == pre + [UBar] + BranchUnits(bs[k])[..m];
  }

  /** What the compiler and the search see of a pattern: 2047 nodes, and 64 branches of them. */
  function Seen(bs: seq<Branch>): (r: seq<Branch>)
    requires |bs| > 0
    ensures |r| > 0
  {
    var cut := Cut(bs, MAX_RE_NODES - 1);
    cut[..Min(|cut|, MAX_ALTERNATIVES)]
  }

  /** The patterns the program sees whole. */
  predicate Kept(bs: seq<Branch>) {
    0 < |bs| <= MAX_ALTERNATIVES && |PatternUnits(bs)| <= MAX_RE_NODES - 1
  }

  lemma {:induction false} SeenWhole(bs: seq<Branch>)
    requires Kept(bs)
    ensures Seen(bs) == bs
  {}

  // ----- the theorem -----

  lemma {:induction false} FirstStart(bs: seq<Branch>)
    requires |bs| > 0
    ensures Starts(bs)[0] == 0
  {
    if |bs| > 1 { FirstStart(bs[..|bs| - 1]); }
  }

  lemma {:induction false} FirstUnit(us: seq<Unit>, s: nat, b: Branch)
    requires BranchAt(us, s, b)
    ensures StartsPinned(b) <==> s < |us| && us[s] == UCheck(LineStart)
  {
    if b != [] {
      BranchAtTail(us, s, b);
      StandsAt(us, s, ItemUnits(b[0]), 0);
    }
  }

  lemma {:induction false} AnchorsMatch(bs: seq<Branch>, icase: bool)
    requires |bs| > 0
    ensures Anchored(Nodes(PatternUnits(bs), icase)) <==> StartsPinned(bs[0])
  {
    PatternBranches(bs, 0);
    FirstStart(bs);
    FirstUnit(PatternUnits(bs), 0, bs[0]);
    if |PatternUnits(bs)| > 0 { BolUnit(PatternUnits(bs)[0], icase); }
  }

  lemma {:induction false} BolUnit(u: Unit, icase: bool)
    ensures NodeOf(u, icase).Bol? <==> u == UCheck(LineStart)
  {}

  lemma {:induction false} PatternCompiles(bs: seq<Branch>, cut: seq<Branch>, extended: bool, icase: bool)
    requires |bs| > 0 && GoodPattern(bs) && cut == Cut(bs, MAX_RE_NODES - 1)
    ensures Compile(Print(bs, extended), extended, icase) == Nodes(PatternUnits(cut), icase)
    ensures GoodPattern(cut) && (StartsPinned(cut[0]) <==> StartsPinned(bs[0]))
  {
    var us := PatternUnits(bs);
    PatternUnitsGood(bs);
    TextCompiles(us, extended, icase);
    if |us| <= MAX_RE_NODES - 1 {
      assert us[..|us|] == us;
    } else {
      CutUnits(bs, MAX_RE_NODES - 1);
    }
  }

  /** The pattern fits the line nowhere, or already where it starts. */
  ghost predicate StartOrNowhere(bs: seq<Branch>, line: seq<Byte>, icase: bool) {
    !NoneFits(bs, |bs|, line, 0, icase) || forall t: nat :: t <= |line| ==> NoneFits(bs, |bs|, line, t, icase)
  }

  lemma {:induction false} SearchFront(bs: seq<Branch>, line: seq<Byte>, icase: bool)
    requires |bs| > 0 && GoodPattern(bs) && |line| <= INT_MAX
    ensures LeftmostTo(bs[..Min(|bs|, MAX_ALTERNATIVES)], line, if StartsPinned(bs[0]) then 0 else |line|, icase,
                       Search(Nodes(PatternUnits(bs), icase), line, icase))
  {
    var nodes, m := Nodes(PatternUnits(bs), icase), Min(|bs|, MAX_ALTERNATIVES);
    PatternStarts(bs, icase);
    assert AltStarts(nodes) == Starts(bs)[..m];
    AnchorsMatch(bs, icase);
    SearchLeftmost(nodes, line, icase);
    LeftmostTransfers(bs, m, line, if StartsPinned(bs[0]) then 0 else |line|, icase, Search(nodes, line, icase));
  }

  lemma {:induction false} SearchTo(bs: seq<Branch>, extended: bool, line: seq<Byte>, icase: bool)
    requires |bs| > 0 && GoodPattern(bs) && |line| <= INT_MAX
    ensures LeftmostTo(Seen(bs), line, if StartsPinned(bs[0]) then 0 else |line|, icase,
                       Search(Compile(Print(bs, extended), extended, icase), line, icase))
    ensures StartsPinned(Seen(bs)[0]) <==> StartsPinned(bs[0])
  {
    var cut := Cut(bs, MAX_RE_NODES - 1);
    PatternCompiles(bs, cut, extended, icase);
    SearchFront(cut, line, icase);
  }

  /**
   Print a pattern in either syntax, compile the text, search a line: the
   answer is the leftmost match of what the program sees of the pattern, by its
   first branch that fits there, with every item taking as much as it can,
   exactly when the first branch does not start with `^`, or the pattern fits
   at the start of the line, or nowhere.
   */
  lemma {:induction false} PatternSearchExact(bs: seq<Branch>, extended: bool, line: seq<Byte>, icase: bool)
    requires |bs| > 0 && GoodPattern(bs) && |line| <= INT_MAX
    ensures LeftmostMatch(Seen(bs), line, icase, Search(Compile(Print(bs, extended), extended, icase), line, icase))
       <==> !StartsPinned(bs[0]) || StartOrNowhere(Seen(bs), line, icase)
  {
    SearchTo(bs, extended, line, icase);
    LeftmostWhen(Seen(bs), line, icase, Search(Compile(Print(bs, extended), extended, icase), line, icase));
  }

  lemma {:induction false} LeftmostWhen(bs: seq<Branch>, line: seq<Byte>, icase: bool, r: Option<Span>)
    requires |bs| > 0 && LeftmostTo(bs, line, if StartsPinned(bs[0]) then 0 else |line|, icase, r)
    ensures LeftmostMatch(bs, line, icase, r) <==> !StartsPinned(bs[0]) || StartOrNowhere(bs, line, icase)
  {
    if StartsPinned(bs[0]) {
      if r.Some? {
        FoundAtStart(bs, line, icase, r);
        FoundWider(bs, line, icase, r);
      } else {
        NotFoundRight(bs, line, icase);
      }
    }
  }

  lemma {:induction false} FoundWider(bs: seq<Branch>, line: seq<Byte>, icase: bool, r: Option<Span>)
    requires r.Some? && LeftmostTo(bs, line, 0, icase, r)
    ensures LeftmostMatch(bs, line, icase, r)
  {}

  lemma {:induction false} NotFoundRight(bs: seq<Branch>, line: seq<Byte>, icase: bool)
    requires LeftmostTo(bs, line, 0, icase, None)
    ensures LeftmostMatch(bs, line, icase, None) <==> StartOrNowhere(bs, line, icase)
  {
    assert NoneFits(bs, |bs|, line, 0, icase);
  }

  lemma {:induction false} FoundAtStart(bs: seq<Branch>, line: seq<Byte>, icase: bool, r: Option<Span>)
    requires r.Some? && LeftmostTo(bs, line, 0, icase, r)
    ensures !NoneFits(bs, |bs|, line, 0, icase)
  {
    var me := r.value.me;
    var a :| 0 <= a < |bs| && NoneFits(bs, a, line, 0, icase) && BranchEnd(bs[a], line, 0, me, icase);
    assert !BranchNoFit(bs[a], line, 0, icase);
  }

  lemma {:induction false} PinnedNoFit(b: Branch, line: seq<Byte>, t: nat, icase: bool)
    requires StartsPinned(b) && 0 < t <= |line|
    ensures BranchNoFit(b, line, t, icase)
  {}

  /** With every branch it sees starting with `^`, or the first one not, the answer is right on every line. */
  lemma {:induction false} PatternSearch(bs: seq<Branch>, extended: bool, line: seq<Byte>, icase: bool)
    requires |bs| > 0 && GoodPattern(bs) && |line| <= INT_MAX
    requires StartsPinned(bs[0]) ==> forall a :: 0 <= a < |Seen(bs)| ==> StartsPinned(Seen(bs)[a])
    ensures LeftmostMatch(Seen(bs), line, icase, Search(Compile(Print(bs, extended), extended, icase), line, icase))
  {
    PatternSearchExact(bs, extended, line, icase);
    if StartsPinned(bs[0]) { PinnedStart(Seen(bs), line, icase); }
  }

  lemma {:induction false} PinnedStart(bs: seq<Branch>, line: seq<Byte>, icase: bool)
    requires forall a :: 0 <= a < |bs| ==> StartsPinned(bs[a])
    ensures StartOrNowhere(bs, line, icase)
  {
    if NoneFits(bs, |bs|, line, 0, icase) {
      forall t: nat | t <= |line| ensures NoneFits(bs, |bs|, line, t, icase) {
        if t > 0 {
          forall a | 0 <= a < |bs| ensures BranchNoFit(bs[a], line, t, icase) { PinnedNoFit(bs[a], line, t, icase); }
        }
      }
    }
  }
}
