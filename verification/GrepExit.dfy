/** What the early exit for a leading `^` costs in user/grep.c. */
module GrepExit {
  import opened Bytes
  import opened GrepMatch
  import opened GrepSearch
  import opened GrepCompile
  import opened GrepPattern
  import opened GrepReads
  import opened GrepTheorems

  // ----- alternatives that take something -----

  /** One branch: items, perhaps behind a `^`. */
  datatype Alternative = Alternative(pinned: bool, items: Branch)

  function BranchOf(alt: Alternative): Branch { (if alt.pinned then [Check(LineStart)] else []) + alt.items }

  function Branches(alts: seq<Alternative>): (bs: seq<Branch>)
    ensures |bs| == |alts| && forall a :: 0 <= a < |alts| ==> bs[a] == BranchOf(alts[a])
  {
    seq(|alts|, a requires 0 <= a < |alts| => BranchOf(alts[a]))
  }

  /** The smallest number of bytes a quantified atom takes. */
  function Least(q: Quant): nat {
    match q
    case Once => 1
    case Many => 0
    case Some1 => 1
    case Optional => 0
    case Times(lo, hi) => lo
  }

  /** The item takes at least one byte, and some line has what it takes. */
  ghost predicate Solid(it: Item, icase: bool) {
    it.Take? && Least(it.q) > 0 && InQuant(it.q, Least(it.q)) && exists c: Byte :: InAtom(it.a, c, icase)
  }

  ghost predicate AllSolid(b: Branch, icase: bool) { forall i :: 0 <= i < |b| ==> Solid(b[i], icase) }

  ghost function Example(it: Item, icase: bool): (s: seq<Byte>)
    requires Solid(it, icase)
    ensures |s| == Least(it.q) && forall i :: 0 <= i < |s| ==> InAtom(it.a, s[i], icase)
  {
    var c: Byte :| InAtom(it.a, c, icase);
    seq(Least(it.q), _ => c)
  }

  /** A text that the items match, taking as little as they can. */
  ghost function Sample(b: Branch, icase: bool): seq<Byte>
    requires AllSolid(b, icase)
  {
    if b == [] then [] else Example(b[0], icase) + Sample(b[1..], icase)
  }

  ghost function Leasts(b: Branch, icase: bool): seq<nat>
    requires AllSolid(b, icase)
  {
    if b == [] then [] else [Least(b[0].q)] + Leasts(b[1..], icase)
  }

  lemma {:induction false} ItemSampleFits(it: Item, line: seq<Byte>, t: nat, icase: bool)
    requires Solid(it, icase) && Stands(line, t, Example(it, icase))
    ensures ItemFits(it, line, t, Least(it.q), icase)
  {
    forall j | t <= j < t + Least(it.q) ensures InAtom(it.a, line[j], icase) {
      StandsAt(line, t, Example(it, icase), j - t);
    }
  }

  lemma {:induction false} SampleFits(b: Branch, line: seq<Byte>, t: nat, icase: bool)
    requires AllSolid(b, icase) && Stands(line, t, Sample(b, icase))
    ensures BranchFits(b, Leasts(b, icase), line, t, icase)
    decreases |b|
  {
    if b != [] {
      StandsSplit(line, t, Example(b[0], icase), Sample(b[1..], icase));
      ItemSampleFits(b[0], line, t, icase);
      assert Leasts(b, icase)[1..] == Leasts(b[1..], icase);
      SampleFits(b[1..], line, t + Least(b[0].q), icase);
    }
  }

  lemma {:induction false} EmptyFits(alt: Alternative, line: seq<Byte>, icase: bool)
    requires alt.items == []
    ensures !BranchNoFit(BranchOf(alt), line, 0, icase)
  {
    var b := BranchOf(alt);
    if alt.pinned {
      assert b[1..] == [];
      assert BranchFits(b[1..], [0][1..], line, 0, icase);
      assert BranchFits(b, [0], line, 0, icase);
    } else {
      assert BranchFits(b, [], line, 0, icase);
    }
  }

  /** Items that take something do not fit in front of a byte that the first of them does not accept. */
  lemma {:induction false} FirstRefuses(b: Branch, line: seq<Byte>, t: nat, icase: bool, ks: seq<nat>)
    requires b != [] && Solid(b[0], icase) && t < |line| && !InAtom(b[0].a, line[t], icase)
    ensures !BranchFits(b, ks, line, t, icase)
  {}

  lemma {:induction false} NoneAtStart(alt: Alternative, line: seq<Byte>, icase: bool)
    requires alt.items != [] && Solid(alt.items[0], icase) && line != [] && !InAtom(alt.items[0].a, line[0], icase)
    ensures BranchNoFit(BranchOf(alt), line, 0, icase)
  {
    var b := BranchOf(alt);
    forall ks ensures !BranchFits(b, ks, line, 0, icase) {
      if alt.pinned {
        assert b[1..] == alt.items;
        if BranchFits(b, ks, line, 0, icase) { FirstRefuses(alt.items, line, 0, icase, ks[1..]); }
      } else {
        assert b == alt.items;
        FirstRefuses(alt.items, line, 0, icase, ks);
      }
    }
  }

  /** No alternative's first item accepts byte `x`. */
  ghost predicate Free(alts: seq<Alternative>, x: Byte, icase: bool) {
    forall a :: 0 <= a < |alts| ==> !FirstAccepts(alts[a].items, x, icase)
  }

  ghost predicate FirstAccepts(b: Branch, x: Byte, icase: bool) { b != [] && b[0].Take? && InAtom(b[0].a, x, icase) }

  /** Behind such a byte, what an unpinned alternative matches is lost. */
  lemma {:induction false} ExitLoses(alts: seq<Alternative>, u: nat, x: Byte, icase: bool, line: seq<Byte>)
    requires forall a :: 0 <= a < |alts| ==> AllSolid(alts[a].items, icase) && alts[a].items != []
    requires Free(alts, x, icase) && u < |alts| && !alts[u].pinned && line == [x] + Sample(alts[u].items, icase)
    ensures !StartOrNowhere(Branches(alts), line, icase)
  {
    var bs := Branches(alts);
    forall a | 0 <= a < |alts| ensures BranchNoFit(bs[a], line, 0, icase) {
      assert !FirstAccepts(alts[a].items, x, icase) && Solid(alts[a].items[0], icase);
      NoneAtStart(alts[a], line, icase);
    }
    SampleFits(alts[u].items, line, 1, icase);
    assert bs[u] == alts[u].items;
    assert !BranchNoFit(bs[u], line, 1, icase);
    assert !NoneFits(bs, |bs|, line, 1, icase);
  }

  // ----- when the search is right on every line -----

  ghost predicate AlwaysLeftmost(bs: seq<Branch>, extended: bool, icase: bool)
    requires |bs| > 0
  {
    forall line: seq<Byte> :: |line| <= INT_MAX ==>
      LeftmostMatch(bs, line, icase, Search(Compile(Print(bs, extended), extended, icase), line, icase))
  }

  predicate AllPinned(alts: seq<Alternative>) { forall a :: 0 <= a < |alts| ==> alts[a].pinned }
  predicate SomeEmpty(alts: seq<Alternative>) { exists a :: 0 <= a < |alts| && alts[a].items == [] }

  ghost predicate AllShort(alts: seq<Alternative>, icase: bool)
    requires forall a :: 0 <= a < |alts| ==> AllSolid(alts[a].items, icase)
  {
    forall a :: 0 <= a < |alts| ==> |Sample(alts[a].items, icase)| < INT_MAX
  }

  /**
   Alternatives of atoms taken at least once, whose first atoms leave some byte
   free: the search finds the leftmost match on every line exactly when the
   first is not behind a `^`, or all are, or one is empty.
   */
  lemma {:induction false} AlternativesExact(alts: seq<Alternative>, x: Byte, extended: bool, icase: bool)
    requires GoodPattern(Branches(alts)) && Kept(Branches(alts))
    requires forall a :: 0 <= a < |alts| ==> AllSolid(alts[a].items, icase)
    requires Free(alts, x, icase) && AllShort(alts, icase)
    ensures AlwaysLeftmost(Branches(alts), extended, icase) <==> !alts[0].pinned || AllPinned(alts) || SomeEmpty(alts)
  {
    var bs := Branches(alts);
    if !alts[0].pinned || AllPinned(alts) || SomeEmpty(alts) {
      forall line: seq<Byte> | |line| <= INT_MAX
        ensures LeftmostMatch(bs, line, icase, Search(Compile(Print(bs, extended), extended, icase), line, icase))
      {
        AlternativesSearch(alts, extended, line, icase);
      }
    } else {
      var u :| 0 <= u < |alts| && !alts[u].pinned;
      AlternativesLose(alts, u, x, extended, icase);
    }
  }

  lemma {:induction false} AlternativesLose(alts: seq<Alternative>, u: nat, x: Byte, extended: bool, icase: bool)
    requires GoodPattern(Branches(alts)) && Kept(Branches(alts))
    requires forall a :: 0 <= a < |alts| ==> AllSolid(alts[a].items, icase)
    requires Free(alts, x, icase) && AllShort(alts, icase) && alts[0].pinned && !SomeEmpty(alts)
    requires u < |alts| && !alts[u].pinned
    ensures !AlwaysLeftmost(Branches(alts), extended, icase)
  {
    var line := [x] + Sample(alts[u].items, icase);
    ExitLoses(alts, u, x, icase, line);
    NotAlways(Branches(alts), extended, line, icase);
  }

  lemma {:induction false} NotAlways(bs: seq<Branch>, extended: bool, line: seq<Byte>, icase: bool)
    requires GoodPattern(bs) && Kept(bs) && StartsPinned(bs[0]) && |line| <= INT_MAX && !StartOrNowhere(bs, line, icase)
    ensures !AlwaysLeftmost(bs, extended, icase)
  {
    SeenWhole(bs);
    PatternSearchExact(bs, extended, line, icase);
  }

  lemma {:induction false} AlternativesSearch(alts: seq<Alternative>, extended: bool, line: seq<Byte>, icase: bool)
    requires GoodPattern(Branches(alts)) && Kept(Branches(alts)) && |line| <= INT_MAX
    requires forall a :: 0 <= a < |alts| ==> AllSolid(alts[a].items, icase)
    requires !alts[0].pinned || AllPinned(alts) || SomeEmpty(alts)
    ensures LeftmostMatch(Branches(alts), line, icase,
                          Search(Compile(Print(Branches(alts), extended), extended, icase), line, icase))
  {
    var bs := Branches(alts);
    if SomeEmpty(alts) {
      var a :| 0 <= a < |alts| && alts[a].items == [];
      EmptyFits(alts[a], line, icase);
      assert !NoneFits(bs, |bs|, line, 0, icase);
      SeenWhole(bs);
      PatternSearchExact(bs, extended, line, icase);
    } else {
      assert StartsPinned(bs[0]) <==> alts[0].pinned by { assert Solid(alts[0].items[0], icase); }
      SeenWhole(bs);
      PatternSearch(bs, extended, line, icase);
    }
  }

  // ----- words -----

  /** A literal word, perhaps behind a `^`. */
  datatype Word = Word(pinned: bool, text: seq<Byte>)

  function Chars(w: seq<Byte>): (b: Branch)
    ensures |b| == |w| && forall i :: 0 <= i < |w| ==> b[i] == Take(Char(w[i]), Once)
  {
    seq(|w|, i requires 0 <= i < |w| => Take(Char(w[i]), Once))
  }

  function Spelt(ws: seq<Word>): (alts: seq<Alternative>)
    ensures |alts| == |ws| && forall a :: 0 <= a < |ws| ==> alts[a] == Alternative(ws[a].pinned, Chars(ws[a].text))
  {
    seq(|ws|, a requires 0 <= a < |ws| => Alternative(ws[a].pinned, Chars(ws[a].text)))
  }

  lemma {:induction false} CharsUnits(w: seq<Byte>)
    ensures |BranchUnits(Chars(w))| == |w|
  {
    if w != [] {
      assert Chars(w)[1..] == Chars(w[1..]);
      CharsUnits(w[1..]);
    }
  }

  lemma {:induction false} CharsSolid(w: seq<Byte>, icase: bool)
    ensures AllSolid(Chars(w), icase) && |Sample(Chars(w), icase)| == |w|
  {
    forall i | 0 <= i < |w| ensures Solid(Chars(w)[i], icase) { assert InAtom(Char(w[i]), w[i], icase); }
    if w != [] {
      assert Chars(w)[1..] == Chars(w[1..]);
      CharsSolid(w[1..], icase);
    }
  }

  /** Fewer than `n` bytes leave one of `n` unused. */
  lemma {:induction false} Unused(s: seq<Byte>, lo: nat, n: nat) returns (x: nat)
    requires |s| < n
    ensures lo <= x < lo + n && x !in s
    decreases n
  {
    if lo !in s {
      x := lo;
    } else {
      var i :| 0 <= i < |s| && s[i] == lo;
      var rest := s[..i] + s[i + 1..];
      x := Unused(rest, lo + 1, n - 1);
      forall j | 0 <= j < |s| ensures s[j] != x {
        if j < i {
          assert s[j] == rest[j];
        } else if j > i {
          assert s[j] == rest[j - 1];
        }
      }
    }
  }

  function FirstBytes(ws: seq<Word>): (s: seq<Byte>)
    ensures |s| == |ws| && forall a :: 0 <= a < |ws| && ws[a].text != [] ==> s[a] == ws[a].text[0]
  {
    seq(|ws|, a requires 0 <= a < |ws| => if ws[a].text == [] then 0 else ws[a].text[0])
  }

  /** At most 64 words leave some byte free. */
  lemma {:induction false} WordsFree(ws: seq<Word>, icase: bool) returns (x: Byte)
    requires |ws| <= MAX_ALTERNATIVES
    ensures forall a :: 0 <= a < |ws| ==> AllSolid(Spelt(ws)[a].items, icase)
    ensures Free(Spelt(ws), x, icase)
  {
    forall a | 0 <= a < |ws| ensures AllSolid(Spelt(ws)[a].items, icase) { CharsSolid(ws[a].text, icase); }
    x := Unused(FirstBytes(ws), 128, 128);
    forall a | 0 <= a < |ws| ensures !FirstAccepts(Spelt(ws)[a].items, x, icase) { assert FirstBytes(ws)[a] != x; }
  }

  lemma {:induction false} WordsKept(ws: seq<Word>, icase: bool)
    requires Kept(Branches(Spelt(ws))) && forall a :: 0 <= a < |ws| ==> AllSolid(Spelt(ws)[a].items, icase)
    ensures AllShort(Spelt(ws), icase)
  {
    var alts, bs := Spelt(ws), Branches(Spelt(ws));
    forall a | 0 <= a < |ws| ensures |Sample(alts[a].items, icase)| < INT_MAX {
      PatternBranches(bs, a);
      CharsSolid(ws[a].text, icase);
      CharsUnits(ws[a].text);
      if ws[a].pinned {
        assert bs[a][1..] == Chars(ws[a].text);
      } else {
        assert bs[a] == Chars(ws[a].text);
      }
    }
  }

  /**
   Alternatives of words: the search finds the leftmost match on every line
   exactly when the first is not behind a `^`, or all are, or one is empty.
   */
  lemma {:induction false} WordsExact(ws: seq<Word>, extended: bool, icase: bool)
    requires GoodPattern(Branches(Spelt(ws))) && Kept(Branches(Spelt(ws)))
    ensures AlwaysLeftmost(Branches(Spelt(ws)), extended, icase)
       <==> || !ws[0].pinned
            || (forall a :: 0 <= a < |ws| ==> ws[a].pinned)
            || exists a :: 0 <= a < |ws| && ws[a].text == []
  {
    var alts := Spelt(ws);
    var x := WordsFree(ws, icase);
    WordsKept(ws, icase);
    AlternativesExact(alts, x, extended, icase);
    SpeltSame(ws);
  }

  lemma {:induction false} SpeltSame(ws: seq<Word>)
    ensures AllPinned(Spelt(ws)) <==> forall a :: 0 <= a < |ws| ==> ws[a].pinned
    ensures SomeEmpty(Spelt(ws)) <==> exists a :: 0 <= a < |ws| && ws[a].text == []
  {
    var alts := Spelt(ws);
    forall a | 0 <= a < |ws| ensures alts[a].pinned == ws[a].pinned && (alts[a].items == [] <==> ws[a].text == []) {}
  }

  // ----- two patterns that lose a match -----

  lemma {:induction false} TwoUnits(a: Unit, b: Unit, text: Unit -> seq<Byte>)
    ensures Spelled([a, b], text) == text(a) + text(b)
  {
    assert [a, b][1..] == [b] && [b][1..] == [];
    assert Spelled([b], text) == text(b) + Spelled([], text);
  }

  lemma {:induction false} ThreeUnits(a: Unit, b: Unit, c: Unit, text: Unit -> seq<Byte>)
    ensures Spelled([a, b, c], text) == text(a) + (text(b) + text(c))
  {
    assert [a, b, c][1..] == [b, c];
    TwoUnits(b, c, text);
  }

  lemma {:induction false} CaretBranchText(us: seq<Unit>)
    requires us == [UCheck(LineStart), UAtom(Char('a' as int)), UBar, UAtom(Char('b' as int))]
    ensures Text(us, true) == Ascii("^a|b")
  {
    assert us[1..] == [us[1], us[2], us[3]];
    ThreeUnits(us[1], us[2], us[3], UnitWriter(true));
  }

  lemma {:induction false} CaretBranchCompiles()
    ensures Compile(Ascii("^a|b"), true, false) == [Bol, Literal('a' as int), Alt, Literal('b' as int)]
  {
    var us := [UCheck(LineStart), UAtom(Char('a' as int)), UBar, UAtom(Char('b' as int))];
    CaretBranchText(us);
    TextCompiles(us, true, false);
    assert us[..4] == us;
  }

  lemma {:induction false} CaretStarCompiles()
    ensures Compile(Ascii("^*b"), true, false) == [Bol, Star, Literal('b' as int)]
  {
    var us := [UCheck(LineStart), UQuant(Many), UAtom(Char('b' as int))];
    ThreeUnits(us[0], us[1], us[2], UnitWriter(true));
    assert Text(us, true) == Ascii("^*b");
    TextCompiles(us, true, false);
    assert us[..3] == us;
  }

  lemma {:induction false} TwoBranches(nodes: seq<Node>)
    requires |nodes| == 4 && nodes[2].Alt?
    requires forall i :: 0 <= i < 4 && i != 2 ==> nodes[i].Bol? || nodes[i].Literal?
    ensures AltStarts(nodes) == [0, 3]
  {
    assert AllStarts(nodes, 1) == [0];
    assert AllStarts(nodes, 2) == [0];
    assert Depth(nodes, 2) == Depth(nodes, 1) == 0;
    assert AllStarts(nodes, 3) == [0, 3];
  }

  /** `^a|b` on "xb": with a second branch the early exit loses a match that is there. */
  lemma {:induction false} EarlyExitLosesBranch()
    ensures var nodes, line := Compile(Ascii("^a|b"), true, false), Ascii("xb");
            && Search(nodes, line, false) == None
            && SearchFrom(nodes, AltStarts(nodes), line, 0, 2, false) == Some(Span(1, 2))
  {
    CaretBranchCompiles();
    LosesBranch(Compile(Ascii("^a|b"), true, false), Ascii("xb"));
  }

  lemma {:induction false} LosesBranch(nodes: seq<Node>, line: seq<Byte>)
    requires nodes == [Bol, Literal('a' as int), Alt, Literal('b' as int)] && line == ['x' as int, 'b' as int]
    ensures Search(nodes, line, false) == None
    ensures SearchFrom(nodes, AltStarts(nodes), line, 0, 2, false) == Some(Span(1, 2))
  {
    TwoBranches(nodes);
    assert Match(nodes, 1, line, 0, false) == None;
    assert Match(nodes, 0, line, 0, false) == None;
    assert Match(nodes, 3, line, 0, false) == None;
    assert Match(nodes, 0, line, 1, false) == None;
    assert Match(nodes, 3, line, 1, false) == Match(nodes, 4, line, 2, false) == Some(2);
    assert FirstAlt(nodes, [0, 3], 0, line, 0, false) == None;
    assert FirstAlt(nodes, [0, 3], 0, line, 1, false) == Some(2);
  }

  /** `^*b` on "xb": under a quantifier the leading `^` may match zero times, anywhere. */
  lemma {:induction false} EarlyExitLosesQuantified()
    ensures var nodes, line := Compile(Ascii("^*b"), true, false), Ascii("xb");
            && Search(nodes, line, false) == None
            && SearchFrom(nodes, AltStarts(nodes), line, 0, 2, false) == Some(Span(1, 2))
  {
    CaretStarCompiles();
    LosesQuantified(Compile(Ascii("^*b"), true, false), Ascii("xb"));
  }

  lemma {:induction false} LosesQuantified(nodes: seq<Node>, line: seq<Byte>)
    requires nodes == [Bol, Star, Literal('b' as int)] && line == ['x' as int, 'b' as int]
    ensures Search(nodes, line, false) == None
    ensures SearchFrom(nodes, AltStarts(nodes), line, 0, 2, false) == Some(Span(1, 2))
  {
    assert AltStarts(nodes) == [0] by {
      assert AllStarts(nodes, 1) == [0];
      assert AllStarts(nodes, 2) == [0];
    }
    assert Match(nodes, 2, line, 0, false) == None && Match(nodes, 2, line, 1, false) == Some(2);
    assert Backtrack(nodes, 2, line, 0, 0, 0, false) == None;
    assert Backtrack(nodes, 2, line, 1, 0, 0, false) == Some(2);
    assert Match(nodes, 0, line, 0, false) == None && Match(nodes, 0, line, 1, false) == Some(2);
    assert FirstAlt(nodes, [0], 0, line, 0, false) == None;
    assert FirstAlt(nodes, [0], 0, line, 1, false) == Some(2);
  }
}
