/**
 Searching a line in user/grep.c: the regular-expression search with top-level
 alternation and the anchored early exit, and the fixed-string search.
 */
module GrepSearch {
  import opened Bytes
  import opened GrepMatch
  import opened GrepMeaning

  const MAX_ALTERNATIVES := 64

  datatype Span = Span(ms: nat, me: nat)

  // ----- top-level alternatives -----

  /** Group nesting in front of node `i`; stray closings make it negative. */
  function Depth(nodes: seq<Node>, i: nat): int
    requires i <= |nodes|
  {
    if i == 0 then 0
    else Depth(nodes, i - 1) + (if nodes[i - 1].GroupStart? then 1 else if nodes[i - 1].GroupEnd? then -1 else 0)
  }

  predicate IsStart(nodes: seq<Node>, s: nat)
    requires s <= |nodes|
  {
    s == 0 || (nodes[s - 1].Alt? && Depth(nodes, s - 1) == 0)
  }

  /** All branch starts among the first `i` nodes, in order. */
  function AllStarts(nodes: seq<Node>, i: nat): (r: seq<nat>)
    requires i <= |nodes|
    ensures |r| >= 1
    ensures forall k :: 0 <= k < |r| ==> r[k] <= i
  {
    if i == 0 then [0]
    else if IsStart(nodes, i) then AllStarts(nodes, i - 1) + [i]
    else AllStarts(nodes, i - 1)
  }

  /** Exactly the start of the pattern and the nodes behind top-level bars, each once, in order. */
  lemma {:induction false} AllStartsExact(nodes: seq<Node>, i: nat)
    requires i <= |nodes|
    ensures var r := AllStarts(nodes, i);
            && (forall s: nat :: s in r <==> s <= i && IsStart(nodes, s))
            && (forall j, k :: 0 <= j < k < |r| ==> r[j] < r[k])
  {
    if i > 0 { AllStartsExact(nodes, i - 1); }
  }

  /** The branch starts the search looks at: the first 64. */
  function AltStarts(nodes: seq<Node>): (r: seq<nat>)
    ensures ValidStarts(nodes, r)
  {
    var all := AllStarts(nodes, |nodes|);
    all[..Min(|all|, MAX_ALTERNATIVES)]
  }

  method FindAltStarts(nodes: seq<Node>) returns (starts: seq<nat>)
    ensures starts == AltStarts(nodes)
  {
    starts := [0];
    var depth := 0;
    for i := 0 to |nodes|
      invariant depth == Depth(nodes, i)
      invariant starts == AllStarts(nodes, i)[..Min(|AllStarts(nodes, i)|, MAX_ALTERNATIVES)]
    {
      if nodes[i].GroupStart? {
        depth := depth + 1;
      } else if nodes[i].GroupEnd? {
        depth := depth - 1;
      } else if nodes[i].Alt? && depth == 0 {
        if |starts| < MAX_ALTERNATIVES { starts := starts + [i + 1]; }
      }
    }
  }

  predicate ValidStarts(nodes: seq<Node>, starts: seq<nat>) {
    forall a :: 0 <= a < |starts| ==> starts[a] <= |nodes|
  }

  // ----- the search as a function -----

  /** The end of the match of the first branch, from the `a`-th on, that matches at `t`. */
  function FirstAlt(nodes: seq<Node>, starts: seq<nat>, a: nat, line: seq<Byte>, t: nat, icase: bool)
    : (r: Option<nat>)
    requires ValidStarts(nodes, starts) && a <= |starts| && t <= |line|
    ensures r.Some? ==> t <= r.value <= |line|
    decreases |starts| - a
  {
    if a == |starts| then None
    else
      var r := Match(nodes, starts[a], line, t, icase);
      if r.Some? then r else FirstAlt(nodes, starts, a + 1, line, t, icase)
  }

  function SearchFrom(nodes: seq<Node>, starts: seq<nat>, line: seq<Byte>, t: nat, last: nat, icase: bool)
    : (r: Option<Span>)
    requires ValidStarts(nodes, starts) && t <= last + 1 && last <= |line|
    decreases last + 1 - t
  {
    if t > last then None
    else
      var e := FirstAlt(nodes, starts, 0, line, t, icase);
      if e.Some? then Some(Span(t, e.value)) else SearchFrom(nodes, starts, line, t + 1, last, icase)
  }

  predicate Anchored(nodes: seq<Node>) {
    |nodes| > 0 && nodes[0].Bol?
  }

  function Search(nodes: seq<Node>, line: seq<Byte>, icase: bool): (r: Option<Span>) {
    SearchFrom(nodes, AltStarts(nodes), line, 0, if Anchored(nodes) then 0 else |line|, icase)
  }

  /** The inner loop: the branches in turn at one position. */
  method TryAlternatives(
    nodes: seq<Node>, starts: seq<nat>, line: seq<Byte>, t: nat, icase: bool) returns (e: Option<nat>)
    requires ValidStarts(nodes, starts) && t <= |line|
    ensures e == FirstAlt(nodes, starts, 0, line, t, icase)
  {
    var a: nat := 0;
    while a < |starts|
      invariant a <= |starts|
      invariant FirstAlt(nodes, starts, a, line, t, icase) == FirstAlt(nodes, starts, 0, line, t, icase)
    {
      e := TryMatch(nodes, starts[a], line, t, icase);
      if e.Some? { return; }
      a := a + 1;
    }
    return None;
  }

  method RegexSearch(nodes: seq<Node>, line: seq<Byte>, icase: bool) returns (r: Option<Span>)
    ensures r == Search(nodes, line, icase)
  {
    var starts := FindAltStarts(nodes);
    var last := if Anchored(nodes) then 0 else |line|;
    var t: nat := 0;
    while t <= |line|
      invariant t <= last + 1 && (Anchored(nodes) ==> t == 0)
      invariant Search(nodes, line, icase) == SearchFrom(nodes, starts, line, t, last, icase)
    {
      var e := TryAlternatives(nodes, starts, line, t, icase);
      if e.Some? { return Some(Span(t, e.value)); }
      if Anchored(nodes) { break; }
      t := t + 1;
    }
    return None;
  }

  // ----- what the search means -----

  ghost predicate NoBranchFits(nodes: seq<Node>, starts: seq<nat>, n: nat, line: seq<Byte>, t: nat, icase: bool)
    requires ValidStarts(nodes, starts) && n <= |starts| && t <= |line|
  {
    forall a :: 0 <= a < n ==> NoFit(Pieces(nodes, starts[a]), line, t, icase)
  }

  /** `r` is the leftmost match in `[from, last]`, by the first branch that fits there. */
  ghost predicate Leftmost(
    nodes: seq<Node>, starts: seq<nat>, line: seq<Byte>, from: nat, last: nat, icase: bool, r: Option<Span>)
    requires ValidStarts(nodes, starts) && last <= |line|
  {
    match r
    case None => forall t :: from <= t <= last ==> NoBranchFits(nodes, starts, |starts|, line, t, icase)
    case Some(Span(ms, me)) =>
      && from <= ms <= last
      && (forall t :: from <= t < ms ==> NoBranchFits(nodes, starts, |starts|, line, t, icase))
      && exists a :: 0 <= a < |starts| && NoBranchFits(nodes, starts, a, line, ms, icase)
                     && Meaning(Pieces(nodes, starts[a]), line, ms, icase, Some(me))
  }

  lemma {:induction false} FirstAltMeaning(
    nodes: seq<Node>, starts: seq<nat>, a: nat, line: seq<Byte>, t: nat, icase: bool)
    requires ValidStarts(nodes, starts) && a <= |starts| && t <= |line|
    requires NoBranchFits(nodes, starts, a, line, t, icase)
    ensures match FirstAlt(nodes, starts, a, line, t, icase)
            case None => NoBranchFits(nodes, starts, |starts|, line, t, icase)
            case Some(e) =>
              exists b :: 0 <= b < |starts| && NoBranchFits(nodes, starts, b, line, t, icase)
                          && Meaning(Pieces(nodes, starts[b]), line, t, icase, Some(e))
    decreases |starts| - a
  {
    if a < |starts| {
      MatchMeaning(nodes, starts[a], line, t, icase);
      if Match(nodes, starts[a], line, t, icase).None? {
        FirstAltMeaning(nodes, starts, a + 1, line, t, icase);
      }
    }
  }

  lemma {:induction false} LeftmostSkip(
    nodes: seq<Node>, starts: seq<nat>, line: seq<Byte>, t: nat, last: nat, icase: bool, r: Option<Span>)
    requires ValidStarts(nodes, starts) && t <= last <= |line|
    requires NoBranchFits(nodes, starts, |starts|, line, t, icase)
    requires Leftmost(nodes, starts, line, t + 1, last, icase, r)
    ensures Leftmost(nodes, starts, line, t, last, icase, r)
  {}

  lemma {:induction false} SearchFromLeftmost(
    nodes: seq<Node>, starts: seq<nat>, line: seq<Byte>, t: nat, last: nat, icase: bool)
    requires ValidStarts(nodes, starts) && t <= last + 1 && last <= |line|
    ensures Leftmost(nodes, starts, line, t, last, icase, SearchFrom(nodes, starts, line, t, last, icase))
    decreases last + 1 - t
  {
    if t <= last {
      FirstAltMeaning(nodes, starts, 0, line, t, icase);
      if FirstAlt(nodes, starts, 0, line, t, icase).None? {
        SearchFromLeftmost(nodes, starts, line, t + 1, last, icase);
        LeftmostSkip(nodes, starts, line, t, last, icase, SearchFrom(nodes, starts, line, t + 1, last, icase));
      }
    }
  }

  /**
   Every node list and every line: the search returns the leftmost match of
   its (first 64) branches, looking only at position 0 when the list starts
   with `^`.
   */
  lemma {:induction false} SearchLeftmost(nodes: seq<Node>, line: seq<Byte>, icase: bool)
    ensures Leftmost(nodes, AltStarts(nodes), line, 0, if Anchored(nodes) then 0 else |line|, icase,
                     Search(nodes, line, icase))
  {
    SearchFromLeftmost(nodes, AltStarts(nodes), line, 0, if Anchored(nodes) then 0 else |line|, icase);
  }

  // ----- the anchored early exit -----

  /**
   The early exit gives the answer of the full search exactly when the list
   does not start with `^`, or a branch matches at the start of the line, or
   none matches anywhere.
   */
  lemma {:induction false} EarlyExitExact(nodes: seq<Node>, line: seq<Byte>, icase: bool)
    ensures var starts := AltStarts(nodes);
            var full := SearchFrom(nodes, starts, line, 0, |line|, icase);
            Search(nodes, line, icase) == full
            <==> !Anchored(nodes) || FirstAlt(nodes, starts, 0, line, 0, icase).Some? || full.None?
  {
    if Anchored(nodes) {
      var starts := AltStarts(nodes);
      assert SearchFrom(nodes, starts, line, 1, 0, icase) == None;
    }
  }

  /** The branch at `s` begins with a `^` that has to match: it is not quantified, or at least once. */
  predicate Pinned(nodes: seq<Node>, s: nat)
    requires s <= |nodes|
  {
    && s < |nodes| && nodes[s].Bol?
    && (s + 1 < |nodes| && IsQuant(nodes[s + 1]) ==> Bounds(nodes[s + 1]).0 > 0)
  }

  lemma {:induction false} PinnedMatch(nodes: seq<Node>, s: nat, line: seq<Byte>, t: nat, icase: bool)
    requires s <= |nodes| && Pinned(nodes, s) && 0 < t <= |line|
    ensures Match(nodes, s, line, t, icase) == None
  {}

  lemma {:induction false} PinnedFirstAlt(
    nodes: seq<Node>, starts: seq<nat>, a: nat, line: seq<Byte>, t: nat, icase: bool)
    requires ValidStarts(nodes, starts) && a <= |starts| && 0 < t <= |line|
    requires forall b :: 0 <= b < |starts| ==> Pinned(nodes, starts[b])
    ensures FirstAlt(nodes, starts, a, line, t, icase) == None
    decreases |starts| - a
  {
    if a < |starts| {
      PinnedMatch(nodes, starts[a], line, t, icase);
      PinnedFirstAlt(nodes, starts, a + 1, line, t, icase);
    }
  }

  lemma {:induction false} PinnedSearch(
    nodes: seq<Node>, starts: seq<nat>, line: seq<Byte>, t: nat, icase: bool)
    requires ValidStarts(nodes, starts) && 0 < t <= |line| + 1
    requires forall b :: 0 <= b < |starts| ==> Pinned(nodes, starts[b])
    ensures SearchFrom(nodes, starts, line, t, |line|, icase) == None
    decreases |line| + 1 - t
  {
    if t <= |line| {
      PinnedFirstAlt(nodes, starts, 0, line, t, icase);
      PinnedSearch(nodes, starts, line, t + 1, icase);
    }
  }

  /** The early exit never changes the answer when every branch starts with a `^` that has to match. */
  lemma {:induction false} PinnedExact(nodes: seq<Node>, line: seq<Byte>, icase: bool)
    requires forall b :: 0 <= b < |AltStarts(nodes)| ==> Pinned(nodes, AltStarts(nodes)[b])
    ensures Search(nodes, line, icase) == SearchFrom(nodes, AltStarts(nodes), line, 0, |line|, icase)
  {
    PinnedSearch(nodes, AltStarts(nodes), line, 1, icase);
    EarlyExitExact(nodes, line, icase);
  }

  // ----- case folding -----

  lemma {:induction false} FirstAltFolds(
    nodes: seq<Node>, starts: seq<nat>, k: nat, a: seq<Byte>, b: seq<Byte>, t: nat)
    requires SameUpToCase(a, b) && ValidStarts(nodes, starts) && k <= |starts| && t <= |a|
    ensures FirstAlt(nodes, starts, k, a, t, true) == FirstAlt(nodes, starts, k, b, t, true)
    decreases |starts| - k
  {
    if k < |starts| {
      MatchFolds(nodes, starts[k], a, b, t);
      FirstAltFolds(nodes, starts, k + 1, a, b, t);
    }
  }

  lemma {:induction false} SearchFromFolds(
    nodes: seq<Node>, starts: seq<nat>, a: seq<Byte>, b: seq<Byte>, t: nat, last: nat)
    requires SameUpToCase(a, b) && ValidStarts(nodes, starts) && t <= last + 1 && last <= |a|
    ensures SearchFrom(nodes, starts, a, t, last, true) == SearchFrom(nodes, starts, b, t, last, true)
    decreases last + 1 - t
  {
    if t <= last {
      FirstAltFolds(nodes, starts, 0, a, b, t);
      SearchFromFolds(nodes, starts, a, b, t + 1, last);
    }
  }

  /** With `-i`, the search gives the same answer and offsets whatever the letter case of the line. */
  lemma {:induction false} SearchFolds(nodes: seq<Node>, a: seq<Byte>, b: seq<Byte>)
    requires SameUpToCase(a, b)
    ensures Search(nodes, a, true) == Search(nodes, b, true)
  {
    SearchFromFolds(nodes, AltStarts(nodes), a, b, 0, if Anchored(nodes) then 0 else |a|);
  }

  // ----- fixed strings -----

  predicate SameByte(a: Byte, b: Byte, icase: bool) {
    if icase then ToLower(a) == ToLower(b) else a == b
  }

  predicate OccursAt(pattern: seq<Byte>, line: seq<Byte>, i: int, icase: bool) {
    && 0 <= i && i + |pattern| <= |line|
    && forall j :: 0 <= j < |pattern| ==> SameByte(line[i + j], pattern[j], icase)
  }

  /** `r` is the first occurrence of `pattern`, if there is one. */
  predicate FirstOccurrence(pattern: seq<Byte>, line: seq<Byte>, icase: bool, r: Option<Span>) {
    match r
    case None => forall i :: 0 <= i <= |line| ==> !OccursAt(pattern, line, i, icase)
    case Some(Span(ms, me)) =>
      && OccursAt(pattern, line, ms, icase) && me == ms + |pattern|
      && forall i :: 0 <= i < ms ==> !OccursAt(pattern, line, i, icase)
  }

  method FixedSearch(pattern: seq<Byte>, line: seq<Byte>, icase: bool) returns (r: Option<Span>)
    ensures FirstOccurrence(pattern, line, icase, r)
  {
    if |pattern| == 0 {
      assert OccursAt(pattern, line, 0, icase);
      return Some(Span(0, 0));
    }
    var i := 0;
    while i <= |line| - |pattern|
      invariant 0 <= i
      invariant forall k :: 0 <= k < i ==> !OccursAt(pattern, line, k, icase)
    {
      var ok, j := true, 0;
      while j < |pattern|
        invariant 0 <= j <= |pattern| && ok
        invariant forall k :: 0 <= k < j ==> SameByte(line[i + k], pattern[k], icase)
      {
        if !SameByte(line[i + j], pattern[j], icase) { ok := false; break; }
        j := j + 1;
      }
      if ok { return Some(Span(i, i + |pattern|)); }
      i := i + 1;
    }
    return None;
  }

  /** The answer is unique, and with `-i` it does not depend on letter case. */
  lemma {:induction false} FirstOccurrenceUnique(
    pattern: seq<Byte>, a: seq<Byte>, b: seq<Byte>, icase: bool, r: Option<Span>, r': Option<Span>)
    requires if icase then SameUpToCase(a, b) else a == b
    requires FirstOccurrence(pattern, a, icase, r) && FirstOccurrence(pattern, b, icase, r')
    ensures r == r'
  {
    assert forall i {:trigger OccursAt(pattern, a, i, icase)} {:trigger OccursAt(pattern, b, i, icase)} ::
        OccursAt(pattern, a, i, icase) == OccursAt(pattern, b, i, icase);
  }
}
