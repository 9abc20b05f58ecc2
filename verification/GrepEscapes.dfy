/** What a backslash in front of an ordinary byte does in user/grep.c, with and without `-i`. */
module GrepEscapes {
  import opened Bytes
  import opened GrepMatch
  import opened GrepSearch
  import opened GrepCompile
  import opened GrepPattern
  import opened GrepReads
  import opened GrepTheorems

  /** The bytes of `s`, those with a mark behind a backslash they do not need. */
  function Marked(s: seq<Byte>, marks: seq<bool>): (us: seq<Unit>)
    requires |marks| == |s|
    ensures |us| == |s|
    ensures forall i :: 0 <= i < |s| ==> us[i] == if marks[i] then UEscape(s[i]) else UAtom(Char(s[i]))
  {
    seq(|s|, i requires 0 <= i < |s| => if marks[i] then UEscape(s[i]) else UAtom(Char(s[i])))
  }

  ghost predicate CanMark(s: seq<Byte>, marks: seq<bool>) {
    |marks| == |s| && CString(s) && forall i :: 0 <= i < |s| && marks[i] ==> CanEscape(s[i])
  }

  /** A capital letter among the first `n` bytes has a backslash in front of it. */
  ghost predicate EscapedCapital(s: seq<Byte>, marks: seq<bool>, n: nat)
    requires |marks| == |s|
  {
    exists i :: 0 <= i < |s| && i < n && marks[i] && IsUpper(s[i])
  }

  /** With `-i` a literal capital accepts no byte, so a list with one matches nothing. */
  lemma {:induction false} CapitalNoMatch(nodes: seq<Node>, j: nat, i: nat, line: seq<Byte>, t: nat)
    requires j <= i < |nodes| && t <= |line| && nodes[i].Literal? && IsUpper(nodes[i].ch)
    requires forall k :: 0 <= k < |nodes| ==> nodes[k].Literal?
    ensures Match(nodes, j, line, t, true) == None
    decreases i - j
  {
    if t < |line| && j < i { CapitalNoMatch(nodes, j + 1, i, line, t + 1); }
  }

  lemma {:induction false} CapitalNoSearch(nodes: seq<Node>, i: nat, line: seq<Byte>, t: nat)
    requires i < |nodes| && t <= |line| + 1 && nodes[i].Literal? && IsUpper(nodes[i].ch)
    requires forall k :: 0 <= k < |nodes| ==> nodes[k].Literal?
    ensures SearchFrom(nodes, [0], line, t, |line|, true) == None
    decreases |line| + 1 - t
  {
    if t <= |line| {
      CapitalNoMatch(nodes, 0, i, line, t);
      assert FirstAlt(nodes, [0], 0, line, t, true) == None;
      CapitalNoSearch(nodes, i, line, t + 1);
    }
  }

  lemma {:induction false} CapitalLost(nodes: seq<Node>, i: nat, line: seq<Byte>)
    requires i < |nodes| && nodes[i].Literal? && IsUpper(nodes[i].ch)
    requires forall k :: 0 <= k < |nodes| ==> nodes[k].Literal?
    ensures Search(nodes, line, true) == None
  {
    StartsSkip(nodes, 0, |nodes|);
    assert AltStarts(nodes) == [0];
    CapitalNoSearch(nodes, i, line, 0);
  }

  /**
   Searching for a string with needless backslashes: beyond 2047 bytes only the
   first 2047 count, and with `-i` a backslash in front of a capital letter
   makes the search fail on every line.
   */
  lemma {:induction false} EscapedSearch(s: seq<Byte>, marks: seq<bool>, line: seq<Byte>, extended: bool, icase: bool)
    requires CanMark(s, marks)
    ensures var k := Min(|s|, MAX_RE_NODES - 1);
            var r := Search(Compile(Text(Marked(s, marks), extended), extended, icase), line, icase);
            if icase && EscapedCapital(s, marks, k) then r == None else FirstOccurrence(s[..k], line, icase, r)
  {
    var k, us := Min(|s|, MAX_RE_NODES - 1), Marked(s, marks);
    var nodes := Nodes(us[..k], icase);
    TextCompiles(us, extended, icase);
    if icase && EscapedCapital(s, marks, k) {
      var i :| 0 <= i < |s| && i < k && marks[i] && IsUpper(s[i]);
      CapitalLost(nodes, i, line);
    } else {
      LiteralsSearch(nodes, s[..k], line, icase);
    }
  }

  /**
   The compiled form agrees with the fixed string on every line exactly when it
   has at most 2047 bytes and, with `-i`, no backslash in front of a capital letter.
   */
  lemma {:induction false} EscapedSearchExact(s: seq<Byte>, marks: seq<bool>, extended: bool, icase: bool)
    requires CanMark(s, marks)
    ensures AlwaysSearchesFor(Compile(Text(Marked(s, marks), extended), extended, icase), s, icase)
       <==> |s| <= MAX_RE_NODES - 1 && !(icase && EscapedCapital(s, marks, |s|))
  {
    var nodes := Compile(Text(Marked(s, marks), extended), extended, icase);
    var k := Min(|s|, MAX_RE_NODES - 1);
    assert s[..|s|] == s;
    if icase && EscapedCapital(s, marks, k) {
      EscapedSearch(s, marks, s, extended, icase);
      assert OccursAt(s, s, 0, icase);
      assert !SearchesFor(nodes, s, s, icase);
    } else if |s| > k {
      var line := s[..k];
      EscapedSearch(s, marks, line, extended, icase);
      assert OccursAt(line, line, 0, icase);
      assert !SearchesFor(nodes, s, line, icase);
    } else {
      forall line: seq<Byte> ensures SearchesFor(nodes, s, line, icase) {
        EscapedSearch(s, marks, line, extended, icase);
      }
    }
  }
}
