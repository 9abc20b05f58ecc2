/**
 The backtracking matcher of user/grep.c: a flat list of nodes is matched
 against a line from a given position.  `TryMatch` is the program; `Match` is
 the function it computes.
 */
module GrepMatch {
  import opened Bytes

  const INT_MAX := 0x7fffffff

  /** The 256-bit membership table of a bracket expression, 32 bytes. */
  type Bits = b: seq<bv8> | |b| == 32 witness seq(32, _ => 0)

  datatype Node =
    | Literal(ch: Byte)
    | Dot
    | Bol
    | Eol
    | Class(bits: Bits)
    | NClass(bits: Bits)
    | Star
    | Plus
    | Quest
    | Repeat(min: nat, max: int)
    | GroupStart(id: nat)
    | GroupEnd(id: nat)
    | Alt
    | Backref(k: nat)
    | WordBoundary
    | NotWordBoundary
    | WordStart
    | WordEnd
    | WordChar
    | NotWordChar

  // ----- atoms -----

  function ClassTest(bits: Bits, c: Byte): bool {
    (bits[c / 8] >> (c % 8)) & 1 == 1
  }

  predicate IsWordChar(c: int) {
    IsLower(c) || IsUpper(c) || IsDigit(c) || c == '_' as int
  }

  predicate AtomMatch(n: Node, c: Byte, icase: bool) {
    match n
    case Literal(ch) => (if icase then ToLower(c) else c) == ch
    case Dot => c != '\n' as int
    case Class(bits) =>
      || ClassTest(bits, c)
      || (icase && IsUpper(c) && ClassTest(bits, c + 32))
      || (icase && IsLower(c) && ClassTest(bits, c - 32))
    case NClass(bits) =>
      && !ClassTest(bits, c)
      && !(icase && IsUpper(c) && ClassTest(bits, c + 32))
      && !(icase && IsLower(c) && ClassTest(bits, c - 32))
    case WordChar => IsWordChar(c)
    case NotWordChar => !IsWordChar(c)
    case _ => false
  }

  predicate IsQuant(n: Node) {
    n.Star? || n.Plus? || n.Quest? || n.Repeat?
  }

  /** The bounds the matcher reads off a quantifier node. */
  function Bounds(q: Node): (r: (nat, nat))
    requires IsQuant(q)
  {
    match q
    case Star => (0, INT_MAX)
    case Plus => (1, INT_MAX)
    case Quest => (0, 1)
    case Repeat(lo, hi) => (lo, if hi < 0 then INT_MAX else hi)
  }

  predicate IsAssertion(n: Node) {
    n.Bol? || n.Eol? || n.WordBoundary? || n.NotWordBoundary? || n.WordStart? || n.WordEnd?
  }

  /** Groups and back-references are passed through without any effect. */
  predicate IsTransparent(n: Node) {
    n.GroupStart? || n.GroupEnd? || n.Backref?
  }

  predicate Holds(n: Node, line: seq<Byte>, t: nat)
    requires t <= |line|
  {
    var pw := t > 0 && IsWordChar(line[t - 1]);
    var cw := t < |line| && IsWordChar(line[t]);
    match n
    case Bol => t == 0
    case Eol => t == |line|
    case WordBoundary => pw != cw
    case NotWordBoundary => pw == cw
    case WordStart => !pw && cw
    case WordEnd => pw && !cw
    case _ => false
  }

  // ----- the matcher, as a function -----

  /** The greedy run: how many bytes from `t` on match atom `n`, at most `hi`. */
  function Run(n: Node, line: seq<Byte>, t: nat, hi: nat, icase: bool): (k: nat)
    requires t <= |line|
    ensures t + k <= |line|
    ensures k <= hi
    ensures forall j :: t <= j < t + k ==> AtomMatch(n, line[j], icase)
    ensures k < hi && t + k < |line| ==> !AtomMatch(n, line[t + k], icase)
    decreases |line| - t
  {
    if 0 < hi && t < |line| && AtomMatch(n, line[t], icase)
    then 1 + Run(n, line, t + 1, hi - 1, icase)
    else 0
  }

  /** Match the nodes from `ni` on at position `t`; the end position on success. */
  function Match(nodes: seq<Node>, ni: nat, line: seq<Byte>, t: nat, icase: bool): (r: Option<nat>)
    requires ni <= |nodes| && t <= |line|
    ensures r.Some? ==> t <= r.value <= |line|
    decreases |nodes| - ni, 0, 0
  {
    if ni == |nodes| || nodes[ni].Alt? then Some(t)
    else if ni + 1 < |nodes| && IsQuant(nodes[ni + 1]) then
      var (lo, hi) := Bounds(nodes[ni + 1]);
      Backtrack(nodes, ni + 2, line, t, Run(nodes[ni], line, t, hi, icase), lo, icase)
    else if IsAssertion(nodes[ni]) then
      if Holds(nodes[ni], line, t) then Match(nodes, ni + 1, line, t, icase) else None
    else if IsTransparent(nodes[ni]) then Match(nodes, ni + 1, line, t, icase)
    else if t < |line| && AtomMatch(nodes[ni], line[t], icase) then
      Match(nodes, ni + 1, line, t + 1, icase)
    else None
  }

  /** Give back one repetition at a time, from `i` down to `lo`. */
  function Backtrack(nodes: seq<Node>, nj: nat, line: seq<Byte>, t: nat, i: int, lo: nat, icase: bool)
    : (r: Option<nat>)
    requires nj <= |nodes| && -1 <= i && t + i <= |line|
    requires 0 <= t <= |line|
    ensures r.Some? ==> t + lo <= r.value <= |line|
    decreases |nodes| - nj, 1, i + 1
  {
    if i < lo then None
    else
      var r := Match(nodes, nj, line, t + i, icase);
      if r.Some? then r else Backtrack(nodes, nj, line, t, i - 1, lo, icase)
  }

  /** Take as many bytes as the atom and the bound allow. */
  method GreedyRun(n: Node, line: seq<Byte>, text: nat, rmax: nat, icase: bool) returns (count: nat)
    requires text <= |line|
    ensures count == Run(n, line, text, rmax, icase)
  {
    var t := text;
    count := 0;
    while count < rmax && t < |line|
      invariant t == text + count <= |line| && count <= rmax
      invariant count + Run(n, line, t, rmax - count, icase) == Run(n, line, text, rmax, icase)
    {
      if !AtomMatch(n, line[t], icase) { break; }
      t, count := t + 1, count + 1;
    }
  }

  /** The program: a loop over the nodes with a recursive call per tried repetition count. */
  method TryMatch(nodes: seq<Node>, start: nat, line: seq<Byte>, from: nat, icase: bool)
    returns (r: Option<nat>)
    requires start <= |nodes| && from <= |line|
    ensures r == Match(nodes, start, line, from, icase)
    decreases |nodes| - start, 0
  {
    var ni: nat, text: nat := start, from;
    while true
      invariant start <= ni <= |nodes| && text <= |line|
      invariant Match(nodes, ni, line, text, icase) == Match(nodes, start, line, from, icase)
      decreases |nodes| - ni
    {
      if ni >= |nodes| || nodes[ni].Alt? {
        return Some(text);
      }
      var n, next := nodes[ni], ni + 1;
      if next < |nodes| && IsQuant(nodes[next]) {
        var (rmin, rmax) := Bounds(nodes[next]);
        var count := GreedyRun(n, line, text, rmax, icase);
        r := TryCounts(nodes, next + 1, line, text, count, rmin, icase);
        return;
      }
      if IsAssertion(n) {
        if !Holds(n, line, text) { return None; }
        ni := next;
      } else if IsTransparent(n) {
        ni := next;
      } else {
        if text >= |line| || !AtomMatch(n, line[text], icase) { return None; }
        ni, text := next, text + 1;
      }
    }
  }

  /** The backtracking loop: fewer and fewer repetitions, down to the lower bound. */
  method TryCounts(nodes: seq<Node>, nj: nat, line: seq<Byte>, text: nat, count: nat, rmin: nat, icase: bool)
    returns (r: Option<nat>)
    requires nj <= |nodes| && text + count <= |line|
    ensures r == Backtrack(nodes, nj, line, text, count, rmin, icase)
    decreases |nodes| - nj, 1
  {
    var i := count;
    while i >= rmin
      invariant -1 <= i <= count
      invariant Backtrack(nodes, nj, line, text, i, rmin, icase) == Backtrack(nodes, nj, line, text, count, rmin, icase)
    {
      r := TryMatch(nodes, nj, line, text + i, icase);
      if r.Some? { return; }
      i := i - 1;
    }
    return None;
  }
}
