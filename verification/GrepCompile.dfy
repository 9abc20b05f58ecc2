/**
 The pattern compiler of user/grep.c: pattern text to node list, for basic and
 extended syntax.  `Lex` reads one node; `Compile` is the whole translation,
 `ReCompile` the program's loop.
 */
module GrepCompile {
  import opened Bytes
  import opened GrepMatch

  const MAX_RE_NODES := 2048
  const MAX_GROUPS := 10

  const BACKSLASH: Byte := '\\' as int
  const LBRACKET: Byte := '[' as int
  const RBRACKET: Byte := ']' as int
  const LBRACE: Byte := '{' as int
  const RBRACE: Byte := '}' as int
  const CARET: Byte := '^' as int
  const DASH: Byte := '-' as int
  const COLON: Byte := ':' as int
  const COMMA: Byte := ',' as int

  // ----- bracket expressions -----

  function ClassSet(bits: Bits, c: Byte): Bits {
    bits[c / 8 := bits[c / 8] | ((1 as bv8) << (c % 8))]
  }

  function NoBits(): Bits { seq(32, _ => 0) }

  /** Setting a byte also sets its other case under `-i`. */
  function SetFold(bits: Bits, c: Byte, icase: bool): Bits {
    var b := ClassSet(bits, c);
    if icase && IsLower(c) then ClassSet(b, c - 32)
    else if icase && IsUpper(c) then ClassSet(b, c + 32)
    else b
  }

  function SetRange(bits: Bits, lo: nat, hi: Byte, icase: bool): Bits
    decreases hi + 1 - lo
  {
    if lo > hi then bits else SetRange(SetFold(bits, lo, icase), lo + 1, hi, icase)
  }

  method RangeLoop(bits: Bits, lo: Byte, hi: Byte, icase: bool) returns (r: Bits)
    ensures r == SetRange(bits, lo, hi, icase)
  {
    r := bits;
    var c: nat := lo;
    while c <= hi
      invariant SetRange(r, c, hi, icase) == SetRange(bits, lo, hi, icase)
    {
      r := SetFold(r, c, icase);
      c := c + 1;
    }
  }

  function Ascii(s: string): (r: seq<Byte>)
    requires forall i :: 0 <= i < |s| ==> (s[i] as int) < 256
    ensures |r| == |s|
    ensures forall i :: 0 <= i < |s| ==> r[i] == s[i] as int
  {
    seq(|s|, i requires 0 <= i < |s| => s[i] as int)
  }

  predicate IsAlpha(c: int) { IsLower(c) || IsUpper(c) }
  predicate IsGraph(c: int) { 0x21 <= c <= 0x7e }

  datatype CharClass =
    Alnum | Alpha | Blank | Cntrl | Digits | Graph | Lower | Printing | Punct | Space | Upper | XDigits

  function ClassName(cl: CharClass): seq<Byte> {
    match cl
    case Alnum => Ascii("alnum") case Alpha => Ascii("alpha") case Blank => Ascii("blank")
    case Cntrl => Ascii("cntrl") case Digits => Ascii("digit") case Graph => Ascii("graph")
    case Lower => Ascii("lower") case Printing => Ascii("print") case Punct => Ascii("punct")
    case Space => Ascii("space") case Upper => Ascii("upper") case XDigits => Ascii("xdigit")
  }

  /** The class of that name. */
  function ClassOf(name: seq<Byte>): (r: Option<CharClass>)
    ensures match r case Some(cl) => ClassName(cl) == name case None => forall cl :: ClassName(cl) != name
  {
    if name == ClassName(Alnum) then Some(Alnum)
    else if name == ClassName(Alpha) then Some(Alpha)
    else if name == ClassName(Blank) then Some(Blank)
    else if name == ClassName(Cntrl) then Some(Cntrl)
    else if name == ClassName(Digits) then Some(Digits)
    else if name == ClassName(Graph) then Some(Graph)
    else if name == ClassName(Lower) then Some(Lower)
    else if name == ClassName(Printing) then Some(Printing)
    else if name == ClassName(Punct) then Some(Punct)
    else if name == ClassName(Space) then Some(Space)
    else if name == ClassName(Upper) then Some(Upper)
    else if name == ClassName(XDigits) then Some(XDigits)
    else None
  }

  /** The `<ctype.h>` tests in the C locale. */
  predicate CType(cl: CharClass, c: Byte) {
    match cl
    case Alnum => IsAlpha(c) || IsDigit(c)
    case Alpha => IsAlpha(c)
    case Blank => c == 0x20 || c == 0x09
    case Cntrl => c < 0x20 || c == 0x7f
    case Digits => IsDigit(c)
    case Graph => IsGraph(c)
    case Lower => IsLower(c)
    case Printing => IsGraph(c) || c == 0x20
    case Punct => IsGraph(c) && !IsAlpha(c) && !IsDigit(c)
    case Space => c == 0x20 || 0x09 <= c <= 0x0d
    case Upper => IsUpper(c)
    case XDigits => IsDigit(c) || 'a' as int <= c <= 'f' as int || 'A' as int <= c <= 'F' as int
  }

  /** An unknown name has no members. */
  predicate InPosixClass(name: seq<Byte>, c: Byte) {
    var cl := ClassOf(name);
    cl.Some? && CType(cl.value, c)
  }

  function SetPosix(bits: Bits, name: seq<Byte>, c: nat): Bits
    requires c <= 256
    decreases 256 - c
  {
    if c == 256 then bits
    else SetPosix(if InPosixClass(name, c) then ClassSet(bits, c) else bits, name, c + 1)
  }

  /** The first position from `i` on that holds `:` or ends the string. */
  function SkipName(p: seq<Byte>, i: nat): (j: nat)
    requires i <= |p|
    ensures i <= j <= |p|
    decreases |p| - i
  {
    if i == |p| || p[i] == COLON then i else SkipName(p, i + 1)
  }

  /** `[:name:]` at `i`: the table with the class added and the position behind it. */
  function ParsePosix(p: seq<Byte>, i: nat, bits: Bits): (r: Option<(Bits, nat)>)
    requires i <= |p|
    ensures r.Some? ==> i < r.value.1 <= |p|
  {
    if At(p, i) != LBRACKET || At(p, i + 1) != COLON then None
    else
      var j := SkipName(p, i + 2);
      if At(p, j) != COLON || At(p, j + 1) != RBRACKET then None
      else Some((SetPosix(bits, p[i + 2..j], 0), j + 2))
  }

  /** The loop that adds a named class to a bit table. */
  method PosixLoop(bits: Bits, name: seq<Byte>) returns (r: Bits)
    ensures r == SetPosix(bits, name, 0)
  {
    r := bits;
    var c: nat := 0;
    while c < 256
      invariant c <= 256 && SetPosix(r, name, c) == SetPosix(bits, name, 0)
    {
      if InPosixClass(name, c) { r := ClassSet(r, c); }
      c := c + 1;
    }
  }

  method ParsePosixClass(p: seq<Byte>, i: nat, bits: Bits) returns (r: Option<(Bits, nat)>)
    requires i <= |p|
    ensures r == ParsePosix(p, i, bits)
  {
    if At(p, i) != LBRACKET || At(p, i + 1) != COLON { return None; }
    var j := i + 2;
    while j < |p| && p[j] != COLON
      invariant i + 2 <= j <= |p| && SkipName(p, j) == SkipName(p, i + 2)
    {
      j := j + 1;
    }
    if At(p, j) != COLON || At(p, j + 1) != RBRACKET { return None; }
    var b := PosixLoop(bits, p[i + 2..j]);
    return Some((b, j + 2));
  }

  /** The members of a bracket expression from `i` on; stops at the closing bracket or the end. */
  function ParseMembers(p: seq<Byte>, i: nat, bits: Bits, first: bool, icase: bool): (r: (Bits, nat))
    requires i <= |p|
    ensures i <= r.1 <= |p|
    decreases |p| - i
  {
    if i == |p| || (p[i] == RBRACKET && !first) then (bits, i)
    else
      var posix := ParsePosix(p, i, bits);
      if posix.Some? then ParseMembers(p, posix.value.1, posix.value.0, false, icase)
      else if At(p, i + 1) == DASH && i + 2 < |p| && p[i + 2] != RBRACKET then
        ParseMembers(p, i + 3, SetRange(bits, p[i], p[i + 2], icase), false, icase)
      else ParseMembers(p, i + 1, SetFold(bits, p[i], icase), false, icase)
  }

  method MembersLoop(p: seq<Byte>, from: nat, icase: bool) returns (bits: Bits, i: nat)
    requires from <= |p|
    ensures (bits, i) == ParseMembers(p, from, NoBits(), true, icase)
  {
    bits, i := NoBits(), from;
    var first := true;
    while i < |p| && (p[i] != RBRACKET || first)
      invariant i <= |p|
      invariant ParseMembers(p, i, bits, first, icase) == ParseMembers(p, from, NoBits(), true, icase)
      decreases |p| - i
    {
      var posix := ParsePosixClass(p, i, bits);
      if posix.Some? {
        bits, i := posix.value.0, posix.value.1;
      } else if At(p, i + 1) == DASH && i + 2 < |p| && p[i + 2] != RBRACKET {
        bits := RangeLoop(bits, p[i], p[i + 2], icase);
        i := i + 3;
      } else {
        bits, i := SetFold(bits, p[i], icase), i + 1;
      }
      first := false;
    }
  }

  /** The bracket expression whose `[` is at `i`. */
  function LexClass(p: seq<Byte>, i: nat, icase: bool): (r: (Node, nat))
    requires i < |p|
    ensures i < r.1 <= |p|
  {
    var negated := At(p, i + 1) == CARET;
    var m := ParseMembers(p, if negated then i + 2 else i + 1, NoBits(), true, icase);
    (if negated then NClass(m.0) else Class(m.0), if At(p, m.1) == RBRACKET then m.1 + 1 else m.1)
  }

  method ClassLoop(p: seq<Byte>, i: nat, icase: bool) returns (n: Node, next: nat)
    requires i < |p|
    ensures (n, next) == LexClass(p, i, icase)
  {
    var negated := At(p, i + 1) == CARET;
    var bits, j := MembersLoop(p, if negated then i + 2 else i + 1, icase);
    n := if negated then NClass(bits) else Class(bits);
    next := if At(p, j) == RBRACKET then j + 1 else j;
  }

  // ----- interval expressions -----

  /** The decimal number at `i` (0 when there is no digit) and the position behind it. */
  function Number(p: seq<Byte>, i: nat, acc: nat): (r: (nat, nat))
    requires i <= |p|
    ensures i <= r.1 <= |p|
    decreases |p| - i
  {
    if i < |p| && IsDigit(p[i]) then Number(p, i + 1, acc * 10 + (p[i] - '0' as int)) else (acc, i)
  }

  method NumberLoop(p: seq<Byte>, from: nat) returns (n: nat, i: nat)
    requires from <= |p|
    ensures (n, i) == Number(p, from, 0)
  {
    n, i := 0, from;
    while i < |p| && IsDigit(p[i])
      invariant i <= |p| && Number(p, i, n) == Number(p, from, 0)
    {
      n, i := n * 10 + (p[i] - '0' as int), i + 1;
    }
  }

  /** The interval whose first byte behind the opening brace is at `i`. */
  function LexInterval(p: seq<Byte>, i: nat, extended: bool): (r: (Node, nat))
    requires i <= |p|
    ensures i <= r.1 <= |p|
  {
    var (lo, j) := Number(p, i, 0);
    var bounded := At(p, j) == COMMA && IsDigit(At(p, j + 1));
    var hi: int := if At(p, j) != COMMA then lo else if bounded then Number(p, j + 1, 0).0 else -1;
    var k: nat := if At(p, j) != COMMA then j else if bounded then Number(p, j + 1, 0).1 else j + 1;
    (Repeat(lo, hi),
     if !extended && At(p, k) == BACKSLASH && At(p, k + 1) == RBRACE then k + 2
     else if At(p, k) == RBRACE then k + 1
     else k)
  }

  method IntervalLoop(p: seq<Byte>, i: nat, extended: bool) returns (n: Node, k: nat)
    requires i <= |p|
    ensures (n, k) == LexInterval(p, i, extended)
  {
    var rmin, j := NumberLoop(p, i);
    var rmax: int := -1;
    if At(p, j) == COMMA {
      j := j + 1;
      if IsDigit(At(p, j)) {
        rmax, j := NumberLoop(p, j);
      }
    } else {
      rmax := rmin;
    }
    if !extended && At(p, j) == BACKSLASH && At(p, j + 1) == RBRACE { j := j + 2; }
    else if At(p, j) == RBRACE { j := j + 1; }
    return Repeat(rmin, rmax), j;
  }

  // ----- one node -----

  /** The counter for group numbers and the stack of open groups. */
  datatype Groups = Groups(next: nat, open: seq<nat>)

  function OpenGroup(g: Groups): (Node, Groups) {
    (GroupStart(g.next), Groups(g.next + 1, if |g.open| < MAX_GROUPS then g.open + [g.next] else g.open))
  }

  function CloseGroup(g: Groups): (Node, Groups) {
    if |g.open| > 0 then (GroupEnd(g.open[|g.open| - 1]), g.(open := g.open[..|g.open| - 1]))
    else (GroupEnd(0), g)
  }

  /** A backslash escape with the same meaning in both syntaxes. */
  function Escape(c: Byte): Node {
    if '1' as int <= c <= '9' as int then Backref(c - '0' as int)
    else if c == 'b' as int then WordBoundary
    else if c == 'B' as int then NotWordBoundary
    else if c == '<' as int then WordStart
    else if c == '>' as int then WordEnd
    else if c == 'w' as int then WordChar
    else if c == 'W' as int then NotWordChar
    else if c == 'n' as int then Literal('\n' as int)
    else if c == 't' as int then Literal('\t' as int)
    else Literal(c)
  }

  /** What an operator byte stands for once it is known to be an operator. */
  function Operator(c: Byte): Option<Node> {
    if c == '|' as int then Some(Alt)
    else if c == '?' as int then Some(Quest)
    else if c == '+' as int then Some(Plus)
    else None
  }

  function Plain(c: Byte, icase: bool): Node {
    if c == '.' as int then Dot
    else if c == CARET then Bol
    else if c == '$' as int then Eol
    else if c == '*' as int then Star
    else Literal(if icase && IsUpper(c) then c + 32 else c)
  }

  /** Does the operator set that this syntax writes unescaped (ERE) or escaped (BRE) apply at `i`? */
  predicate OperatorPosition(p: seq<Byte>, i: nat, extended: bool)
    requires i < |p|
  {
    if extended then p[i] != BACKSLASH else p[i] == BACKSLASH && i + 1 < |p|
  }

  /**
   The node at position `i`, the position behind it and the new group state;
   `None` when a trailing backslash ends the pattern.
   */
  function Lex(p: seq<Byte>, i: nat, g: Groups, extended: bool, icase: bool): (r: Option<(Node, nat, Groups)>)
    requires i < |p|
    ensures r.Some? ==> i < r.value.1 <= |p|
  {
    if p[i] == BACKSLASH && i + 1 == |p| then None
    else
      var k := if p[i] == BACKSLASH then i + 1 else i;
      var c := p[k];
      if OperatorPosition(p, i, extended) && c == '(' as int then
        var (n, g') := OpenGroup(g); Some((n, k + 1, g'))
      else if OperatorPosition(p, i, extended) && c == ')' as int then
        var (n, g') := CloseGroup(g); Some((n, k + 1, g'))
      else if OperatorPosition(p, i, extended) && c == LBRACE then
        var (n, j) := LexInterval(p, k + 1, extended); Some((n, j, g))
      else if OperatorPosition(p, i, extended) && Operator(c).Some? then
        Some((Operator(c).value, k + 1, g))
      else if p[i] == BACKSLASH then Some((Escape(c), k + 1, g))
      else if c == LBRACKET then
        var (n, j) := LexClass(p, i, icase); Some((n, j, g))
      else Some((Plain(c, icase), k + 1, g))
  }

  // ----- the compiler -----

  /** Nodes for the pattern from `i` on, given that `count` nodes exist already. */
  function CompileFrom(p: seq<Byte>, i: nat, count: nat, g: Groups, extended: bool, icase: bool): (r: seq<Node>)
    requires i <= |p|
    ensures count + |r| <= Max(count, MAX_RE_NODES - 1)
    decreases |p| - i
  {
    if i == |p| || count >= MAX_RE_NODES - 1 then []
    else
      var r := Lex(p, i, g, extended, icase);
      if r.None? then []
      else [r.value.0] + CompileFrom(p, r.value.1, count + 1, r.value.2, extended, icase)
  }

  function Compile(p: seq<Byte>, extended: bool, icase: bool): (r: seq<Node>) {
    CompileFrom(p, 0, 0, Groups(0, []), extended, icase)
  }

  lemma {:induction false} CompileStep(
    p: seq<Byte>, i: nat, nodes: seq<Node>, g: Groups, extended: bool, icase: bool, n: Node, j: nat, g': Groups)
    requires i < |p| && |nodes| < MAX_RE_NODES - 1 && Lex(p, i, g, extended, icase) == Some((n, j, g'))
    ensures j <= |p|
    ensures nodes + CompileFrom(p, i, |nodes|, g, extended, icase)
         == (nodes + [n]) + CompileFrom(p, j, |nodes + [n]|, g', extended, icase)
  {}

  method ReCompile(pattern: seq<Byte>, extended: bool, icase: bool) returns (nodes: seq<Node>)
    ensures nodes == Compile(pattern, extended, icase)
  {
    nodes := [];
    var p: nat, g := 0, Groups(0, []);
    while p < |pattern|
      invariant p <= |pattern|
      invariant nodes + CompileFrom(pattern, p, |nodes|, g, extended, icase) == Compile(pattern, extended, icase)
      decreases |pattern| - p
    {
      if |nodes| >= MAX_RE_NODES - 1 { break; }
      if pattern[p] == BACKSLASH && p + 1 == |pattern| { break; }
      var n, next, g' := LexOne(pattern, p, g, extended, icase);
      CompileStep(pattern, p, nodes, g, extended, icase, n, next, g');
      nodes, p, g := nodes + [n], next, g';
    }
  }

  /** One round of the compile loop. */
  method LexOne(p: seq<Byte>, i: nat, g: Groups, extended: bool, icase: bool)
    returns (n: Node, next: nat, g': Groups)
    requires i < |p| && !(p[i] == BACKSLASH && i + 1 == |p|)
    ensures Lex(p, i, g, extended, icase) == Some((n, next, g'))
  {
    g' := g;
    var k := if p[i] == BACKSLASH then i + 1 else i;
    next := k + 1;
    if OperatorPosition(p, i, extended) {
      if p[k] == '(' as int {
        var (start, afterOpen) := OpenGroup(g);
        return start, next, afterOpen;
      }
      if p[k] == ')' as int {
        var (end, afterClose) := CloseGroup(g);
        return end, next, afterClose;
      }
      if p[k] == LBRACE {
        n, next := IntervalLoop(p, k + 1, extended);
        return;
      }
      if Operator(p[k]).Some? {
        n := Operator(p[k]).value;
        return;
      }
    }
    if p[i] == BACKSLASH {
      n := Escape(p[k]);
    } else if p[i] == LBRACKET {
      n, next := ClassLoop(p, i, icase);
    } else {
      n := Plain(p[i], icase);
    }
  }
}
