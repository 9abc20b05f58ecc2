/**
 Patterns as a user means them: branches of items, each an assertion or an atom
 with a quantifier, and the text that writes them in basic or extended syntax.
 The text compiles to the expected nodes, and the search over the compiled text
 returns the leftmost match in the textbook meaning of the pattern.
 */
module GrepPattern {
  import opened Bytes
  import opened GrepMatch
  import opened GrepMeaning
  import opened GrepSearch
  import opened GrepCompile
  import opened GrepClasses

  datatype Member = Single(c: Byte) | Range(lo: Byte, hi: Byte) | Named(name: seq<Byte>)
  datatype Atom = Char(c: Byte) | AnyChar | WordByte | NonWordByte | Bracket(negated: bool, members: seq<Member>)
  /** `Times(lo, -1)` has no upper bound. */
  datatype Quant = Once | Many | Some1 | Optional | Times(lo: nat, hi: int)
  datatype Mark = LineStart | LineEnd | Boundary | NoBoundary | BeginWord | EndWord
  datatype Item = Check(m: Mark) | Take(a: Atom, q: Quant)
  type Branch = seq<Item>

  // ----- members of a bracket expression -----

  function NamedText(name: seq<Byte>): seq<Byte> { [LBRACKET, COLON] + name + [COLON, RBRACKET] }

  function MemberText(m: Member): seq<Byte> {
    match m
    case Single(c) => [c]
    case Range(lo, hi) => [lo, DASH, hi]
    case Named(name) => NamedText(name)
  }

  /** A list of members, given the text of each. */
  function Joined(ms: seq<Member>, text: Member -> seq<Byte>): seq<Byte> {
    if ms == [] then [] else text(ms[0]) + Joined(ms[1..], text)
  }

  function MembersText(ms: seq<Member>): seq<Byte> { Joined(ms, MemberText) }

  function BracketOpen(negated: bool): seq<Byte> { if negated then [LBRACKET, CARET] else [LBRACKET] }

  /**
   Member `m` can be written in front of `rest`: a closing bracket only comes
   first, a single byte is not taken for a range or the start of a named class.
   */
  predicate StandsBefore(m: Member, first: bool, rest: seq<Byte>) {
    match m
    case Single(c) =>
      && c != 0 && (c != RBRACKET || first) && rest != []
      && (rest[0] == DASH ==> |rest| > 1 && rest[1] == RBRACKET)
      && !(c == LBRACKET && rest[0] == COLON)
    case Range(lo, hi) => lo != 0 && hi != 0 && (lo != RBRACKET || first) && hi != RBRACKET
    case Named(name) => COLON !in name && 0 !in name
  }

  /** Every member stands in front of the text of the others and the closing bracket. */
  predicate Orderly(ms: seq<Member>, first: bool, text: Member -> seq<Byte>, fits: (Member, bool, seq<Byte>) -> bool) {
    ms == [] ||
    (fits(ms[0], first, Joined(ms[1..], text) + [RBRACKET]) && Orderly(ms[1..], false, text, fits))
  }

  predicate GoodMembers(ms: seq<Member>, first: bool) { Orderly(ms, first, MemberText, StandsBefore) }

  // ----- well-formed patterns -----

  predicate GoodAtom(a: Atom) {
    && (a.Char? ==> a.c != 0)
    && (a.Bracket? ==>
          && |a.members| > 0 && GoodMembers(a.members, true)
          && (a.negated || (MembersText(a.members) + [RBRACKET])[0] != CARET))
  }

  predicate GoodQuant(q: Quant) { q.Times? ==> q.hi >= -1 }

  predicate GoodItem(it: Item) {
    match it
    case Check(m) => true
    case Take(a, q) => GoodAtom(a) && GoodQuant(q)
  }

  predicate GoodBranch(b: Branch) { forall i :: 0 <= i < |b| ==> GoodItem(b[i]) }

  // ----- meaning -----

  ghost predicate InMember(m: Member, c: Byte) {
    match m
    case Single(d) => c == d
    case Range(lo, hi) => lo <= c <= hi
    case Named(name) => InNamed(name, c)
  }

  ghost predicate InMembers(ms: seq<Member>, c: Byte) { exists i :: 0 <= i < |ms| && InMember(ms[i], c) }

  /** With `-i` a byte stands for both cases of a letter. */
  ghost predicate InAtom(a: Atom, c: Byte, icase: bool) {
    match a
    case Char(d) => SameByte(c, d, icase)
    case AnyChar => c != '\n' as int
    case WordByte => IsWordChar(c)
    case NonWordByte => !IsWordChar(c)
    case Bracket(negated, ms) => (InMembers(ms, c) || (icase && InMembers(ms, OtherCase(c)))) != negated
  }

  predicate InQuant(q: Quant, k: nat) {
    match q
    case Once => k == 1
    case Many => true
    case Some1 => k >= 1
    case Optional => k <= 1
    case Times(lo, hi) => lo <= k && (hi == -1 || k <= hi)
  }

  predicate AtMark(m: Mark, line: seq<Byte>, t: nat)
    requires t <= |line|
  {
    var before := t > 0 && IsWordChar(line[t - 1]);
    var after := t < |line| && IsWordChar(line[t]);
    match m
    case LineStart => t == 0
    case LineEnd => t == |line|
    case Boundary => before != after
    case NoBoundary => before == after
    case BeginWord => !before && after
    case EndWord => before && !after
  }

  ghost predicate ItemFits(it: Item, line: seq<Byte>, t: nat, k: nat, icase: bool)
    requires t <= |line|
  {
    match it
    case Check(m) => k == 0 && AtMark(m, line, t)
    case Take(a, q) => InQuant(q, k) && t + k <= |line| && forall j :: t <= j < t + k ==> InAtom(a, line[j], icase)
  }

  /** `ks` says how many bytes each item takes. */
  ghost predicate BranchFits(b: Branch, ks: seq<nat>, line: seq<Byte>, t: nat, icase: bool)
    requires t <= |line|
  {
    |ks| == |b| &&
    (b != [] ==>
       && ItemFits(b[0], line, t, ks[0], icase)
       && t + ks[0] <= |line|
       && BranchFits(b[1..], ks[1..], line, t + ks[0], icase))
  }

  ghost predicate BranchNoFit(b: Branch, line: seq<Byte>, t: nat, icase: bool)
    requires t <= |line|
  {
    forall ks :: !BranchFits(b, ks, line, t, icase)
  }

  /** `e` is where the branch ends when every item, from the left, takes as much as it can. */
  ghost predicate BranchEnd(b: Branch, line: seq<Byte>, t: nat, e: nat, icase: bool)
    requires t <= |line|
  {
    exists ks :: BranchFits(b, ks, line, t, icase) && e == t + Sum(ks)
                 && forall js :: BranchFits(b, js, line, t, icase) ==> LexLe(js, ks)
  }

  ghost predicate NoneFits(bs: seq<Branch>, n: nat, line: seq<Byte>, t: nat, icase: bool)
    requires n <= |bs| && t <= |line|
  {
    forall a :: 0 <= a < n ==> BranchNoFit(bs[a], line, t, icase)
  }

  /** `r` is the leftmost match that starts in `0 .. last`, by the first branch that fits there. */
  ghost predicate LeftmostTo(bs: seq<Branch>, line: seq<Byte>, last: nat, icase: bool, r: Option<Span>)
    requires last <= |line|
  {
    match r
    case None => forall t: nat :: t <= last ==> NoneFits(bs, |bs|, line, t, icase)
    case Some(Span(ms, me)) =>
      && ms <= last
      && (forall t: nat :: t < ms ==> NoneFits(bs, |bs|, line, t, icase))
      && exists a :: 0 <= a < |bs| && NoneFits(bs, a, line, ms, icase) && BranchEnd(bs[a], line, ms, me, icase)
  }

  ghost predicate LeftmostMatch(bs: seq<Branch>, line: seq<Byte>, icase: bool, r: Option<Span>) {
    LeftmostTo(bs, line, |line|, icase, r)
  }

  // ----- nodes of a pattern -----

  function MemberBit(bits: Bits, m: Member, icase: bool): Bits {
    match m
    case Single(c) => SetFold(bits, c, icase)
    case Range(lo, hi) => SetRange(bits, lo, hi, icase)
    case Named(name) => SetPosix(bits, name, 0)
  }

  function BitSetter(icase: bool): (Bits, Member) -> Bits { (bits, m) => MemberBit(bits, m, icase) }

  /** The table after all members, given what each does to it. */
  function Folded(bits: Bits, ms: seq<Member>, bit: (Bits, Member) -> Bits): Bits
    decreases |ms|
  {
    if ms == [] then bits else Folded(bit(bits, ms[0]), ms[1..], bit)
  }

  function AtomNode(a: Atom, icase: bool): Node {
    match a
    case Char(c) => Literal(if icase then ToLower(c) else c)
    case AnyChar => Dot
    case WordByte => WordChar
    case NonWordByte => NotWordChar
    case Bracket(negated, ms) =>
      var bits := Folded(NoBits(), ms, BitSetter(icase));
      if negated then NClass(bits) else Class(bits)
  }

  function QuantNode(q: Quant): Node {
    match q
    case Once => Repeat(1, 1)
    case Many => Star
    case Some1 => Plus
    case Optional => Quest
    case Times(lo, hi) => Repeat(lo, hi)
  }

  function MarkNode(m: Mark): Node {
    match m
    case LineStart => Bol
    case LineEnd => Eol
    case Boundary => WordBoundary
    case NoBoundary => NotWordBoundary
    case BeginWord => WordStart
    case EndWord => WordEnd
  }

  /** The smallest pieces of text that the compiler turns into one node each. */
  datatype Unit = UAtom(a: Atom) | UQuant(q: Quant) | UCheck(m: Mark) | UBar | UEscape(c: Byte)

  /** A byte that a backslash leaves what it is, in both syntaxes. */
  predicate CanEscape(c: Byte) {
    c != 0 && Escape(c) == Literal(c) && Operator(c).None? && c != '(' as int && c != ')' as int && c != LBRACE
  }

  predicate GoodUnit(u: Unit) {
    match u
    case UAtom(a) => GoodAtom(a)
    case UQuant(q) => GoodQuant(q)
    case UCheck(m) => true
    case UBar => true
    case UEscape(c) => CanEscape(c)
  }

  function NodeOf(u: Unit, icase: bool): Node {
    match u
    case UAtom(a) => AtomNode(a, icase)
    case UQuant(q) => QuantNode(q)
    case UCheck(m) => MarkNode(m)
    case UBar => Alt
    case UEscape(c) => Literal(c)
  }

  predicate GoodUnits(us: seq<Unit>) { forall i :: 0 <= i < |us| ==> GoodUnit(us[i]) }

  function Nodes(us: seq<Unit>, icase: bool): (r: seq<Node>)
    ensures |r| == |us|
    ensures forall i :: 0 <= i < |us| ==> r[i] == NodeOf(us[i], icase)
  {
    seq(|us|, i requires 0 <= i < |us| => NodeOf(us[i], icase))
  }

  // ----- text of a pattern -----

  /** The bytes that need a backslash to stand for themselves. */
  predicate IsMeta(c: Byte, extended: bool) {
    || c == '.' as int || c == CARET || c == '$' as int || c == '*' as int || c == LBRACKET || c == BACKSLASH
    || (extended && (c == '+' as int || c == '?' as int || c == '|' as int))
    || (extended && (c == '(' as int || c == ')' as int || c == LBRACE))
  }

  function CharText(c: Byte, extended: bool): (r: seq<Byte>)
    ensures r != []
  {
    if IsMeta(c, extended) then [BACKSLASH, c] else [c]
  }

  function Decimal(n: nat): (r: seq<Byte>)
    ensures r != [] && forall i :: 0 <= i < |r| ==> IsDigit(r[i])
  {
    if n < 10 then [n + '0' as int] else Decimal(n / 10) + [n % 10 + '0' as int]
  }

  /** An operator is written bare in extended syntax and escaped in basic syntax. */
  function OperatorText(c: Byte, extended: bool): seq<Byte> {
    if extended then [c] else [BACKSLASH, c]
  }

  function IntervalText(lo: nat, hi: int, extended: bool): seq<Byte> {
    Decimal(lo) + [COMMA] + (if hi < 0 then [] else Decimal(hi)) + OperatorText(RBRACE, extended)
  }

  function UnitText(u: Unit, extended: bool): (r: seq<Byte>)
    ensures r != []
  {
    match u
    case UAtom(Char(c)) => CharText(c, extended)
    case UAtom(AnyChar) => ['.' as int]
    case UAtom(WordByte) => [BACKSLASH, 'w' as int]
    case UAtom(NonWordByte) => [BACKSLASH, 'W' as int]
    case UAtom(Bracket(negated, ms)) =>
      BracketOpen(negated) + MembersText(ms) + [RBRACKET]
    case UQuant(Once) => OperatorText(LBRACE, extended) + IntervalText(1, 1, extended)
    case UQuant(Many) => ['*' as int]
    case UQuant(Some1) => OperatorText('+' as int, extended)
    case UQuant(Optional) => OperatorText('?' as int, extended)
    case UQuant(Times(lo, hi)) =>
      OperatorText(LBRACE, extended) + IntervalText(lo, hi, extended)
    case UCheck(LineStart) => [CARET]
    case UCheck(LineEnd) => ['$' as int]
    case UCheck(Boundary) => [BACKSLASH, 'b' as int]
    case UCheck(NoBoundary) => [BACKSLASH, 'B' as int]
    case UCheck(BeginWord) => [BACKSLASH, '<' as int]
    case UCheck(EndWord) => [BACKSLASH, '>' as int]
    case UBar => OperatorText('|' as int, extended)
    case UEscape(c) => [BACKSLASH, c]
  }

  function UnitWriter(extended: bool): Unit -> seq<Byte> { u => UnitText(u, extended) }

  /** A list of units, given the text of each. */
  function Spelled(us: seq<Unit>, text: Unit -> seq<Byte>): seq<Byte> {
    if us == [] then [] else text(us[0]) + Spelled(us[1..], text)
  }

  function Text(us: seq<Unit>, extended: bool): seq<Byte> { Spelled(us, UnitWriter(extended)) }
}
