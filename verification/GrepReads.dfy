/** The pattern compiler of user/grep.c reads the text of a pattern back as the pattern's nodes. */
module GrepReads {
  import opened Bytes
  import opened GrepMatch
  import opened GrepCompile
  import opened GrepClasses
  import opened GrepPattern

  // ----- the compiler reads the text back -----

  lemma {:induction false} NumberReads(p: seq<Byte>, i: nat, n: nat)
    requires Stands(p, i, Decimal(n))
    ensures Number(p, i, 0) == Number(p, i + |Decimal(n)|, n)
  {
    if n >= 10 {
      StandsSplit(p, i, Decimal(n / 10), [n % 10 + '0' as int]);
      StandsAt(p, i + |Decimal(n / 10)|, [n % 10 + '0' as int], 0);
      NumberReads(p, i, n / 10);
    } else {
      StandsAt(p, i, Decimal(n), 0);
    }
  }

  lemma {:induction false} IntervalParts(p: seq<Byte>, i: nat, lo: nat, h: seq<Byte>, c: seq<Byte>)
    requires Stands(p, i, Decimal(lo) + [COMMA] + h + c)
    ensures var j := i + |Decimal(lo)|;
            p[j] == COMMA && Stands(p, i, Decimal(lo)) && Stands(p, j + 1, h) && Stands(p, j + 1 + |h|, c)
  {
    StandsSplit(p, i, Decimal(lo) + [COMMA] + h, c);
    StandsSplit(p, i, Decimal(lo) + [COMMA], h);
    StandsSplit(p, i, Decimal(lo), [COMMA]);
    StandsAt(p, i + |Decimal(lo)|, [COMMA], 0);
  }

  /** A number followed by a non-digit is read whole. */
  lemma {:induction false} WholeNumber(p: seq<Byte>, i: nat, n: nat)
    requires Stands(p, i, Decimal(n)) && !IsDigit(At(p, i + |Decimal(n)|))
    ensures Number(p, i, 0) == (n, i + |Decimal(n)|)
    ensures IsDigit(p[i])
  {
    NumberReads(p, i, n);
    StandsAt(p, i, Decimal(n), 0);
  }

  /** The closing brace of an interval stands at `k`. */
  predicate ClosesAt(p: seq<Byte>, k: nat, extended: bool) {
    if extended then k < |p| && p[k] == RBRACE else k + 1 < |p| && p[k] == BACKSLASH && p[k + 1] == RBRACE
  }

  lemma {:induction false} ClosingReads(p: seq<Byte>, k: nat, extended: bool)
    requires Stands(p, k, OperatorText(RBRACE, extended))
    ensures ClosesAt(p, k, extended)
  {
    StandsAt(p, k, OperatorText(RBRACE, extended), 0);
    if !extended { StandsAt(p, k, OperatorText(RBRACE, extended), 1); }
  }

  lemma {:induction false} OpenInterval(p: seq<Byte>, i: nat, j: nat, lo: nat, extended: bool)
    requires i <= |p| && j < |p| && Number(p, i, 0) == (lo, j) && p[j] == COMMA && ClosesAt(p, j + 1, extended)
    ensures LexInterval(p, i, extended) == (Repeat(lo, -1), j + 1 + if extended then 1 else 2)
  {}

  lemma {:induction false} ClosedInterval(p: seq<Byte>, i: nat, j: nat, k: nat, lo: nat, hi: nat, extended: bool)
    requires i <= |p| && j + 1 < |p| && Number(p, i, 0) == (lo, j) && p[j] == COMMA && IsDigit(p[j + 1])
    requires Number(p, j + 1, 0) == (hi, k) && ClosesAt(p, k, extended)
    ensures LexInterval(p, i, extended) == (Repeat(lo, hi), k + if extended then 1 else 2)
  {}

  lemma {:induction false} IntervalReads(p: seq<Byte>, i: nat, lo: nat, hi: int, extended: bool)
    requires hi >= -1 && Stands(p, i, IntervalText(lo, hi, extended))
    ensures LexInterval(p, i, extended) == (Repeat(lo, hi), i + |IntervalText(lo, hi, extended)|)
  {
    var h := if hi < 0 then [] else Decimal(hi);
    var j := i + |Decimal(lo)|;
    var k := j + 1 + |h|;
    IntervalParts(p, i, lo, h, OperatorText(RBRACE, extended));
    ClosingReads(p, k, extended);
    WholeNumber(p, i, lo);
    if hi < 0 {
      OpenInterval(p, i, j, lo, extended);
    } else {
      WholeNumber(p, j + 1, hi);
      ClosedInterval(p, i, j, k, lo, hi, extended);
    }
  }

  // ----- named classes -----

  lemma {:induction false} SkipNameReads(p: seq<Byte>, i: nat, j: nat)
    requires i <= j < |p| && p[j] == COLON && forall k :: i <= k < j ==> p[k] != COLON
    ensures SkipName(p, i) == j
    decreases j - i
  {
    if i < j { SkipNameReads(p, i + 1, j); }
  }

  lemma {:induction false} PosixAt(p: seq<Byte>, i: nat, j: nat, bits: Bits, name: seq<Byte>)
    requires i + 2 <= j && j + 1 < |p| && p[i] == LBRACKET && p[i + 1] == COLON && p[j] == COLON && p[j + 1] == RBRACKET
    requires p[i + 2..j] == name && SkipName(p, i + 2) == j
    ensures ParsePosix(p, i, bits) == Some((SetPosix(bits, name, 0), j + 2))
  {}

  lemma {:induction false} NameParts(p: seq<Byte>, i: nat, name: seq<Byte>)
    requires Stands(p, i, NamedText(name))
    ensures var j := i + 2 + |name|;
            && j + 1 < |p| && p[i] == LBRACKET && p[i + 1] == COLON && p[j] == COLON && p[j + 1] == RBRACKET
            && Stands(p, i + 2, name)
  {
    var open, close := [LBRACKET, COLON], [COLON, RBRACKET];
    StandsSplit(p, i, open + name, close);
    StandsSplit(p, i, open, name);
    StandsAt(p, i, open, 0);
    StandsAt(p, i, open, 1);
    StandsAt(p, i + 2 + |name|, close, 0);
    StandsAt(p, i + 2 + |name|, close, 1);
  }

  /** `[:name:]` is read to its end, and adds the class of that name. */
  lemma {:induction false} NamedReads(p: seq<Byte>, i: nat, bits: Bits, name: seq<Byte>)
    requires COLON !in name && Stands(p, i, NamedText(name))
    ensures ParsePosix(p, i, bits) == Some((SetPosix(bits, name, 0), i + |name| + 4))
  {
    var j := i + 2 + |name|;
    NameParts(p, i, name);
    StandsSlice(p, i + 2, name);
    forall k | i + 2 <= k < j ensures p[k] != COLON { StandsAt(p, i + 2, name, k - (i + 2)); }
    SkipNameReads(p, i + 2, j);
    PosixAt(p, i, j, bits, name);
  }

  // ----- members -----

  /** Reading on from `i` is reading on behind member `m`, with `m` added to the table. */
  ghost predicate StepsOver(
    parse: (nat, Bits, bool) -> (Bits, nat), i: nat, bits: Bits, m: Member, first: bool, text: Member -> seq<Byte>,
    bit: (Bits, Member) -> Bits)
  {
    parse(i, bits, first) == parse(i + |text(m)|, bit(bits, m), false)
  }

  /** `parse` reads each member that fits in front of what follows it. */
  ghost predicate ReadsMembers(
    p: seq<Byte>, text: Member -> seq<Byte>, fits: (Member, bool, seq<Byte>) -> bool, bit: (Bits, Member) -> Bits,
    parse: (nat, Bits, bool) -> (Bits, nat))
  {
    forall i: nat, bits: Bits, m, first, rest :: Stands(p, i, text(m) + rest) && fits(m, first, rest) ==>
      StepsOver(parse, i, bits, m, first, text, bit)
  }

  /** `parse` stops at a closing bracket. */
  ghost predicate Stops(p: seq<Byte>, parse: (nat, Bits, bool) -> (Bits, nat)) {
    forall i: nat, bits: Bits :: Stands(p, i, [RBRACKET]) ==> parse(i, bits, false) == (bits, i)
  }

  lemma {:induction false} MembersFold(
    p: seq<Byte>, i: nat, bits: Bits, ms: seq<Member>, first: bool, text: Member -> seq<Byte>,
    fits: (Member, bool, seq<Byte>) -> bool, bit: (Bits, Member) -> Bits, parse: (nat, Bits, bool) -> (Bits, nat))
    requires Stands(p, i, Joined(ms, text) + [RBRACKET]) && Orderly(ms, first, text, fits) && (first ==> ms != [])
    requires ReadsMembers(p, text, fits, bit, parse) && Stops(p, parse)
    ensures parse(i, bits, first) == (Folded(bits, ms, bit), i + |Joined(ms, text)|)
    decreases |ms|
  {
    if ms == [] {
      assert [] + [RBRACKET] == [RBRACKET];
    } else {
      var head, rest := text(ms[0]), Joined(ms[1..], text) + [RBRACKET];
      assert Joined(ms, text) + [RBRACKET] == head + rest;
      assert Stands(p, i, head + rest) && fits(ms[0], first, rest);
      assert StepsOver(parse, i, bits, ms[0], first, text, bit);
      StandsSplit(p, i, head, rest);
      MembersFold(p, i + |head|, bit(bits, ms[0]), ms[1..], false, text, fits, bit, parse);
    }
  }

  /** The member loop as a function of its position. */
  function MemberParser(p: seq<Byte>, icase: bool): (nat, Bits, bool) -> (Bits, nat) {
    (i: nat, bits: Bits, first: bool) => if i <= |p| then ParseMembers(p, i, bits, first, icase) else (bits, i)
  }

  lemma {:induction false} SingleStep(
    p: seq<Byte>, i: nat, bits: Bits, c: Byte, first: bool, rest: seq<Byte>, icase: bool)
    requires Stands(p, i, [c] + rest) && StandsBefore(Single(c), first, rest)
    ensures MemberParser(p, icase)(i, bits, first) == MemberParser(p, icase)(i + 1, SetFold(bits, c, icase), false)
  {
    StandsAt(p, i, [c] + rest, 0);
    StandsAt(p, i, [c] + rest, 1);
    if rest[0] == DASH { StandsAt(p, i, [c] + rest, 2); }
    assert ParsePosix(p, i, bits) == None;
  }

  lemma {:induction false} RangeStep(p: seq<Byte>, i: nat, bits: Bits, lo: Byte, hi: Byte, first: bool, icase: bool)
    requires Stands(p, i, [lo, DASH, hi]) && hi != RBRACKET && (lo != RBRACKET || first)
    ensures MemberParser(p, icase)(i, bits, first)
         == MemberParser(p, icase)(i + 3, SetRange(bits, lo, hi, icase), false)
  {
    StandsAt(p, i, [lo, DASH, hi], 0);
    StandsAt(p, i, [lo, DASH, hi], 1);
    StandsAt(p, i, [lo, DASH, hi], 2);
    assert ParsePosix(p, i, bits) == None;
  }

  lemma {:induction false} PosixStep(p: seq<Byte>, i: nat, bits: Bits, b: Bits, k: nat, first: bool, icase: bool)
    requires i < |p| && p[i] != RBRACKET && ParsePosix(p, i, bits) == Some((b, k))
    ensures MemberParser(p, icase)(i, bits, first) == MemberParser(p, icase)(k, b, false)
  {}

  lemma {:induction false} NamedStep(
    p: seq<Byte>, i: nat, bits: Bits, name: seq<Byte>, b: Bits, k: nat, first: bool, icase: bool)
    requires Stands(p, i, NamedText(name)) && COLON !in name && b == SetPosix(bits, name, 0) && k == i + |name| + 4
    ensures MemberParser(p, icase)(i, bits, first) == MemberParser(p, icase)(k, b, false)
  {
    NameParts(p, i, name);
    NamedReads(p, i, bits, name);
    PosixStep(p, i, bits, b, k, first, icase);
  }

  lemma {:induction false} StepOver(
    parse: (nat, Bits, bool) -> (Bits, nat), i: nat, bits: Bits, m: Member, k: nat, b: Bits, first: bool,
    text: Member -> seq<Byte>, bit: (Bits, Member) -> Bits)
    requires k == i + |text(m)| && b == bit(bits, m) && parse(i, bits, first) == parse(k, b, false)
    ensures StepsOver(parse, i, bits, m, first, text, bit)
  {}

  /** The member loop steps over member `m`. */
  ghost predicate LoopStepsOver(p: seq<Byte>, i: nat, bits: Bits, m: Member, first: bool, icase: bool) {
    StepsOver(MemberParser(p, icase), i, bits, m, first, MemberText, BitSetter(icase))
  }

  lemma {:induction false} LoopStepOver(
    p: seq<Byte>, i: nat, bits: Bits, m: Member, k: nat, b: Bits, first: bool, icase: bool)
    requires k == i + |MemberText(m)| && b == MemberBit(bits, m, icase)
    requires MemberParser(p, icase)(i, bits, first) == MemberParser(p, icase)(k, b, false)
    ensures LoopStepsOver(p, i, bits, m, first, icase)
  {
    StepOver(MemberParser(p, icase), i, bits, m, k, b, first, MemberText, BitSetter(icase));
  }

  lemma {:induction false} SingleMember(
    p: seq<Byte>, i: nat, bits: Bits, c: Byte, first: bool, rest: seq<Byte>, icase: bool)
    requires Stands(p, i, [c] + rest) && StandsBefore(Single(c), first, rest)
    ensures LoopStepsOver(p, i, bits, Single(c), first, icase)
  {
    SingleStep(p, i, bits, c, first, rest, icase);
    LoopStepOver(p, i, bits, Single(c), i + 1, SetFold(bits, c, icase), first, icase);
  }

  lemma {:induction false} RangeMember(p: seq<Byte>, i: nat, bits: Bits, lo: Byte, hi: Byte, first: bool, icase: bool)
    requires Stands(p, i, [lo, DASH, hi]) && hi != RBRACKET && (lo != RBRACKET || first)
    ensures LoopStepsOver(p, i, bits, Range(lo, hi), first, icase)
  {
    RangeStep(p, i, bits, lo, hi, first, icase);
    LoopStepOver(p, i, bits, Range(lo, hi), i + 3, SetRange(bits, lo, hi, icase), first, icase);
  }

  lemma {:induction false} NamedMember(p: seq<Byte>, i: nat, bits: Bits, name: seq<Byte>, first: bool, icase: bool)
    requires Stands(p, i, NamedText(name)) && COLON !in name
    ensures LoopStepsOver(p, i, bits, Named(name), first, icase)
  {
    var b, k := SetPosix(bits, name, 0), i + |name| + 4;
    NamedStep(p, i, bits, name, b, k, first, icase);
    LoopStepOver(p, i, bits, Named(name), k, b, first, icase);
  }

  lemma {:induction false} MemberStep(
    p: seq<Byte>, i: nat, bits: Bits, m: Member, first: bool, rest: seq<Byte>, icase: bool)
    requires Stands(p, i, MemberText(m) + rest) && StandsBefore(m, first, rest)
    ensures LoopStepsOver(p, i, bits, m, first, icase)
  {
    StandsSplit(p, i, MemberText(m), rest);
    match m
    case Single(c) => SingleMember(p, i, bits, c, first, rest, icase);
    case Range(lo, hi) => RangeMember(p, i, bits, lo, hi, first, icase);
    case Named(name) => NamedMember(p, i, bits, name, first, icase);
  }

  lemma {:induction false} ParserReads(p: seq<Byte>, icase: bool)
    ensures ReadsMembers(p, MemberText, StandsBefore, BitSetter(icase), MemberParser(p, icase))
  {
    var parse, bit := MemberParser(p, icase), BitSetter(icase);
    forall i: nat, bits: Bits, m, first, rest | Stands(p, i, MemberText(m) + rest) && StandsBefore(m, first, rest)
      ensures StepsOver(parse, i, bits, m, first, MemberText, bit)
    {
      MemberStep(p, i, bits, m, first, rest, icase);
    }
  }

  lemma {:induction false} ParserStops(p: seq<Byte>, icase: bool)
    ensures Stops(p, MemberParser(p, icase))
  {
    var parse := MemberParser(p, icase);
    forall i: nat, bits: Bits | Stands(p, i, [RBRACKET]) ensures parse(i, bits, false) == (bits, i) {
      StandsAt(p, i, [RBRACKET], 0);
    }
  }

  lemma {:induction false} MembersRead(p: seq<Byte>, i: nat, bits: Bits, ms: seq<Member>, body: seq<Byte>, icase: bool)
    requires ms != [] && GoodMembers(ms, true) && body == MembersText(ms) + [RBRACKET] && Stands(p, i, body)
    ensures MemberParser(p, icase)(i, bits, true) == (Folded(bits, ms, BitSetter(icase)), i + |body| - 1)
  {
    ParserReads(p, icase);
    ParserStops(p, icase);
    MembersFold(p, i, bits, ms, true, MemberText, StandsBefore, BitSetter(icase), MemberParser(p, icase));
  }

  lemma {:induction false} ClassAt(
    p: seq<Byte>, i: nat, j: nat, negated: bool, bits: Bits, n: Node, e: nat, icase: bool)
    requires i + 1 < |p| && j == (if negated then i + 2 else i + 1) <= |p| && (p[i + 1] == CARET <==> negated)
    requires MemberParser(p, icase)(j, NoBits(), true) == (bits, e - 1) && e > 0 && At(p, e - 1) == RBRACKET
    requires n == if negated then NClass(bits) else Class(bits)
    ensures LexClass(p, i, icase) == (n, e)
  {}

  lemma {:induction false} BracketStarts(p: seq<Byte>, i: nat, negated: bool, body: seq<Byte>)
    requires body != [] && (negated || body[0] != CARET) && Stands(p, i, BracketOpen(negated) + body)
    ensures var j := if negated then i + 2 else i + 1;
            i + 1 < |p| && p[i] == LBRACKET && (p[i + 1] == CARET <==> negated) && Stands(p, j, body)
  {
    var open := BracketOpen(negated);
    StandsSplit(p, i, open, body);
    StandsAt(p, i, open, 0);
    StandsAt(p, i, open + body, 1);
  }

  lemma {:induction false} BracketText(negated: bool, ms: seq<Member>, extended: bool)
    ensures UnitText(UAtom(Bracket(negated, ms)), extended) == BracketOpen(negated) + (MembersText(ms) + [RBRACKET])
  {}

  lemma {:induction false} ClassReads(
    p: seq<Byte>, i: nat, negated: bool, ms: seq<Member>, body: seq<Byte>, icase: bool)
    requires ms != [] && GoodMembers(ms, true) && body == MembersText(ms) + [RBRACKET]
    requires (negated || body[0] != CARET) && Stands(p, i, BracketOpen(negated) + body)
    ensures LexClass(p, i, icase) == (AtomNode(Bracket(negated, ms), icase), i + |BracketOpen(negated)| + |body|)
    ensures p[i] == LBRACKET
  {
    BracketStarts(p, i, negated, body);
    var j := if negated then i + 2 else i + 1;
    MembersRead(p, j, NoBits(), ms, body, icase);
    StandsAt(p, j, body, |body| - 1);
    ClassAt(p, i, j, negated, Folded(NoBits(), ms, BitSetter(icase)), AtomNode(Bracket(negated, ms), icase),
            j + |body|, icase);
  }

  /** The interval a counting quantifier is written with. */
  predicate IsInterval(u: Unit) { u.UQuant? && (u.q.Times? || u.q.Once?) }

  lemma {:induction false} LexAtom(p: seq<Byte>, i: nat, u: Unit, g: Groups, extended: bool, icase: bool)
    requires GoodUnit(u) && u.UAtom? && !u.a.Bracket? && Stands(p, i, UnitText(u, extended))
    ensures i < |p| && Lex(p, i, g, extended, icase) == Some((NodeOf(u, icase), i + |UnitText(u, extended)|, g))
  {
    var t := UnitText(u, extended);
    StandsAt(p, i, t, 0);
    if |t| > 1 { StandsAt(p, i, t, 1); }
  }

  lemma {:induction false} LexOperator(p: seq<Byte>, i: nat, u: Unit, g: Groups, extended: bool, icase: bool)
    requires ((u.UQuant? && !IsInterval(u)) || u.UBar?) && Stands(p, i, UnitText(u, extended))
    ensures i < |p| && Lex(p, i, g, extended, icase) == Some((NodeOf(u, icase), i + |UnitText(u, extended)|, g))
  {
    var t := UnitText(u, extended);
    StandsAt(p, i, t, 0);
    if |t| > 1 { StandsAt(p, i, t, 1); }
  }

  lemma {:induction false} LexCheck(p: seq<Byte>, i: nat, u: Unit, g: Groups, extended: bool, icase: bool)
    requires (u.UCheck? || (u.UEscape? && GoodUnit(u))) && Stands(p, i, UnitText(u, extended))
    ensures i < |p| && Lex(p, i, g, extended, icase) == Some((NodeOf(u, icase), i + |UnitText(u, extended)|, g))
  {
    var t := UnitText(u, extended);
    StandsAt(p, i, t, 0);
    if |t| > 1 { StandsAt(p, i, t, 1); }
  }

  lemma {:induction false} LexIntervalUnit(p: seq<Byte>, i: nat, u: Unit, g: Groups, extended: bool, icase: bool)
    requires GoodUnit(u) && IsInterval(u) && Stands(p, i, UnitText(u, extended))
    ensures i < |p| && Lex(p, i, g, extended, icase) == Some((NodeOf(u, icase), i + |UnitText(u, extended)|, g))
  {
    var open := OperatorText(LBRACE, extended);
    var (lo, hi) := if u.q.Times? then (u.q.lo, u.q.hi) else (1, 1);
    StandsSplit(p, i, open, IntervalText(lo, hi, extended));
    StandsAt(p, i, open, 0);
    if !extended { StandsAt(p, i, open, 1); }
    IntervalReads(p, i + |open|, lo, hi, extended);
  }

  /** One unit of text is read as its node, whatever follows. */
  lemma {:induction false} LexReads(p: seq<Byte>, i: nat, u: Unit, g: Groups, extended: bool, icase: bool)
    requires GoodUnit(u) && Stands(p, i, UnitText(u, extended))
    ensures i < |p| && Lex(p, i, g, extended, icase) == Some((NodeOf(u, icase), i + |UnitText(u, extended)|, g))
  {
    if u.UAtom? && u.a.Bracket? {
      BracketText(u.a.negated, u.a.members, extended);
      ClassReads(p, i, u.a.negated, u.a.members, MembersText(u.a.members) + [RBRACKET], icase);
    } else if IsInterval(u) {
      LexIntervalUnit(p, i, u, g, extended, icase);
    } else if u.UAtom? {
      LexAtom(p, i, u, g, extended, icase);
    } else if u.UQuant? || u.UBar? {
      LexOperator(p, i, u, g, extended, icase);
    } else {
      LexCheck(p, i, u, g, extended, icase);
    }
  }

  // ----- the whole text -----

  lemma {:induction false} ReadsFirst(p: seq<Byte>, i: nat, t: seq<Byte>, rest: seq<Byte>)
    requires i <= |p| && p[i..] == t + rest
    ensures Stands(p, i, t) && p[i + |t|..] == rest
  {
    forall k | 0 <= k < |t| ensures p[i + k] == t[k] { assert p[i..][k] == t[k]; }
    assert p[i + |t|..] == p[i..][|t|..];
  }

  /** How many of `n` nodes fit behind `count` others. */
  function Fit(n: nat, count: nat): nat
    requires count <= MAX_RE_NODES - 1
  {
    Min(n, MAX_RE_NODES - 1 - count)
  }

  lemma {:induction false} FitCons(us: seq<Unit>, count: nat, icase: bool)
    requires us != [] && count < MAX_RE_NODES - 1
    ensures Nodes(us[..Fit(|us|, count)], icase)
         == [NodeOf(us[0], icase)] + Nodes(us[1..][..Fit(|us| - 1, count + 1)], icase)
  {}

  /** `compile` turns the text of a unit into its node as long as nodes are left, and goes on behind it. */
  ghost predicate ReadsUnit(
    p: seq<Byte>, text: Unit -> seq<Byte>, icase: bool, compile: (nat, nat) -> seq<Node>, i: nat, count: nat, u: Unit)
  {
    Stands(p, i, text(u)) && GoodUnit(u) && count < MAX_RE_NODES - 1 ==>
      compile(i, count) == [NodeOf(u, icase)] + compile(i + |text(u)|, count + 1)
  }

  ghost predicate ReadsUnits(p: seq<Byte>, text: Unit -> seq<Byte>, icase: bool, compile: (nat, nat) -> seq<Node>) {
    forall i: nat, count: nat, u :: ReadsUnit(p, text, icase, compile, i, count, u)
  }

  ghost predicate EndsUnits(p: seq<Byte>, compile: (nat, nat) -> seq<Node>) {
    forall i: nat, count: nat :: i == |p| || count == MAX_RE_NODES - 1 ==> compile(i, count) == []
  }

  lemma {:induction false} UnitsFold(
    p: seq<Byte>, i: nat, us: seq<Unit>, count: nat, text: Unit -> seq<Byte>, icase: bool,
    compile: (nat, nat) -> seq<Node>)
    requires GoodUnits(us) && i <= |p| && p[i..] == Spelled(us, text) && count <= MAX_RE_NODES - 1
    requires ReadsUnits(p, text, icase, compile) && EndsUnits(p, compile)
    ensures compile(i, count) == Nodes(us[..Fit(|us|, count)], icase)
    decreases |us|
  {
    if us == [] {
      assert |p[i..]| == 0;
      assert compile(i, count) == [];
    } else if count == MAX_RE_NODES - 1 {
      assert compile(i, count) == [];
    } else {
      var t, rest := text(us[0]), us[1..];
      ReadsFirst(p, i, t, Spelled(rest, text));
      assert ReadsUnit(p, text, icase, compile, i, count, us[0]);
      UnitsFold(p, i + |t|, rest, count + 1, text, icase, compile);
      FitCons(us, count, icase);
    }
  }

  /** The compiler as a function of its position and the nodes written so far. */
  function Compiler(p: seq<Byte>, g: Groups, extended: bool, icase: bool): (nat, nat) -> seq<Node> {
    (i: nat, count: nat) => if i <= |p| then CompileFrom(p, i, count, g, extended, icase) else []
  }

  lemma {:induction false} CompileReads(
    p: seq<Byte>, i: nat, count: nat, g: Groups, extended: bool, icase: bool, n: Node, j: nat)
    requires i < |p| && count < MAX_RE_NODES - 1 && Lex(p, i, g, extended, icase) == Some((n, j, g))
    ensures Compiler(p, g, extended, icase)(i, count) == [n] + Compiler(p, g, extended, icase)(j, count + 1)
  {}

  /** A unit of text is read as its node, whatever follows. */
  ghost predicate LexesUnit(
    p: seq<Byte>, g: Groups, extended: bool, icase: bool, text: Unit -> seq<Byte>, i: nat, u: Unit)
  {
    Stands(p, i, text(u)) && GoodUnit(u) ==>
      i < |p| && Lex(p, i, g, extended, icase) == Some((NodeOf(u, icase), i + |text(u)|, g))
  }

  lemma {:induction false} WriterLexes(p: seq<Byte>, g: Groups, extended: bool, icase: bool, i: nat, u: Unit)
    ensures LexesUnit(p, g, extended, icase, UnitWriter(extended), i, u)
  {
    if Stands(p, i, UnitText(u, extended)) && GoodUnit(u) { LexReads(p, i, u, g, extended, icase); }
  }

  lemma {:induction false} CompilerStep(
    p: seq<Byte>, g: Groups, extended: bool, icase: bool, text: Unit -> seq<Byte>, i: nat, count: nat, u: Unit)
    requires LexesUnit(p, g, extended, icase, text, i, u)
    ensures ReadsUnit(p, text, icase, Compiler(p, g, extended, icase), i, count, u)
  {
    if Stands(p, i, text(u)) && GoodUnit(u) && count < MAX_RE_NODES - 1 {
      CompileReads(p, i, count, g, extended, icase, NodeOf(u, icase), i + |text(u)|);
    }
  }

  lemma {:induction false} CompilerReads(p: seq<Byte>, g: Groups, extended: bool, icase: bool)
    ensures ReadsUnits(p, UnitWriter(extended), icase, Compiler(p, g, extended, icase))
    ensures EndsUnits(p, Compiler(p, g, extended, icase))
  {
    var compile, text := Compiler(p, g, extended, icase), UnitWriter(extended);
    forall i: nat, count: nat, u ensures ReadsUnit(p, text, icase, compile, i, count, u) {
      WriterLexes(p, g, extended, icase, i, u);
      CompilerStep(p, g, extended, icase, text, i, count, u);
    }
  }

  /** The text of any unit list compiles to its nodes, cut off after 2047 of them. */
  lemma {:induction false} TextCompiles(us: seq<Unit>, extended: bool, icase: bool)
    requires GoodUnits(us)
    ensures Compile(Text(us, extended), extended, icase) == Nodes(us[..Fit(|us|, 0)], icase)
  {
    var p, g := Text(us, extended), Groups(0, []);
    CompilerReads(p, g, extended, icase);
    assert p[0..] == p;
    UnitsFold(p, 0, us, 0, UnitWriter(extended), icase, Compiler(p, g, extended, icase));
  }

  // ----- what a compiled bracket expression holds -----

  lemma {:induction false} InMembersCons(ms: seq<Member>, d: Byte)
    requires ms != []
    ensures InMembers(ms, d) <==> InMember(ms[0], d) || InMembers(ms[1..], d)
  {
    assert forall i :: 1 <= i < |ms| ==> ms[i] == ms[1..][i - 1];
    if InMembers(ms[1..], d) {
      var i :| 0 <= i < |ms[1..]| && InMember(ms[1..][i], d);
      assert InMember(ms[i + 1], d);
    }
  }

  /** The test the matcher makes of a bit table. */
  predicate TableTest(bits: Bits, d: Byte, icase: bool) {
    ClassTest(bits, d) || (icase && ClassTest(bits, OtherCase(d)))
  }

  lemma {:induction false} MemberBitTest(bits: Bits, m: Member, d: Byte, icase: bool)
    ensures TableTest(MemberBit(bits, m, icase), d, icase)
       <==> InMember(m, d) || (icase && InMember(m, OtherCase(d))) || TableTest(bits, d, icase)
  {
    var e := OtherCase(d);
    match m
    case Single(c) =>
      SetFoldTest(bits, c, d, icase);
      SetFoldTest(bits, c, e, icase);
    case Range(lo, hi) =>
      SetRangeTest(bits, lo, hi, d, icase);
      SetRangeTest(bits, lo, hi, e, icase);
    case Named(name) =>
      SetPosixTest(bits, name, 0, d);
      SetPosixTest(bits, name, 0, e);
      NamedMeaning(name, d);
      NamedMeaning(name, e);
  }

  /** A compiled bracket expression holds exactly the bytes its members name, in either case with `-i`. */
  lemma {:induction false} MemberBitsTest(bits: Bits, ms: seq<Member>, d: Byte, icase: bool)
    ensures TableTest(Folded(bits, ms, BitSetter(icase)), d, icase)
       <==> InMembers(ms, d) || (icase && InMembers(ms, OtherCase(d))) || TableTest(bits, d, icase)
    decreases |ms|
  {
    if ms != [] {
      InMembersCons(ms, d);
      InMembersCons(ms, OtherCase(d));
      MemberBitTest(bits, ms[0], d, icase);
      MemberBitsTest(MemberBit(bits, ms[0], icase), ms[1..], d, icase);
    }
  }

  lemma {:induction false} AtomNodeMeaning(a: Atom, c: Byte, icase: bool)
    ensures AtomMatch(AtomNode(a, icase), c, icase) == InAtom(a, c, icase)
  {
    if a.Bracket? {
      MemberBitsTest(NoBits(), a.members, c, icase);
      assert !TableTest(NoBits(), c, icase);
    }
  }
}
